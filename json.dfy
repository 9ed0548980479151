/**
 * JSON-like values as both sides of the translator see them. A JavaScript
 * object or a Python dict is an ORDERED list of members: a Python dict keeps
 * insertion order, and so does a JavaScript object for keys that are not array
 * indices (keys such as "0" or "1" it lists first, in numeric order). Arrays
 * are sequences, strings are sequences of characters, and every other value
 * (null, booleans, numbers) is a scalar that nothing here looks into.
 */
module Json {
  import opened Wrappers

  datatype Json =
    | JNull
    | JBool(b: bool)
    | JNumber(n: int)
    | JString(s: string)
    | JArray(items: seq<Json>)
    | JObject(members: seq<Member>)

  datatype Member = Member(key: string, value: Json)

  /** A value that is neither an object, nor an array, nor a string. */
  predicate IsScalar(j: Json) {
    !j.JObject? && !j.JArray? && !j.JString?
  }

  /** The keys of an object, in order. */
  function Keys(ms: seq<Member>): (ks: seq<string>)
    ensures |ks| == |ms|
    ensures forall i :: 0 <= i < |ms| ==> ks[i] == ms[i].key
  {
    seq(|ms|, i requires 0 <= i < |ms| => ms[i].key)
  }

  /** No key occurs twice in the object. */
  predicate DistinctKeys(ms: seq<Member>) {
    forall i, j :: 0 <= i < j < |ms| ==> ms[i].key != ms[j].key
  }

  /** The position of the first member named k. */
  function IndexOf(ms: seq<Member>, k: string): (i: nat)
    requires k in Keys(ms)
    ensures i < |ms| && ms[i].key == k
    ensures forall j :: 0 <= j < i ==> ms[j].key != k
  {
    if ms[0].key == k then 0
    else
      assert k in Keys(ms[1..]) by {
        var i :| 0 <= i < |ms| && Keys(ms)[i] == k;
        assert Keys(ms[1..])[i - 1] == k;
      }
      1 + IndexOf(ms[1..], k)
  }

  /** Property access `o[k]`: the value of the first member named k, if any. */
  function Lookup(ms: seq<Member>, k: string): (r: Option<Json>)
    ensures r.None? <==> k !in Keys(ms)
    ensures r.Some? ==> exists i :: 0 <= i < |ms| && ms[i] == Member(k, r.value)
  {
    if k in Keys(ms) then Some(ms[IndexOf(ms, k)].value) else None
  }

  /**
   * Assignment `o[k] = v` on a Python dict, or on a JavaScript object when k
   * is not an array index: an existing member keeps its position and gets the
   * new value; a new key is appended.
   */
  function Set(ms: seq<Member>, k: string, v: Json): (r: seq<Member>)
    ensures k in Keys(ms) ==> Keys(r) == Keys(ms)
    ensures k !in Keys(ms) ==> r == ms + [Member(k, v)]
  {
    if k in Keys(ms) then
      var r := ms[IndexOf(ms, k) := Member(k, v)];
      assert Keys(r) == Keys(ms);
      r
    else
      ms + [Member(k, v)]
  }

  /**
   * After `o[k] = v`, k reads v and every other key reads what it read before;
   * an object without repeated keys still has none.
   */
  lemma SetLookup(ms: seq<Member>, k: string, v: Json)
    ensures Lookup(Set(ms, k, v), k) == Some(v)
    ensures forall k' :: k' != k ==> Lookup(Set(ms, k, v), k') == Lookup(ms, k')
    ensures DistinctKeys(ms) ==> DistinctKeys(Set(ms, k, v))
  {
    var r := Set(ms, k, v);
    if k in Keys(ms) {
      var i := IndexOf(ms, k);
      IndexOfUnique(r, k, i);
      forall k' | k' != k ensures Lookup(r, k') == Lookup(ms, k') {
        if k' in Keys(ms) {
          IndexOfUnique(r, k', IndexOf(ms, k'));
        }
      }
    } else {
      assert Keys(r) == Keys(ms) + [k];
      IndexOfUnique(r, k, |ms|);
      forall k' | k' != k ensures Lookup(r, k') == Lookup(ms, k') {
        if k' in Keys(ms) {
          IndexOfUnique(r, k', IndexOf(ms, k'));
        }
      }
    }
  }

  /** The first member named k is the one with no earlier member of that name. */
  lemma IndexOfUnique(ms: seq<Member>, k: string, i: nat)
    requires i < |ms| && ms[i].key == k
    requires forall j :: 0 <= j < i ==> ms[j].key != k
    ensures k in Keys(ms) && IndexOf(ms, k) == i
  {
    assert Keys(ms)[i] == k;
    var n := IndexOf(ms, k);
    assert !(n < i) && !(i < n);
  }

  /** In an object without repeated keys, each member's key looks up that member's value. */
  lemma LookupDistinct(ms: seq<Member>, i: nat)
    requires DistinctKeys(ms) && i < |ms|
    ensures Lookup(ms, ms[i].key) == Some(ms[i].value)
  {
    IndexOfUnique(ms, ms[i].key, i);
  }
}
