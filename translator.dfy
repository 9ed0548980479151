/**
 * The backend's structure-preserving translator: objects keep their keys,
 * arrays keep their length, strings go through the translation service and
 * every other value passes through unchanged.
 *
 * The service is the parameter `tr`: `tr(target, text)` is the translation of
 * `text` into `target`, or the message of the exception it raised. Python
 * evaluates the comprehensions left to right, so the first failing string in
 * document order ends the whole translation with its error.
 */
module Translator {
  import opened Wrappers
  import opened Json

  type Service = (string, string) -> Result<string, string>

  /** translate_recursive(obj, target_language). */
  function TranslateRecursive(obj: Json, target: string, tr: Service): (r: Result<Json, string>)
    ensures r.Success? ==> SameShape(obj, r.value)
    decreases obj, 1
  {
    match obj
    case JObject(ms) =>
      var r := TranslateMembers(ms, target, tr);
      if r.Failure? then Failure(r.error) else Success(JObject(r.value))
    case JArray(items) =>
      var r := TranslateItems(items, target, tr);
      if r.Failure? then Failure(r.error) else Success(JArray(r.value))
    case JString(s) =>
      var t := tr(target, s);
      if t.Failure? then Failure(t.error) else Success(JString(t.value))
    case _ => Success(obj)
  }

  /** The dict comprehension `{k: translate_recursive(v) for k, v in obj.items()}`. */
  function TranslateMembers(ms: seq<Member>, target: string, tr: Service): (r: Result<seq<Member>, string>)
    ensures r.Success? ==> |r.value| == |ms|
    ensures r.Success? ==> forall i :: 0 <= i < |ms| ==>
      r.value[i].key == ms[i].key && SameShape(ms[i].value, r.value[i].value)
    decreases ms, 0
  {
    if ms == [] then Success([])
    else
      var v := TranslateRecursive(ms[0].value, target, tr);
      if v.Failure? then Failure(v.error)
      else
        var rest := TranslateMembers(ms[1..], target, tr);
        if rest.Failure? then Failure(rest.error)
        else Success([Member(ms[0].key, v.value)] + rest.value)
  }

  /** The list comprehension `[translate_recursive(i) for i in obj]`. */
  function TranslateItems(items: seq<Json>, target: string, tr: Service): (r: Result<seq<Json>, string>)
    ensures r.Success? ==> |r.value| == |items|
    ensures r.Success? ==> forall i :: 0 <= i < |items| ==> SameShape(items[i], r.value[i])
    decreases items, 0
  {
    if items == [] then Success([])
    else
      var v := TranslateRecursive(items[0], target, tr);
      if v.Failure? then Failure(v.error)
      else
        var rest := TranslateItems(items[1..], target, tr);
        if rest.Failure? then Failure(rest.error)
        else Success([v.value] + rest.value)
  }

  /**
   * Two values with the same structure: the same kind at every position, the
   * same keys in the same order, the same lengths and the same scalars; only
   * the text of strings may differ.
   */
  predicate SameShape(a: Json, b: Json)
    decreases a
  {
    match a
    case JObject(ms) =>
      b.JObject? && |b.members| == |ms| &&
      forall i :: 0 <= i < |ms| ==> ms[i].key == b.members[i].key && SameShape(ms[i].value, b.members[i].value)
    case JArray(items) =>
      b.JArray? && |b.items| == |items| &&
      forall i :: 0 <= i < |items| ==> SameShape(items[i], b.items[i])
    case JString(_) => b.JString?
    case _ => b == a
  }

  /** The strings of a value, in document order. */
  function Strings(obj: Json): seq<string>
    decreases obj, 1
  {
    match obj
    case JObject(ms) => MemberStrings(ms)
    case JArray(items) => ItemStrings(items)
    case JString(s) => [s]
    case _ => []
  }

  function MemberStrings(ms: seq<Member>): seq<string>
    decreases ms, 0
  {
    if ms == [] then [] else Strings(ms[0].value) + MemberStrings(ms[1..])
  }

  function ItemStrings(items: seq<Json>): seq<string>
    decreases items, 0
  {
    if items == [] then [] else Strings(items[0]) + ItemStrings(items[1..])
  }

  /** The error of the first string in `ss` that the service fails to translate. */
  function FirstError(ss: seq<string>, target: string, tr: Service): (r: Option<string>)
    ensures r.None? <==> forall i :: 0 <= i < |ss| ==> tr(target, ss[i]).Success?
    ensures r.Some? ==>
      exists i :: (0 <= i < |ss| && tr(target, ss[i]) == Failure(r.value) &&
                   forall j :: 0 <= j < i ==> tr(target, ss[j]).Success?)
  {
    if ss == [] then None
    else if tr(target, ss[0]).Failure? then Some(tr(target, ss[0]).error)
    else
      var r := FirstError(ss[1..], target, tr);
      assert forall j :: 1 <= j < |ss| ==> ss[j] == ss[1..][j - 1];
      assert r.Some? ==>
        exists i :: (1 <= i < |ss| && tr(target, ss[i]) == Failure(r.value) &&
                     forall j :: 1 <= j < i ==> tr(target, ss[j]).Success?);
      r
  }

  lemma {:induction false} FirstErrorAppend(a: seq<string>, b: seq<string>, target: string, tr: Service)
    ensures FirstError(a + b, target, tr) ==
      if FirstError(a, target, tr).Some? then FirstError(a, target, tr) else FirstError(b, target, tr)
  {
    if a != [] {
      assert (a + b)[0] == a[0];
      assert (a + b)[1..] == a[1..] + b;
      FirstErrorAppend(a[1..], b, target, tr);
    } else {
      assert a + b == b;
    }
  }

  /** The error a translation ended with, if it failed. */
  function ErrorOf<T>(r: Result<T, string>): Option<string> {
    if r.Failure? then Some(r.error) else None
  }

  /**
   * A translation fails exactly when some string of the value fails, and then
   * with the error of the first such string in document order.
   */
  lemma {:induction false} TranslateFailsAtFirstError(obj: Json, target: string, tr: Service)
    ensures ErrorOf(TranslateRecursive(obj, target, tr)) == FirstError(Strings(obj), target, tr)
    decreases obj, 1
  {
    match obj
    case JObject(ms) => MembersFailAtFirstError(ms, target, tr);
    case JArray(items) => ItemsFailAtFirstError(items, target, tr);
    case JString(s) => assert [s][1..] == [];
    case _ =>
  }

  lemma {:induction false} MembersFailAtFirstError(ms: seq<Member>, target: string, tr: Service)
    ensures ErrorOf(TranslateMembers(ms, target, tr)) == FirstError(MemberStrings(ms), target, tr)
    decreases ms, 0
  {
    if ms != [] {
      TranslateFailsAtFirstError(ms[0].value, target, tr);
      MembersFailAtFirstError(ms[1..], target, tr);
      FirstErrorAppend(Strings(ms[0].value), MemberStrings(ms[1..]), target, tr);
    }
  }

  lemma {:induction false} ItemsFailAtFirstError(items: seq<Json>, target: string, tr: Service)
    ensures ErrorOf(TranslateItems(items, target, tr)) == FirstError(ItemStrings(items), target, tr)
    decreases items, 0
  {
    if items != [] {
      TranslateFailsAtFirstError(items[0], target, tr);
      ItemsFailAtFirstError(items[1..], target, tr);
      FirstErrorAppend(Strings(items[0]), ItemStrings(items[1..]), target, tr);
    }
  }

  /** The translation succeeds exactly when the service translates every string of the value. */
  lemma TranslateSucceedsIffAllStringsDo(obj: Json, target: string, tr: Service)
    ensures TranslateRecursive(obj, target, tr).Success? <==>
      forall s :: s in Strings(obj) ==> tr(target, s).Success?
  {
    TranslateFailsAtFirstError(obj, target, tr);
  }

  /**
   * An object translates to an object with the same keys in the same order,
   * whose every value is the translation of the original value, and conversely.
   */
  lemma TranslateObject(ms: seq<Member>, target: string, tr: Service, r: Json)
    ensures TranslateRecursive(JObject(ms), target, tr) == Success(r) <==>
      r.JObject? && |r.members| == |ms| &&
      forall i :: 0 <= i < |ms| ==>
        r.members[i].key == ms[i].key &&
        TranslateRecursive(ms[i].value, target, tr) == Success(r.members[i].value)
    ensures TranslateRecursive(JObject(ms), target, tr) == Success(r) ==> Keys(r.members) == Keys(ms)
  {
    if r.JObject? {
      TranslateMembersPointwise(ms, target, tr, r.members);
    }
  }

  lemma TranslateMembersPointwise(ms: seq<Member>, target: string, tr: Service, ms': seq<Member>)
    ensures TranslateMembers(ms, target, tr) == Success(ms') <==>
      |ms'| == |ms| &&
      forall i :: 0 <= i < |ms| ==>
        ms'[i].key == ms[i].key && TranslateRecursive(ms[i].value, target, tr) == Success(ms'[i].value)
  {
    if TranslateMembers(ms, target, tr) == Success(ms') {
      MembersSucceedPointwise(ms, target, tr, ms');
    }
    if |ms'| == |ms| &&
      forall i :: 0 <= i < |ms| ==>
        ms'[i].key == ms[i].key && TranslateRecursive(ms[i].value, target, tr) == Success(ms'[i].value)
    {
      PointwiseMembersSucceed(ms, target, tr, ms');
    }
  }

  lemma {:induction false} MembersSucceedPointwise(ms: seq<Member>, target: string, tr: Service, ms': seq<Member>)
    requires TranslateMembers(ms, target, tr) == Success(ms')
    ensures |ms'| == |ms|
    ensures forall i :: 0 <= i < |ms| ==>
      ms'[i].key == ms[i].key && TranslateRecursive(ms[i].value, target, tr) == Success(ms'[i].value)
  {
    if ms != [] {
      var v := TranslateRecursive(ms[0].value, target, tr);
      var tail := TranslateMembers(ms[1..], target, tr);
      assert v.Success? && tail.Success?;
      var rest := tail.value;
      assert ms' == [Member(ms[0].key, v.value)] + rest;
      MembersSucceedPointwise(ms[1..], target, tr, rest);
      forall i | 1 <= i < |ms|
        ensures ms'[i].key == ms[i].key && TranslateRecursive(ms[i].value, target, tr) == Success(ms'[i].value)
      {
        assert ms'[i] == rest[i - 1] && ms[i] == ms[1..][i - 1];
      }
    }
  }

  lemma {:induction false} PointwiseMembersSucceed(ms: seq<Member>, target: string, tr: Service, ms': seq<Member>)
    requires |ms'| == |ms|
    requires forall i :: 0 <= i < |ms| ==>
      ms'[i].key == ms[i].key && TranslateRecursive(ms[i].value, target, tr) == Success(ms'[i].value)
    ensures TranslateMembers(ms, target, tr) == Success(ms')
  {
    if ms != [] {
      forall i | 0 <= i < |ms| - 1
        ensures ms'[1..][i].key == ms[1..][i].key &&
          TranslateRecursive(ms[1..][i].value, target, tr) == Success(ms'[1..][i].value)
      {
        assert ms'[1..][i] == ms'[i + 1] && ms[1..][i] == ms[i + 1];
      }
      PointwiseMembersSucceed(ms[1..], target, tr, ms'[1..]);
      assert ms' == [Member(ms[0].key, ms'[0].value)] + ms'[1..];
    }
  }

  /**
   * An array translates to an array of the same length whose element i is the
   * translation of element i, and conversely.
   */
  lemma TranslateArray(items: seq<Json>, target: string, tr: Service, r: Json)
    ensures TranslateRecursive(JArray(items), target, tr) == Success(r) <==>
      r.JArray? && |r.items| == |items| &&
      forall i :: 0 <= i < |items| ==> TranslateRecursive(items[i], target, tr) == Success(r.items[i])
  {
    if r.JArray? {
      TranslateItemsPointwise(items, target, tr, r.items);
    }
  }

  lemma TranslateItemsPointwise(items: seq<Json>, target: string, tr: Service, items': seq<Json>)
    ensures TranslateItems(items, target, tr) == Success(items') <==>
      |items'| == |items| &&
      forall i :: 0 <= i < |items| ==> TranslateRecursive(items[i], target, tr) == Success(items'[i])
  {
    if TranslateItems(items, target, tr) == Success(items') {
      ItemsSucceedPointwise(items, target, tr, items');
    }
    if |items'| == |items| &&
      forall i :: 0 <= i < |items| ==> TranslateRecursive(items[i], target, tr) == Success(items'[i])
    {
      PointwiseItemsSucceed(items, target, tr, items');
    }
  }

  lemma {:induction false} ItemsSucceedPointwise(items: seq<Json>, target: string, tr: Service, items': seq<Json>)
    requires TranslateItems(items, target, tr) == Success(items')
    ensures |items'| == |items|
    ensures forall i :: 0 <= i < |items| ==> TranslateRecursive(items[i], target, tr) == Success(items'[i])
  {
    if items != [] {
      var v := TranslateRecursive(items[0], target, tr);
      var tail := TranslateItems(items[1..], target, tr);
      assert v.Success? && tail.Success?;
      var rest := tail.value;
      assert items' == [v.value] + rest;
      ItemsSucceedPointwise(items[1..], target, tr, rest);
      forall i | 1 <= i < |items|
        ensures TranslateRecursive(items[i], target, tr) == Success(items'[i])
      {
        assert items'[i] == rest[i - 1] && items[i] == items[1..][i - 1];
      }
    }
  }

  lemma {:induction false} PointwiseItemsSucceed(items: seq<Json>, target: string, tr: Service, items': seq<Json>)
    requires |items'| == |items|
    requires forall i :: 0 <= i < |items| ==> TranslateRecursive(items[i], target, tr) == Success(items'[i])
    ensures TranslateItems(items, target, tr) == Success(items')
  {
    if items != [] {
      forall i | 0 <= i < |items| - 1
        ensures TranslateRecursive(items[1..][i], target, tr) == Success(items'[1..][i])
      {
        assert items'[1..][i] == items'[i + 1] && items[1..][i] == items[i + 1];
      }
      PointwiseItemsSucceed(items[1..], target, tr, items'[1..]);
      assert items' == [items'[0]] + items'[1..];
    }
  }

  /** A string becomes its translation; the service's error becomes the translation's error. */
  lemma TranslateString(s: string, target: string, tr: Service)
    ensures TranslateRecursive(JString(s), target, tr) ==
      match tr(target, s)
      case Success(t) => Success(JString(t))
      case Failure(e) => Failure(e)
  {
  }

  /** Null, booleans and numbers come back unchanged. */
  lemma TranslateScalar(obj: Json, target: string, tr: Service)
    requires IsScalar(obj)
    ensures TranslateRecursive(obj, target, tr) == Success(obj)
  {
  }

  /** A value whose every string the service maps to itself comes back unchanged. */
  lemma {:induction false} TranslateFixesUntouchedStrings(obj: Json, target: string, tr: Service)
    requires forall s :: s in Strings(obj) ==> tr(target, s) == Success(s)
    ensures TranslateRecursive(obj, target, tr) == Success(obj)
    decreases obj, 1
  {
    match obj
    case JObject(ms) => MembersFixUntouchedStrings(ms, target, tr);
    case JArray(items) => ItemsFixUntouchedStrings(items, target, tr);
    case JString(s) => assert s in Strings(obj);
    case _ =>
  }

  lemma {:induction false} MembersFixUntouchedStrings(ms: seq<Member>, target: string, tr: Service)
    requires forall s :: s in MemberStrings(ms) ==> tr(target, s) == Success(s)
    ensures TranslateMembers(ms, target, tr) == Success(ms)
    decreases ms, 0
  {
    if ms != [] {
      TranslateFixesUntouchedStrings(ms[0].value, target, tr);
      MembersFixUntouchedStrings(ms[1..], target, tr);
      assert ms == [Member(ms[0].key, ms[0].value)] + ms[1..];
    }
  }

  lemma {:induction false} ItemsFixUntouchedStrings(items: seq<Json>, target: string, tr: Service)
    requires forall s :: s in ItemStrings(items) ==> tr(target, s) == Success(s)
    ensures TranslateItems(items, target, tr) == Success(items)
    decreases items, 0
  {
    if items != [] {
      TranslateFixesUntouchedStrings(items[0], target, tr);
      ItemsFixUntouchedStrings(items[1..], target, tr);
      assert items == [items[0]] + items[1..];
    }
  }

  /** A value that holds no string comes back unchanged, whatever the service does. */
  lemma TranslateWithoutStrings(obj: Json, target: string, tr: Service)
    requires Strings(obj) == []
    ensures TranslateRecursive(obj, target, tr) == Success(obj)
  {
    TranslateFixesUntouchedStrings(obj, target, tr);
  }

  /** With a service that returns every text unchanged, every value comes back unchanged. */
  lemma TranslateWithIdentity(obj: Json, target: string, tr: Service)
    requires forall s :: tr(target, s) == Success(s)
    ensures TranslateRecursive(obj, target, tr) == Success(obj)
  {
    TranslateFixesUntouchedStrings(obj, target, tr);
  }
}
