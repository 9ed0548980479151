/**
 * Form mode's request text: the statements folded, in list order, into an
 * object whose keys are key1..keyN. The keys come from the POSITION in the
 * list, not from the statements' ids.
 */
module Payload {
  import opened Wrappers
  import opened Json
  import opened Decimal
  import opened Statements

  /** The template literal `key${n}`. */
  function KeyName(n: nat): string {
    "key" + NatToDecimal(n)
  }

  /** `key${n}` is "key" followed by the decimal digits of n and nothing else. */
  lemma KeyNameShape(n: nat)
    ensures |KeyName(n)| >= 4 && KeyName(n)[..3] == "key"
    ensures forall i :: 3 <= i < |KeyName(n)| ==> '0' <= KeyName(n)[i] <= '9'
    ensures n >= 10 <==> |KeyName(n)| >= 5
  {
    assert KeyName(n)[3..] == NatToDecimal(n);
  }

  lemma KeyNameInjective(a: nat, b: nat)
    requires KeyName(a) == KeyName(b)
    ensures a == b
  {
    assert NatToDecimal(a) == KeyName(a)[3..] == KeyName(b)[3..] == NatToDecimal(b);
    NatToDecimalInjective(a, b);
  }

  /** The object the form's forEach builds: member i is `key(i+1)` with the i-th text. */
  function FormMembers(texts: seq<Statement>): (ms: seq<Member>)
    ensures |ms| == |texts|
    ensures forall i :: 0 <= i < |texts| ==> ms[i] == Member(KeyName(i + 1), JString(texts[i].value))
  {
    seq(|texts|, i requires 0 <= i < |texts| => Member(KeyName(i + 1), JString(texts[i].value)))
  }

  /** The keys are exactly key1..keyN, each naming the text at its position. */
  lemma FormPayloadKeys(texts: seq<Statement>)
    ensures DistinctKeys(FormMembers(texts))
    ensures forall k :: k in Keys(FormMembers(texts)) <==> exists n :: 1 <= n <= |texts| && k == KeyName(n)
    ensures forall i :: 0 <= i < |texts| ==> Lookup(FormMembers(texts), KeyName(i + 1)) == Some(JString(texts[i].value))
  {
    var ms := FormMembers(texts);
    forall i, j | 0 <= i < j < |ms| ensures ms[i].key != ms[j].key {
      if ms[i].key == ms[j].key { KeyNameInjective(i + 1, j + 1); }
    }
    forall k | k in Keys(ms) ensures exists n :: 1 <= n <= |texts| && k == KeyName(n) {
      var i :| 0 <= i < |ms| && Keys(ms)[i] == k;
      assert k == KeyName(i + 1);
    }
    forall k | exists n :: 1 <= n <= |texts| && k == KeyName(n) ensures k in Keys(ms) {
      var n :| 1 <= n <= |texts| && k == KeyName(n);
      assert Keys(ms)[n - 1] == k;
    }
    forall i | 0 <= i < |texts| ensures Lookup(ms, KeyName(i + 1)) == Some(JString(texts[i].value)) {
      IndexOfUnique(ms, KeyName(i + 1), i);
    }
  }

  lemma FormMembersSnoc(texts: seq<Statement>, t: Statement)
    ensures FormMembers(texts + [t]) == FormMembers(texts) + [Member(KeyName(|texts| + 1), JString(t.value))]
  {
    var l, r := FormMembers(texts + [t]), FormMembers(texts) + [Member(KeyName(|texts| + 1), JString(t.value))];
    forall i | 0 <= i < |l| ensures l[i] == r[i] {
      if i < |texts| { assert (texts + [t])[i] == texts[i]; }
    }
  }

  /** The key for the next position is not yet in the object. */
  lemma NextKeyFresh(texts: seq<Statement>)
    ensures KeyName(|texts| + 1) !in Keys(FormMembers(texts))
  {
    var key := KeyName(|texts| + 1);
    if key in Keys(FormMembers(texts)) {
      var j :| 0 <= j < |texts| && Keys(FormMembers(texts))[j] == key;
      KeyNameInjective(j + 1, |texts| + 1);
    }
  }

  /** One step of the loop: assigning the next key appends the next member. */
  lemma AssignNextKey(texts: seq<Statement>, index: nat)
    requires index < |texts|
    ensures Set(FormMembers(texts[..index]), KeyName(index + 1), JString(texts[index].value))
         == FormMembers(texts[..index + 1])
  {
    NextKeyFresh(texts[..index]);
    FormMembersSnoc(texts[..index], texts[index]);
    assert texts[..index + 1] == texts[..index] + [texts[index]];
  }

  /** The forEach loop: `payloadText[`key${index + 1}`] = t.value` for each statement in turn. */
  method BuildFormPayload(texts: seq<Statement>) returns (payloadText: seq<Member>)
    ensures payloadText == FormMembers(texts)
  {
    payloadText := [];
    for index := 0 to |texts|
      invariant payloadText == FormMembers(texts[..index])
    {
      AssignNextKey(texts, index);
      payloadText := Set(payloadText, KeyName(index + 1), JString(texts[index].value));
    }
    assert texts[..|texts|] == texts;
  }

  /** Two statements "a" and "b" become {key1: "a", key2: "b"}. */
  lemma TwoStatementsExample()
    ensures FormMembers([Statement(1, "a"), Statement(2, "b")])
         == [Member("key1", JString("a")), Member("key2", JString("b"))]
  {
    assert NatToDecimal(1) == [Digit(1)] == "1";
    assert NatToDecimal(2) == [Digit(2)] == "2";
    assert KeyName(1) == "key1";
    assert KeyName(2) == "key2";
  }
}
