/**
 * The form's ordered list of statements and the three list expressions the
 * form's handlers compute from it. Each produces a new list, which the handler
 * then stores as the new state.
 */
module Statements {

  datatype Statement = Statement(id: int, value: string)

  /** The ids are exactly 1..N, in order. */
  predicate SequentialIds(texts: seq<Statement>) {
    forall i :: 0 <= i < |texts| ==> texts[i].id == i + 1
  }

  /** The texts the user typed, in order. */
  function Values(texts: seq<Statement>): (vs: seq<string>)
    ensures |vs| == |texts|
    ensures forall i :: 0 <= i < |texts| ==> vs[i] == texts[i].value
  {
    seq(|texts|, i requires 0 <= i < |texts| => texts[i].value)
  }

  /** `texts.map(t => t.id === id ? {...t, value: newValue} : t)`. */
  function Changed(texts: seq<Statement>, id: int, newValue: string): (r: seq<Statement>)
    ensures |r| == |texts|
    ensures forall i :: 0 <= i < |texts| ==> r[i].id == texts[i].id
    ensures forall i :: 0 <= i < |texts| && texts[i].id == id ==> r[i].value == newValue
    ensures forall i :: 0 <= i < |texts| && texts[i].id != id ==> r[i] == texts[i]
  {
    seq(|texts|, i requires 0 <= i < |texts| =>
      if texts[i].id == id then Statement(texts[i].id, newValue) else texts[i])
  }

  /** `[...texts, {id: texts.length + 1, value: ""}]`. */
  function Added(texts: seq<Statement>): (r: seq<Statement>)
    ensures |r| == |texts| + 1
    ensures r[..|texts|] == texts
    ensures r[|texts|] == Statement(|texts| + 1, "")
  {
    texts + [Statement(|texts| + 1, "")]
  }

  /** `texts.filter(t => t.id !== id)`. */
  function Filtered(texts: seq<Statement>, id: int): (r: seq<Statement>)
    ensures |r| <= |texts|
  {
    if texts == [] then []
    else if texts[0].id != id then [texts[0]] + Filtered(texts[1..], id)
    else Filtered(texts[1..], id)
  }

  /** `updated.map((t, index) => ({...t, id: index + 1}))`. */
  function Renumbered(updated: seq<Statement>): (r: seq<Statement>)
    ensures SequentialIds(r)
    ensures Values(r) == Values(updated)
  {
    seq(|updated|, i requires 0 <= i < |updated| => Statement(i + 1, updated[i].value))
  }

  /** handleRemove's new list: drop the statements with that id, then renumber. */
  function Removed(texts: seq<Statement>, id: int): (r: seq<Statement>)
    ensures SequentialIds(r)
    ensures Values(r) == Values(Filtered(texts, id))
  {
    Renumbered(Filtered(texts, id))
  }

  /** A statement survives filtering exactly when it was there and has another id. */
  lemma {:induction false} FilteredMembership(texts: seq<Statement>, id: int, t: Statement)
    ensures t in Filtered(texts, id) <==> t in texts && t.id != id
  {
    if texts != [] {
      FilteredMembership(texts[1..], id, t);
      assert texts == [texts[0]] + texts[1..];
    }
  }

  /** Filtering keeps the relative order: it distributes over concatenation. */
  lemma {:induction false} FilteredAppend(a: seq<Statement>, b: seq<Statement>, id: int)
    ensures Filtered(a + b, id) == Filtered(a, id) + Filtered(b, id)
  {
    if a == [] {
      assert a + b == b;
    } else {
      assert (a + b)[0] == a[0];
      assert (a + b)[1..] == a[1..] + b;
      FilteredAppend(a[1..], b, id);
    }
  }

  /** A list with no statement of that id comes through filtering unchanged. */
  lemma {:induction false} FilteredUnchanged(texts: seq<Statement>, id: int)
    requires forall i :: 0 <= i < |texts| ==> texts[i].id != id
    ensures Filtered(texts, id) == texts
  {
    if texts != [] {
      FilteredUnchanged(texts[1..], id);
      assert texts == [texts[0]] + texts[1..];
    }
  }

  /**
   * On a list whose ids run b, b+1, ..., filtering out an id in that range
   * drops exactly the one statement at its position; any other id drops nothing.
   */
  lemma FilteredConsecutive(texts: seq<Statement>, b: int, id: int)
    requires forall i :: 0 <= i < |texts| ==> texts[i].id == b + i
    ensures Filtered(texts, id) ==
      if b <= id < b + |texts| then texts[..id - b] + texts[id - b + 1..] else texts
  {
    if b <= id < b + |texts| {
      var k := id - b;
      var front, rest := texts[..k], texts[k + 1..];
      assert texts == front + ([texts[k]] + rest);
      FilteredAppend(front, [texts[k]] + rest, id);
      FilteredUnchanged(front, id);
      assert ([texts[k]] + rest)[1..] == rest;
      assert Filtered([texts[k]] + rest, id) == Filtered(rest, id);
      assert forall i :: 0 <= i < |rest| ==> rest[i] == texts[k + 1 + i];
      FilteredUnchanged(rest, id);
    } else {
      FilteredUnchanged(texts, id);
    }
  }

  /** Changing an entry of a 1..N list edits exactly the value at that position. */
  lemma ChangedSequential(texts: seq<Statement>, id: int, newValue: string)
    requires SequentialIds(texts)
    ensures SequentialIds(Changed(texts, id, newValue))
    ensures 1 <= id <= |texts| ==> Values(Changed(texts, id, newValue)) == Values(texts)[id - 1 := newValue]
    ensures !(1 <= id <= |texts|) ==> Changed(texts, id, newValue) == texts
  {
  }

  /** Adding keeps the ids 1..N and appends one empty text. */
  lemma AddedSequential(texts: seq<Statement>)
    requires SequentialIds(texts)
    ensures SequentialIds(Added(texts))
    ensures Values(Added(texts)) == Values(texts) + [""]
  {
  }

  /**
   * Removing an id 1..N from a 1..N list leaves N-1 statements, with every
   * other text in its original order; removing any other id changes nothing.
   */
  lemma RemovedSequential(texts: seq<Statement>, id: int)
    requires SequentialIds(texts)
    ensures 1 <= id <= |texts| ==>
      |Removed(texts, id)| == |texts| - 1 &&
      Values(Removed(texts, id)) == Values(texts)[..id - 1] + Values(texts)[id..]
    ensures !(1 <= id <= |texts|) ==> Removed(texts, id) == texts
  {
    FilteredConsecutive(texts, 1, id);
    if 1 <= id <= |texts| {
      assert Values(texts[..id - 1] + texts[id..]) == Values(texts)[..id - 1] + Values(texts)[id..];
    } else {
      assert Renumbered(texts) == texts;
    }
  }
}
