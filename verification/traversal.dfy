/**
 PHP's `foreach` over a match-result view: `rewind()`, then `key()`,
 `current()` and `next()` for as long as `valid()` holds. A second loop over
 the same object restarts from the memo buffer, never from the producer.
 */
module Traversal {
  import opened OrderedMap
  import opened Captures
  import opened ResultTypes
  import opened Wrappers
  import opened MatchFlags
  import opened Producer
  import opened MatchesView

  /** The loop from the current cursor on: the pairs it sees and the view it leaves. */
  function Walk(v: View): (r: (View, seq<Entry>))
    requires Inv(v)
    ensures Inv(r.0)
    decreases |v.gen| - v.pos
  {
    if !IsValid(v) then (v, [])
    else
      var seen := (CurrentKey(v).value, Current(v));
      BufferIsExportPrefix(v);
      var rest := Walk(Next(v));
      (rest.0, [seen] + rest.1)
  }

  /** A whole `foreach` loop: rewind, then walk. */
  function Foreach(v: View): (r: (View, seq<Entry>))
    requires Inv(v)
    ensures Inv(r.0)
  {
    Walk(Rewind(v))
  }

  /**
   A loop runs the view dry: it ends invalid with the producer drained and
   the buffer holding the export. A loop over a drained view pulls nothing.
   */
  lemma {:induction false} WalkDrains(v: View)
    requires Inv(v)
    ensures !Walk(v).0.valid && Walk(v).0.done
    ensures Walk(v).0.gen == v.gen && v.pulled <= Walk(v).0.pulled
    ensures Walk(v).0.buffer == Export(v)
    ensures v.done ==> Walk(v).0.buffer == v.buffer && Walk(v).0.pulled == v.pulled
    decreases |v.gen| - v.pos
  {
    if v.valid {
      BufferIsExportPrefix(v);
      WalkDrains(Next(v));
    }
  }

  /** After a `foreach` loop the view is drained and holds the export. */
  lemma ForeachDrains(v: View)
    requires Inv(v)
    ensures Foreach(v).0.done && Foreach(v).0.gen == v.gen
    ensures Foreach(v).0.buffer == Export(v)
    ensures v.done ==> Foreach(v).0.buffer == v.buffer && Foreach(v).0.pulled == v.pulled
  {
    WalkDrains(Rewind(v));
  }

  /** A sequence read from position `i` on: the element at `i`, then the rest. */
  lemma SuffixStep<T>(seen: seq<T>, rest: seq<T>, s: seq<T>, i: nat)
    requires i < |s| && 0 < |seen| && seen[0] == s[i] && seen[1..] == rest
    requires rest == s[i + 1..]
    ensures seen == s[i..]
  {
    assert seen == [seen[0]] + rest;
  }

  /** The key under the cursor is the export's key at the same position. */
  lemma CurrentKeyIsExportKey(v: View)
    requires Inv(v) && v.valid
    ensures v.pos < |Export(v)| <= |v.gen|
    ensures CurrentKey(v).value == Export(v)[v.pos].0
  {
    BufferIsExportPrefix(v);
    assert KeysOf(v.buffer)[v.pos] == KeysOf(Export(v))[v.pos];
  }

  /** One round of the loop: see the pair under the cursor, then step. */
  lemma WalkStep(v: View)
    requires Inv(v) && v.valid
    ensures 0 < |Walk(v).1| && Walk(v).1[0] == (CurrentKey(v).value, Current(v))
    ensures Walk(v).1[1..] == Walk(Next(v)).1
    ensures Walk(v).0 == Walk(Next(v)).0
  {
  }

  /** A loop whose cursor is past the buffer sees nothing. */
  lemma WalkEnd(v: View)
    requires Inv(v) && !v.valid
    ensures |Export(v)| <= v.pos
    ensures Walk(v).1 == []
    ensures v.pos <= |Export(v)| ==> Export(v)[v.pos..] == [] && KeysOf(Export(v))[v.pos..] == []
  {
  }

  /** The inductive step of `WalkSeesExportKeys`. */
  lemma WalkSeesExportKeysStep(v: View)
    requires Inv(v) && v.valid
    requires v.pos + 1 <= |Export(v)|
    requires KeysOf(Walk(Next(v)).1) == KeysOf(Export(v))[v.pos + 1..]
    ensures KeysOf(Walk(v).1) == KeysOf(Export(v))[v.pos..]
  {
    CurrentKeyIsExportKey(v);
    WalkStep(v);
    KeysOfSuffix(Walk(v).1, Walk(Next(v)).1, Export(v), v.pos);
  }

  /** The loop sees the export's keys from the cursor on, each once, in order. */
  lemma {:induction false} WalkSeesExportKeys(v: View)
    requires Inv(v)
    requires v.pos <= |Export(v)|
    ensures KeysOf(Walk(v).1) == KeysOf(Export(v))[v.pos..]
    decreases |v.gen| - v.pos
  {
    if v.valid {
      NextKeepsExport(v);
      CurrentKeyIsExportKey(v);
      WalkSeesExportKeys(Next(v));
      WalkSeesExportKeysStep(v);
    } else {
      WalkEnd(v);
    }
  }

  /**
   When the producer never repeats a key, or the view is already drained,
   the pair under the cursor is the export's pair at the same position.
   */
  lemma CurrentIsExportEntry(v: View)
    requires Inv(v) && v.valid
    requires DistinctKeys(v.gen) || v.done
    ensures v.pos < |Export(v)|
    ensures (CurrentKey(v).value, Current(v)) == Export(v)[v.pos]
  {
    BufferIsExportPrefix(v);
    if !v.done {
      AssignedOfDistinct(v.gen, v.pulled);
      FromSeqOfDistinct(v.gen);
    }
  }

  /** `next` keeps the producer, hence the export, and moves the cursor by one. */
  lemma NextKeepsExport(v: View)
    requires Inv(v) && v.valid
    ensures Next(v).gen == v.gen && Export(Next(v)) == Export(v)
    ensures Next(v).pos == v.pos + 1 <= |Export(v)|
    ensures v.done ==> Next(v).done
  {
    CurrentKeyIsExportKey(v);
  }

  /** The inductive step of `WalkSeesExport`. */
  lemma WalkSeesExportStep(v: View)
    requires Inv(v) && v.valid
    requires DistinctKeys(v.gen) || v.done
    requires v.pos + 1 <= |Export(v)|
    requires Walk(Next(v)).1 == Export(v)[v.pos + 1..]
    ensures Walk(v).1 == Export(v)[v.pos..]
  {
    CurrentIsExportEntry(v);
    WalkStep(v);
    SuffixStep(Walk(v).1, Walk(Next(v)).1, Export(v), v.pos);
  }

  /**
   When the producer never repeats a key, or the view is already drained,
   the loop sees exactly the export's pairs from the cursor on.
   */
  lemma {:induction false} WalkSeesExport(v: View)
    requires Inv(v)
    requires DistinctKeys(v.gen) || v.done
    requires v.pos <= |Export(v)|
    ensures Walk(v).1 == Export(v)[v.pos..]
    decreases |v.gen| - v.pos
  {
    if v.valid {
      NextKeepsExport(v);
      CurrentKeyIsExportKey(v);
      WalkSeesExport(Next(v));
      WalkSeesExportStep(v);
    } else {
      WalkEnd(v);
    }
  }

  /** Every `foreach` loop sees all the export's keys, in export order. */
  lemma ForeachSeesExportKeys(v: View)
    requires Inv(v)
    ensures KeysOf(Foreach(v).1) == KeysOf(Export(v))
  {
    BufferIsExportPrefix(v);
    WalkSeesExportKeys(Rewind(v));
  }

  /**
   A loop over a drained view, and any loop when the producer never repeats
   a key, sees the export itself.
   */
  lemma ForeachSeesExport(v: View)
    requires Inv(v)
    requires DistinctKeys(v.gen) || v.done
    ensures Foreach(v).1 == Export(v)
  {
    WalkSeesExport(Rewind(v));
  }

  /**
   Looping twice: the second loop pulls nothing from the producer, sees the
   same keys in the same order as the first, and sees the export's values.
   */
  lemma SecondLoopReplays(v: View)
    requires Inv(v)
    ensures var first := Foreach(v);
      && Foreach(first.0).0.pulled == first.0.pulled
      && Foreach(first.0).0.buffer == first.0.buffer
      && KeysOf(Foreach(first.0).1) == KeysOf(first.1)
      && Foreach(first.0).1 == Export(v)
  {
    var first := Foreach(v);
    ForeachDrains(v);
    ForeachDrains(first.0);
    ForeachSeesExportKeys(v);
    ForeachSeesExportKeys(first.0);
    ForeachSeesExport(first.0);
  }

  /** When the producer never repeats a key, both loops see the very same pairs. */
  lemma SecondLoopSeesSamePairs(v: View)
    requires Inv(v) && DistinctKeys(v.gen)
    ensures Foreach(Foreach(v).0).1 == Foreach(v).1
  {
    ForeachDrains(v);
    ForeachSeesExport(v);
    ForeachSeesExport(Foreach(v).0);
  }

  /**
   Overwriting makes a second loop differ from the first. In non-strict
   associative mode, a group named `result_1` and group 1 both yield the key
   `result_1`. The first loop sees the first value before the second pair
   is pulled; by the second loop the buffer entry has been overwritten.
   */
  lemma ReplayCanDiffer(numeric: string -> bool)
    requires !numeric("result_1")
    ensures var m := [(S("result_1"), Text("a")), (I(1), Text("b"))];
      && Construct(m, Associative, numeric).Success?
      && Foreach(Construct(m, Associative, numeric).value).1 == [(S("result_1"), Text("a"))]
      && Foreach(Foreach(Construct(m, Associative, numeric).value).0).1 == [(S("result_1"), Text("b"))]
  {
    var m := [(S("result_1"), Text("a")), (I(1), Text("b"))];
    var k := S("result_1");
    RenamedKeysCanCollide(numeric);
    var gen := [(k, Text("a")), (k, Text("b"))];
    assert Produce(m, Associative, numeric) == gen;
    assert ValidateFlags(Associative).Pass?;

    // the constructor pulls the first pair
    AssignedStep(gen, 1);
    assert Assigned(gen, 1) == [(k, Text("a"))];
    var start := View(gen, 0, [], 0, false, false);
    var v0 := View(gen, 1, [(k, Text("a"))], 0, false, true);
    assert PullOne(start) == v0.(valid := false);
    assert EnsureIndex(start, 0) == (v0.(valid := false), true);
    assert Construct(m, Associative, numeric) == Success(v0);

    // first loop: rewind keeps the state, `next` pulls the second pair
    assert Rewind(v0) == v0;
    AssignedStep(gen, 2);
    assert Assigned(gen, 2) == [(k, Text("b"))];
    var v1 := View(gen, 2, [(k, Text("b"))], 1, true, false);
    var pulled := View(gen, 2, [(k, Text("b"))], 1, false, true);
    assert Put([(k, Text("a"))], k, Text("b")) == [(k, Text("b"))];
    assert PullOne(v0.(pos := 1)) == pulled;
    assert EnsureIndex(pulled, 1) == (pulled.(done := true), false);
    assert EnsureIndex(v0.(pos := 1), 1) == (v1.(valid := true), false);
    assert Next(v0) == v1;
    assert Walk(v1) == (v1, []);
    assert CurrentKey(v0) == Some(k) && Current(v0) == Text("a");
    WalkStep(v0);
    assert Walk(v0).1 == [(k, Text("a"))] + Walk(v1).1 == [(k, Text("a"))];
    assert Walk(v0).0 == v1;
    assert Foreach(v0).0 == v1 && Foreach(v0).1 == [(k, Text("a"))];

    // second loop: replays the buffer, whose entry now holds "b"
    var v2 := v1.(pos := 0, valid := true);
    assert Rewind(v1) == v2;
    assert Next(v2) == v1;
    assert CurrentKey(v2) == Some(k) && Current(v2) == Text("b");
    WalkStep(v2);
    assert Walk(v2).1 == [(k, Text("b"))] + Walk(v1).1 == [(k, Text("b"))];
    assert Foreach(v1).1 == [(k, Text("b"))];
  }
}
