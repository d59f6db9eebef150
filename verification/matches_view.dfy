/**
 The match-result view: a one-shot producer behind an insertion-ordered
 memo buffer, a cursor and a `done` flag. The producer is its full output
 `gen` together with `pulled`, the number of pairs it has yielded so far; the
 view only ever moves `pulled` forward, one pair at a time, and only through
 EnsureIndex. Every operation takes the view and returns the view after the
 call, with the answer beside it.
 */
module MatchesView {
  import opened Wrappers
  import opened OrderedMap
  import opened Captures
  import opened ResultTypes
  import opened MatchFlags
  import opened Producer

  datatype View = View(
    gen: seq<Entry>,     // every pair the producer will ever yield, in order
    pulled: nat,         // how many of them it has yielded so far
    buffer: seq<Entry>,  // the memo buffer, an insertion-ordered map
    pos: nat,            // the cursor, a position in the buffer's order
    done: bool,          // the producer is drained and dropped
    valid: bool)         // the last answer EnsureIndex gave for the cursor

  /** The buffer is the map built from the pairs pulled so far. */
  predicate BufferInv(v: View) {
    && v.pulled <= |v.gen|
    && v.buffer == Assigned(v.gen, v.pulled)
    && (v.done ==> v.pulled == |v.gen|)
  }

  /** The state invariant between public calls: `valid` is the cursor's answer. */
  predicate Inv(v: View) {
    && BufferInv(v)
    && (v.valid <==> v.pos < |v.buffer|)
    && (v.pos >= |v.buffer| ==> v.done)
  }

  /** The map the view ends up exporting once the producer is drained. */
  function Export(v: View): seq<Entry> {
    FromSeq(v.gen)
  }

  /** The buffer is always a key-prefix of the final export. */
  lemma BufferIsExportPrefix(v: View)
    requires BufferInv(v)
    ensures KeysOf(v.buffer) <= KeysOf(Export(v))
    ensures |v.buffer| <= |Export(v)| <= |v.gen|
  {
    FromSeqPrefixKeys(v.gen, v.pulled, |v.gen|);
    AssignedLength(v.gen, |v.gen|);
  }

  /** Pulling at least one pair leaves at least one entry in the buffer. */
  lemma AssignedNonEmpty(p: seq<Entry>, n: nat)
    requires 0 < n <= |p|
    ensures 0 < |Assigned(p, n)|
  {
    AssignedStep(p, n);
    PutLength(Assigned(p, n - 1), p[n - 1].0, p[n - 1].1);
  }

  /** One pull: assign the producer's next pair into the buffer and advance it. */
  function PullOne(v: View): (w: View)
    requires BufferInv(v) && v.pulled < |v.gen|
    ensures BufferInv(w)
    ensures w.gen == v.gen && w.pos == v.pos && w.valid == v.valid && w.done == v.done
    ensures w.pulled == v.pulled + 1
    ensures w.buffer == Put(v.buffer, v.gen[v.pulled].0, v.gen[v.pulled].1)
    ensures KeysOf(v.buffer) <= KeysOf(w.buffer)
  {
    PutKeys(v.buffer, v.gen[v.pulled].0, v.gen[v.pulled].1);
    v.(buffer := Put(v.buffer, v.gen[v.pulled].0, v.gen[v.pulled].1), pulled := v.pulled + 1)
  }

  /**
   `ensureIndex(n)`: make position `n` exist in the buffer if the producer
   can, pulling one pair at a time only while the buffer holds at most `n`
   entries. The source's inner pulling loop is the recursion here; it sets
   `done` when the producer runs dry.
   */
  function EnsureIndex(v: View, n: nat): (r: (View, bool))
    requires BufferInv(v)
    ensures BufferInv(r.0)
    ensures r.0.gen == v.gen && r.0.pos == v.pos && r.0.valid == v.valid
    ensures r.1 <==> n < |r.0.buffer|
    ensures !r.1 ==> r.0.done
    ensures v.pulled <= r.0.pulled
    ensures KeysOf(v.buffer) <= KeysOf(r.0.buffer)
    ensures n < |v.buffer| || v.done ==> r.0 == v
    ensures forall i :: v.pulled <= i < r.0.pulled ==> |Assigned(v.gen, i)| <= n
    ensures |v.buffer| <= n && r.1 ==> v.pulled < r.0.pulled
    decreases |v.gen| - v.pulled
  {
    if n < |v.buffer| then (v, true)
    else if v.done then (v, false)
    else if v.pulled == |v.gen| then (v.(done := true), false)
    else
      var w := PullOne(v);
      var r := EnsureIndex(w, n);
      PrefixTransitive(KeysOf(v.buffer), KeysOf(w.buffer), KeysOf(r.0.buffer));
      r
  }

  /**
   `materialize`: drain the producer into the buffer, after which the buffer
   is the whole export and nothing is ever pulled again.
   */
  function Materialize(v: View): (r: View)
    requires BufferInv(v)
    ensures BufferInv(r) && r.done && r.pulled == |v.gen|
    ensures r.buffer == Export(v)
    ensures r.gen == v.gen && r.pos == v.pos && r.valid == v.valid
    ensures KeysOf(v.buffer) <= KeysOf(r.buffer)
    ensures Inv(v) ==> Inv(r)
    ensures v.done ==> r == v
    decreases |v.gen| - v.pulled
  {
    if v.done then
      v
    else
      var e := EnsureIndex(v, |v.buffer|);
      var w := e.0;
      if e.1 then
        var r := Materialize(w);
        PrefixTransitive(KeysOf(v.buffer), KeysOf(w.buffer), KeysOf(r.buffer));
        r
      else
        w
  }

  /** What every reading facade call leaves behind: the drained view, cursor untouched. */
  predicate MaterializedFrom(v: View, w: View) {
    && Inv(w) && w.done
    && w.gen == v.gen && w.pos == v.pos && w.valid == v.valid
    && w.buffer == Export(v)
    && (v.done ==> w == v)
  }

  /** `keyAt`: the key at a position of the buffer's order, if there is one. */
  function KeyAt(v: View, i: int): (r: Option<Key>)
    ensures r.Some? <==> 0 <= i < |v.buffer|
    ensures r.Some? ==> r.value == v.buffer[i].0
  {
    if 0 <= i < |v.buffer| then Some(KeysOf(v.buffer)[i]) else None
  }

  /** Iterator `key()`: the key under the cursor, none once past the buffer. */
  function CurrentKey(v: View): (r: Option<Key>)
    requires Inv(v)
    ensures r.Some? <==> v.valid
    ensures r.Some? ==> r.value == v.buffer[v.pos].0
  {
    KeyAt(v, v.pos)
  }

  /**
   Iterator `current()`: the value under the cursor, looked up by its key,
   and null once past the buffer.
   */
  function Current(v: View): (r: Value)
    requires BufferInv(v)
    ensures v.pos < |v.buffer| ==> r == v.buffer[v.pos].1
    ensures v.pos >= |v.buffer| ==> r == Null
  {
    assert v.pos < |v.buffer| ==> Get(v.buffer, v.buffer[v.pos].0) == Some(v.buffer[v.pos].1) by {
      if v.pos < |v.buffer| {
        AssignedDistinct(v.gen, v.pulled);
        GetDistinct(v.buffer, v.pos);
      }
    }
    match KeyAt(v, v.pos)
    case None => Null
    case Some(k) =>
      match Get(v.buffer, k)
      case Some(x) => x
      case None => Null
  }

  /** Iterator `valid()`: the stored answer, which agrees with `key()`. */
  function IsValid(v: View): (r: bool)
    requires Inv(v)
    ensures r <==> CurrentKey(v).Some?
    ensures !r ==> Current(v) == Null
  {
    v.valid
  }

  /** Iterator `next()`: advance the cursor, producing only what the new position needs. */
  function Next(v: View): (r: View)
    requires Inv(v)
    ensures Inv(r)
    ensures r.gen == v.gen && r.pos == v.pos + 1
    ensures v.pulled <= r.pulled && KeysOf(v.buffer) <= KeysOf(r.buffer)
    ensures r.valid <==> v.pos + 1 < |r.buffer|
    ensures v.pos + 1 < |v.buffer| || v.done ==> r.buffer == v.buffer && r.pulled == v.pulled
    ensures v.done ==> r.done
  {
    var e := EnsureIndex(v.(pos := v.pos + 1), v.pos + 1);
    e.0.(valid := e.1)
  }

  /**
   Iterator `rewind()`: the cursor goes back to 0 but the producer does not;
   earlier entries are replayed from the buffer.
   */
  function Rewind(v: View): (r: View)
    requires Inv(v)
    ensures Inv(r)
    ensures r.gen == v.gen && r.pos == 0
    ensures v.pulled <= r.pulled && KeysOf(v.buffer) <= KeysOf(r.buffer)
    ensures 0 < |v.buffer| || v.done ==> r.buffer == v.buffer && r.pulled == v.pulled
    ensures r.valid <==> 0 < |Export(v)|
    ensures v.done ==> r.done
  {
    var e := EnsureIndex(v.(pos := 0), 0);
    var r := e.0.(valid := e.1);
    BufferIsExportPrefix(r);
    r
  }

  /** ArrayAccess `offsetExists`: after draining, whether the producer ever yielded `k`. */
  function OffsetExists(v: View, k: Key): (r: (View, bool))
    requires Inv(v)
    ensures MaterializedFrom(v, r.0)
    ensures r.1 <==> exists j :: 0 <= j < |v.gen| && v.gen[j].0 == k
  {
    var w := Materialize(v);
    FromSeqKeys(v.gen, k);
    assert k in KeysOf(v.gen) <==> exists j :: 0 <= j < |v.gen| && v.gen[j].0 == k by {
      if exists j :: 0 <= j < |v.gen| && v.gen[j].0 == k {
        var j :| 0 <= j < |v.gen| && v.gen[j].0 == k;
        assert KeysOf(v.gen)[j] == k;
      }
    }
    (w, k in KeysOf(w.buffer))
  }

  /**
   ArrayAccess `offsetGet`: after draining, the last value the producer
   yielded under `k`, null when it never yielded `k`.
   */
  function OffsetGet(v: View, k: Key): (r: (View, Value))
    requires Inv(v)
    ensures MaterializedFrom(v, r.0)
    ensures r.1 == match LastValue(v.gen, k) case Some(x) => x case None => Null
  {
    var w := Materialize(v);
    FromSeqLastWins(v.gen, k);
    (w, match Get(w.buffer, k) case Some(x) => x case None => Null)
  }

  /** ArrayAccess `offsetSet`: always refused, the view left as it was. */
  function OffsetSet(v: View, k: Key, x: Value): (r: (View, Outcome<Immutability>))
    ensures r.0 == v && r.1.Fail?
    ensures r.1.error.target == MatchesResult
  {
    (v, Fail(Immutable(MatchesResult)))
  }

  /** ArrayAccess `offsetUnset`: always refused, the view left as it was. */
  function OffsetUnset(v: View, k: Key): (r: (View, Outcome<Immutability>))
    ensures r.0 == v && r.1.Fail?
    ensures r.1.error.target == MatchesResult
  {
    (v, Fail(Immutable(MatchesResult)))
  }

  /** Countable `count`: the number of distinct keys the producer yields. */
  function Count(v: View): (r: (View, nat))
    requires Inv(v)
    ensures MaterializedFrom(v, r.0)
    ensures r.1 == |Export(v)| && r.1 <= |v.gen|
    ensures r.1 == |v.gen| <==> DistinctKeys(v.gen)
  {
    var w := Materialize(v);
    FromSeqDistinct(v.gen);
    FromSeqShrinks(v.gen);
    (w, |w.buffer|)
  }

  /**
   `toArray`: the whole export. Whatever the cursor has already walked over
   comes first, in the same order.
   */
  function ToArray(v: View): (r: (View, seq<Entry>))
    requires Inv(v)
    ensures MaterializedFrom(v, r.0)
    ensures r.1 == Export(v)
    ensures KeysOf(v.buffer) <= KeysOf(r.1)
  {
    var w := Materialize(v);
    (w, w.buffer)
  }

  /** `jsonSerialize`: the export, as `toArray` gives it. */
  function JsonSerialize(v: View): (r: (View, seq<Entry>))
    requires Inv(v)
    ensures r == ToArray(v)
  {
    ToArray(v)
  }

  /**
   The constructor: validate the flags (failing before any view exists),
   build the producer, put the cursor on 0 and prime the first entry.
   */
  function Construct(matches: seq<Entry>, flags: Flags, numeric: string -> bool): (r: Result<View, FlagError>)
    ensures r.Success? <==> ValidateFlags(flags).Pass?
    ensures r.Failure? ==> ValidateFlags(flags) == Fail(r.error)
    ensures r.Success? ==> Inv(r.value) && r.value.gen == Produce(matches, flags, numeric)
    ensures r.Success? ==> r.value.pos == 0 && r.value.pulled <= 1
    ensures r.Success? ==> (r.value.valid <==> 0 < |r.value.gen|)
  {
    match ValidateFlags(flags)
    case Fail(e) => Failure(e)
    case Pass =>
      var gen := Produce(matches, flags, numeric);
      var v := View(gen, 0, [], 0, false, false);
      var e := EnsureIndex(v, 0);
      assert 0 < |gen| ==> e.1 by {
        if 0 < |gen| {
          AssignedNonEmpty(gen, |gen|);
        }
      }
      Success(e.0.(valid := e.1))
  }

  /**
   The constructor with the flags argument left out: the default BOTH, which
   always validates, so the view always exists and its producer is the
   indexed phase followed by the non-strict associative phase.
   */
  function ConstructDefault(matches: seq<Entry>, numeric: string -> bool): (r: Result<View, FlagError>)
    ensures r == Construct(matches, Both, numeric)
    ensures r.Success? && r.value.pos == 0
    ensures r.value.gen == IndexedPhase(matches, false) + AssociativePhase(matches, false, numeric)
  {
    ProduceShapes(matches, numeric);
    Construct(matches, Both, numeric)
  }
}
