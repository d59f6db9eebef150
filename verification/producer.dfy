/**
 The producer behind a match result: the ordered (key, value) pairs the view
 exposes for a capture record and a flag word. The source yields them lazily
 from a generator; here the whole output is a sequence and laziness lives in
 the view, which counts how many of these pairs it has pulled.
 */
module Producer {
  import opened OrderedMap
  import opened MapConcat
  import opened Captures
  import opened ResultTypes

  /** The entries the indexed phase walks: every entry, or under Strict only integer keys. */
  function IndexedSource(m: seq<Entry>, strict: bool): seq<Entry> {
    if strict then Filter(m, IntKeys) else m
  }

  /** The values of `s` under consecutive integer keys from `next` on. */
  function Numbered(s: seq<Entry>, next: int): (r: seq<Entry>)
    ensures |r| == |s|
    ensures forall j :: 0 <= j < |r| ==> r[j] == (I(next + j), s[j].1)
    decreases |s|
  {
    if |s| == 0 then [] else [(I(next), s[0].1)] + Numbered(s[1..], next + 1)
  }

  /**
   The indexed phase from counter value `next` on, walking the record as the
   source's loop does: under Strict a non-integer key is skipped, every other
   entry is yielded under the counter, which then advances.
   */
  function IndexedFrom(m: seq<Entry>, strict: bool, next: int): (r: seq<Entry>)
    ensures r == Numbered(IndexedSource(m, strict), next)
    decreases |m|
  {
    if |m| == 0 then []
    else if strict && !m[0].0.I? then
      assert IndexedSource(m, strict) == IndexedSource(m[1..], strict);
      IndexedFrom(m[1..], strict, next)
    else
      var rest := IndexedFrom(m[1..], strict, next + 1);
      var src := IndexedSource(m, strict);
      assert src == [m[0]] + IndexedSource(m[1..], strict);
      assert src[1..] == IndexedSource(m[1..], strict);
      [(I(next), m[0].1)] + rest
  }

  /**
   The indexed phase: the kept entries' values under keys 0, 1, 2, ... in
   record order. Without Strict every entry is kept, named ones included.
   */
  function IndexedPhase(m: seq<Entry>, strict: bool): (r: seq<Entry>)
    ensures |r| == |IndexedSource(m, strict)|
    ensures forall j :: 0 <= j < |r| ==> r[j] == (I(j), IndexedSource(m, strict)[j].1)
  {
    IndexedFrom(m, strict, 0)
  }

  /** The indexed phase never repeats a key. */
  lemma IndexedPhaseDistinct(m: seq<Entry>, strict: bool)
    ensures DistinctKeys(IndexedPhase(m, strict))
  {
  }

  /** PHP's `is_numeric` on a key: every integer is numeric, a string is when `numeric` says so. */
  predicate IsNumericKey(k: Key, numeric: string -> bool) {
    match k
    case I(_) => true
    case S(s) => numeric(s)
  }

  /** The text of a key, as PHP's string concatenation renders it. */
  function KeyText(k: Key): string {
    match k
    case I(n) => IntToDecimal(n)
    case S(s) => s
  }

  /** The associative name of a key: numeric keys become `result_<key>`, names stay. */
  function Renamed(k: Key, numeric: string -> bool): (r: Key)
    ensures r.S?
    ensures Selects(PlainNames(numeric), k) ==> r == k
  {
    if IsNumericKey(k, numeric) then S("result_" + KeyText(k)) else k
  }

  /**
   The associative phase. Under Strict it keeps exactly the string keys that
   are not numeric, unchanged; otherwise it keeps every entry and renames the
   numeric keys.
   */
  function AssociativePhase(m: seq<Entry>, strict: bool, numeric: string -> bool): (r: seq<Entry>)
    ensures strict ==> r == Filter(m, PlainNames(numeric))
    ensures !strict ==> |r| == |m|
    ensures !strict ==> forall j :: 0 <= j < |r| ==> r[j] == (Renamed(m[j].0, numeric), m[j].1)
    ensures forall j :: 0 <= j < |r| ==> r[j].0.S?
    decreases |m|
  {
    if |m| == 0 then []
    else
      var k, v := m[0].0, m[0].1;
      if strict && (IsNumericKey(k, numeric) || !k.S?) then AssociativePhase(m[1..], strict, numeric)
      else [(Renamed(k, numeric), v)] + AssociativePhase(m[1..], strict, numeric)
  }

  /**
   The generator built from the flags: the indexed phase when its bit is set
   (stopping there unless both type bits are set), then the associative phase
   when its bit is set.
   */
  function Produce(m: seq<Entry>, flags: Flags, numeric: string -> bool): (r: seq<Entry>)
    ensures r == (if flags & Indexed != 0 then IndexedPhase(m, flags & Strict != 0) else [])
               + (if flags & Associative != 0 then AssociativePhase(m, flags & Strict != 0, numeric) else [])
  {
    var typeBits := flags & TypeMask;
    var strict := flags & Strict != 0;
    var isBoth := typeBits == Both;
    var indexed := if typeBits & Indexed != 0 then IndexedPhase(m, strict) else [];
    if typeBits & Indexed != 0 && !isBoth then indexed
    else indexed + (if typeBits & Associative != 0 then AssociativePhase(m, strict, numeric) else [])
  }

  /**
   The producer never yields a key twice when the associative phase is off,
   or when it runs under Strict over a record with distinct keys.
   */
  lemma ProducedKeysDistinct(m: seq<Entry>, flags: Flags, numeric: string -> bool)
    requires flags == Indexed || flags == Indexed | Strict || (flags == Associative | Strict && DistinctKeys(m))
    ensures DistinctKeys(Produce(m, flags, numeric))
  {
    if flags == Associative | Strict {
      FilterKeepsDistinct(m, PlainNames(numeric));
      assert Produce(m, flags, numeric) == AssociativePhase(m, true, numeric);
    } else {
      IndexedPhaseDistinct(m, flags & Strict != 0);
      assert Produce(m, flags, numeric) == IndexedPhase(m, flags & Strict != 0);
    }
  }

  /** The three non-strict flag words produce the two phases, alone or in sequence. */
  lemma ProduceShapes(m: seq<Entry>, numeric: string -> bool)
    ensures Produce(m, Indexed, numeric) == IndexedPhase(m, false)
    ensures Produce(m, Associative, numeric) == AssociativePhase(m, false, numeric)
    ensures Produce(m, Both, numeric) == IndexedPhase(m, false) + AssociativePhase(m, false, numeric)
  {
    assert Indexed & Strict == 0 && Associative & Strict == 0 && Both & Strict == 0;
    assert Indexed & Associative == 0 && Associative & Indexed == 0;
  }

  /**
   With both type bits set the exported map is the Indexed-only export
   followed by the Associative-only export; the first has only integer keys
   and the second only string keys, so no key is in both.
   */
  lemma BothExportIsDisjointUnion(m: seq<Entry>, numeric: string -> bool)
    ensures FromSeq(Produce(m, Both, numeric))
         == FromSeq(Produce(m, Indexed, numeric)) + FromSeq(Produce(m, Associative, numeric))
    ensures forall k :: k in KeysOf(FromSeq(Produce(m, Indexed, numeric))) ==> k.I?
    ensures forall k :: k in KeysOf(FromSeq(Produce(m, Associative, numeric))) ==> k.S?
  {
    var a, b := IndexedPhase(m, false), AssociativePhase(m, false, numeric);
    ProduceShapes(m, numeric);
    forall i | 0 <= i < |b| ensures b[i].0 !in KeysOf(a) {
      assert forall j :: 0 <= j < |a| ==> KeysOf(a)[j].I?;
    }
    FromSeqAppend(a, b);
    forall k | k in KeysOf(FromSeq(a)) ensures k.I? {
      FromSeqKeys(a, k);
    }
    forall k | k in KeysOf(FromSeq(b)) ensures k.S? {
      FromSeqKeys(b, k);
    }
  }

  /**
   Without Strict, a group named `result_1` and group 1 both end up under the
   associative key `result_1`: the producer then yields that key twice.
   */
  lemma RenamedKeysCanCollide(numeric: string -> bool)
    requires !numeric("result_1")
    ensures var m := [(S("result_1"), Text("a")), (I(1), Text("b"))];
      && DistinctKeys(m)
      && Produce(m, Associative, numeric) == [(S("result_1"), Text("a")), (S("result_1"), Text("b"))]
      && !DistinctKeys(Produce(m, Associative, numeric))
  {
    var m := [(S("result_1"), Text("a")), (I(1), Text("b"))];
    assert IntToDecimal(1) == "1";
    assert Renamed(I(1), numeric) == S("result_1");
    assert Renamed(S("result_1"), numeric) == S("result_1");
    var r := AssociativePhase(m, false, numeric);
    assert r[0] == (S("result_1"), Text("a"));
    assert r[1] == (S("result_1"), Text("b"));
    assert Produce(m, Associative, numeric) == r;
    assert r[0].0 == r[1].0;
  }
}
