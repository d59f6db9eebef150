/**
 The eager, single-match result object (`Match_\Result`): a read-only
 wrapper around one raw capture record. Reads go straight to the record; the
 exported form keeps only the named groups when the record has any.
 */
module LegacyResult {
  import opened Wrappers
  import opened OrderedMap
  import opened Captures

  /** The pattern, the subject, the raw capture record and whether anything matched. */
  datatype MatchResult = MatchResult(pattern: string, haystack: string, matches: seq<Entry>, didMatch: bool)

  /** The first pass of `toArray`: is any key of the record a string? */
  function HasStringKey(m: seq<Entry>): (b: bool)
    ensures b <==> exists i :: 0 <= i < |m| && m[i].0.S?
    decreases |m|
  {
    if |m| == 0 then false
    else if m[0].0.S? then true
    else
      assert forall i :: 1 <= i < |m| ==> m[i] == m[1..][i - 1];
      HasStringKey(m[1..])
  }

  /**
   `toArray`: in named mode (some key is a string) the integer keys are
   skipped; every kept pair is assigned into a fresh array in record order.
   */
  function ToArray(r: MatchResult): (a: seq<Entry>)
    ensures DistinctKeys(a)
    ensures |a| <= |r.matches|
  {
    var kept := if HasStringKey(r.matches) then Filter(r.matches, StringKeys) else r.matches;
    FromSeqDistinct(kept);
    FromSeq(kept)
  }

  /** A key is exported exactly when it is in the record and the mode keeps it. */
  lemma ToArrayKeys(r: MatchResult, k: Key)
    ensures k in KeysOf(ToArray(r)) <==> k in KeysOf(r.matches) && (HasStringKey(r.matches) ==> k.S?)
  {
    var m := r.matches;
    var kept := if HasStringKey(m) then Filter(m, StringKeys) else m;
    FromSeqKeys(kept, k);
    if HasStringKey(m) {
      if k in KeysOf(kept) {
        var j :| 0 <= j < |kept| && kept[j].0 == k;
        assert kept[j] in m;
      }
      if k in KeysOf(m) && k.S? {
        var j :| 0 <= j < |m| && m[j].0 == k;
        assert m[j] in kept;
      }
    }
  }

  /**
   On a real PHP array (no key twice) the export is the record itself in
   indexed mode, and exactly its string-keyed pairs, in order, in named mode.
   */
  lemma ToArrayOfArray(r: MatchResult)
    requires DistinctKeys(r.matches)
    ensures !HasStringKey(r.matches) ==> ToArray(r) == r.matches
    ensures HasStringKey(r.matches) ==> ToArray(r) == Filter(r.matches, StringKeys)
  {
    var m := r.matches;
    if HasStringKey(m) {
      FilterKeepsDistinct(m, StringKeys);
      FromSeqOfDistinct(Filter(m, StringKeys));
    } else {
      FromSeqOfDistinct(m);
    }
  }

  /**
   The export keeps the record's mode: named exports hold only string keys
   (and at least one), indexed exports hold none.
   */
  lemma ExportKeepsMode(r: MatchResult)
    ensures HasStringKey(r.matches) ==> HasStringKey(ToArray(r))
    ensures HasStringKey(r.matches) ==> forall j :: 0 <= j < |ToArray(r)| ==> ToArray(r)[j].0.S?
    ensures !HasStringKey(r.matches) ==> !HasStringKey(ToArray(r))
  {
    var m, a := r.matches, ToArray(r);
    if HasStringKey(m) {
      var i :| 0 <= i < |m| && m[i].0.S?;
      ToArrayKeys(r, m[i].0);
      var j :| 0 <= j < |a| && a[j].0 == m[i].0;
    }
    forall j | 0 <= j < |a| ensures HasStringKey(m) || !a[j].0.S?
                            ensures HasStringKey(m) ==> a[j].0.S? {
      ToArrayKeys(r, a[j].0);
    }
  }

  /** Exporting an export changes nothing: the mode it picks keeps every pair. */
  lemma ToArrayIdempotent(r: MatchResult)
    ensures ToArray(r.(matches := ToArray(r))) == ToArray(r)
  {
    var a := ToArray(r);
    ExportKeepsMode(r);
    if HasStringKey(a) {
      FilterKeepsAll(a, StringKeys);
    }
    FromSeqOfDistinct(a);
  }

  /** `count`: the size of the raw record, integer keys included. */
  function Count(r: MatchResult): (n: nat)
    ensures n == |r.matches|
  {
    |r.matches|
  }

  /**
   `count` and `toArray` disagree in named mode: the count includes the
   numbered groups the export drops. They agree exactly when the record is in
   indexed mode or has no integer key at all.
   */
  lemma CountVersusExport(r: MatchResult)
    requires DistinctKeys(r.matches)
    ensures |ToArray(r)| <= Count(r)
    ensures |ToArray(r)| == Count(r) <==>
      !HasStringKey(r.matches) || forall j :: 0 <= j < |r.matches| ==> r.matches[j].0.S?
  {
    ToArrayOfArray(r);
    FilterKeepsAll(r.matches, StringKeys);
  }

  /** `offsetGet`: the stored value; a missing key reads as null (PHP warns). */
  function OffsetGet(r: MatchResult, k: Key): (x: Value)
    ensures k !in KeysOf(r.matches) ==> x == Null
  {
    GetMissing(r.matches, k);
    match Get(r.matches, k)
    case Some(y) => y
    case None => Null
  }

  /** On a real PHP array every key reads its own value. */
  lemma OffsetGetReadsEntry(r: MatchResult, i: nat)
    requires DistinctKeys(r.matches) && i < |r.matches|
    ensures OffsetGet(r, r.matches[i].0) == r.matches[i].1
  {
    GetDistinct(r.matches, i);
  }

  /** `offsetExists` is `isset`: the key is present and its value is not null. */
  function OffsetExists(r: MatchResult, k: Key): (b: bool)
    ensures b <==> k in KeysOf(r.matches) && OffsetGet(r, k) != Null
  {
    GetMissing(r.matches, k);
    match Get(r.matches, k)
    case Some(y) => y != Null
    case None => false
  }

  /** An unmatched group (stored as null) is not `isset`, though its key exists. */
  lemma UnmatchedGroupIsNotSet(r: MatchResult, i: nat)
    requires DistinctKeys(r.matches) && i < |r.matches| && r.matches[i].1 == Null
    ensures r.matches[i].0 in KeysOf(r.matches)
    ensures !OffsetExists(r, r.matches[i].0)
  {
    OffsetGetReadsEntry(r, i);
  }

  /** `offsetSet`: always refused; the result is unchanged. */
  function OffsetSet(r: MatchResult, k: Key, x: Value): (out: (MatchResult, Outcome<Immutability>))
    ensures out.0 == r && out.1.Fail? && out.1.error.target == LegacyMatchResult
  {
    (r, Fail(Immutable(LegacyMatchResult)))
  }

  /** `offsetUnset`: always refused; the result is unchanged. */
  function OffsetUnset(r: MatchResult, k: Key): (out: (MatchResult, Outcome<Immutability>))
    ensures out.0 == r && out.1.Fail? && out.1.error.target == LegacyMatchResult
  {
    (r, Fail(Immutable(LegacyMatchResult)))
  }

  /** `jsonSerialize`: the export, as `toArray` gives it. */
  function JsonSerialize(r: MatchResult): (a: seq<Entry>)
    ensures a == ToArray(r)
  {
    ToArray(r)
  }
}
