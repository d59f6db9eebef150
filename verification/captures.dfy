/**
 The raw capture record of one regular-expression match: an ordered PHP array
 from capture key (group number or group name) to captured value.
 */
module Captures {
  import opened OrderedMap

  /**
   A PHP array key. Integer-looking strings are turned into integers by PHP
   itself, so a key is either an integer or a string that PHP kept as text.
   */
  datatype Key = I(n: int) | S(s: string)

  /**
   A captured value: text, the null marker of an unmatched group, or, when
   offsets were requested, the text with its byte offset in the haystack.
   */
  datatype Value = Null | Text(text: string) | Located(text: string, offset: int)

  type Entry = (Key, Value)

  /** The error raised by every write through a read-only result view. */
  datatype Immutability = Immutable(target: ResultClass)

  /** The two read-only result classes that can raise it. */
  datatype ResultClass = MatchesResult | LegacyMatchResult

  /** Which keys a filter keeps. */
  datatype Selector =
    | IntKeys
    | StringKeys
      /** String keys that the given `is_numeric` test rejects. */
    | PlainNames(numeric: string -> bool)

  predicate Selects(sel: Selector, k: Key) {
    match sel
    case IntKeys => k.I?
    case StringKeys => k.S?
    case PlainNames(numeric) => k.S? && !numeric(k.s)
  }

  /** The entries of `m` whose key `sel` keeps, in their original order. */
  function Filter(m: seq<Entry>, sel: Selector): (r: seq<Entry>)
    ensures |r| <= |m|
    ensures forall j :: 0 <= j < |r| ==> Selects(sel, r[j].0)
    ensures forall e :: e in r <==> e in m && Selects(sel, e.0)
    decreases |m|
  {
    if |m| == 0 then []
    else if Selects(sel, m[0].0) then [m[0]] + Filter(m[1..], sel)
    else Filter(m[1..], sel)
  }

  /** Filtering keeps distinct keys distinct. */
  lemma {:induction false} FilterKeepsDistinct(m: seq<Entry>, sel: Selector)
    requires DistinctKeys(m)
    ensures DistinctKeys(Filter(m, sel))
    decreases |m|
  {
    if |m| > 0 {
      assert DistinctKeys(m[1..]);
      FilterKeepsDistinct(m[1..], sel);
      var rest := Filter(m[1..], sel);
      forall j | 0 <= j < |rest| ensures rest[j].0 != m[0].0 {
        assert rest[j] in m[1..];
      }
    }
  }

  /** A filter drops nothing exactly when it keeps every key. */
  lemma {:induction false} FilterKeepsAll(m: seq<Entry>, sel: Selector)
    ensures |Filter(m, sel)| == |m| <==> forall j :: 0 <= j < |m| ==> Selects(sel, m[j].0)
    ensures (forall j :: 0 <= j < |m| ==> Selects(sel, m[j].0)) ==> Filter(m, sel) == m
    decreases |m|
  {
    if |m| > 0 {
      FilterKeepsAll(m[1..], sel);
      if !Selects(sel, m[0].0) {
        assert |Filter(m, sel)| < |m|;
      }
      if forall j :: 0 <= j < |m| ==> Selects(sel, m[j].0) {
        assert forall j :: 0 <= j < |m[1..]| ==> Selects(sel, m[1..][j].0) by {
          forall j | 0 <= j < |m[1..]| ensures Selects(sel, m[1..][j].0) {
            assert m[1..][j] == m[j + 1];
          }
        }
        assert [m[0]] + m[1..] == m;
      }
    }
  }

  /** The decimal digit for `d`. */
  function DigitChar(d: nat): char
    requires d < 10
  {
    "0123456789"[d]
  }

  /** The decimal text of a natural number, without leading zeros. */
  function NatToDecimal(n: nat): string
    decreases n
  {
    if n < 10 then [DigitChar(n)] else NatToDecimal(n / 10) + [DigitChar(n % 10)]
  }

  /** PHP's conversion of an integer to a string, as string concatenation does. */
  function IntToDecimal(n: int): string {
    if n < 0 then "-" + NatToDecimal(-n) else NatToDecimal(n)
  }
}
