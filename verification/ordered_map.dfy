/**
 An insertion-ordered map with overwrite-in-place, as a PHP array behaves under
 `$a[$k] = $v`: a new key is appended at the end, an existing key keeps its
 position and only its value changes.
 */
module OrderedMap {
  import opened Wrappers

  /** The keys of an ordered map, in insertion order. */
  function KeysOf<K, V>(m: seq<(K, V)>): (ks: seq<K>)
    ensures |ks| == |m|
    ensures forall i :: 0 <= i < |m| ==> ks[i] == m[i].0
  {
    seq(|m|, i requires 0 <= i < |m| => m[i].0)
  }

  /**
   Reading a map from position `i` on: the entry at `i`, then the rest. If
   the rest has the keys from `i + 1` on, the whole has the keys from `i` on.
   */
  lemma KeysOfSuffix<K, V>(seen: seq<(K, V)>, rest: seq<(K, V)>, m: seq<(K, V)>, i: nat)
    requires i < |m| && 0 < |seen| && seen[0].0 == m[i].0 && seen[1..] == rest
    requires KeysOf(rest) == KeysOf(m)[i + 1..]
    ensures KeysOf(seen) == KeysOf(m)[i..]
  {
    assert KeysOf(seen) == [seen[0].0] + KeysOf(rest);
  }

  /** No key occurs twice: the shape of every PHP array. */
  predicate DistinctKeys<K(==, !new), V>(m: seq<(K, V)>) {
    forall i, j :: 0 <= i < j < |m| ==> m[i].0 != m[j].0
  }

  /** Lookup by key: the value of the first entry with key `k`. */
  function Get<K(==), V>(m: seq<(K, V)>, k: K): Option<V>
    decreases |m|
  {
    if |m| == 0 then None
    else if m[0].0 == k then Some(m[0].1)
    else Get(m[1..], k)
  }

  /** A key reads as missing exactly when it is not a key of the map. */
  lemma {:induction false} GetMissing<K(!new), V>(m: seq<(K, V)>, k: K)
    ensures Get(m, k).None? <==> k !in KeysOf(m)
    decreases |m|
  {
    if |m| > 0 {
      GetMissing(m[1..], k);
      assert KeysOf(m) == [m[0].0] + KeysOf(m[1..]);
    }
  }

  /** In a map every key reads its own entry. */
  lemma {:induction false} GetDistinct<K(!new), V>(m: seq<(K, V)>, i: nat)
    requires DistinctKeys(m) && i < |m|
    ensures Get(m, m[i].0) == Some(m[i].1)
    decreases i
  {
    if i > 0 {
      assert m[1..][i - 1] == m[i];
      assert DistinctKeys(m[1..]);
      GetDistinct(m[1..], i - 1);
    }
  }

  /** Assignment `m[k] = v`: a new key goes last, an existing key keeps its place. */
  function Put<K(==), V>(m: seq<(K, V)>, k: K, v: V): seq<(K, V)>
    decreases |m|
  {
    if |m| == 0 then [(k, v)]
    else if m[0].0 == k then [(k, v)] + m[1..]
    else [m[0]] + Put(m[1..], k, v)
  }

  /** Assignment never reorders keys; it appends `k` exactly when `k` is new. */
  lemma {:induction false} PutKeys<K(!new), V>(m: seq<(K, V)>, k: K, v: V)
    ensures KeysOf(Put(m, k, v)) == if k in KeysOf(m) then KeysOf(m) else KeysOf(m) + [k]
    decreases |m|
  {
    if |m| > 0 {
      PutKeys(m[1..], k, v);
      assert KeysOf(m) == [m[0].0] + KeysOf(m[1..]);
      if m[0].0 != k {
        assert KeysOf(Put(m, k, v)) == [m[0].0] + KeysOf(Put(m[1..], k, v));
      } else {
        assert KeysOf(Put(m, k, v)) == [k] + KeysOf(m[1..]);
      }
    }
  }

  /** Assignment adds at most one entry. */
  lemma {:induction false} PutLength<K(!new), V>(m: seq<(K, V)>, k: K, v: V)
    ensures |m| <= |Put(m, k, v)| <= |m| + 1
    ensures 0 < |Put(m, k, v)|
    decreases |m|
  {
    if |m| > 0 {
      PutLength(m[1..], k, v);
    }
  }

  /** Assignment keeps the keys of a map distinct. */
  lemma PutDistinct<K(!new), V>(m: seq<(K, V)>, k: K, v: V)
    requires DistinctKeys(m)
    ensures DistinctKeys(Put(m, k, v))
  {
    var r := Put(m, k, v);
    PutKeys(m, k, v);
    forall i, j | 0 <= i < j < |r| ensures r[i].0 != r[j].0 {
      assert KeysOf(r)[i] == r[i].0 && KeysOf(r)[j] == r[j].0;
      if j == |m| {
        assert KeysOf(m)[i] == r[i].0;
      } else {
        assert KeysOf(m)[i] == r[i].0 && KeysOf(m)[j] == r[j].0;
      }
    }
  }

  /** After `m[k] = v`, `k` reads `v` and every other key reads as before. */
  lemma {:induction false} PutGet<K(!new), V>(m: seq<(K, V)>, k: K, v: V, k': K)
    ensures Get(Put(m, k, v), k') == if k' == k then Some(v) else Get(m, k')
    decreases |m|
  {
    if |m| > 0 && m[0].0 != k {
      PutGet(m[1..], k, v, k');
      assert Put(m, k, v)[1..] == Put(m[1..], k, v);
    } else if |m| > 0 {
      assert Put(m, k, v)[1..] == m[1..];
    }
  }

  /** Assigning a key that `x` lacks into `x + y` only touches the `y` part. */
  lemma {:induction false} PutAfter<K(!new), V>(x: seq<(K, V)>, y: seq<(K, V)>, k: K, v: V)
    requires k !in KeysOf(x)
    ensures Put(x + y, k, v) == x + Put(y, k, v)
    decreases |x|
  {
    if |x| > 0 {
      assert (x + y)[1..] == x[1..] + y;
      assert KeysOf(x) == [x[0].0] + KeysOf(x[1..]);
      PutAfter(x[1..], y, k, v);
      assert x + Put(y, k, v) == [x[0]] + (x[1..] + Put(y, k, v));
    } else {
      assert x + y == y;
    }
  }

  /** A key new to the map is appended at the end. */
  lemma PutNew<K(!new), V>(m: seq<(K, V)>, k: K, v: V)
    requires k !in KeysOf(m)
    ensures Put(m, k, v) == m + [(k, v)]
  {
    PutAfter(m, [], k, v);
    assert m + [] == m;
  }

  /** The map after assigning the first `n` pairs of `p`, left to right, into the empty map. */
  function Assigned<K(==), V>(p: seq<(K, V)>, n: nat): seq<(K, V)>
    requires n <= |p|
    decreases n
  {
    if n == 0 then [] else Put(Assigned(p, n - 1), p[n - 1].0, p[n - 1].1)
  }

  /** One assignment step, stated once so that callers need not unfold `Assigned`. */
  lemma AssignedStep<K(!new), V>(p: seq<(K, V)>, n: nat)
    requires 0 < n <= |p|
    ensures Assigned(p, n) == Put(Assigned(p, n - 1), p[n - 1].0, p[n - 1].1)
  {
  }

  /** Assignment builds a map: no key twice. */
  lemma {:induction false} AssignedDistinct<K(!new), V>(p: seq<(K, V)>, n: nat)
    requires n <= |p|
    ensures DistinctKeys(Assigned(p, n))
    decreases n
  {
    if n > 0 {
      AssignedDistinct(p, n - 1);
      AssignedStep(p, n);
      var m, e := Assigned(p, n - 1), p[n - 1];
      PutDistinct(m, e.0, e.1);
    }
  }

  /** The map is never longer than the number of pairs assigned. */
  lemma {:induction false} AssignedLength<K(!new), V>(p: seq<(K, V)>, n: nat)
    requires n <= |p|
    ensures |Assigned(p, n)| <= n
    decreases n
  {
    if n > 0 {
      AssignedLength(p, n - 1);
      AssignedStep(p, n);
      var m, e := Assigned(p, n - 1), p[n - 1];
      PutLength(m, e.0, e.1);
    }
  }

  /** The keys of the map are exactly the keys assigned. */
  lemma {:induction false} AssignedKeys<K(!new), V>(p: seq<(K, V)>, n: nat, k: K)
    requires n <= |p|
    ensures k in KeysOf(Assigned(p, n)) <==> k in KeysOf(p[..n])
    decreases n
  {
    if n > 0 {
      AssignedKeys(p, n - 1, k);
      AssignedStep(p, n);
      var m, e := Assigned(p, n - 1), p[n - 1];
      PutKeys(m, e.0, e.1);
      assert KeysOf(p[..n]) == KeysOf(p[..n - 1]) + [e.0];
    }
  }

  /** The map built by assigning every pair of `p`. */
  function FromSeq<K(==), V>(p: seq<(K, V)>): seq<(K, V)> {
    Assigned(p, |p|)
  }

  /** The map built from `p` has distinct keys and at most `|p|` entries. */
  lemma FromSeqDistinct<K(!new), V>(p: seq<(K, V)>)
    ensures DistinctKeys(FromSeq(p))
    ensures |FromSeq(p)| <= |p|
  {
    AssignedDistinct(p, |p|);
    AssignedLength(p, |p|);
  }

  /** Pulling some key twice among the first `n` pairs leaves fewer than `n` entries. */
  lemma {:induction false} AssignedShrinks<K(!new), V>(p: seq<(K, V)>, n: nat, i: nat, j: nat)
    requires i < j < n <= |p| && p[i].0 == p[j].0
    ensures |Assigned(p, n)| < n
    decreases n
  {
    AssignedStep(p, n);
    var m, e := Assigned(p, n - 1), p[n - 1];
    PutLength(m, e.0, e.1);
    if j < n - 1 {
      AssignedShrinks(p, n - 1, i, j);
    } else {
      AssignedLength(p, n - 1);
      assert KeysOf(p[..n - 1])[i] == e.0;
      AssignedKeys(p, n - 1, e.0);
      PutKeys(m, e.0, e.1);
    }
  }

  /** The map built from `p` is strictly shorter than `p` exactly when `p` repeats a key. */
  lemma FromSeqShrinks<K(!new), V>(p: seq<(K, V)>)
    ensures |FromSeq(p)| < |p| <==> !DistinctKeys(p)
  {
    if !DistinctKeys(p) {
      var i, j :| 0 <= i < j < |p| && p[i].0 == p[j].0;
      AssignedShrinks(p, |p|, i, j);
    } else {
      FromSeqOfDistinct(p);
    }
  }

  /** The keys of the map built from `p` are the keys of `p`. */
  lemma FromSeqKeys<K(!new), V>(p: seq<(K, V)>, k: K)
    ensures k in KeysOf(FromSeq(p)) <==> k in KeysOf(p)
  {
    AssignedKeys(p, |p|, k);
    assert p[..|p|] == p;
  }

  /** The map built from a prefix only depends on that prefix. */
  lemma {:induction false} AssignedPrefix<K(!new), V>(p: seq<(K, V)>, q: seq<(K, V)>, n: nat)
    requires n <= |p| && n <= |q| && p[..n] == q[..n]
    ensures Assigned(p, n) == Assigned(q, n)
    decreases n
  {
    if n > 0 {
      assert p[n - 1] == p[..n][n - 1] == q[..n][n - 1] == q[n - 1];
      assert p[..n - 1] == p[..n][..n - 1];
      assert q[..n - 1] == q[..n][..n - 1];
      AssignedPrefix(p, q, n - 1);
    }
  }

  /** The value of the last pair with key `k`, scanning `p` from the right. */
  function LastValue<K(==), V>(p: seq<(K, V)>, k: K): Option<V>
    decreases |p|
  {
    if |p| == 0 then None
    else if p[|p| - 1].0 == k then Some(p[|p| - 1].1)
    else LastValue(p[..|p| - 1], k)
  }

  lemma {:induction false} AssignedLastWins<K(!new), V>(p: seq<(K, V)>, n: nat, k: K)
    requires n <= |p|
    ensures Get(Assigned(p, n), k) == LastValue(p[..n], k)
    decreases n
  {
    if n > 0 {
      assert p[..n][..n - 1] == p[..n - 1];
      AssignedLastWins(p, n - 1, k);
      PutGet(Assigned(p, n - 1), p[n - 1].0, p[n - 1].1, k);
    }
  }

  /** Later assignments win: a key maps to the value of its last assignment. */
  lemma FromSeqLastWins<K(!new), V>(p: seq<(K, V)>, k: K)
    ensures Get(FromSeq(p), k) == LastValue(p, k)
  {
    AssignedLastWins(p, |p|, k);
    assert p[..|p|] == p;
  }

  lemma {:induction false} AssignedOfDistinct<K(!new), V>(p: seq<(K, V)>, n: nat)
    requires n <= |p|
    requires DistinctKeys(p)
    ensures Assigned(p, n) == p[..n]
    decreases n
  {
    if n > 0 {
      AssignedOfDistinct(p, n - 1);
      var m, e := p[..n - 1], p[n - 1];
      assert e.0 !in KeysOf(m);
      PutNew(m, e.0, e.1);
      assert m + [e] == p[..n];
    }
  }

  /** Assigning pairs whose keys are already distinct rebuilds them unchanged. */
  lemma FromSeqOfDistinct<K(!new), V>(p: seq<(K, V)>)
    requires DistinctKeys(p)
    ensures FromSeq(p) == p
  {
    AssignedOfDistinct(p, |p|);
    assert p[..|p|] == p;
  }

  /**
   Assigning more pairs never removes or reorders keys: the key sequence of the
   map built from a shorter prefix is a prefix of the one built from a longer.
   */
  lemma {:induction false} FromSeqPrefixKeys<K(!new), V>(p: seq<(K, V)>, i: nat, j: nat)
    requires i <= j <= |p|
    ensures KeysOf(Assigned(p, i)) <= KeysOf(Assigned(p, j))
    decreases j - i
  {
    if i < j {
      FromSeqPrefixKeys(p, i, j - 1);
      AssignedStep(p, j);
      var a, b, c := Assigned(p, i), Assigned(p, j - 1), Assigned(p, j);
      PutKeys(b, p[j - 1].0, p[j - 1].1);
      PrefixTransitive(KeysOf(a), KeysOf(b), KeysOf(c));
    }
  }

  lemma PrefixTransitive<T>(a: seq<T>, b: seq<T>, c: seq<T>)
    requires a <= b && b <= c
    ensures a <= c
  {
    assert c[..|b|][..|a|] == c[..|a|];
  }
}
