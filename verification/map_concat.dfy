/**
 Concatenation of ordered maps over disjoint key sets: the fact behind the
 exported record of a BOTH-mode result, whose indexed part and named part
 never share a key.
 */
module MapConcat {
  import opened OrderedMap

  /**
   Assigning the pairs of `a + b` one by one: once `a` is done the map is the
   map of `a`, and each pair of `b` after that only extends the `b` part.
   */
  lemma {:induction false} AssignedAppend<K(!new), V>(a: seq<(K, V)>, b: seq<(K, V)>, n: nat)
    requires n <= |b|
    requires forall i :: 0 <= i < |b| ==> b[i].0 !in KeysOf(a)
    ensures Assigned(a + b, |a| + n) == FromSeq(a) + Assigned(b, n)
    decreases n
  {
    if n == 0 {
      assert (a + b)[..|a|] == a[..|a|];
      AssignedPrefix(a + b, a, |a|);
      assert FromSeq(a) + Assigned(b, n) == FromSeq(a);
    } else {
      AssignedAppend(a, b, n - 1);
      AppendStep(a, b, n);
    }
  }

  /** The inductive step of `AssignedAppend`: one more pair of `b`. */
  lemma AppendStep<K(!new), V>(a: seq<(K, V)>, b: seq<(K, V)>, n: nat)
    requires 0 < n <= |b|
    requires b[n - 1].0 !in KeysOf(a)
    requires Assigned(a + b, |a| + (n - 1)) == FromSeq(a) + Assigned(b, n - 1)
    ensures Assigned(a + b, |a| + n) == FromSeq(a) + Assigned(b, n)
  {
    var e := b[n - 1];
    assert (a + b)[|a| + n - 1] == e;
    AssignedStep(a + b, |a| + n);
    AssignedStep(b, n);
    FromSeqKeys(a, e.0);
    PutAfter(FromSeq(a), Assigned(b, n - 1), e.0, e.1);
  }

  /**
   When the keys of `b` are all new to `a`, the map built from `a + b` is the
   map built from `a` followed by the map built from `b`.
   */
  lemma FromSeqAppend<K(!new), V>(a: seq<(K, V)>, b: seq<(K, V)>)
    requires forall i :: 0 <= i < |b| ==> b[i].0 !in KeysOf(a)
    ensures FromSeq(a + b) == FromSeq(a) + FromSeq(b)
  {
    AssignedAppend(a, b, |b|);
    assert |a + b| == |a| + |b|;
  }
}
