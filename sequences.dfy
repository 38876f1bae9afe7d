/** Iterator adaptors the pipeline uses: `filter(..).collect()` and order-preserving selection. */
module Sequences {

  /**
   * `idx` picks `r` out of `s` in order: `r[k]` is `s[idx[k]]` and the
   * positions strictly increase.
   */
  ghost predicate Subsequence<T>(s: seq<T>, r: seq<T>, idx: seq<nat>)
  {
    && |idx| == |r|
    && (forall k :: 0 <= k < |idx| ==> idx[k] < |s| && r[k] == s[idx[k]])
    && (forall k, l :: 0 <= k < l < |idx| ==> idx[k] < idx[l])
  }

  /** `iter.filter(keep).collect()`. */
  function Filter<T>(s: seq<T>, keep: T -> bool): (r: seq<T>)
    ensures |r| <= |s|
    ensures forall k :: 0 <= k < |r| ==> keep(r[k])
    decreases |s|
  {
    if s == [] then []
    else
      var rest := Filter(s[..|s| - 1], keep);
      if keep(s[|s| - 1]) then rest + [s[|s| - 1]] else rest
  }

  /** The filtered sequence is exactly the kept elements, in their original order. */
  lemma {:induction false} FilterSelects<T>(s: seq<T>, keep: T -> bool) returns (idx: seq<nat>)
    ensures Subsequence(s, Filter(s, keep), idx)
    ensures forall i :: 0 <= i < |s| ==> (i in idx <==> keep(s[i]))
    decreases |s|
  {
    if s == [] {
      idx := [];
    } else {
      var pidx := FilterSelects(s[..|s| - 1], keep);
      idx := FilterSelectsStep(s, keep, pidx);
    }
  }

  /** The inductive step of `FilterSelects`: extend the selection of the prefix by the last element. */
  lemma FilterSelectsStep<T>(s: seq<T>, keep: T -> bool, pidx: seq<nat>) returns (idx: seq<nat>)
    requires |s| > 0
    requires Subsequence(s[..|s| - 1], Filter(s[..|s| - 1], keep), pidx)
    requires forall i :: 0 <= i < |s| - 1 ==> (i in pidx <==> keep(s[..|s| - 1][i]))
    ensures Subsequence(s, Filter(s, keep), idx)
    ensures forall i :: 0 <= i < |s| ==> (i in idx <==> keep(s[i]))
  {
    var n := |s| - 1;
    var prefix := s[..n];
    assert Filter(s, keep) == if keep(s[n]) then Filter(prefix, keep) + [s[n]] else Filter(prefix, keep);
    idx := SubsequenceGrow(s, Filter(prefix, keep), pidx, keep(s[n]));
    forall i | 0 <= i < |s|
      ensures i in idx <==> keep(s[i])
    {
      if i < n {
        assert prefix[i] == s[i];
      }
    }
  }

  /**
   * A selection from all but the last element of `s` is a selection from
   * `s`, and may take that last element as well.
   */
  lemma SubsequenceGrow<T>(s: seq<T>, r: seq<T>, idx: seq<nat>, take: bool) returns (idx2: seq<nat>)
    requires |s| > 0 && Subsequence(s[..|s| - 1], r, idx)
    ensures Subsequence(s, if take then r + [s[|s| - 1]] else r, idx2)
    ensures forall i :: 0 <= i < |s| - 1 ==> (i in idx2 <==> i in idx)
    ensures |s| - 1 in idx2 <==> take
  {
    var n := |s| - 1;
    forall k | 0 <= k < |idx|
      ensures idx[k] < n && r[k] == s[idx[k]]
    {
      assert s[..n][idx[k]] == s[idx[k]];
    }
    assert n !in idx;
    if take {
      idx2 := idx + [n];
      forall i | 0 <= i <= n
        ensures i in idx2 <==> i in idx || i == n
      {
        assert i in idx2 <==> i in idx || i in [n];
      }
      forall k | 0 <= k < |idx2|
        ensures idx2[k] < |s| && (r + [s[n]])[k] == s[idx2[k]]
      {
        if k < |idx| {
          assert idx2[k] == idx[k];
        }
      }
    } else {
      idx2 := idx;
    }
  }
}
