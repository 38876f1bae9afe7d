/**
 * `Vec::dedup_by(|a, b| a.serial_number() == b.serial_number())`: collapse
 * each run of consecutive records with equal serial numbers (`Option`
 * equality, so two records without a serial are equal) to its first record.
 */
module Dedup {
  import opened Wrappers
  import opened Devices
  import opened Sequences

  /** The predicate handed to `dedup_by`. */
  predicate SameSerial(a: HidDevice, b: HidDevice) {
    a.serialNumber == b.serialNumber
  }

  /**
   * The records `dedup_by` retains, read left to right: a record is dropped
   * when its serial equals that of the last record retained so far.
   */
  function DedupBySerial(s: seq<HidDevice>): (r: seq<HidDevice>)
    ensures |r| <= |s|
    ensures |s| > 0 ==> |r| > 0 && SameSerial(r[|r| - 1], s[|s| - 1])
    decreases |s|
  {
    if |s| == 0 then []
    else
      var kept := DedupBySerial(s[..|s| - 1]);
      if |kept| > 0 && SameSerial(s[|s| - 1], kept[|kept| - 1]) then kept
      else kept + [s[|s| - 1]]
  }

  /** Position `i` begins a run of equal serials. */
  predicate RunStart(s: seq<HidDevice>, i: nat)
    requires i < |s|
  {
    i == 0 || !SameSerial(s[i - 1], s[i])
  }

  /**
   * The result is an order-preserving subsequence that keeps exactly the
   * first record of every run of equal serials.
   */
  lemma {:induction false} DedupKeepsRunStarts(s: seq<HidDevice>) returns (idx: seq<nat>)
    ensures Subsequence(s, DedupBySerial(s), idx)
    ensures forall i :: 0 <= i < |s| ==> (i in idx <==> RunStart(s, i))
    decreases |s|
  {
    if s == [] {
      idx := [];
    } else {
      var pidx := DedupKeepsRunStarts(s[..|s| - 1]);
      idx := DedupKeepsRunStartsStep(s, pidx);
    }
  }

  /** The inductive step of `DedupKeepsRunStarts`: the last record joins the selection exactly when it starts a run. */
  lemma DedupKeepsRunStartsStep(s: seq<HidDevice>, pidx: seq<nat>) returns (idx: seq<nat>)
    requires |s| > 0
    requires Subsequence(s[..|s| - 1], DedupBySerial(s[..|s| - 1]), pidx)
    requires forall i :: 0 <= i < |s| - 1 ==> (i in pidx <==> RunStart(s[..|s| - 1], i))
    ensures Subsequence(s, DedupBySerial(s), idx)
    ensures forall i :: 0 <= i < |s| ==> (i in idx <==> RunStart(s, i))
  {
    var n := |s| - 1;
    var prefix := s[..n];
    DedupLast(s);
    idx := SubsequenceGrow(s, DedupBySerial(prefix), pidx, RunStart(s, n));
    forall i | 0 <= i < |s|
      ensures i in idx <==> RunStart(s, i)
    {
      if i < n {
        RunStartOfPrefix(s, n, i);
        assert i in idx <==> i in pidx;
        assert i in pidx <==> RunStart(prefix, i);
      } else {
        assert i == n;
        assert n in idx <==> RunStart(s, n);
      }
    }
  }

  /** Runs that start before `n` start there in `s[..n]` too. */
  lemma RunStartOfPrefix(s: seq<HidDevice>, n: nat, i: nat)
    requires i < n <= |s|
    ensures RunStart(s[..n], i) <==> RunStart(s, i)
  {
    assert s[..n][i] == s[i];
    if i > 0 {
      assert s[..n][i - 1] == s[i - 1];
    }
  }

  /** The last record is retained exactly when it starts a run. */
  lemma DedupLast(s: seq<HidDevice>)
    requires |s| > 0
    ensures var n := |s| - 1;
      DedupBySerial(s) == if RunStart(s, n) then DedupBySerial(s[..n]) + [s[n]] else DedupBySerial(s[..n])
  {
    var n := |s| - 1;
    if n > 0 {
      var kept := DedupBySerial(s[..n]);
      assert s[..n][n - 1] == s[n - 1];
      assert SameSerial(kept[|kept| - 1], s[n - 1]);
    }
  }

  /** No two adjacent retained records share a serial number. */
  lemma {:induction false} DedupNoAdjacentDuplicates(s: seq<HidDevice>)
    ensures forall k :: 0 <= k < |DedupBySerial(s)| - 1 ==>
      !SameSerial(DedupBySerial(s)[k], DedupBySerial(s)[k + 1])
    decreases |s|
  {
    if s != [] {
      DedupNoAdjacentDuplicates(s[..|s| - 1]);
    }
  }

  /** A list with no adjacent equal serials is left unchanged. */
  lemma {:induction false} DedupKeepsDistinctNeighbours(s: seq<HidDevice>)
    requires forall k :: 0 <= k < |s| - 1 ==> !SameSerial(s[k], s[k + 1])
    ensures DedupBySerial(s) == s
    decreases |s|
  {
    if s != [] {
      var n := |s| - 1;
      var prefix := s[..n];
      forall k | 0 <= k < |prefix| - 1
        ensures !SameSerial(prefix[k], prefix[k + 1])
      {
        assert prefix[k] == s[k] && prefix[k + 1] == s[k + 1];
      }
      DedupKeepsDistinctNeighbours(prefix);
      DedupLast(s);
      assert n > 0 ==> !SameSerial(s[n - 1], s[n]);
      assert prefix + [s[n]] == s;
    }
  }

  /** Deduplicating twice is the same as deduplicating once. */
  lemma {:induction false} DedupIdempotent(s: seq<HidDevice>)
    ensures DedupBySerial(DedupBySerial(s)) == DedupBySerial(s)
  {
    DedupNoAdjacentDuplicates(s);
    DedupKeepsDistinctNeighbours(DedupBySerial(s));
  }

  /** The run that contains position `i` starts at some `p <= i` whose records all share `s[i]`'s serial. */
  lemma {:induction false} RunStartAtOrBefore(s: seq<HidDevice>, i: nat) returns (p: nat)
    requires i < |s|
    ensures p <= i && RunStart(s, p)
    ensures forall q :: p <= q <= i ==> SameSerial(s[q], s[i])
    decreases i
  {
    if RunStart(s, i) {
      p := i;
    } else {
      p := RunStartAtOrBefore(s, i - 1);
    }
  }

  /**
   * Adjacency, not set membership: two records with the same serial that are
   * separated by a record with a different serial both leave a survivor.
   */
  lemma SeparatedDuplicatesSurvive(s: seq<HidDevice>, i: nat, j: nat, k: nat)
    requires i < j < k < |s|
    requires SameSerial(s[i], s[k]) && !SameSerial(s[i], s[j])
    ensures exists a, b ::
              && 0 <= a < b < |DedupBySerial(s)|
              && SameSerial(DedupBySerial(s)[a], s[i])
              && SameSerial(DedupBySerial(s)[b], s[i])
  {
    var idx := DedupKeepsRunStarts(s);
    var p1 := RunStartAtOrBefore(s, i);
    var p2 := RunStartAtOrBefore(s, k);
    assert j < p2;
    assert p1 in idx && p2 in idx;
    var a :| 0 <= a < |idx| && idx[a] == p1;
    var b :| 0 <= b < |idx| && idx[b] == p2;
    assert a < b;
    assert DedupBySerial(s)[a] == s[p1] && DedupBySerial(s)[b] == s[p2];
  }

  /**
   * Two consecutive records with equal serials collapse to the first; by
   * `Option` equality this includes two records that both lack a serial.
   */
  lemma EqualSerialNeighboursCollapse(x: HidDevice, y: HidDevice)
    requires x.serialNumber == y.serialNumber
    ensures DedupBySerial([x, y]) == [x]
  {
    assert [x, y][..1] == [x];
    assert [x][..0] == [];
  }

  /** One step of the read cursor: the record at `read` is appended unless it repeats the last retained serial. */
  lemma DedupStep(s: seq<HidDevice>, read: nat)
    requires 1 <= read < |s|
    ensures var kept := DedupBySerial(s[..read]);
      && |kept| > 0
      && DedupBySerial(s[..read + 1]) ==
           if SameSerial(s[read], kept[|kept| - 1]) then kept else kept + [s[read]]
  {
    assert s[..read + 1][..read] == s[..read];
  }

  /**
   * The in-place algorithm of `Vec::dedup_by`: a read cursor walks the
   * buffer, a write cursor marks the retained prefix, and each record is
   * compared against the last one retained. Returns the new length.
   */
  method DedupBySerialInPlace(a: array<HidDevice>) returns (len: nat)
    modifies a
    ensures len <= a.Length
    ensures a[..len] == DedupBySerial(old(a[..]))
  {
    if a.Length == 0 {
      return 0;
    }
    ghost var s := a[..];
    assert s[..1][..0] == [];
    var write := 1;
    var read := 1;
    while read < a.Length
      invariant 1 <= write <= read <= a.Length
      invariant a[..write] == DedupBySerial(s[..read])
      invariant forall k :: read <= k < a.Length ==> a[k] == s[k]
    {
      DedupStep(s, read);
      ghost var kept := a[..write];
      if a[read].serialNumber != a[write - 1].serialNumber {
        a[write] := a[read];
        assert a[..write + 1] == kept + [s[read]];
        write := write + 1;
      }
      read := read + 1;
    }
    assert s[..a.Length] == s;
    return write;
  }
}
