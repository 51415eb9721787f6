/** The index arithmetic of the partition step of `VpTree.__build`
    (vptree.py:45-57): `np.argpartition`, the search for index 0 in its
    result, the fix-up that moves index 0 to the front, and the gather
    `[points[i] for i in idx]`. */
module Selection {

  /** `[0, 1, ..., n - 1]`, the identity arrangement of n indices. */
  function Range(n: nat): (r: seq<nat>)
    ensures |r| == n && forall i :: 0 <= i < n ==> r[i] == i
  {
    seq(n, i => i)
  }

  /** `idx` holds each of 0 .. n - 1 exactly once. */
  ghost predicate IsPermutation(idx: seq<nat>, n: nat)
  {
    |idx| == n && multiset(idx) == multiset(Range(n))
  }

  lemma PermutationInRange(idx: seq<nat>, n: nat)
    requires IsPermutation(idx, n)
    ensures forall i :: 0 <= i < |idx| ==> idx[i] < n
  {
    forall i | 0 <= i < |idx| ensures idx[i] < n {
      assert idx[i] in multiset(Range(n));
      var k :| 0 <= k < n && Range(n)[k] == idx[i];
    }
  }

  /** `[s[i] for i in idx]`. */
  function Gather<T>(s: seq<T>, idx: seq<nat>): (r: seq<T>)
    requires forall i :: 0 <= i < |idx| ==> idx[i] < |s|
    ensures |r| == |idx| && forall i :: 0 <= i < |idx| ==> r[i] == s[idx[i]]
  {
    seq(|idx|, i requires 0 <= i < |idx| => s[idx[i]])
  }

  /** `np.argwhere(idx == v)[0][0]`: the first position holding `v`. */
  function PositionOf(idx: seq<nat>, v: nat): (j: nat)
    requires v in idx
    ensures j < |idx| && idx[j] == v && v !in idx[..j]
  {
    if idx[0] == v then 0
    else
      assert idx == [idx[0]] + idx[1..];
      var j := PositionOf(idx[1..], v);
      assert idx[..j + 1] == [idx[0]] + idx[1..][..j];
      j + 1
  }

  lemma GatherConcat<T>(s: seq<T>, a: seq<nat>, b: seq<nat>)
    requires forall i :: 0 <= i < |a| ==> a[i] < |s|
    requires forall i :: 0 <= i < |b| ==> b[i] < |s|
    ensures forall i :: 0 <= i < |a + b| ==> (a + b)[i] < |s|
    ensures Gather(s, a + b) == Gather(s, a) + Gather(s, b)
  {
  }

  /** Taking the largest index n - 1 out of a permutation of 0 .. n - 1
      leaves a permutation of 0 .. n - 2. */
  lemma RemoveLast(idx: seq<nat>, n: nat) returns (j: nat)
    requires IsPermutation(idx, n) && 0 < n
    ensures j < |idx| && idx[j] == n - 1
    ensures IsPermutation(idx[..j] + idx[j + 1..], n - 1)
  {
    var last: nat := n - 1;
    RangeLast(last);
    assert last in multiset(idx);
    j := PositionOf(idx, last);
    TakeOut(idx, j);
  }

  lemma RangeLast(n: nat)
    ensures multiset(Range(n + 1)) == multiset(Range(n)) + multiset{n}
  {
    assert Range(n + 1) == Range(n) + [n];
  }

  /** Position j taken out of a sequence. */
  lemma TakeOut(idx: seq<nat>, j: nat)
    requires j < |idx|
    ensures |idx[..j] + idx[j + 1..]| == |idx| - 1
    ensures multiset(idx[..j] + idx[j + 1..]) == multiset(idx) - multiset{idx[j]}
  {
    assert idx == idx[..j] + [idx[j]] + idx[j + 1..];
  }

  lemma GatherPrefix<T>(s: seq<T>, m: nat, idx: seq<nat>)
    requires m <= |s|
    requires forall i :: 0 <= i < |idx| ==> idx[i] < m
    ensures Gather(s[..m], idx) == Gather(s, idx)
  {
  }

  /** Gathering through `idx` picks up `s[idx[j]]` once more than
      gathering through `idx` with position j taken out. */
  lemma GatherRemove<T>(s: seq<T>, idx: seq<nat>, j: nat, rest: seq<nat>)
    requires j < |idx| && forall i :: 0 <= i < |idx| ==> idx[i] < |s|
    requires rest == idx[..j] + idx[j + 1..] && forall i :: 0 <= i < |rest| ==> rest[i] < |s|
    ensures multiset(Gather(s, idx)) == multiset(Gather(s, rest)) + multiset{s[idx[j]]}
  {
    var front, back := idx[..j], idx[j + 1..];
    assert idx == front + [idx[j]] + back;
    GatherConcat(s, front, back);
    GatherConcat(s, front + [idx[j]], back);
    GatherConcat(s, front, [idx[j]]);
  }

  /** Gathering through a permutation rearranges without adding or losing
      anything. */
  lemma {:induction false} GatherPermutation<T>(s: seq<T>, idx: seq<nat>)
    requires IsPermutation(idx, |s|)
    ensures forall i :: 0 <= i < |idx| ==> idx[i] < |s|
    ensures multiset(Gather(s, idx)) == multiset(s)
    decreases |s|
  {
    PermutationInRange(idx, |s|);
    var n := |s|;
    if n == 0 {
      assert idx == [];
    } else {
      var last: nat := n - 1;
      var j := RemoveLast(idx, n);
      var rest := idx[..j] + idx[j + 1..];
      PermutationInRange(rest, last);
      GatherRemove(s, idx, j, rest);
      GatherPrefix(s, last, rest);
      GatherPermutation(s[..last], rest);
      assert s == s[..last] + [s[last]];
    }
  }

  /** `dists[idx[k]]` is the k-th smallest distance: nothing before
      position k is larger, nothing after it is smaller. */
  ghost predicate PartitionedAt(dists: seq<real>, idx: seq<nat>, k: nat)
    requires forall i :: 0 <= i < |idx| ==> idx[i] < |dists|
    requires k < |idx|
  {
    && (forall a :: 0 <= a < k ==> dists[idx[a]] <= dists[idx[k]])
    && (forall b :: k < b < |idx| ==> dists[idx[k]] <= dists[idx[b]])
  }

  /** The first i positions hold the i smallest distances, in order. */
  ghost predicate PrefixSelected(dists: seq<real>, idx: seq<nat>, i: nat)
    requires forall j :: 0 <= j < |idx| ==> idx[j] < |dists|
  {
    forall a, b :: 0 <= a < i && a < b < |idx| ==> dists[idx[a]] <= dists[idx[b]]
  }

  /** The first position in `start .. stop - 1` holding a smallest distance,
      as the scan of `MinPosition` finds it. */
  function MinPositionIn(dists: seq<real>, idx: seq<nat>, start: nat, stop: nat): (m: nat)
    requires start < stop <= |idx|
    requires forall j :: 0 <= j < |idx| ==> idx[j] < |dists|
    ensures start <= m < stop
    decreases stop
  {
    if stop == start + 1 then start
    else
      var m := MinPositionIn(dists, idx, start, stop - 1);
      if dists[idx[stop - 1]] < dists[idx[m]] then stop - 1 else m
  }

  /** The scan finds a smallest distance of its range. */
  lemma {:induction false} MinPositionInIsMin(dists: seq<real>, idx: seq<nat>, start: nat, stop: nat)
    requires start < stop <= |idx|
    requires forall j :: 0 <= j < |idx| ==> idx[j] < |dists|
    ensures forall b :: start <= b < stop ==> dists[idx[MinPositionIn(dists, idx, start, stop)]] <= dists[idx[b]]
    decreases stop
  {
    if stop > start + 1 {
      MinPositionInIsMin(dists, idx, start, stop - 1);
    }
  }

  /** The scan for a smallest remaining distance. */
  method MinPosition(dists: seq<real>, idx: seq<nat>, start: nat) returns (m: nat)
    requires start < |idx|
    requires forall j :: 0 <= j < |idx| ==> idx[j] < |dists|
    ensures m == MinPositionIn(dists, idx, start, |idx|)
  {
    m := start;
    var j := start + 1;
    while j < |idx|
      invariant start < j <= |idx|
      invariant m == MinPositionIn(dists, idx, start, j)
    {
      if dists[idx[j]] < dists[idx[m]] {
        m := j;
      }
      j := j + 1;
    }
  }

  /** The arrangement with positions i and j exchanged. */
  function Swap(idx: seq<nat>, i: nat, j: nat): (r: seq<nat>)
    requires i < |idx| && j < |idx|
    ensures |r| == |idx| && r[i] == idx[j] && r[j] == idx[i]
    ensures forall p {:trigger r[p]} :: 0 <= p < |idx| && p != i && p != j ==> r[p] == idx[p]
    ensures multiset(r) == multiset(idx)
  {
    idx[i := idx[j]][j := idx[i]]
  }

  /** Swapping a smallest remaining distance into position i extends the
      selected prefix by one and keeps the permutation. */
  lemma SelectStep(dists: seq<real>, idx: seq<nat>, i: nat, m: nat)
    requires forall j :: 0 <= j < |idx| ==> idx[j] < |dists|
    requires i <= m < |idx|
    requires PrefixSelected(dists, idx, i)
    requires forall b :: i <= b < |idx| ==> dists[idx[m]] <= dists[idx[b]]
    ensures forall j :: 0 <= j < |idx| ==> Swap(idx, i, m)[j] < |dists|
    ensures PrefixSelected(dists, Swap(idx, i, m), i + 1)
  {
    var r := Swap(idx, i, m);
    forall a, b | 0 <= a < i + 1 && a < b < |r|
      ensures dists[r[a]] <= dists[r[b]]
    {
      if a < i {
        if b == m {
          assert r[b] == idx[i];
        } else if b == i {
          assert r[b] == idx[m];
        }
      }
    }
  }

  /** The arrangement after i rounds of selection: round j swaps a
      smallest distance among positions j .. n - 1 into position j. */
  function SelectFirst(dists: seq<real>, i: nat): (idx: seq<nat>)
    requires i <= |dists|
    ensures |idx| == |dists| && forall j :: 0 <= j < |idx| ==> idx[j] < |dists|
  {
    if i == 0 then Range(|dists|)
    else
      var prev := SelectFirst(dists, i - 1);
      Swap(prev, i - 1, MinPositionIn(dists, prev, i - 1, |prev|))
  }

  /** Each round of selection only exchanges two positions. */
  lemma {:induction false} SelectFirstPermutes(dists: seq<real>, i: nat)
    requires i <= |dists|
    ensures IsPermutation(SelectFirst(dists, i), |dists|)
  {
    if i > 0 {
      SelectFirstPermutes(dists, i - 1);
    }
  }

  /** After i rounds the first i positions hold the i smallest distances in
      order. */
  lemma {:induction false} SelectFirstSelects(dists: seq<real>, i: nat)
    requires i <= |dists|
    ensures PrefixSelected(dists, SelectFirst(dists, i), i)
  {
    if i > 0 {
      var prev := SelectFirst(dists, i - 1);
      SelectFirstSelects(dists, i - 1);
      MinPositionInIsMin(dists, prev, i - 1, |prev|);
      SelectStep(dists, prev, i - 1, MinPositionIn(dists, prev, i - 1, |prev|));
    }
  }

  /** k + 1 rounds of selection partition the arrangement at position k,
      which is what `np.argpartition(dists, k)` promises. */
  lemma SelectFirstPartitions(dists: seq<real>, k: nat)
    requires k < |dists|
    ensures IsPermutation(SelectFirst(dists, k + 1), |dists|)
    ensures PartitionedAt(dists, SelectFirst(dists, k + 1), k)
  {
    SelectFirstPermutes(dists, k + 1);
    SelectFirstSelects(dists, k + 1);
  }

  /** `np.argpartition(dists, k)`, by a partial selection sort: positions
      0 .. k receive, in turn, an index of a smallest remaining distance.
      Only the partition contract matters to the tree; numpy's introselect
      meets it as well. */
  method ArgPartition(dists: seq<real>, k: nat) returns (idx: seq<nat>)
    requires k < |dists|
    ensures idx == SelectFirst(dists, k + 1)
  {
    idx := Range(|dists|);
    var i := 0;
    while i <= k
      invariant 0 <= i <= k + 1
      invariant idx == SelectFirst(dists, i)
    {
      var m := MinPosition(dists, idx, i);
      assert Swap(idx, i, m) == SelectFirst(dists, i + 1);
      idx := Swap(idx, i, m);
      i := i + 1;
    }
  }

  /** `dists` never decreases. */
  ghost predicate Ascending(dists: seq<real>)
  {
    forall a, b :: 0 <= a < b < |dists| ==> dists[a] <= dists[b]
  }

  /** On ascending distances the scan keeps its first position. */
  lemma {:induction false} MinPositionInAscending(dists: seq<real>, start: nat, stop: nat)
    requires start < stop <= |dists| && Ascending(dists)
    ensures MinPositionIn(dists, Range(|dists|), start, stop) == start
    decreases stop
  {
    if stop > start + 1 {
      MinPositionInAscending(dists, start, stop - 1);
    }
  }

  /** Selection leaves ascending distances in their original order. */
  lemma {:induction false} SelectFirstAscending(dists: seq<real>, i: nat)
    requires i <= |dists| && Ascending(dists)
    ensures SelectFirst(dists, i) == Range(|dists|)
  {
    if i > 0 {
      SelectFirstAscending(dists, i - 1);
      MinPositionInAscending(dists, i - 1, |dists|);
      SelectKeeps(dists, i);
    }
  }

  /** A round that finds its smallest distance in place changes nothing. */
  lemma SelectKeeps(dists: seq<real>, i: nat)
    requires 0 < i <= |dists|
    requires SelectFirst(dists, i - 1) == Range(|dists|)
    requires MinPositionIn(dists, Range(|dists|), i - 1, |dists|) == i - 1
    ensures SelectFirst(dists, i) == Range(|dists|)
  {
    var r := Range(|dists|);
    assert Swap(r, i - 1, i - 1) == r;
  }

  /** vptree.py:50-53: swap index 0 (the vantage point, which was moved to
      the front of the range) back to the front of the arrangement. */
  function MoveZeroFirst(idx: seq<nat>): (r: seq<nat>)
    requires 0 in idx
    ensures |r| == |idx| && r[0] == 0 && multiset(r) == multiset(idx)
  {
    var zero := PositionOf(idx, 0);
    var r := idx[zero := idx[0]][0 := 0];
    assert zero == 0 ==> r == idx;
    r
  }

  /** The identity arrangement already has index 0 first. */
  lemma MoveZeroFirstRange(n: nat)
    requires 0 < n
    ensures 0 in Range(n) && MoveZeroFirst(Range(n)) == Range(n)
  {
    var r := Range(n);
    assert r[0] == 0;
  }

  /** Gathering through the identity arrangement changes nothing. */
  lemma GatherRange<T>(s: seq<T>)
    ensures Gather(s, Range(|s|)) == s
  {
  }

  /** Index 0 is in every permutation of a non-empty range, and the fix-up
      leaves a permutation. */
  lemma MoveZeroFirstPermutes(idx: seq<nat>, n: nat)
    requires 0 < n && IsPermutation(idx, n)
    ensures 0 in idx
    ensures IsPermutation(MoveZeroFirst(idx), n)
    ensures forall i :: 0 <= i < |idx| ==> MoveZeroFirst(idx)[i] < n
  {
    assert Range(n)[0] == 0;
    assert 0 in multiset(idx);
    PermutationInRange(MoveZeroFirst(idx), n);
  }

  /** The fix-up keeps the partition around position k >= 1: the vantage
      point's own distance is 0, the smallest there is, so when it has to
      leave the inner side the element it swaps with also has distance 0. */
  lemma MoveZeroFirstKeepsPartition(dists: seq<real>, idx: seq<nat>, k: nat)
    requires 1 <= k < |dists|
    requires dists[0] == 0.0 && forall i :: 0 <= i < |dists| ==> 0.0 <= dists[i]
    requires IsPermutation(idx, |dists|)
    requires forall i :: 0 <= i < |idx| ==> idx[i] < |dists|
    requires PartitionedAt(dists, idx, k)
    ensures 0 in idx
    ensures forall i :: 0 <= i < |idx| ==> MoveZeroFirst(idx)[i] < |dists|
    ensures PartitionedAt(dists, MoveZeroFirst(idx), k)
  {
    MoveZeroFirstPermutes(idx, |dists|);
    var zero := PositionOf(idx, 0);
    var r := MoveZeroFirst(idx);
    assert r == idx[zero := idx[0]][0 := 0];
    var v := dists[idx[k]];
    if zero == k {
      assert dists[r[k]] == v;
    } else if zero > k {
      assert v == 0.0;
    }
  }
}
