/** The `VpTree` class (vptree.py:23-125): the point list it rearranges in
    place, the recursive build over slices of that list, and the query.
    `PartitionOf` and `BuildOf` say, as functions of the list before, what
    the build leaves behind; the lemmas after them prove what that
    arrangement guarantees. */
module VpTrees {
  import opened Wrappers
  import opened ExtendedReal
  import opened Metric
  import opened VpNodes
  import opened Selection
  import opened VpSearch

  /** `pick` stands for `np.random.randint`: any index of the range it is
      given. One build asks once per range of two or more points, and no
      range is asked for twice, so a function of the range covers every
      sequence of draws. */
  ghost predicate IsPicker(pick: (int, int) -> int)
  {
    forall low, up :: low < up ==> low <= pick(low, up) < up
  }

  /** `[distance(p, vp) for p in s]` (vptree.py:45-46). */
  function Distances(dist: (Point, Point) -> real, s: seq<Point>, vp: Point): (ds: seq<real>)
    ensures |ds| == |s| && forall i :: 0 <= i < |s| ==> ds[i] == dist(s[i], vp)
  {
    seq(|s|, i requires 0 <= i < |s| => dist(s[i], vp))
  }

  /** vptree.py:45-53 on a range `s` whose vantage point is already at the
      front: the arrangement `np.argpartition` gives around the middle
      offset, with index 0 swapped back to the front. */
  function Arrangement(dist: (Point, Point) -> real, s: seq<Point>): (idx: seq<nat>)
    requires 2 <= |s|
    ensures IsPermutation(idx, |s|) && idx[0] == 0
    ensures forall i :: 0 <= i < |idx| ==> idx[i] < |s|
  {
    var dists := Distances(dist, s, s[0]);
    var sel := SelectFirst(dists, |dists| / 2 + 1);
    SelectFirstPermutes(dists, |dists| / 2 + 1);
    MoveZeroFirstPermutes(sel, |dists|);
    MoveZeroFirst(sel)
  }

  /** The list after the partition step of `__build(low, up)` with the
      vantage point drawn at `rootIdx` (vptree.py:39-57). */
  function PartitionOf(dist: (Point, Point) -> real, d: seq<Point>, low: nat, up: nat, rootIdx: nat): (r: seq<Point>)
    requires low + 2 <= up <= |d| && low <= rootIdx < up
    ensures |r| == |d|
    ensures r[low] == d[rootIdx]
  {
    var e := d[low := d[rootIdx]][rootIdx := d[low]];
    var s := e[low..up];
    e[..low] + Gather(s, Arrangement(dist, s)) + e[up..]
  }

  /** The tree `__build(low, up)` returns and the list it leaves behind,
      for the list `d` it starts from (vptree.py:28-68). */
  function BuildOf(dist: (Point, Point) -> real, pick: (int, int) -> int, d: seq<Point>, low: nat, up: nat): (r: (VpNode, seq<Point>))
    requires IsPicker(pick) && low <= up <= |d|
    ensures |r.1| == |d|
    ensures up == low <==> r.0 == Nil
    decreases up - low
  {
    if up == low then (Nil, d)
    else if up - low == 1 then (NewNode(d[low]), d)
    else
      var e := PartitionOf(dist, d, low, up, pick(low, up));
      var (left, e1) := BuildOf(dist, pick, e, low + 1, InnerEnd(low, up));
      var (right, e2) := BuildOf(dist, pick, e1, InnerEnd(low, up), up);
      (Node(e[low], dist(e[low], e[MuIndex(low, up)]), left, right), e2)
  }

  /** One step of `BuildOf` over a range of two or more points: the list
      after the partition step is `e`, the inner build turns it into `e1`
      and the outer build turns that into `e2`. */
  lemma BuildOfStep(dist: (Point, Point) -> real, pick: (int, int) -> int, d: seq<Point>, low: nat, up: nat,
                    e: seq<Point>, e1: seq<Point>, e2: seq<Point>, left: VpNode, right: VpNode, node: VpNode)
    requires IsPicker(pick) && low + 2 <= up <= |d|
    requires e == PartitionOf(dist, d, low, up, pick(low, up))
    requires (left, e1) == BuildOf(dist, pick, e, low + 1, InnerEnd(low, up))
    requires (right, e2) == BuildOf(dist, pick, e1, InnerEnd(low, up), up)
    requires node == Node(e[low], dist(e[low], e[MuIndex(low, up)]), left, right)
    ensures BuildOf(dist, pick, d, low, up) == (node, e2)
  {
  }

  /** `low + mid`: the position of the point whose distance becomes `mu`. */
  function MuIndex(low: nat, up: nat): nat
  {
    low + (up - low) / 2
  }

  /** `low + mid + 1`: where the inner range ends. */
  function InnerEnd(low: nat, up: nat): nat
  {
    low + (up - low) / 2 + 1
  }

  /** The last point of a non-empty slice. */
  lemma SliceLast(s: seq<Point>, a: nat, b: nat)
    requires a < b <= |s|
    ensures s[a..b][|s[a..b]| - 1] == s[b - 1]
  {
  }

  /** Where the split points of a range of two or more points lie. */
  lemma SplitPoints(low: nat, up: nat)
    requires low + 2 <= up
    ensures low < MuIndex(low, up) < InnerEnd(low, up) <= up
    ensures InnerEnd(low, up) == MuIndex(low, up) + 1
    ensures InnerEnd(low, up) - (low + 1) == (up - low) / 2
    ensures InnerEnd(low, up) - 1 == MuIndex(low, up)
    ensures (up - low) / 2 == (1 + (up - low) / 2 + (up - InnerEnd(low, up))) / 2
  {
  }

  class VpTree {
    /** `self._datapoints`, rearranged by the build. */
    var datapoints: seq<Point>
    /** `self._root`. */
    var root: VpNode
    /** `distance` (vptree.py:5-6). */
    const dist: (Point, Point) -> real
    /** `np.random.randint` (vptree.py:39). */
    const pick: (int, int) -> int

    /** After construction: the tree lays out the rearranged point list in
        pre-order and meets the vantage-point invariant at every node. */
    ghost predicate Valid()
      reads this
    {
      && IsDistance(dist)
      && IsPicker(pick)
      && PreOrder(root) == datapoints
      && IsVpTree(dist, root)
    }

    /** `VpTree(datapoints)` (vptree.py:24-26): keeps the list and builds
        the tree over all of it. */
    constructor (points: seq<Point>, dist: (Point, Point) -> real, pick: (int, int) -> int)
      requires IsDistance(dist) && IsPicker(pick)
      ensures this.dist == dist && this.pick == pick
      ensures (root, datapoints) == BuildOf(dist, pick, points, 0, |points|)
      ensures Valid()
      ensures multiset(datapoints) == multiset(points)
      ensures Size(root) == |points|
    {
      this.dist := dist;
      this.pick := pick;
      datapoints := points;
      root := Nil;
      new;
      root := Build(0, |points|);
      BuildOfValid(dist, pick, points);
    }

    /** vptree.py:39-57 on a range of at least two points: swap the drawn
        vantage point to `low`, then rearrange the range around the
        distance at offset `mid = (up - low) / 2`. */
    method Partition(low: nat, up: nat, rootIdx: nat) returns (mid: nat)
      requires low + 2 <= up <= |datapoints| && low <= rootIdx < up
      modifies this`datapoints
      ensures datapoints == PartitionOf(dist, old(datapoints), low, up, rootIdx)
      ensures mid == (up - low) / 2
    {
      // swap the randomly chosen element with the first one
      datapoints := datapoints[low := datapoints[rootIdx]][rootIdx := datapoints[low]];
      var s := datapoints[low..up];
      var dists := Distances(dist, s, s[0]);
      mid := |dists| / 2;
      var idx := ArgPartition(dists, mid);
      SelectFirstPermutes(dists, mid + 1);
      MoveZeroFirstPermutes(idx, |dists|);
      idx := MoveZeroFirst(idx);
      assert idx == Arrangement(dist, s);
      var tmp := Gather(s, idx);
      datapoints := datapoints[..low] + tmp + datapoints[up..];
    }

    /** `__build(low, up)` (vptree.py:28-68). */
    method Build(low: nat, up: nat) returns (node: VpNode)
      requires IsPicker(pick)
      requires low <= up <= |datapoints|
      modifies this`datapoints
      decreases up - low, 1
      ensures (node, datapoints) == BuildOf(dist, pick, old(datapoints), low, up)
    {
      if up == low {
        return Nil;
      }
      if up - low == 1 {
        node := NewNode(datapoints[low]);
        return;
      }
      node := BuildNode(low, up);
    }

    /** vptree.py:38-68: a range of two or more points. */
    method BuildNode(low: nat, up: nat) returns (node: VpNode)
      requires IsPicker(pick)
      requires low + 2 <= up <= |datapoints|
      modifies this`datapoints
      decreases up - low, 0
      ensures (node, datapoints) == BuildOf(dist, pick, old(datapoints), low, up)
    {
      ghost var d := datapoints;
      var rootIdx := pick(low, up);
      var mid := Partition(low, up, rootIdx);
      ghost var e := datapoints;
      assert e == PartitionOf(dist, d, low, up, pick(low, up));
      node := NewNode(datapoints[low]);
      node := node.(mu := dist(datapoints[low], datapoints[low + mid]));
      var m := low + mid + 1;
      assert low + mid == MuIndex(low, up) && m == InnerEnd(low, up);
      var left := Build(low + 1, m);
      ghost var e1 := datapoints;
      node := node.(left := left);
      var right := Build(m, up);
      node := node.(right := right);
      BuildOfStep(dist, pick, d, low, up, e, e1, datapoints, left, right, node);
    }

    /** `nearest_neighbor(query)` (vptree.py:124-125) on the built tree. */
    function NearestNeighborOf(query: Point): (r: (Option<VpNode>, ExtReal))
      reads this
      requires Valid()
      ensures root == Nil ==> r == (None, PosInf)
      ensures root != Nil ==> Answers(dist, query, root, r) && r.0.value.vp in datapoints
    {
      NearestNeighbor(dist, query, root)
    }
  }

  /** `a` and `b` have the same length and agree outside `[low, up)`. */
  ghost predicate SameOutside(a: seq<Point>, b: seq<Point>, low: nat, up: nat)
  {
    |a| == |b| && forall i :: 0 <= i < |a| && (i < low || up <= i) ==> a[i] == b[i]
  }

  /** Swapping two positions of a range keeps the range's points. */
  lemma SwapInSlice(s: seq<Point>, low: nat, up: nat, i: nat)
    requires low <= i < up <= |s|
    ensures multiset(s[low := s[i]][i := s[low]][low..up]) == multiset(s[low..up])
  {
    var t := s[low := s[i]][i := s[low]];
    assert t[low..up] == s[low..up][0 := s[i]][i - low := s[low]];
  }

  /** The partition step leaves the gathered range in `[low, up)` and the
      list after the swap everywhere else. */
  lemma PartitionRange(dist: (Point, Point) -> real, d: seq<Point>, low: nat, up: nat, rootIdx: nat)
    requires low + 2 <= up <= |d| && low <= rootIdx < up
    ensures var e := d[low := d[rootIdx]][rootIdx := d[low]];
      PartitionOf(dist, d, low, up, rootIdx)[low..up] == Gather(e[low..up], Arrangement(dist, e[low..up]))
    ensures var e := d[low := d[rootIdx]][rootIdx := d[low]];
      SameOutside(PartitionOf(dist, d, low, up, rootIdx), e, low, up)
  {
    var e := d[low := d[rootIdx]][rootIdx := d[low]];
    var tmp := Gather(e[low..up], Arrangement(dist, e[low..up]));
    var r := PartitionOf(dist, d, low, up, rootIdx);
    assert r == e[..low] + tmp + e[up..];
    assert r[low..up] == tmp;
  }

  /** The partition step only moves points within `[low, up)`, keeps the
      range's points, and leaves the drawn vantage point at `low`. */
  lemma PartitionKeepsPoints(dist: (Point, Point) -> real, d: seq<Point>, low: nat, up: nat, rootIdx: nat)
    requires low + 2 <= up <= |d| && low <= rootIdx < up
    ensures SameOutside(PartitionOf(dist, d, low, up, rootIdx), d, low, up)
    ensures multiset(PartitionOf(dist, d, low, up, rootIdx)[low..up]) == multiset(d[low..up])
    ensures PartitionOf(dist, d, low, up, rootIdx)[low] == d[rootIdx]
  {
    var e := d[low := d[rootIdx]][rootIdx := d[low]];
    var s := e[low..up];
    var idx := Arrangement(dist, s);
    var r := PartitionOf(dist, d, low, up, rootIdx);
    PartitionRange(dist, d, low, up, rootIdx);
    SwapInSlice(d, low, up, rootIdx);
    GatherPermutation(s, idx);
    assert r[low] == r[low..up][0] == s[idx[0]];
  }

  /** A range already ascending in distance from its first point, whose
      first point is the one drawn, comes out of the partition step as it
      went in. */
  lemma PartitionAscending(dist: (Point, Point) -> real, d: seq<Point>, low: nat, up: nat)
    requires low + 2 <= up <= |d|
    requires Ascending(Distances(dist, d[low..up], d[low]))
    ensures PartitionOf(dist, d, low, up, low) == d
  {
    var s := d[low..up];
    SwapFirstSelf(d, low);
    ArrangementAscending(dist, s);
    GatherRange(s);
    Reassemble(d, low, up);
  }

  lemma SwapFirstSelf(d: seq<Point>, low: nat)
    requires low < |d|
    ensures d[low := d[low]][low := d[low]] == d
  {
  }

  lemma Reassemble(d: seq<Point>, low: nat, up: nat)
    requires low <= up <= |d|
    ensures d[..low] + d[low..up] + d[up..] == d
  {
  }

  /** A range ascending in distance from its first point keeps its order. */
  lemma ArrangementAscending(dist: (Point, Point) -> real, s: seq<Point>)
    requires 2 <= |s| && Ascending(Distances(dist, s, s[0]))
    ensures Arrangement(dist, s) == Range(|s|)
  {
    var ds := Distances(dist, s, s[0]);
    SelectFirstAscending(ds, |ds| / 2 + 1);
    MoveZeroFirstRange(|s|);
  }

  /** The arrangement puts the vantage point first and partitions the rest
      of the range around the middle offset. */
  lemma ArrangementPartitions(dist: (Point, Point) -> real, s: seq<Point>)
    requires IsDistance(dist) && 2 <= |s|
    ensures PartitionedAt(Distances(dist, s, s[0]), Arrangement(dist, s), |s| / 2)
  {
    var dists := Distances(dist, s, s[0]);
    var mid := |dists| / 2;
    var sel := SelectFirst(dists, mid + 1);
    SelectFirstPartitions(dists, mid);
    assert dists[0] == dist(s[0], s[0]) == 0.0;
    MoveZeroFirstKeepsPartition(dists, sel, mid);
  }

  /** The arrangement the partition step leaves a range in (vptree.py:45-62):
      with the vantage point `s[0]`, offsets 1 .. mid are no farther from it
      than offset mid, and later offsets are no nearer. */
  ghost predicate SplitAround(dist: (Point, Point) -> real, s: seq<Point>, mid: nat)
    requires mid < |s|
  {
    && (forall a :: 0 < a <= mid ==> dist(s[a], s[0]) <= dist(s[mid], s[0]))
    && (forall b :: mid < b < |s| ==> dist(s[mid], s[0]) <= dist(s[b], s[0]))
  }

  /** `SplitAround` holds of equal arguments. */
  lemma SplitAroundSame(dist: (Point, Point) -> real, r: seq<Point>, r': seq<Point>, mid: nat, mid': nat)
    requires mid < |r| && SplitAround(dist, r, mid)
    requires r == r' && mid == mid'
    ensures SplitAround(dist, r', mid')
  {
  }

  /** Gathering the range through an arrangement partitioned at `mid` by
      distance to the range's first point, with index 0 first, leaves the
      range split around `mid`. */
  lemma GatherSplits(dist: (Point, Point) -> real, s: seq<Point>, idx: seq<nat>, mid: nat)
    requires |s| > 0 && mid < |idx|
    requires forall i :: 0 <= i < |idx| ==> idx[i] < |s|
    requires idx[0] == 0
    requires PartitionedAt(Distances(dist, s, s[0]), idx, mid)
    ensures SplitAround(dist, Gather(s, idx), mid)
  {
    var ds, t := Distances(dist, s, s[0]), Gather(s, idx);
    assert t[0] == s[0];
    forall a | 0 < a <= mid ensures dist(t[a], t[0]) <= dist(t[mid], t[0]) {
      if a < mid {
        assert ds[idx[a]] <= ds[idx[mid]];
      }
    }
    forall b | mid < b < |t| ensures dist(t[mid], t[0]) <= dist(t[b], t[0]) {
      assert ds[idx[mid]] <= ds[idx[b]];
    }
  }

  /** After the partition step the range is split around its middle
      offset. */
  lemma PartitionSplits(dist: (Point, Point) -> real, d: seq<Point>, low: nat, up: nat, rootIdx: nat)
    requires IsDistance(dist)
    requires low + 2 <= up <= |d| && low <= rootIdx < up
    ensures SplitAround(dist, PartitionOf(dist, d, low, up, rootIdx)[low..up], (up - low) / 2)
  {
    var e := d[low := d[rootIdx]][rootIdx := d[low]];
    var s := e[low..up];
    var idx := Arrangement(dist, s);
    PartitionRange(dist, d, low, up, rootIdx);
    ArrangementPartitions(dist, s);
    GatherSplits(dist, s, idx, |s| / 2);
    SplitAroundSame(dist, Gather(s, idx), PartitionOf(dist, d, low, up, rootIdx)[low..up], |s| / 2, (up - low) / 2);
  }

  /** How the two recursive builds compose: the inner one rearranges
      `[low + 1, m)` of `split` into `afterLeft`, the outer one `[m, up)` of
      `afterLeft` into `final`. The vantage point at `low` stays, each side
      keeps its points, and nothing outside `[low, up)` moves. */
  lemma BuildLayout(split: seq<Point>, afterLeft: seq<Point>, final: seq<Point>, low: nat, m: nat, up: nat)
    requires low < m <= up <= |split|
    requires SameOutside(afterLeft, split, low + 1, m)
    requires multiset(afterLeft[low + 1..m]) == multiset(split[low + 1..m])
    requires SameOutside(final, afterLeft, m, up)
    requires multiset(final[m..up]) == multiset(afterLeft[m..up])
    ensures SameOutside(final, split, low, up)
    ensures final[low] == split[low]
    ensures final[low + 1..m] == afterLeft[low + 1..m]
    ensures multiset(final[m..up]) == multiset(split[m..up])
    ensures multiset(final[low..up]) == multiset(split[low..up])
    ensures final[low..up] == [final[low]] + final[low + 1..m] + final[m..up]
    ensures split[low..up] == [split[low]] + split[low + 1..m] + split[m..up]
  {
    assert afterLeft[m..up] == split[m..up];
    assert final[low + 1..m] == afterLeft[low + 1..m];
    assert final[low..up] == [final[low]] + final[low + 1..m] + final[m..up];
    assert split[low..up] == [split[low]] + split[low + 1..m] + split[m..up];
  }

  /** `SameOutside` composes. */
  lemma SameOutsideTrans(a: seq<Point>, b: seq<Point>, c: seq<Point>, low: nat, up: nat)
    requires SameOutside(a, b, low, up) && SameOutside(b, c, low, up)
    ensures SameOutside(a, c, low, up)
  {
  }

  /** What the build does to the list: it only rearranges `[low, up)`,
      keeps that range's points, and lays the tree out over the range in
      pre-order. A one-point range becomes a leaf; a longer one gets the
      drawn point as its vantage point. */
  lemma BuildOfLayout(dist: (Point, Point) -> real, pick: (int, int) -> int, d: seq<Point>, low: nat, up: nat)
    requires IsPicker(pick) && low <= up <= |d|
    ensures SameOutside(BuildOf(dist, pick, d, low, up).1, d, low, up)
    ensures multiset(BuildOf(dist, pick, d, low, up).1[low..up]) == multiset(d[low..up])
    ensures PreOrder(BuildOf(dist, pick, d, low, up).0) == BuildOf(dist, pick, d, low, up).1[low..up]
    ensures Size(BuildOf(dist, pick, d, low, up).0) == up - low
    ensures up == low ==> BuildOf(dist, pick, d, low, up).0 == Nil
    ensures up - low == 1 ==> BuildOf(dist, pick, d, low, up).0 == NewNode(d[low])
    ensures up - low >= 2 ==> BuildOf(dist, pick, d, low, up).0.Node?
    ensures up - low >= 2 ==> BuildOf(dist, pick, d, low, up).0.vp == d[pick(low, up)]
  {
    BuildOfKeeps(dist, pick, d, low, up);
    BuildOfPreOrder(dist, pick, d, low, up);
    PreOrderLength(BuildOf(dist, pick, d, low, up).0);
    if up - low >= 2 {
      PartitionKeepsPoints(dist, d, low, up, pick(low, up));
    }
  }

  /** The build only rearranges `[low, up)` and keeps that range's points. */
  lemma {:induction false} BuildOfKeeps(dist: (Point, Point) -> real, pick: (int, int) -> int, d: seq<Point>, low: nat, up: nat)
    requires IsPicker(pick) && low <= up <= |d|
    ensures SameOutside(BuildOf(dist, pick, d, low, up).1, d, low, up)
    ensures multiset(BuildOf(dist, pick, d, low, up).1[low..up]) == multiset(d[low..up])
    decreases up - low
  {
    if up - low >= 2 {
      var e := PartitionOf(dist, d, low, up, pick(low, up));
      var m := InnerEnd(low, up);
      var e1 := BuildOf(dist, pick, e, low + 1, m).1;
      var e2 := BuildOf(dist, pick, e1, m, up).1;
      PartitionKeepsPoints(dist, d, low, up, pick(low, up));
      BuildOfKeeps(dist, pick, e, low + 1, m);
      BuildOfKeeps(dist, pick, e1, m, up);
      KeepsStep(d, e, e1, e2, low, m, up);
    }
  }

  /** The two recursive builds of one step, after the partition, keep the
      step's range and leave the rest of the list alone. */
  lemma KeepsStep(d: seq<Point>, e: seq<Point>, e1: seq<Point>, e2: seq<Point>, low: nat, m: nat, up: nat)
    requires low < m <= up <= |d|
    requires SameOutside(e, d, low, up) && multiset(e[low..up]) == multiset(d[low..up])
    requires SameOutside(e1, e, low + 1, m) && multiset(e1[low + 1..m]) == multiset(e[low + 1..m])
    requires SameOutside(e2, e1, m, up) && multiset(e2[m..up]) == multiset(e1[m..up])
    ensures SameOutside(e2, d, low, up)
    ensures multiset(e2[low..up]) == multiset(d[low..up])
  {
    BuildLayout(e, e1, e2, low, m, up);
    SameOutsideTrans(e2, e, d, low, up);
  }

  /** The build lays its tree out over `[low, up)` in pre-order. */
  lemma {:induction false} BuildOfPreOrder(dist: (Point, Point) -> real, pick: (int, int) -> int, d: seq<Point>, low: nat, up: nat)
    requires IsPicker(pick) && low <= up <= |d|
    ensures PreOrder(BuildOf(dist, pick, d, low, up).0) == BuildOf(dist, pick, d, low, up).1[low..up]
    decreases up - low
  {
    if up - low == 1 {
      assert d[low..up] == [d[low]];
    } else if up - low >= 2 {
      var e := PartitionOf(dist, d, low, up, pick(low, up));
      var m := InnerEnd(low, up);
      var (left, e1) := BuildOf(dist, pick, e, low + 1, m);
      var (right, e2) := BuildOf(dist, pick, e1, m, up);
      BuildOfPreOrder(dist, pick, e, low + 1, m);
      BuildOfPreOrder(dist, pick, e1, m, up);
      BuildOfKeeps(dist, pick, e, low + 1, m);
      BuildOfKeeps(dist, pick, e1, m, up);
      PreOrderStep(e, e1, e2, low, m, up, dist(e[low], e[MuIndex(low, up)]), left, right);
    }
  }

  /** One step of the build lays its node out over the range: the inner
      build turned `e` into `e1` with `left` laid out over `[low + 1, m)`,
      the outer build `e1` into `e2` with `right` laid out over `[m, up)`. */
  lemma PreOrderStep(e: seq<Point>, e1: seq<Point>, e2: seq<Point>, low: nat, m: nat, up: nat,
                     mu: real, left: VpNode, right: VpNode)
    requires low < m <= up <= |e|
    requires SameOutside(e1, e, low + 1, m) && multiset(e1[low + 1..m]) == multiset(e[low + 1..m])
    requires SameOutside(e2, e1, m, up) && multiset(e2[m..up]) == multiset(e1[m..up])
    requires PreOrder(left) == e1[low + 1..m] && PreOrder(right) == e2[m..up]
    ensures PreOrder(Node(e[low], mu, left, right)) == e2[low..up]
  {
    BuildLayout(e, e1, e2, low, m, up);
  }

  /** Every point of `s` is within `mu` of `vp`. */
  ghost predicate Within(dist: (Point, Point) -> real, vp: Point, mu: real, s: seq<Point>)
  {
    forall p :: p in s ==> dist(p, vp) <= mu
  }

  /** Every point of `s` is at `mu` or beyond from `vp`. */
  ghost predicate Beyond(dist: (Point, Point) -> real, vp: Point, mu: real, s: seq<Point>)
  {
    forall p :: p in s ==> mu <= dist(p, vp)
  }

  /** A range split around its middle offset k, read as two sides: offsets
      1 .. k are within the distance of offset k from offset 0, later
      offsets are beyond it. */
  lemma SidesOfRange(dist: (Point, Point) -> real, range: seq<Point>)
    requires 2 <= |range| && SplitAround(dist, range, |range| / 2)
    ensures Within(dist, range[0], dist(range[|range| / 2], range[0]), range[1..|range| / 2 + 1])
    ensures Beyond(dist, range[0], dist(range[|range| / 2], range[0]), range[|range| / 2 + 1..])
  {
    var k := |range| / 2;
    var vp, mu := range[0], dist(range[k], range[0]);
    forall p | p in range[1..k + 1] ensures dist(p, vp) <= mu {
      var j :| 0 <= j < k && range[1..k + 1][j] == p;
      assert range[j + 1] == p;
    }
    forall p | p in range[k + 1..] ensures mu <= dist(p, vp) {
      var j :| 0 <= j < |range| - k - 1 && range[k + 1..][j] == p;
      assert range[k + 1 + j] == p;
    }
  }

  /** The range of one build step, read from its own start. */
  lemma StepRange(e: seq<Point>, low: nat, up: nat)
    requires low + 2 <= up <= |e|
    ensures |e[low..up]| / 2 == (up - low) / 2
    ensures e[low..up][0] == e[low]
    ensures e[low..up][|e[low..up]| / 2] == e[MuIndex(low, up)]
    ensures e[low..up][1..|e[low..up]| / 2 + 1] == e[low + 1..InnerEnd(low, up)]
    ensures e[low..up][|e[low..up]| / 2 + 1..] == e[InnerEnd(low, up)..up]
  {
    SplitPoints(low, up);
    var r, k, m := e[low..up], (up - low) / 2, InnerEnd(low, up);
    assert |r| / 2 == k && m == low + k + 1;
    var inner, inner' := r[1..k + 1], e[low + 1..m];
    forall i | 0 <= i < k ensures inner[i] == inner'[i] {
      assert inner[i] == r[i + 1] == e[low + 1 + i];
    }
    assert inner == inner';
    var outer, outer' := r[k + 1..], e[m..up];
    forall i | 0 <= i < up - m ensures outer[i] == outer'[i] {
      assert outer[i] == r[k + 1 + i] == e[m + i];
    }
    assert outer == outer';
  }

  /** The sides of the step over `[low, up)` of a list split around the
      step's middle offset. */
  lemma SidesOf(dist: (Point, Point) -> real, e: seq<Point>, low: nat, up: nat)
    requires low + 2 <= up <= |e|
    requires SplitAround(dist, e[low..up], (up - low) / 2)
    ensures Within(dist, e[low], dist(e[MuIndex(low, up)], e[low]), e[low + 1..InnerEnd(low, up)])
    ensures Beyond(dist, e[low], dist(e[MuIndex(low, up)], e[low]), e[InnerEnd(low, up)..up])
  {
    StepRange(e, low, up);
    SidesOfRange(dist, e[low..up]);
  }

  /** The node the build assembles meets the vantage-point invariant: the
      points of `inner` are within the distance of `last`, one of them,
      from `vp`, those of `outer` beyond it; `left` holds the points of
      `inner` and `right` those of `outer`, and `inner` has half of the
      node's points. */
  lemma NodeFromSides(dist: (Point, Point) -> real, vp: Point, last: Point, inner: seq<Point>, outer: seq<Point>, left: VpNode, right: VpNode)
    requires Symmetric(dist)
    requires last in inner && (|outer| == |inner| || |outer| + 1 == |inner|)
    requires Within(dist, vp, dist(last, vp), inner) && Beyond(dist, vp, dist(last, vp), outer)
    requires multiset(PreOrder(left)) == multiset(inner)
    requires multiset(PreOrder(right)) == multiset(outer)
    requires Size(left) == |inner| && Size(right) == |outer|
    ensures IsVpNode(dist, Node(vp, dist(vp, last), left, right))
  {
    var mu := dist(vp, last);
    assert mu == dist(last, vp);
    NearSide(dist, vp, mu, PreOrder(left), inner);
    FarSide(dist, vp, mu, PreOrder(right), outer);
    assert last in multiset(PreOrder(left));
    assert last in PreOrder(left);
    assert left != Nil && Size(left) == Size(Node(vp, mu, left, right)) / 2;
  }

  /** A side's bound carries over to any rearrangement of it. */
  lemma NearSide(dist: (Point, Point) -> real, vp: Point, mu: real, ps: seq<Point>, qs: seq<Point>)
    requires multiset(ps) == multiset(qs) && Within(dist, vp, mu, qs)
    ensures forall p :: p in ps ==> dist(p, vp) <= mu
  {
    forall p | p in ps ensures dist(p, vp) <= mu {
      assert p in multiset(qs);
    }
  }

  lemma FarSide(dist: (Point, Point) -> real, vp: Point, mu: real, ps: seq<Point>, qs: seq<Point>)
    requires multiset(ps) == multiset(qs) && Beyond(dist, vp, mu, qs)
    ensures forall p :: p in ps ==> mu <= dist(p, vp)
  {
    forall p | p in ps ensures mu <= dist(p, vp) {
      assert p in multiset(qs);
    }
  }

  /** One step of the build keeps the vantage-point invariant: the inner
      side of `[low, up)` of `e` is within the radius, the outer side beyond
      it, `left` holds the points of the inner side and `right` those of the
      outer side. */
  lemma StepNode(dist: (Point, Point) -> real, e: seq<Point>, low: nat, up: nat, left: VpNode, right: VpNode)
    requires Symmetric(dist) && low + 2 <= up <= |e|
    requires Within(dist, e[low], dist(e[MuIndex(low, up)], e[low]), e[low + 1..InnerEnd(low, up)])
    requires Beyond(dist, e[low], dist(e[MuIndex(low, up)], e[low]), e[InnerEnd(low, up)..up])
    requires multiset(PreOrder(left)) == multiset(e[low + 1..InnerEnd(low, up)])
    requires multiset(PreOrder(right)) == multiset(e[InnerEnd(low, up)..up])
    requires Size(left) == InnerEnd(low, up) - low - 1 && Size(right) == up - InnerEnd(low, up)
    ensures IsVpNode(dist, Node(e[low], dist(e[low], e[MuIndex(low, up)]), left, right))
  {
    StepPieces(e, low, up);
    NodeFromSides(dist, e[low], e[MuIndex(low, up)], e[low + 1..InnerEnd(low, up)], e[InnerEnd(low, up)..up], left, right);
  }

  /** The sizes of the two sides of one build step, and the radius point
      among the inner ones. */
  lemma StepPieces(e: seq<Point>, low: nat, up: nat)
    requires low + 2 <= up <= |e|
    ensures e[MuIndex(low, up)] in e[low + 1..InnerEnd(low, up)]
    ensures |e[low + 1..InnerEnd(low, up)]| == InnerEnd(low, up) - low - 1
    ensures |e[InnerEnd(low, up)..up]| == up - InnerEnd(low, up)
    ensures var i, o := |e[low + 1..InnerEnd(low, up)]|, |e[InnerEnd(low, up)..up]|; o == i || o + 1 == i
  {
    var m := InnerEnd(low, up);
    SplitPoints(low, up);
    SliceLast(e, low + 1, m);
  }

  /** What the two recursive builds of one step leave: each subtree holds
      the points of its side of the partitioned range. */
  lemma StepSides(e: seq<Point>, e1: seq<Point>, e2: seq<Point>, low: nat, m: nat, up: nat, left: VpNode, right: VpNode)
    requires low < m <= up <= |e|
    requires SameOutside(e1, e, low + 1, m)
    requires multiset(e1[low + 1..m]) == multiset(e[low + 1..m])
    requires SameOutside(e2, e1, m, up)
    requires multiset(e2[m..up]) == multiset(e1[m..up])
    requires PreOrder(left) == e1[low + 1..m]
    requires PreOrder(right) == e2[m..up]
    ensures multiset(PreOrder(left)) == multiset(e[low + 1..m]) && Size(left) == m - low - 1
    ensures multiset(PreOrder(right)) == multiset(e[m..up]) && Size(right) == up - m
  {
    BuildLayout(e, e1, e2, low, m, up);
    PreOrderLength(left);
    PreOrderLength(right);
  }

  /** Every tree the build returns is a vantage-point tree: at each node
      the inner subtree holds the points within `mu` of the vantage point,
      the outer subtree the points at `mu` or beyond, and the inner subtree
      holds half of the node's points, rounded down. */
  lemma {:induction false} BuildOfIsVpTree(dist: (Point, Point) -> real, pick: (int, int) -> int, d: seq<Point>, low: nat, up: nat)
    requires IsDistance(dist) && IsPicker(pick) && low <= up <= |d|
    ensures IsVpTree(dist, BuildOf(dist, pick, d, low, up).0)
    decreases up - low
  {
    if up - low == 1 {
      NewNodeIsLeaf(dist, d[low]);
    } else if up - low >= 2 {
      var e := PartitionOf(dist, d, low, up, pick(low, up));
      var m := InnerEnd(low, up);
      var (left, e1) := BuildOf(dist, pick, e, low + 1, m);
      var (right, e2) := BuildOf(dist, pick, e1, m, up);
      BuildOfIsVpTree(dist, pick, e, low + 1, m);
      BuildOfIsVpTree(dist, pick, e1, m, up);
      BuildOfKeeps(dist, pick, e, low + 1, m);
      BuildOfKeeps(dist, pick, e1, m, up);
      BuildOfPreOrder(dist, pick, e, low + 1, m);
      BuildOfPreOrder(dist, pick, e1, m, up);
      StepSides(e, e1, e2, low, m, up, left, right);
      PartitionSplits(dist, d, low, up, pick(low, up));
      SidesOf(dist, e, low, up);
      StepNode(dist, e, low, up, left, right);
    }
  }

  /** Building over a whole list gives a valid tree: the list comes back
      rearranged, laid out by the tree in pre-order, with every point kept. */
  lemma BuildOfValid(dist: (Point, Point) -> real, pick: (int, int) -> int, points: seq<Point>)
    requires IsDistance(dist) && IsPicker(pick)
    ensures PreOrder(BuildOf(dist, pick, points, 0, |points|).0) == BuildOf(dist, pick, points, 0, |points|).1
    ensures IsVpTree(dist, BuildOf(dist, pick, points, 0, |points|).0)
    ensures multiset(BuildOf(dist, pick, points, 0, |points|).1) == multiset(points)
    ensures Size(BuildOf(dist, pick, points, 0, |points|).0) == |points|
  {
    BuildOfWhole(dist, pick, points);
    BuildOfIsVpTree(dist, pick, points, 0, |points|);
  }

  /** The layout facts of `BuildOfValid`. */
  lemma BuildOfWhole(dist: (Point, Point) -> real, pick: (int, int) -> int, points: seq<Point>)
    requires IsPicker(pick)
    ensures PreOrder(BuildOf(dist, pick, points, 0, |points|).0) == BuildOf(dist, pick, points, 0, |points|).1
    ensures multiset(BuildOf(dist, pick, points, 0, |points|).1) == multiset(points)
    ensures Size(BuildOf(dist, pick, points, 0, |points|).0) == |points|
  {
    var r := BuildOf(dist, pick, points, 0, |points|);
    BuildOfKeeps(dist, pick, points, 0, |points|);
    BuildOfPreOrder(dist, pick, points, 0, |points|);
    PreOrderLength(r.0);
    WholeSlice(r.1, |points|);
    WholeSlice(points, |points|);
  }

  lemma WholeSlice(s: seq<Point>, n: nat)
    requires n == |s|
    ensures s[0..n] == s
  {
  }
}
