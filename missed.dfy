/** The search of vptree.py:70-122 on a tree that the build of
    vptree.py:28-68 produces: six points on the x-axis, with the first
    index of every range drawn as its vantage point. The stored point 3 is
    at distance 0 from the query 3, yet the search answers with the point 1
    at distance 2; the corrected search answers 0. */
module MissedNeighbour {
  import opened Wrappers
  import opened ExtendedReal
  import opened Metric
  import opened VpNodes
  import opened Selection
  import opened VpSearch
  import opened VpTrees
  import opened VpExactSearch

  /** The points 0, 1, 1, 3, 10 and 10 on the x-axis. */
  function MissPoints(): seq<Point>
  {
    [OnAxis(0.0), OnAxis(1.0), OnAxis(1.0), OnAxis(3.0), OnAxis(10.0), OnAxis(10.0)]
  }

  /** A draw of `np.random.randint(low, up)` that always gives `low`. */
  function FirstOfRange(low: int, up: int): int
  {
    low
  }

  lemma FirstOfRangePicks()
    ensures IsPicker(FirstOfRange)
  {
  }

  /** `__build(4, 6)`: the two points 10 become a node of radius 0 with an
      inner leaf. */
  lemma BuildOuter(dist: (Point, Point) -> real)
    requires IsEuclidean(dist)
    ensures BuildOf(dist, FirstOfRange, MissPoints(), 4, 6) == (MissTree().right, MissPoints())
  {
    var p := MissPoints();
    EuclideanOnLine(dist, p[4], p[4]);
    EuclideanOnLine(dist, p[5], p[4]);
    EuclideanOnLine(dist, p[4], p[5]);
    var ds := Distances(dist, p[4..6], p[4]);
    assert ds[0] == 0.0 && ds[1] == 0.0;
    PartitionAscending(dist, p, 4, 6);
  }

  /** `__build(1, 4)`: the points 1, 1 and 3 become a node of radius 0 with
      the leaves 1 and 3. */
  lemma BuildInner(dist: (Point, Point) -> real)
    requires IsEuclidean(dist)
    ensures BuildOf(dist, FirstOfRange, MissPoints(), 1, 4) == (MissTree().left, MissPoints())
  {
    var p := MissPoints();
    EuclideanOnLine(dist, p[1], p[1]);
    EuclideanOnLine(dist, p[2], p[1]);
    EuclideanOnLine(dist, p[3], p[1]);
    EuclideanOnLine(dist, p[1], p[2]);
    var ds := Distances(dist, p[1..4], p[1]);
    assert ds[0] == 0.0 && ds[1] == 0.0 && ds[2] == 2.0;
    PartitionAscending(dist, p, 1, 4);
  }

  /** `__build(0, 6)` produces the tree of `VpSearch.MissTree` and leaves
      the list as it was. */
  lemma BuildMakesMissTree(dist: (Point, Point) -> real)
    requires IsEuclidean(dist)
    ensures BuildOf(dist, FirstOfRange, MissPoints(), 0, 6) == (MissTree(), MissPoints())
  {
    var p := MissPoints();
    EuclideanOnLine(dist, p[1], p[0]);
    EuclideanOnLine(dist, p[3], p[0]);
    EuclideanOnLine(dist, p[4], p[0]);
    EuclideanOnLine(dist, p[0], p[3]);
    EuclideanIsDistance(dist);
    var ds := Distances(dist, p[0..6], p[0]);
    assert ds == [0.0, 1.0, 1.0, 3.0, 10.0, 10.0];
    PartitionAscending(dist, p, 0, 6);
    BuildInner(dist);
    BuildOuter(dist);
  }

  /** The search as written, on the tree built from the six points, answers
      the query 3 with the point 1 at distance 2, though 3 is stored. */
  lemma BuiltTreeMissesNearest(dist: (Point, Point) -> real)
    requires IsEuclidean(dist)
    ensures var r := BuildOf(dist, FirstOfRange, MissPoints(), 0, 6);
      && OnAxis(3.0) in r.1 && dist(OnAxis(3.0), OnAxis(3.0)) == 0.0
      && NearestNeighbor(dist, OnAxis(3.0), r.0) == (Some(MissTree().left), Fin(2.0))
  {
    BuildMakesMissTree(dist);
    SearchMayMissNearest(dist);
    PointsHold3();
  }

  lemma PointsHold3()
    ensures OnAxis(3.0) in MissPoints()
  {
    assert MissPoints()[3] == OnAxis(3.0);
  }

  /** The corrected search, on the same tree, finds the stored point 3. */
  lemma ExactFindsStored(dist: (Point, Point) -> real)
    requires IsEuclidean(dist)
    ensures ExactNearest(dist, OnAxis(3.0), BuildOf(dist, FirstOfRange, MissPoints(), 0, 6).0).1 == Fin(0.0)
  {
    BuildMakesMissTree(dist);
    ExactOnMissTree(dist);
  }

  lemma ExactOnMissTree(dist: (Point, Point) -> real)
    requires IsEuclidean(dist)
    ensures ExactNearest(dist, OnAxis(3.0), MissTree()).1 == Fin(0.0)
  {
    MissTreeIsVpTree(dist);
    MissTreeHolds3();
    EuclideanIsDistance(dist);
    ExactNearestEuclidean(dist, OnAxis(3.0), MissTree());
  }

  /** The same query through the class: a `VpTree` over the six points
      answers the query 3 with distance 2. */
  method QueryThroughClass(dist: (Point, Point) -> real) returns (answer: (Option<VpNode>, ExtReal))
    requires IsEuclidean(dist)
    ensures answer.1 == Fin(2.0) && answer.0 == Some(MissTree().left)
  {
    EuclideanIsDistance(dist);
    FirstOfRangePicks();
    var tree := new VpTree(MissPoints(), dist, FirstOfRange);
    BuiltTreeMissesNearest(dist);
    answer := tree.NearestNeighborOf(OnAxis(3.0));
  }
}
