/** `VpTree.__nearest_neighbor` and `VpTree.nearest_neighbor`
    (vptree.py:70-125) as functions over the node datatype.

    The source threads a threshold `tau` and a node `nn` through the calls.
    The root call starts from `(None, inf)`. Every other call replaces the
    `tau` it receives by its own node's distance `d`, and all of its pruning
    tests use that value. So the search may skip the nearest point. */
module VpSearch {
  import opened Wrappers
  import opened ExtendedReal
  import opened Metric
  import opened VpNodes

  /** The subtrees a call below the root explores (vptree.py:97-121). */
  datatype Explore = OuterOnly | InnerOnly | Both | Neither

  /** The three tests of vptree.py:97, 103 and 109, in order, for the
      threshold `tau`, the node's radius `mu` and the query's distance `d`
      to the node's vantage point. When none holds, no subtree is explored.
      For a non-negative threshold and distance, the answer depends on
      where `d` lies against the shell `[mu - tau, mu + tau]`: beyond it
      only the outer subtree, before it only the inner one, strictly inside
      it both, and on either of its edges neither. */
  function Prune(tau: real, mu: real, d: real): (e: Explore)
    ensures 0.0 <= tau && 0.0 <= d ==> (e == OuterOnly <==> mu + tau < d)
    ensures 0.0 <= tau && 0.0 <= d ==> (e == InnerOnly <==> d < mu - tau)
    ensures 0.0 <= tau && 0.0 <= d ==> (e == Both <==> mu - tau < d < mu + tau)
    ensures 0.0 <= tau && 0.0 <= d ==> (e == Neither <==> d == mu - tau || d == mu + tau)
  {
    if tau + mu < d then OuterOnly
    else if tau < mu && d < mu - tau then InnerOnly
    else if mu - tau < d && d < mu + tau then Both
    else Neither
  }

  /** Below the root `tau` equals `d`, so with a non-negative radius the
      inner subtree is never pruned; the outer one is pruned exactly when
      `mu > 2d`; both are explored exactly when `0 < mu < 2d`; and neither
      when `mu == 0` or `mu == 2d`. */
  lemma PruneAtOwnDistance(mu: real, d: real)
    requires 0.0 <= mu && 0.0 <= d
    ensures Prune(d, mu, d) != OuterOnly
    ensures Prune(d, mu, d) == InnerOnly <==> 2.0 * d < mu
    ensures Prune(d, mu, d) == Both <==> 0.0 < mu < 2.0 * d
    ensures Prune(d, mu, d) == Neither <==> mu == 0.0 || mu == 2.0 * d
  {
  }

  /** The result `(nn, tau)` of a call on a node that is not `None`: a node
      below `node` and the query's distance to its vantage point, no larger
      than the distance to `node`'s own vantage point. */
  ghost predicate Answers(dist: (Point, Point) -> real, query: Point, node: VpNode, r: (Option<VpNode>, ExtReal))
    requires node.Node?
  {
    && r.0.Some? && r.0.value.Node?
    && IsSubtree(r.0.value, node)
    && r.1 == Fin(dist(query, r.0.value.vp))
    && dist(query, r.0.value.vp) <= dist(query, node.vp)
  }

  /** `__nearest_neighbor(query, node, tau, nn)`: the root call is the one
      with `nn == None`. A call on `None` hands back what it received. */
  function NearestFrom(dist: (Point, Point) -> real, query: Point, node: VpNode,
                       tau: ExtReal, nn: Option<VpNode>): (r: (Option<VpNode>, ExtReal))
    ensures node == Nil ==> r == (nn, tau)
    ensures node != Nil ==> Answers(dist, query, node, r)
    decreases node
  {
    if node == Nil then (nn, tau)
    else
      var d := dist(query, node.vp);
      if nn == None then
        // first call: explore the inner and then the outer region
        var (tau, nn) := (Fin(d), Some(node));
        var (nl, tl) := NearestFrom(dist, query, node.left, tau, nn);
        var (tau, nn) := if Less(tl, tau) then (tl, nl) else (tau, nn);
        var (nr, tr) := NearestFrom(dist, query, node.right, tau, nn);
        if Less(tr, tau) then (nr, tr) else (nn, tau)
      else
        // later calls: the incoming pair is overwritten by this node's
        var (tau, nn) := (Fin(d), Some(node));
        match Prune(tau.r, node.mu, d)
        case OuterOnly =>
          var (nr, tr) := NearestFrom(dist, query, node.right, Fin(d), nn);
          if Less(tr, tau) then (nr, tr) else (nn, tau)
        case InnerOnly =>
          var (nl, tl) := NearestFrom(dist, query, node.left, Fin(d), nn);
          if Less(tl, tau) then (nl, tl) else (nn, tau)
        case Both =>
          var (nl, tl) := NearestFrom(dist, query, node.left, Fin(d), nn);
          var (tau, nn) := if Less(tl, tau) then (tl, nl) else (tau, nn);
          var (nr, tr) := NearestFrom(dist, query, node.right, tau, nn);
          if Less(tr, tau) then (nr, tr) else (nn, tau)
        case Neither =>
          (nn, tau)
  }

  /** `nearest_neighbor(query)`: the search from the root with `tau = inf`
      and no node. An empty tree gives `(None, inf)`; otherwise the result
      is a node of the tree, its distance to the query, and that distance
      is at most the query's distance to the root's vantage point. */
  function NearestNeighbor(dist: (Point, Point) -> real, query: Point, root: VpNode): (r: (Option<VpNode>, ExtReal))
    ensures root == Nil ==> r == (None, PosInf)
    ensures root != Nil ==> Answers(dist, query, root, r) && r.0.value.vp in PreOrder(root)
  {
    var r := NearestFrom(dist, query, root, PosInf, None);
    if root == Nil then r
    else
      SubtreePointStored(r.0.value, root);
      r
  }

  /** The root call explores both subtrees whatever the distances: the
      result is no farther than either child's vantage point. */
  lemma RootExploresBoth(dist: (Point, Point) -> real, query: Point, root: VpNode)
    requires root.Node?
    ensures var r := NearestNeighbor(dist, query, root);
      && (root.left.Node? ==> r.1.Fin? && r.1.r <= dist(query, root.left.vp))
      && (root.right.Node? ==> r.1.Fin? && r.1.r <= dist(query, root.right.vp))
  {
  }

  /** Below the root, a node is left with its inner subtree pruned only
      if its radius is negative, which no node of a tree built with a
      non-negative distance has: the branch of vptree.py:97-102 is
      unreachable. */
  lemma InnerNeverPruned(dist: (Point, Point) -> real, query: Point, root: VpNode, s: VpNode)
    requires NonNegative(dist) && IsVpTree(dist, root)
    requires IsSubtree(s, root) && s.Node?
    ensures Prune(dist(query, s.vp), s.mu, dist(query, s.vp)) != OuterOnly
  {
    SubtreeIsVpTree(dist, s, root);
    MuNonNegative(dist, s);
    PruneAtOwnDistance(s.mu, dist(query, s.vp));
  }

  /** The search is not exact. On the x-axis, the tree with vantage point 0
      at the root, inner subtree {1 (radius 0; inner 1, outer 3)} and outer
      subtree {10 (radius 0; inner 10)} meets every invariant of the build,
      yet the query 3 gets the point 1 at distance 2 although 3 is stored:
      the node with vantage point 1 and radius 0 explores neither subtree. */
  lemma SearchMayMissNearest(dist: (Point, Point) -> real)
    requires IsEuclidean(dist)
    ensures IsVpTree(dist, MissTree())
    ensures OnAxis(3.0) in PreOrder(MissTree()) && dist(OnAxis(3.0), OnAxis(3.0)) == 0.0
    ensures NearestNeighbor(dist, OnAxis(3.0), MissTree()) == (Some(MissTree().left), Fin(2.0))
  {
    MissTreeIsVpTree(dist);
    MissTreeSearch(dist);
    EuclideanOnLine(dist, OnAxis(3.0), OnAxis(3.0));
    MissTreeHolds3();
  }

  lemma MissTreeHolds3()
    ensures OnAxis(3.0) in PreOrder(MissTree())
  {
    assert PreOrder(MissTree())[3] == OnAxis(3.0);
  }

  lemma MissTreeIsVpTree(dist: (Point, Point) -> real)
    requires IsEuclidean(dist)
    ensures IsVpTree(dist, MissTree())
  {
    var p0, p1, p3, p10 := OnAxis(0.0), OnAxis(1.0), OnAxis(3.0), OnAxis(10.0);
    var t := MissTree();
    MissInnerIsVpTree(dist);
    MissOuterIsVpTree(dist);
    EuclideanOnLine(dist, p1, p0);
    EuclideanOnLine(dist, p3, p0);
    EuclideanOnLine(dist, p10, p0);
    assert PreOrder(t.left) == [p1, p1, p3];
    assert PreOrder(t.right) == [p10, p10];
  }

  lemma MissInnerIsVpTree(dist: (Point, Point) -> real)
    requires IsEuclidean(dist)
    ensures IsVpTree(dist, MissTree().left)
  {
    var p1, p3 := OnAxis(1.0), OnAxis(3.0);
    EuclideanOnLine(dist, p1, p1);
    EuclideanOnLine(dist, p3, p1);
    NewNodeIsLeaf(dist, p1);
    NewNodeIsLeaf(dist, p3);
  }

  lemma MissOuterIsVpTree(dist: (Point, Point) -> real)
    requires IsEuclidean(dist)
    ensures IsVpTree(dist, MissTree().right)
  {
    var p10 := OnAxis(10.0);
    EuclideanOnLine(dist, p10, p10);
    NewNodeIsLeaf(dist, p10);
  }

  lemma MissTreeSearch(dist: (Point, Point) -> real)
    requires IsEuclidean(dist)
    ensures NearestNeighbor(dist, OnAxis(3.0), MissTree()) == (Some(MissTree().left), Fin(2.0))
  {
    var p0, p1, p3, p10 := OnAxis(0.0), OnAxis(1.0), OnAxis(3.0), OnAxis(10.0);
    EuclideanOnLine(dist, p3, p0);
    EuclideanOnLine(dist, p3, p1);
    EuclideanOnLine(dist, p3, p10);
  }

  function OnAxis(x: real): Point
  {
    Point(x, 0.0)
  }

  function MissTree(): VpNode
  {
    Node(OnAxis(0.0), 3.0,
      Node(OnAxis(1.0), 0.0, NewNode(OnAxis(1.0)), NewNode(OnAxis(3.0))),
      Node(OnAxis(10.0), 0.0, NewNode(OnAxis(10.0)), Nil))
  }
}
