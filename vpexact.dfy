/** The search `__nearest_neighbor` evidently means to perform: a search
    in the style of Steve Hanov's vantage-point tree that keeps the source's
    order of visits (the inner subtree before the outer one). The threshold
    `tau` is the best distance found so far; a node replaces it only when
    it is nearer, and a subtree is skipped only when the
    triangle inequality shows that none of its points can be nearer than
    `tau`. Unlike the search as written (see `VpSearch.SearchMayMissNearest`)
    it always returns a nearest point. */
module VpExactSearch {
  import opened Wrappers
  import opened ExtendedReal
  import opened Metric
  import opened VpNodes

  /** A point within `mu` of the vantage point, at distance `d` from the
      query, may lie nearer the query than `tau`. */
  predicate InnerReachable(tau: ExtReal, mu: real, d: real)
  {
    !tau.Fin? || d <= mu + tau.r
  }

  /** A point at distance `mu` or more from the vantage point, at distance
      `d` from the query, may lie nearer the query than `tau`. */
  predicate OuterReachable(tau: ExtReal, mu: real, d: real)
  {
    !tau.Fin? || mu <= d + tau.r
  }

  /** The search below `node` with the best node `nn` at distance `tau`
      found so far. The result is the pair handed in, or a node below
      `node` with its distance to the query; it is never worse than `tau`. */
  function ExactFrom(dist: (Point, Point) -> real, query: Point, node: VpNode,
                     tau: ExtReal, nn: Option<VpNode>): (r: (Option<VpNode>, ExtReal))
    ensures AtMost(r.1, tau)
    ensures r == (nn, tau) || FoundIn(dist, query, node, r)
    decreases node
  {
    if node == Nil then (nn, tau)
    else
      var d := dist(query, node.vp);
      var (nn1, tau1) := if Less(Fin(d), tau) then (Some(node), Fin(d)) else (nn, tau);
      var (nn2, tau2) :=
        if InnerReachable(tau1, node.mu, d) then ExactFrom(dist, query, node.left, tau1, nn1) else (nn1, tau1);
      var r :=
        if OuterReachable(tau2, node.mu, d) then ExactFrom(dist, query, node.right, tau2, nn2) else (nn2, tau2);
      AtMostTransitive(r.1, tau2, tau1);
      AtMostTransitive(r.1, tau1, tau);
      r
  }

  /** `r` holds a node below `node` and the query's distance to it. */
  ghost predicate FoundIn(dist: (Point, Point) -> real, query: Point, node: VpNode, r: (Option<VpNode>, ExtReal))
  {
    && r.0.Some? && r.0.value.Node?
    && IsSubtree(r.0.value, node)
    && r.1 == Fin(dist(query, r.0.value.vp))
  }

  /** The search from the root with no node and `tau = inf`. */
  function ExactNearest(dist: (Point, Point) -> real, query: Point, root: VpNode): (r: (Option<VpNode>, ExtReal))
    ensures root == Nil ==> r == (None, PosInf)
    ensures root != Nil ==> FoundIn(dist, query, root, r) && r.0.value.vp in PreOrder(root)
  {
    var r := ExactFrom(dist, query, root, PosInf, None);
    if root == Nil then r
    else
      SubtreePointStored(r.0.value, root);
      r
  }

  /** The result of the search below a node is no farther than any point
      of that node's subtree. */
  lemma {:induction false} ExactFromBound(dist: (Point, Point) -> real, query: Point, node: VpNode,
                                         tau: ExtReal, nn: Option<VpNode>)
    requires Symmetric(dist) && Triangle(dist) && IsVpTree(dist, node)
    ensures forall p :: p in PreOrder(node) ==> AtMost(ExactFrom(dist, query, node, tau, nn).1, Fin(dist(query, p)))
    decreases node
  {
    if node != Nil {
      var d := dist(query, node.vp);
      var (nn1, tau1) := if Less(Fin(d), tau) then (Some(node), Fin(d)) else (nn, tau);
      assert AtMost(tau1, Fin(d));
      var (nn2, tau2) :=
        if InnerReachable(tau1, node.mu, d) then ExactFrom(dist, query, node.left, tau1, nn1) else (nn1, tau1);
      if InnerReachable(tau1, node.mu, d) {
        ExactFromBound(dist, query, node.left, tau1, nn1);
      } else {
        InnerOutOfReach(dist, query, node, tau1.r);
      }
      var r :=
        if OuterReachable(tau2, node.mu, d) then ExactFrom(dist, query, node.right, tau2, nn2) else (nn2, tau2);
      if OuterReachable(tau2, node.mu, d) {
        ExactFromBound(dist, query, node.right, tau2, nn2);
      } else {
        OuterOutOfReach(dist, query, node, tau2.r);
      }
      assert r == ExactFrom(dist, query, node, tau, nn);
      forall p | p in PreOrder(node) ensures AtMost(r.1, Fin(dist(query, p))) {
        if p == node.vp {
          AtMostTransitive(r.1, tau2, tau1);
          AtMostTransitive(r.1, tau1, Fin(d));
        } else if p in PreOrder(node.left) {
          AtMostTransitive(r.1, tau2, Fin(dist(query, p)));
        }
      }
    }
  }

  /** When the query is farther than `mu + t` from the vantage point, every
      point of the inner subtree is farther than `t` from the query. */
  lemma InnerOutOfReach(dist: (Point, Point) -> real, query: Point, node: VpNode, t: real)
    requires Triangle(dist) && IsVpNode(dist, node) && node.Node?
    requires node.mu + t < dist(query, node.vp)
    ensures forall p :: p in PreOrder(node.left) ==> Less(Fin(t), Fin(dist(query, p)))
  {
    forall p | p in PreOrder(node.left) ensures t < dist(query, p) {
      assert dist(query, node.vp) <= dist(query, p) + dist(p, node.vp);
    }
  }

  /** When the query is nearer than `mu - t` to the vantage point, every
      point of the outer subtree is farther than `t` from the query. */
  lemma OuterOutOfReach(dist: (Point, Point) -> real, query: Point, node: VpNode, t: real)
    requires Symmetric(dist) && Triangle(dist) && IsVpNode(dist, node) && node.Node?
    requires dist(query, node.vp) + t < node.mu
    ensures forall p :: p in PreOrder(node.right) ==> Less(Fin(t), Fin(dist(query, p)))
  {
    forall p | p in PreOrder(node.right) ensures t < dist(query, p) {
      assert dist(p, node.vp) <= dist(p, query) + dist(query, node.vp);
    }
  }

  /** The corrected search returns a nearest point of the tree: no stored
      point is nearer to the query. */
  lemma ExactNearestIsNearest(dist: (Point, Point) -> real, query: Point, root: VpNode)
    requires Symmetric(dist) && Triangle(dist) && IsVpTree(dist, root) && root.Node?
    ensures var r := ExactNearest(dist, query, root);
      && r.0.value.vp in PreOrder(root) && r.1 == Fin(dist(query, r.0.value.vp))
      && forall p :: p in PreOrder(root) ==> dist(query, r.0.value.vp) <= dist(query, p)
  {
    ExactFromBound(dist, query, root, PosInf, None);
  }

  /** With the source's distance the corrected search is exact on every
      tree the build produces. */
  lemma ExactNearestEuclidean(dist: (Point, Point) -> real, query: Point, root: VpNode)
    requires IsEuclidean(dist) && IsVpTree(dist, root) && root.Node?
    ensures forall p :: p in PreOrder(root) ==> ExactNearest(dist, query, root).1.r <= dist(query, p)
  {
    EuclideanIsDistance(dist);
    EuclideanTriangle(dist);
    ExactNearestIsNearest(dist, query, root);
  }
}
