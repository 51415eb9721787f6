/** The nodes of a vantage-point tree (VpTreeNode, vptree.py:11-16) and the
    invariant that `VpTree.__build` establishes on them. */
module VpNodes {
  import opened Metric

  /** `None` or a node holding its vantage point `vp`, its radius `mu` and
      its inner (`left`) and outer (`right`) subtrees. The source sets `mu`,
      `left` and `right` once, right after creating the node, and never
      again, so a node is a value here. */
  datatype VpNode = Nil | Node(vp: Point, mu: real, left: VpNode, right: VpNode)

  /** `VpTreeNode(point)`: the point, no children and `mu = 0`. */
  function NewNode(point: Point): (n: VpNode)
    ensures n.Node? && n.vp == point && n.mu == 0.0
    ensures n.left == Nil && n.right == Nil
  {
    Node(point, 0.0, Nil, Nil)
  }

  /** The points of a tree, node before inner subtree before outer subtree:
      the order in which the build leaves them in the point list. */
  function PreOrder(t: VpNode): seq<Point>
  {
    match t
    case Nil => []
    case Node(vp, _, l, r) => [vp] + PreOrder(l) + PreOrder(r)
  }

  /** The number of nodes. */
  function Size(t: VpNode): nat
  {
    match t
    case Nil => 0
    case Node(_, _, l, r) => 1 + Size(l) + Size(r)
  }

  /** The number of nodes on the longest root-to-leaf path: the recursion
      depth of the build and of the search. */
  function Height(t: VpNode): nat
  {
    match t
    case Nil => 0
    case Node(_, _, l, r) => 1 + if Height(l) < Height(r) then Height(r) else Height(l)
  }

  /** `s` is `t` or a node below it. */
  predicate IsSubtree(s: VpNode, t: VpNode)
  {
    s == t || (t.Node? && (IsSubtree(s, t.left) || IsSubtree(s, t.right)))
  }

  /** The invariant the build establishes at a node: the inner subtree
      holds the `Size / 2` points nearest the vantage point, all within `mu`
      of it, `mu` is the distance of one of them (0 for a leaf), and the
      outer subtree holds points at distance `mu` or more. Ties at `mu` may
      fall on either side. */
  ghost predicate IsVpNode(dist: (Point, Point) -> real, t: VpNode)
  {
    match t
    case Nil => true
    case Node(vp, mu, l, r) =>
      && Size(l) == Size(t) / 2
      && (l == Nil ==> mu == 0.0)
      && (forall p :: p in PreOrder(l) ==> dist(p, vp) <= mu)
      && (forall p :: p in PreOrder(r) ==> mu <= dist(p, vp))
      && (l != Nil ==> exists p :: p in PreOrder(l) && dist(p, vp) == mu)
  }

  /** Every node of the tree meets the invariant. */
  ghost predicate IsVpTree(dist: (Point, Point) -> real, t: VpNode)
  {
    match t
    case Nil => true
    case Node(_, _, l, r) => IsVpNode(dist, t) && IsVpTree(dist, l) && IsVpTree(dist, r)
  }

  /** A node over two or more points has a non-empty inner subtree. */
  lemma InnerNonEmpty(dist: (Point, Point) -> real, t: VpNode)
    requires IsVpTree(dist, t) && 2 <= Size(t)
    ensures t.Node? && t.left.Node?
  {
  }

  /** A fresh node is a one-point tree that meets the invariant. */
  lemma NewNodeIsLeaf(dist: (Point, Point) -> real, point: Point)
    ensures IsVpTree(dist, NewNode(point))
    ensures PreOrder(NewNode(point)) == [point] && Size(NewNode(point)) == 1
  {
  }

  /** The pre-order lists every node exactly once. */
  lemma {:induction false} PreOrderLength(t: VpNode)
    ensures |PreOrder(t)| == Size(t)
  {
    match t
    case Nil =>
    case Node(_, _, l, r) =>
      PreOrderLength(l);
      PreOrderLength(r);
  }

  /** Every subtree's vantage point is one of the tree's points. */
  lemma {:induction false} SubtreePointStored(s: VpNode, t: VpNode)
    requires IsSubtree(s, t) && s.Node?
    ensures s.vp in PreOrder(t)
  {
    if s != t {
      if IsSubtree(s, t.left) {
        SubtreePointStored(s, t.left);
      } else {
        SubtreePointStored(s, t.right);
      }
    }
  }

  /** Every subtree of a vantage-point tree is one. */
  lemma {:induction false} SubtreeIsVpTree(dist: (Point, Point) -> real, s: VpNode, t: VpNode)
    requires IsVpTree(dist, t) && IsSubtree(s, t)
    ensures IsVpTree(dist, s)
  {
    if s != t {
      if IsSubtree(s, t.left) {
        SubtreeIsVpTree(dist, s, t.left);
      } else {
        SubtreeIsVpTree(dist, s, t.right);
      }
    }
  }

  /** With a non-negative distance every radius is non-negative. */
  lemma MuNonNegative(dist: (Point, Point) -> real, t: VpNode)
    requires NonNegative(dist) && IsVpTree(dist, t) && t.Node?
    ensures 0.0 <= t.mu
  {
    if t.left != Nil {
      var p :| p in PreOrder(t.left) && dist(p, t.vp) == t.mu;
    }
  }

  function Pow2(h: nat): (r: nat)
    ensures 1 <= r
  {
    if h == 0 then 1 else 2 * Pow2(h - 1)
  }

  lemma {:induction false} Pow2Monotone(a: nat, b: nat)
    requires a <= b
    ensures Pow2(a) <= Pow2(b)
  {
    if a < b {
      Pow2Monotone(a, b - 1);
    }
  }

  /** Every inner subtree holds half of its node's points (rounded down). */
  predicate Halved(t: VpNode)
  {
    match t
    case Nil => true
    case Node(_, _, l, r) => Size(l) == Size(t) / 2 && Halved(l) && Halved(r)
  }

  lemma {:induction false} VpTreeHalved(dist: (Point, Point) -> real, t: VpNode)
    requires IsVpTree(dist, t)
    ensures Halved(t)
  {
    match t
    case Nil =>
    case Node(_, _, l, r) =>
      VpTreeHalved(dist, l);
      VpTreeHalved(dist, r);
  }

  /** A halved tree of n >= 1 nodes has height floor(log2 n) + 1:
      2^(height - 1) <= n < 2^height. */
  lemma {:induction false} HalvedHeight(t: VpNode)
    requires Halved(t)
    ensures Size(t) < Pow2(Height(t))
    ensures t.Node? ==> Pow2(Height(t)) <= 2 * Size(t)
  {
    match t
    case Nil =>
    case Node(_, _, l, r) =>
      HalvedHeight(l);
      HalvedHeight(r);
      Pow2Monotone(Height(l), Height(t) - 1);
      Pow2Monotone(Height(r), Height(t) - 1);
  }

  /** Because the inner subtree always takes half of the points, whatever
      the vantage points, a tree of n >= 1 points has height
      floor(log2 n) + 1: 2^(height - 1) <= n < 2^height. */
  lemma HeightLogarithmic(dist: (Point, Point) -> real, t: VpNode)
    requires IsVpTree(dist, t)
    ensures Size(t) < Pow2(Height(t))
    ensures t.Node? ==> Pow2(Height(t)) <= 2 * Size(t)
  {
    VpTreeHalved(dist, t);
    HalvedHeight(t);
  }
}
