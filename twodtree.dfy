/** The node record of the 2D-tree (2dtree.py:6-35): a point, the
    rectangular region the node stands for, the axis it splits on and its
    two optional children. */
module TwoDTree {
  import opened Wrappers
  import opened ExtendedReal

  /** `TreeNode`. The region bounds may be infinite; the children are
      `None` or a node. */
  datatype TreeNode = TreeNode(
    x: real, y: real,
    xmin: ExtReal, xmax: ExtReal, ymin: ExtReal, ymax: ExtReal,
    splitX: bool,
    left: Option<TreeNode>, right: Option<TreeNode>)

  /** The two axes a node may split on, as `__str__` names them. */
  const XAxis: char := 'x'
  const YAxis: char := 'y'

  /** `TreeNode(x, y, split_x)`: the point as given, the whole plane as its
      region, the given split axis and no children. Python's default
      `split_x = True` is the caller passing `true`, see `NewDefaultNode`. */
  function NewTreeNode(x: real, y: real, splitX: bool): (n: TreeNode)
    ensures n.x == x && n.y == y && n.splitX == splitX
    ensures n.left == None && n.right == None
    ensures WholePlane(n)
  {
    TreeNode(x, y, NegInf, PosInf, NegInf, PosInf, splitX, None, None)
  }

  /** `TreeNode(x, y)` with the split direction left out: an x-split. */
  function NewDefaultNode(x: real, y: real): (n: TreeNode)
    ensures n.splitX && n.x == x && n.y == y
    ensures n.left == None && n.right == None && WholePlane(n)
  {
    NewTreeNode(x, y, true)
  }

  /** The region is unbounded on all four sides. */
  predicate WholePlane(n: TreeNode)
  {
    n.xmin == NegInf && n.xmax == PosInf && n.ymin == NegInf && n.ymax == PosInf
  }

  /** The point (px, py) lies in the node's closed region. */
  predicate InRegion(n: TreeNode, px: real, py: real)
  {
    AtMost(n.xmin, Fin(px)) && AtMost(Fin(px), n.xmax)
    && AtMost(n.ymin, Fin(py)) && AtMost(Fin(py), n.ymax)
  }

  /** A region that is the whole plane holds every point. */
  lemma WholePlaneHoldsAll(n: TreeNode, px: real, py: real)
    requires WholePlane(n)
    ensures InRegion(n, px, py)
  {
  }

  /** A fresh node's own point lies in its region, and so does every other
      point of the plane. */
  lemma NewNodeHoldsPoint(x: real, y: real, splitX: bool, px: real, py: real)
    ensures InRegion(NewTreeNode(x, y, splitX), x, y)
    ensures InRegion(NewTreeNode(x, y, splitX), px, py)
  {
    WholePlaneHoldsAll(NewTreeNode(x, y, splitX), x, y);
    WholePlaneHoldsAll(NewTreeNode(x, y, splitX), px, py);
  }

  /** The split-direction label of `__str__`. */
  function SplitLabel(n: TreeNode): (c: char)
    ensures c == XAxis <==> n.splitX
    ensures c == YAxis <==> !n.splitX
  {
    if n.splitX then XAxis else YAxis
  }

  /** A fresh node reports the axis it was given, and `x` by default. */
  lemma NewNodeLabel(x: real, y: real, splitX: bool)
    ensures SplitLabel(NewTreeNode(x, y, splitX)) == (if splitX then XAxis else YAxis)
    ensures SplitLabel(NewDefaultNode(x, y)) == XAxis
  {
  }
}
