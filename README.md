# Vantage-point tree and 2D-tree node, modelled in Dafny

This project models the core of a small Python library for nearest-neighbour search over 2D points. Two parts are modelled.

**The vantage-point tree of `vptree.py`.**
- The Euclidean `distance`.
- The node record `VpTreeNode`.
- The class `VpTree`:
  - its constructor;
  - the recursive in-place build `__build`, which draws a random vantage point, swaps it to the front of the range, partitions the rest of the range by distance with `np.argpartition` and recurses on the two halves;
  - the query `__nearest_neighbor` / `nearest_neighbor`.

**The node record `TreeNode` of `2dtree.py`.** This covers its constructor and the split label of `__str__`.

Modules:
- `Metric` (metric.dfy): points and the distance. Dafny's reals have no square root, so the distance is a parameter `dist`.
  - `IsEuclidean` pins it to the source's formula: the non-negative root of the sum of squares.
  - `IsDistance` lists what the tree relies on.
  - `Triangle` is the triangle inequality, proved for the Euclidean formula.
- `VpNodes` (vpnode.dfy): the node datatype and the invariant the build establishes, `IsVpTree`. At every node, the inner subtree holds `size / 2` points, all within `mu` of the vantage point. `mu` is the distance of one of those points. The outer subtree holds points at distance `mu` or more.
- `Selection` (selection.dfy): `np.argpartition` as a partial selection sort over an index list, plus the zero-index fix-up of vptree.py:50-53.
- `VpTrees` (vptree.dfy): the class `VpTree`.
  - Its field `datapoints` is a sequence that `Partition` and `Build` reassign.
  - Each method is proved equal to a function of the list before: `PartitionOf` and `BuildOf`.
  - Lemmas about those functions prove the following:
    - the build only rearranges its range and keeps its points;
    - it lays the tree out in pre-order;
    - every node meets the invariant.
- `VpSearch` (vpsearch.dfy): the query as written, as a function over the node datatype.
- `VpExactSearch` (vpexact.dfy): the search the query evidently intends, proved exact.
- `MissedNeighbour` (missed.dfy): a concrete build on which the query as written misses the nearest point.
- `TwoDTree` (twodtree.dfy): the 2D-tree node.
- `ExtendedReal` (extreal.dfy): reals with the two infinities, and Python's `<` on them.
- `Wrappers` (wrappers.dfy): `Option`.

Randomness is a parameter. `np.random.randint(low, up)` becomes a function `pick` that returns an index in `[low, up)` (`IsPicker`). One build draws once per range of two or more points, and never draws twice for the same range, so a function of the range covers every sequence of draws.

Points where the code's behaviour is easy to misread:
- The outer subtree holds points at distance `>= mu`. Ties at `mu` can land on either side.
- The partition offset is `mid = (up - low) // 2`.
- The query on an empty tree returns `(None, inf)`.
- The query is not exact. See "## Findings".
- The inner subtree always receives `size // 2` points, so every tree the build makes has height `floor(log2 n) + 1` whatever the pivots (`VpNodes.HeightLogarithmic`).

## Model

| member | source | states |
|---|---|---|
| Metric.SquaredDistance | vptree.py:5-6 | the radicand of `distance` is non-negative, and zero exactly between equal points |
| Metric.EuclideanIsDistance | vptree.py:5-6 | the source's distance is non-negative, symmetric and zero from a point to itself; it is zero only between equal points |
| Metric.EuclideanTriangle | vptree.py:5-6 | the source's distance obeys the triangle inequality, proved from the formula via Cauchy-Schwarz |
| Metric.EuclideanOnLine | vptree.py:5-6 | between points with the same y, the distance is the absolute difference of the x-coordinates |
| ExtendedReal.Less | vptree.py:74-93 | Python's `<` with infinities: agrees with `<` on finite values, `-inf` lies below and `inf` above every other value, and nothing is below `-inf` or above `inf` |
| ExtendedReal.LessTrichotomy | vptree.py:74-93 | exactly one of `a < b`, `a == b`, `b < a` holds |
| VpNodes.NewNode | vptree.py:12-16 | a fresh node holds the given point, has `mu = 0` and no children |
| VpNodes.NewNodeIsLeaf | vptree.py:12-16 | a fresh node holds only its point, with `mu = 0` and no children, and is a one-point tree meeting the invariant |
| VpNodes.MuNonNegative | vptree.py:61-62 | with a non-negative distance, every node's `mu` is non-negative |
| VpNodes.InnerNonEmpty | vptree.py:47-66 | a node over two or more points has a non-empty inner subtree |
| VpNodes.HeightLogarithmic | vptree.py:47-66 | a tree of n points meeting the invariant has height h with 2^(h-1) <= n < 2^h |
| VpNodes.SubtreeIsVpTree | vptree.py:65-66 | every subtree of a tree meeting the invariant meets it too |
| Selection.MinPosition | vptree.py:49 | the loop finds the first position of a smallest remaining distance (`MinPositionIn`) |
| Selection.MinPositionInIsMin | vptree.py:49 | that position's distance is no larger than any other in the range scanned |
| Selection.ArgPartition | vptree.py:49 | the `argpartition` loop returns the arrangement of k+1 rounds of selection (`SelectFirst`) |
| Selection.SelectFirstPermutes | vptree.py:49 | that arrangement is a permutation of `0 .. n-1` |
| Selection.SelectFirstPartitions | vptree.py:49 | the arrangement is a permutation; nothing before position k has a larger distance, and nothing after it a smaller one |
| Selection.SelectFirstAscending | vptree.py:49 | on distances already ascending, selection keeps the identity arrangement |
| Selection.PositionOf | vptree.py:50 | the position found holds the value sought and is its first occurrence |
| Selection.MoveZeroFirst | vptree.py:50-53 | the swap puts index 0 first and keeps the length and the multiset of the arrangement |
| Selection.Gather | vptree.py:56 | the gathered slice has one entry per index, entry i being the point at offset `idx[i]` |
| Selection.GatherPermutation | vptree.py:56-57 | rearranging a slice through a permutation keeps its multiset of points |
| Selection.MoveZeroFirstPermutes | vptree.py:50-53 | index 0 occurs in the arrangement, and moving it to the front keeps a permutation |
| Selection.MoveZeroFirstKeepsPartition | vptree.py:50-53 | when offset 0 has the smallest distance, moving it to the front keeps the partition at k (k >= 1) |
| VpTrees.Distances | vptree.py:45-46 | one distance per point of the range, in order: entry i is the distance from point i to the vantage point |
| VpTrees.Arrangement | vptree.py:45-53 | the rearrangement of a range is a permutation of its offsets with offset 0 (the vantage point) first |
| VpTrees.ArrangementPartitions | vptree.py:45-53 | that arrangement partitions the range's distances to its vantage point at the middle offset |
| VpTrees.VpTree.Partition | vptree.py:39-57 | the new list is `PartitionOf` of the old one, and the returned `mid` is `(up - low) // 2` |
| VpTrees.PartitionOf | vptree.py:39-57 | the partition step keeps the list's length and puts the drawn point at `low`; its other guarantees are `PartitionKeepsPoints` and `PartitionSplits` |
| VpTrees.PartitionKeepsPoints | vptree.py:39-57 | the partition step changes nothing outside `[low, up)` and keeps the range's multiset; the drawn point ends at `low` |
| VpTrees.PartitionSplits | vptree.py:45-62 | after the partition step, offsets 1..mid are within `mu` of the vantage point and later offsets are at `mu` or more, with `mu` the distance of offset mid |
| VpTrees.PartitionAscending | vptree.py:39-57 | a range already ascending in distance from its first point, with that point drawn, is left unchanged |
| VpTrees.VpTree.Build | vptree.py:28-68 | the returned tree and the new list are `BuildOf` of the old list |
| VpTrees.VpTree.BuildNode | vptree.py:38-68 | for a range of two or more points, the returned node and the new list are `BuildOf` of the old list |
| VpTrees.BuildOf | vptree.py:28-68 | the build keeps the list's length and returns no node exactly for an empty range; `BuildOfLayout`, `BuildOfKeeps`, `BuildOfPreOrder` and `BuildOfIsVpTree` state the rest |
| VpTrees.BuildOfKeeps | vptree.py:41-66 | the build changes nothing outside `[low, up)` and keeps the range's multiset of points |
| VpTrees.BuildOfPreOrder | vptree.py:60-66 | the tree lists, in pre-order, exactly the rearranged range |
| VpTrees.BuildOfLayout | vptree.py:28-68 | the build makes `up - low` nodes: none for an empty range, a leaf for one point, and otherwise a node whose vantage point is the drawn point; plus the two facts above |
| VpTrees.BuildOfIsVpTree | vptree.py:45-66 | every tree the build returns meets the vantage-point invariant at every node |
| VpTrees.BuildOfValid | vptree.py:24-26 | building over the whole list gives a tree meeting the invariant, whose pre-order is the rearranged list, with the same multiset of points and one node per point |
| VpTrees.VpTree.constructor | vptree.py:24-26 | the object keeps the built tree and the rearranged list, meets `Valid`, keeps the caller's points and has one node per point |
| VpTrees.VpTree.NearestNeighborOf | vptree.py:124-125 | on an empty tree the query returns `(None, inf)`; otherwise it returns a node of the tree and the query's distance to it, no larger than the distance to the root |
| VpSearch.Prune | vptree.py:97-109 | for a non-negative threshold and distance, the three tests place `d` against the shell `[mu - tau, mu + tau]`: beyond it only the outer subtree, before it only the inner one, strictly inside both, on an edge neither |
| VpSearch.PruneAtOwnDistance | vptree.py:95-109 | below the root, where `tau = d`: the inner subtree is never pruned; only the inner one is explored iff `2d < mu`; both iff `0 < mu < 2d`; neither iff `mu = 0` or `mu = 2d` |
| VpSearch.NearestFrom | vptree.py:70-122 | a call on `None` hands back what it received; otherwise it returns a node below the current one, with its distance, no larger than the current node's |
| VpSearch.NearestNeighbor | vptree.py:124-125 | `(None, inf)` on an empty tree; otherwise a stored node, its exact distance, and at most the root's distance |
| VpSearch.RootExploresBoth | vptree.py:79-93 | the root call explores both subtrees: the answer is no farther than either child's vantage point |
| VpSearch.InnerNeverPruned | vptree.py:94-102 | in a tree meeting the invariant, the branch that prunes the inner subtree is unreachable below the root |
| VpSearch.SearchMayMissNearest | vptree.py:94-109 | there is a tree meeting every invariant of the build in which the query 3 gets distance 2 though the point 3 is stored |
| VpExactSearch.ExactFrom | vptree.py:70-122 | the corrected search returns either what it received or a node below the current one with its distance, never worse than the incoming `tau` |
| VpExactSearch.InnerOutOfReach | vptree.py:97-102 | when `d > mu + t`, every inner point is farther than t from the query |
| VpExactSearch.OuterOutOfReach | vptree.py:103-108 | when `d + t < mu`, every outer point is farther than t from the query |
| VpExactSearch.ExactFromBound | vptree.py:70-122 | the corrected search's answer is no farther than any point of the subtree searched |
| VpExactSearch.ExactNearest | vptree.py:124-125 | the corrected query returns `(None, inf)` on an empty tree, and a stored node with its distance otherwise |
| VpExactSearch.ExactNearestIsNearest | vptree.py:124-125 | for a symmetric distance with the triangle inequality, the corrected query returns a nearest stored point |
| VpExactSearch.ExactNearestEuclidean | vptree.py:124-125 | with the source's distance, the corrected query is exact on every tree meeting the invariant |
| MissedNeighbour.BuildMakesMissTree | vptree.py:28-68 | building over 0, 1, 1, 3, 10, 10 on the x-axis, drawing the first index each time, gives the counterexample tree and leaves the list unchanged |
| MissedNeighbour.BuiltTreeMissesNearest | vptree.py:94-122 | on that built tree the query 3 returns the point 1 at distance 2, though 3 is stored |
| MissedNeighbour.ExactFindsStored | vptree.py:94-122 | on the same tree the corrected query returns distance 0 |
| MissedNeighbour.QueryThroughClass | vptree.py:124-125 | through the class, `VpTree(points).nearest_neighbor(3)` returns the node of 1 with distance 2 |
| TwoDTree.NewTreeNode | 2dtree.py:7-28 | a fresh node keeps x, y and the split axis as given, has no children, and its region is the whole plane |
| TwoDTree.NewDefaultNode | 2dtree.py:11 | a node built without a split direction splits on x; it has the same point, region and children as any fresh node |
| TwoDTree.NewNodeHoldsPoint | 2dtree.py:23-24 | a fresh node's region holds its own point, and every point of the plane |
| TwoDTree.WholePlaneHoldsAll | 2dtree.py:23-24 | a region with infinite bounds on all four sides holds every point |
| TwoDTree.SplitLabel | 2dtree.py:34 | the label is 'x' exactly when the node splits on x, and 'y' exactly when it does not |
| TwoDTree.NewNodeLabel | 2dtree.py:34-35 | a fresh node is labelled with the axis it was given, and 'x' by default |

## Left out

- `math.sqrt` and floating point. `distance` is a parameter over Dafny's exact reals, tied to the source's formula by `IsEuclidean`. Rounding, NaN and overflow are not modelled.
- `np.argpartition`. It is modelled by one algorithm that meets its contract: a partial selection sort that breaks ties by first position. The proofs of the tree's invariant and of the point-keeping lemmas use only that contract. `BuildOf` and the concrete build of `MissedNeighbour` use this particular arrangement, while numpy may order ties and the two sides differently.
- `np.random.randint` is the parameter `pick`. The model covers every sequence of draws, not their distribution.
- Python's `mu = 0` is an int. It is modelled as the real 0.0.
- `VpTrees.VpTree.constructor`: the object keeps the caller's list and rearranges it in place. The model copies it into a sequence field, so the change the caller sees in its own list is not modelled.
- Node identity: nodes are values. The search returns the subtree whose root is the answer, not an object reference.
- `VpTree.print`, `__print_subtree` and both `__str__` methods' string formatting: console output only. The split label is modelled.
- The 2D-tree's build and query live in the module `tree`, which is not part of this model. Without them, nothing updates a `TreeNode`'s region or children, so only the fresh node is modelled.
- ecobici.py, the data loading, coordinate conversion and plotting script, is not part of this model.

## Findings

| source | as written | input that shows it | evidently intended | confidence | as-written member | corrected member |
|---|---|---|---|---|---|---|
| vptree.py:94-96 | every call below the root sets `tau = d` and `nn = node`, dropping the best distance found so far, and all its pruning tests use that `d` | points (0,0), (1,0), (1,0), (3,0), (10,0), (10,0), drawing the first index of every range; query (3,0). The node of 1 has `mu = 0` and explores neither subtree, so the answer is (1,0) at distance 2 although (3,0) is stored | replace `tau` only by a smaller `d`, and prune a subtree only when the triangle inequality rules out every point in it; the query then returns a nearest point | not executed | MissedNeighbour.BuiltTreeMissesNearest | VpExactSearch.ExactNearestIsNearest |
