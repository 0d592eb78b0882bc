# three-mesh-bvh: bounding volume hierarchy build and ray queries

This project models the core of three-mesh-bvh (`umd/index.js`) in Dafny and proves properties of the model:

- **Triangle precomputation.** Triangles are counted, their corners read through the optional index buffer, and each triangle's bounds and centroid are written into flat arrays.
- **Construction context.** This is the mutable triangle permutation `tris` plus the range queries over it:
  - `getBounds` gives the union box of a range;
  - `getAverage` gives the mean centroid of a range;
  - `partition` is the Hoare partition with a left and a right index;
  - `writeReorderedIndices` copies vertex triples into the output index;
  - `getOptimalSplit` implements the Center, Average and SAH (surface area heuristic) strategies.
- **Tree builder.** This is the option handling of the `MeshBVH` constructor and the recursive split-or-leaf `splitNode` of `_buildTree`.
- **Ray queries.** These are `MeshBVHNode.raycast` and `raycastFirst` with `intersectTri`, `intersectTris` and `intersectClosestTri`.

Modelling choices:

- JavaScript numbers are `Num`, with four cases: `NaN`, `-Infinity`, a finite `real` and `Infinity`. This covers every case the code depends on: the `±Infinity` sentinels of `getBounds`, the `-Infinity` start of `getLongestEdgeIndex`, `0 / 0` in `getAverage`, and division by a zero surface area in the SAH cost. Rounding is not modelled.
- Code that changes state step by step is imperative Dafny:
  - `BVHConstructionContext` is the class `Context.ConstructionContext`, with `tris`, `bounds` and `centroids` as arrays;
  - the builder's mutable state is the class `Builder.TreeBuilder`;
  - the caller's `intersects` array is `Traversal.HitList`;
  - every source loop is a `while` or `for` loop proved against a function.
- Tree nodes are the datatype `Tree.Node`: a leaf with `offset` and `count`, or an internal node with `splitAxis`, `left` and `right`. `splitNode` returns the node it completes.
- The triangle test and the box test are oracles:
  - `hitTri` (type `TriTest`) is a map from vertex-id triples to intersections. It stands for `checkBufferGeometryIntersection`, near/far filter included.
  - `hitBox` (type `BoxTest`) is the set of boxes the ray hits. It stands for `intersectRay`.
- The geometry's positions are a sequence of `Vertex` records. Its optional index is a sequence of vertex ids.

## Model

| member | source | states |
|---|---|---|
| Boxes.BoundsToArray | umd/index.js:149-163 | slots 0..2 of the array are the box's min x, y, z and slots 3..5 its max x, y, z |
| Boxes.ArrayToBox | umd/index.js:165-177 | the box read from the first six slots gives those six slots back under boundsToArray |
| Boxes.BoxLayoutRoundTrip | umd/index.js:149-177 | arrayToBox(boundsToArray(b)) is b |
| Boxes.Extent | umd/index.js:186 | bounds[i + 3] - bounds[i], the extent on axis i that LongestEdge and the SAH cost read |
| Boxes.LongestEdge | umd/index.js:179-198 | the result is -1 exactly when no extent exceeds -Infinity; otherwise its extent exceeds -Infinity, is not matched by an earlier axis and not exceeded by a later one (ties go to the earlier axis) |
| Boxes.GetLongestEdgeIndex | umd/index.js:179-198 | the loop with splitDist and splitDimIdx returns LongestEdge of the box |
| Boxes.FiniteBoxHasLongestEdge | umd/index.js:179-198 | a finite box always gets an axis in 0..2, and a box of zero extent on every axis gets axis 0 |
| Geometry.TriangleCount | umd/index.js:315-319 | the count is the index length (or else the position count) divided by 3, possibly fractional |
| Geometry.WholeTriangleCount | umd/index.js:315-319 | there is a whole count exactly when the triangle count has no fraction; three times it is the element count |
| Geometry.ThirdIsWhole | umd/index.js:317 | e / 3 has no fraction exactly when e is a multiple of 3, and then it equals the integer quotient |
| Geometry.VertexOf | umd/index.js:323-327 | corner vert of triangle tri is a vertex of the geometry, taken through the index when there is one |
| Geometry.BoundsDataAt | umd/index.js:351-352 | entry tri*6 + el*2 of the bounds array is the least of the triangle's three coordinates on axis el, and entry tri*6 + el*2 + 1 the greatest |
| Geometry.CentroidDataAt | umd/index.js:353 | entry tri*3 + el of the centroid array is the mean of the three coordinates on axis el |
| Geometry.TriangleWithinBounds | umd/index.js:348-353 | on every axis, min <= centroid <= max, and every corner of the triangle lies between min and max |
| Geometry.ComputeTriangleData | umd/index.js:338-361 | the two loops fill the bounds array with BoundsData and the centroid array with CentroidData of all triangles |
| Geometry.WriteTriangleData | umd/index.js:346-355 | one pass of the outer loop writes exactly triangle tri's six bounds and three centroid entries and keeps the entries before them |
| Geometry.ReorderedVertexAsWritten | umd/index.js:464-466 | the vertex writeReorderedIndices stores in slot k for original triangle t, as written: the index entry, or 3t + k without an index except 3t + 1 in slot 2; it is always a vertex of the geometry |
| Geometry.ReorderedVertexAsWrittenAgrees | umd/index.js:464-466 | the stored vertex is the triangle's corner k exactly when the geometry is indexed or k < 2; without an index, slot 2 holds corner 1 |
| Geometry.ReorderedVertexAsWrittenLosesCorner | umd/index.js:466 | on a one-triangle non-indexed mesh, line 466 as written stores vertex 1 in slot 2, where the triangle's third corner is vertex 2 |
| Geometry.ReorderedVertex | umd/index.js:466 | the corrected entry, with 3t + 2 in slot 2: it is a vertex of the geometry, and without an index the three slots of a triangle name three distinct vertices |
| Geometry.ReorderedVertexFitsBuffer | umd/index.js:723 | with fewer than 65536 vertices, every vertex id lines 464-466 store fits the Uint16Array |
| Ranges.RangeBox | umd/index.js:418-452 | the union box over a range of triangle ids has six slots [minx, miny, minz, maxx, maxy, maxz] |
| Ranges.RangeBoxSnoc | umd/index.js:429-440 | one more triangle updates the box with Math.min and Math.max against entries 0, 2, 4 and 1, 3, 5 of its bounds |
| Ranges.RangeBoxOfEmpty | umd/index.js:420-425 | an empty range gives the sentinels Infinity, Infinity, Infinity, -Infinity, -Infinity, -Infinity |
| Ranges.RangeBoxIsTightUnion | umd/index.js:418-452 | for a non-empty range each min slot is finite, at most every triangle's min and attained by one; likewise each max slot |
| Ranges.MinOverIsLeast | umd/index.js:433-437 | the running Math.min over a non-empty range is finite, attained by some triangle and at most every triangle's entry |
| Ranges.MaxOverIsGreatest | umd/index.js:434-438 | the running Math.max over a non-empty range is finite, attained by some triangle and at least every triangle's entry |
| Ranges.RangeBoxPermutation | umd/index.js:418-452 | the union box depends only on which triangles the range holds, not on their order |
| Ranges.SumKeysBetween | umd/index.js:407-411 | when every centroid of the range lies in [lo, hi], the sum lies in [count * lo, count * hi] |
| Ranges.MeanBetween | umd/index.js:401-415 | for a non-empty range, avg / count is finite and lies between the least and greatest centroid bounds |
| Ranges.OnLeft | umd/index.js:487 | a triangle is left of the plane when its centroid on the axis is `< pos`, as JavaScript compares (false for NaN pos); the LeftCount lemmas and Partition use it |
| Ranges.LeftCountAppend | umd/index.js:487 | the number of triangles with centroid < pos is additive over concatenation |
| Ranges.LeftCountExtremes | umd/index.js:487 | the count is 0 exactly when no triangle is left of pos, and the length exactly when all are |
| Ranges.LeftCountSplit | umd/index.js:475-515 | when the first m triangles and only they are left of pos, the count is m |
| Ranges.LeftCountPermutation | umd/index.js:475-515 | reordering a range keeps the number of triangles left of pos |
| Ranges.LeftCountRemoveAt | umd/index.js:475-515 | removing one triangle lowers the count by one exactly when that triangle is left of pos |
| Ranges.SplitPoint | umd/index.js:475-515 | the split point of a range (left count, or half the range when pos is NaN) is at most the range length |
| Sah.AxisPlanes | umd/index.js:383-394 | on axis el, the plane of triangle tri has p equal to the triangle's centroid coordinate and records tri |
| Sah.Gather | umd/index.js:566-576 | filteredLists[v] holds, in range order, the plane of each triangle of the range |
| Sah.GatherSnoc | umd/index.js:567-574 | one more triangle appends its plane to the gathered list |
| Sah.Insert | umd/index.js:577 | inserting a plane into a list sorted by p keeps it sorted and adds exactly that plane |
| Sah.SortByP | umd/index.js:577 | the sorted list is ordered by p and a permutation of the input |
| Sah.SurfaceArea | umd/index.js:562 | 2 * (a * b + a * c + b * c) in JavaScript arithmetic; it has no contract of its own, and CandidateCost and CostTableAt use it |
| Sah.GetCost | umd/index.js:580-581 | the getCost closure in JavaScript arithmetic; no contract of its own, GetCostAtLeastTraversal states its bound |
| Sah.GetCostAtLeastTraversal | umd/index.js:580-581 | with a positive surface area and non-negative child areas the cost is finite and at least TRAVERSAL_COST (3) |
| Sah.PlaneCost | umd/index.js:612-666 | the cost of a plane at `key` on axis i: the left and right areas use the plane's distance to the box's min and max on axis i and the full extents o1 and o2; Sah.CandidateCost states that the loop computes it |
| Sah.CostOf | umd/index.js:604-666 | the cost of the k-th sorted candidate of axis i: PlaneCost at its p with nl = k + 1 and nr = count - nl, as the loop's counters give; Sah.CandidateCost states that the loop computes it |
| Sah.CostRow | umd/index.js:604-676 | one cost per candidate plane of the axis |
| Sah.CostTable | umd/index.js:588-678 | one row of costs per axis, each as long as the range |
| Sah.Step | umd/index.js:668-674 | one candidate of the loop: taken as (i, plane.p, cost) exactly when its cost is strictly below the best so far; Sah.ScanIsMinimal and Sah.ScanAxis state what it keeps |
| Sah.Scan | umd/index.js:586-680 | the scan's state after every candidate before (i, p), starting from (-1, 0, noSplitCost); Sah.ScanOutcome and Sah.ScanIsMinimal state its properties |
| Sah.SahSplit | umd/index.js:541-682 | the SAH outcome of the whole scan over the box's cost table; Sah.SahSplitIsBest and Sah.SahScan state its properties |
| Sah.ScanOutcome | umd/index.js:586-680 | the scan either keeps axis -1 with pos 0 and cost count, or finds an axis whose cost is below count, at the position of one of its candidate planes |
| Sah.ScanIsMinimal | umd/index.js:586-680 | the kept cost is at most count and no candidate scanned so far has a strictly lower cost (strict < at line 668) |
| Sah.SahSplitIsBest | umd/index.js:541-682 | the SAH result is axis -1 (cost = noSplitCost), or an axis with cost < count at a candidate's p; no candidate of any axis has a strictly lower cost |
| Sah.SahSplitPosition | umd/index.js:541-682 | the SAH pos is the p of one of the chosen axis's candidates whenever the axis is not -1 |
| Sah.CostTableAt | umd/index.js:664-666 | table entry [a][k] is the cost of candidate k on axis a |
| Sah.CostTableIsCostTable | umd/index.js:588-678 | the cost table has the shape and the entries the scan reads |
| Sah.SahLists | umd/index.js:566-577 | the three candidate lists are the gathered planes of the range, each sorted by p |
| Sah.SortedGathered | umd/index.js:566-577 | sorting the three gathered lists gives the SAH candidate lists |
| Sah.SortedCandidateIsCentroid | umd/index.js:566-577 | every sorted candidate's p is the centroid coordinate of some triangle of the range |
| Sah.SahScan | umd/index.js:586-680 | the nested scan over three axes returns exactly the axis and pos of the SAH result |
| Sah.ScanAxis | umd/index.js:588-678 | one axis of the scan advances the best (axis, pos, cost) from the state before axis i to the state after it |
| Sah.CandidateCost | umd/index.js:606-666 | with nl = p + 1 and nr = count - nl, the cost of candidate p is the table cost |
| Sah.CandidateCostAt | umd/index.js:604-674 | the cost computed in the loop for plane p of axis i is entry [i][p] of the cost table |
| Splitting.SahPlanes | umd/index.js:383-394 | there are three plane lists, one per axis |
| Splitting.SahPlanesReady | umd/index.js:383-394 | every triangle id of a range indexes each of the three plane lists |
| Splitting.OptimalSplit | umd/index.js:517-684 | the split axis is -1..2, and pos stays 0 when the axis is -1 |
| Splitting.CenterSplit | umd/index.js:523-531 | the Center split has axis -1..2, and pos 0 when the axis is -1 |
| Splitting.AverageSplit | umd/index.js:532-540 | the Average split has axis -1..2, and pos 0 when the axis is -1 |
| Splitting.SahChoice | umd/index.js:541-682 | the SAH split has axis -1..2, and pos 0 when the axis is -1 |
| Splitting.ScanAxisRange | umd/index.js:586-680 | at every point of the scan the kept axis is -1..2, with pos 0 when it is -1 |
| Splitting.CenterSplitInsideBox | umd/index.js:523-531 | for a finite box with min <= max, Center chooses the longest edge and a pos between that axis's min and max |
| Splitting.AverageSplitBetweenCentroids | umd/index.js:532-540 | Average chooses the longest edge and pos = getAverage on it, finite and between the centroid bounds of the range |
| Splitting.SahSplitAtCentroid | umd/index.js:541-682 | the SAH pos is, unless the axis is -1, the centroid coordinate on that axis of some triangle of the range |
| Splitting.ChosenCandidateIsCentroid | umd/index.js:671 | a pos taken from a candidate plane is the centroid coordinate of a triangle of the range |
| Context.Identity | umd/index.js:378-379 | tris starts as 0, 1, ..., triCount - 1 |
| Context.SwapInside | umd/index.js:501-503 | swapping two entries inside the range keeps the multiset, the id bound and everything outside the range |
| Context.SlicePermutation | umd/index.js:475-515 | a permutation that keeps both outer parts permutes the range itself |
| Context.ConstructionContext.constructor | umd/index.js:367-398 | tris is the identity, bounds and centroids are the precomputed data, and the SAH planes exist exactly for the SAH strategy |
| Context.ConstructionContext.RangeAddresses | umd/index.js:401-452 | every triangle id of a range addresses six bounds and three centroid entries |
| Context.ConstructionContext.GetAverage | umd/index.js:401-415 | the loop returns avg / count, the Mean of the range's centroids on the axis (NaN for count 0) |
| Context.ConstructionContext.GetBounds | umd/index.js:418-452 | target becomes the union box RangeBox of the range in the [minx, .., maxz] layout |
| Context.ConstructionContext.RangeExtremes | umd/index.js:420-440 | the six accumulators end as the union box of the range |
| Context.ConstructionContext.WriteReorderedIndices | umd/index.js:456-470 | each slot i of the range gets the triple the source writes for triangle tris[i] (3 * oldTri + 1 in slot 2 without an index), and no other entry of target changes |
| Context.ReindexedCorners | umd/index.js:464-466 | a written triple names all three corners of its triangle for an indexed geometry; without an index it names the first two, and slot 2 repeats slot 1 instead of the third corner |
| Context.ConstructionContext.GetOptimalSplit | umd/index.js:517-684 | the returned split is OptimalSplit of the box, the range's triangles and the strategy |
| Context.ConstructionContext.FilteredLists | umd/index.js:566-576 | the loop gathers, for each axis, the planes of the range's triangles, and the lists are then sorted |
| Context.ConstructionContext.PushCandidates | umd/index.js:569-574 | one triangle pushes its plane onto each of the three lists |
| Context.ConstructionContext.Partition | umd/index.js:475-515 | the method terminates with offset <= r <= offset + count. It changes tris only inside the range, as a permutation. Below r every centroid is < pos and from r on every centroid is >= pos. r - offset is the split point of the old range |
| Context.ConstructionContext.PartitionLoop | umd/index.js:485-513 | the outer loop ends with the range split at r, the permutation kept, and for NaN pos r at the middle of the range |
| Context.ConstructionContext.PartitionStep | umd/index.js:487-511 | one pass of the outer loop keeps the partition invariant, and either returns or narrows right - left |
| Context.ConstructionContext.Swap | umd/index.js:501-503 | tris[left] and tris[right] are exchanged |
| Context.ConstructionContext.ScanLeft | umd/index.js:487-491 | left advances over centroids < pos and stops at one that is not (or at right + 1) |
| Context.ConstructionContext.ScanRight | umd/index.js:493-497 | right retreats over centroids >= pos and stops at one that is < pos (or at left - 1) |
| Context.SwapStep | umd/index.js:499-505 | swapping a right-side and a left-side entry, then stepping left and right, keeps the invariant |
| Context.SwapExtends | umd/index.js:499-505 | after the swap the left part grows to left + 1 and the right part to right |
| Context.PartitionOutcome | umd/index.js:475-515 | the final tris keeps the outside, permutes the range and splits it at the split point |
| Context.PartitionResult | umd/index.js:475-515 | a reordering whose first m entries are exactly the left ones has split point m, as does the middle for NaN pos |
| Context.InitSahPlanes | umd/index.js:381-396 | the constructor's SAH loops build the three plane lists from the centroids |
| Tree.TilesBounds | umd/index.js:760-781 | a node owning lo..hi has Lo = lo and Hi = hi, and an internal node owns at least two triangles |
| Tree.TilesCoverOnce | umd/index.js:739-781 | the leaves' ranges, left to right, are exactly lo, lo + 1, ..., hi - 1, with no gap or overlap |
| Tree.DepthBound | umd/index.js:730-737 | when every internal node lies above maxDepth, the deepest leaf is at most one level past it |
| Tree.ReachesDepthByHeight | umd/index.js:730-734 | some node reaches maxDepth exactly when depth + height does |
| Tree.ChildBoxesFrame | umd/index.js:771-780 | the child boxes of a subtree depend only on the tris entries it owns |
| Tree.BoxOfFrame | umd/index.js:773 | a child's box depends only on the tris entries of its range |
| Tree.ChildBoxContains | umd/index.js:773 | every triangle under a child lies inside the child's box on every axis |
| Builder.ResolveOptions | umd/index.js:694-703 | the defaults are CENTER, 40, 10 and true; the strategy is clamped into [0, 2] and the other given options are kept |
| Builder.ResolveIdempotent | umd/index.js:694-703 | resolving options that are already resolved changes nothing |
| Builder.PermutesSlice | umd/index.js:757 | a permutation that keeps the outside permutes the range |
| Builder.PermutesCompose | umd/index.js:774-780 | reordering lo..m and then m..hi reorders lo..hi |
| Builder.PermutesTwice | umd/index.js:757-780 | two reorderings of the same range are one reordering |
| Builder.SameOutsideCompose | umd/index.js:771-780 | index writes inside 3lo..3m and then inside 3m..3hi stay inside 3lo..3hi |
| Builder.BoxSurvives | umd/index.js:773-780 | a box computed before a range is reordered is still the union box after it |
| Builder.ReindexedFrame | umd/index.js:739-780 | the written triples of a range survive writes and reorders outside it |
| Builder.TreeBuilder.constructor | umd/index.js:720-724 | the builder starts with reachedMaxDepth false over the given context and index buffer |
| Builder.TreeBuilder.RangeReady | umd/index.js:747 | each range of tris addresses the centroids, and the SAH planes when the strategy is SAH |
| Builder.TreeBuilder.MakeLeaf | umd/index.js:739-742 | a leaf records offset and count, and writes exactly the index triples writeReorderedIndices writes for its range |
| Builder.LeafExit | umd/index.js:737-762 | the four exits of splitNode: count <= maxLeafTris, depth >= maxDepth, split axis -1, or a split point of 0 or count; Builder.TreeBuilder.SplitNode states that the node is a leaf exactly when it holds |
| Builder.TreeBuilder.SplitNode | umd/index.js:728-786 | the node is built over offset..offset + count - 1. tris is permuted inside the range only, and the range's index triples are written from the final order, as lines 464-466 write them. Child boxes are union boxes and internal nodes lie above maxDepth. The flag is or'ed with reaching maxDepth. The node is a leaf exactly in the four exits; otherwise it splits on the chosen axis at offset + the split point |
| Builder.TreeBuilder.TrySplit | umd/index.js:746-755 | past the capacity and depth tests, a node is a leaf exactly when no split is found or the partition is degenerate |
| Builder.TreeBuilder.PartitionAndSplit | umd/index.js:757-785 | with a split, the node is a leaf exactly when the split point is 0 or count; otherwise its left child ends at offset + split point |
| Builder.TreeBuilder.PartitionRange | umd/index.js:757 | partition permutes the range in place and returns offset + the split point |
| Builder.TreeBuilder.Place | umd/index.js:760-784 | the node is a leaf exactly when splitOffset is offset or offset + count; otherwise it splits on the axis at splitOffset |
| Builder.TreeBuilder.Subtree | umd/index.js:728-786 | splitNode's outcome on a range, without the leaf-exit characterisation |
| Builder.TreeBuilder.Child | umd/index.js:770-780 | a child over lo..hi is built over exactly that range, and its box is the union of its triangles |
| Builder.TreeBuilder.ChildBox | umd/index.js:773 | getBounds into a new Float32Array(6) gives the union box of the range |
| Builder.TreeBuilder.SplitChildren | umd/index.js:766-782 | an internal node on the axis with left child over offset..m and right child over m..offset + count |
| Builder.TreeBuilder.JoinBuilt | umd/index.js:766-785 | two built children over lo..m and m..hi make a built node over lo..hi |
| Builder.TreeBuilder.Children | umd/index.js:770-780 | the left child is built over lo..m, then the right over m..hi, and the left's facts survive the right's build |
| Builder.Join | umd/index.js:766-785 | a node over two tiled children tiles their union, keeps the child-box and depth facts, and reaches maxDepth exactly when a child does |
| Builder.PartitionPermutes | umd/index.js:757 | a reorder that keeps both outer parts satisfies Permutes |
| Builder.ChildOutcome | umd/index.js:773-780 | the box computed before a child's subtree is built is still the union box of its range afterwards |
| Builder.Siblings | umd/index.js:770-780 | the left subtree's boxes and index triples stay valid while the right subtree is built |
| Builder.Build | umd/index.js:690-715 | a non-buffer geometry or a fractional triangle count is an error. Otherwise the result is a tree over 0..n - 1 with the given root box, whose index holds the triples writeReorderedIndices writes for a permutation of the triangles (Builder.IndexedCorners: for an indexed geometry, each triple is its triangle's corner triple). Its child boxes are tight and its internal nodes lie above maxDepth. It warns exactly when verbose holds and maxDepth is reached. It uses Uint16 exactly when there are fewer than 65536 vertices, and every entry then fits |
| Builder.IndexedCorners | umd/index.js:464-466 | for an indexed geometry, index entry 3i + k of the built buffer is corner k of triangle order[i] |
| Builder.BuildTree | umd/index.js:718-802 | the same tree facts as Build, with the index triples as lines 464-466 write them, over the resolved options and the given root box |
| Builder.NewBuilder | umd/index.js:720-724 | a fresh context with the identity order and the precomputed bounds, a fresh index buffer, and no depth flag |
| Traversal.HitList.constructor | umd/index.js:221 | the caller's intersects array starts empty |
| Traversal.HitList.Push | umd/index.js:110 | a push appends exactly one intersection |
| Traversal.IntersectTri | umd/index.js:97-116 | a hit exactly when the ray hits the index triple of slot tri, and the hit is tagged faceIndex = tri |
| Traversal.TrisHits | umd/index.js:118-126 | the intersections of a range's slots in slot order; Traversal.TrisHitsExactly states what it holds |
| Traversal.TrisHitsExactly | umd/index.js:118-126 | the hits of a range are exactly the intersections of its slots, each once, in ascending faceIndex |
| Traversal.IntersectTris | umd/index.js:118-126 | the loop pushes exactly the range's hits, in slot order, after what intersects held |
| Traversal.PushHit | umd/index.js:120-124 | one iteration pushes slot offset + k's hit, if there is one |
| Traversal.Keep | umd/index.js:135-139 | one step of intersectClosestTri's scan: the candidate replaces the kept hit when nothing is kept or it is strictly closer; Traversal.CloserThanKept and Traversal.ClosestStep state it |
| Traversal.Closest | umd/index.js:128-146 | the scan of intersectClosestTri over a list of hits; Traversal.ClosestIsEarliestMinimum states what it keeps |
| Traversal.ClosestIsEarliestMinimum | umd/index.js:128-146 | the scan keeps nothing only for no hits; otherwise it keeps a hit of least distance that is strictly closer than every earlier one |
| Traversal.ClosestIsMember | umd/index.js:128-146 | the kept hit is one of the hits and no farther than any of them |
| Traversal.ClosestStep | umd/index.js:133-139 | one more slot replaces the kept hit exactly when it is hit and there is no kept hit or it is strictly closer |
| Traversal.ClosestOfRange | umd/index.js:128-146 | intersectClosestTri returns null exactly when no slot is hit; otherwise a hit of the range's least distance |
| Traversal.IntersectClosestTri | umd/index.js:128-146 | the loop with dist = Infinity and strict < returns the scan over the range's hits |
| Traversal.ClosestSlotIsClosest | umd/index.js:131-141 | scanning the slots one by one keeps what the scan over the list of their hits keeps |
| Traversal.CloserThanKept | umd/index.js:135 | distance < dist holds exactly when nothing is kept yet or the hit is strictly closer |
| Traversal.ScanSlot | umd/index.js:133-141 | one iteration advances the kept hit and dist from k slots to k + 1 |
| Traversal.TiledInIndex | umd/index.js:97-101 | a tree over 0..n has every leaf's index triples inside a buffer of 3n entries |
| Traversal.ReachesWithin | umd/index.js:221-233 | a slot reached from a node lies in the node's range |
| Traversal.RaycastHits | umd/index.js:221-233 | what raycast appends, with the leaf test on the node kind (the corrected form of line 223, so a count-0 leaf yields nothing): a leaf's range hits, or each hit child's hits, left before right; Traversal.RaycastHitsExactly states what it holds |
| Traversal.RaycastHitsExactly | umd/index.js:221-233 | raycast collects exactly the hits of the slots in leaves reached through hit boxes, each once, in ascending faceIndex |
| Traversal.AscendingJoin | umd/index.js:227-230 | the left child's hits followed by the right child's stay in ascending order |
| Traversal.Raycast | umd/index.js:221-233 | the recursion appends exactly RaycastHits of the node to intersects; like RaycastHits it tests for a leaf by node kind, the corrected form of line 223 |
| Traversal.VisitChild | umd/index.js:227-230 | a child is descended into exactly when its box is hit |
| Traversal.LeftToRight | umd/index.js:245-248 | `rayDir >= 0` on the split axis, in JavaScript comparison; Traversal.TieGoesToFirstVisited and Traversal.Choose use it |
| Traversal.Visited | umd/index.js:250-263 | c1 is the left child and c2 the right when leftToRight, and the other way round otherwise; Traversal.Choose states what is kept of each |
| Traversal.Prunes | umd/index.js:267-283 | the pruning test: c1Result exists and, on the split axis, the squared distance from the ray origin to its point is at most the squared distance to each face of c2's box; Traversal.Choose states that the first visited result is then returned |
| Traversal.Pick | umd/index.js:291-299 | null only when both are null. The result is one of the two, and no farther than either when both exist. c1 is dropped only for a strictly closer c2 (ties go to c1) |
| Traversal.Choose | umd/index.js:243-299 | the result is one of the two children's results, and null only when both are. Without the prune it is the closer one when both exist. On a tie it is the first visited. When the pruning exit holds, it is the first visited child's result |
| Traversal.RaycastFirst | umd/index.js:235-304 | raycastFirst with a leaf test on the node kind: a leaf gives Closest of its range, an internal node Choose of its hit children's results; Traversal.RaycastFirstFindsAHit and Traversal.RaycastFirstIsClosest state its properties |
| Traversal.RaycastFirstFindsAHit | umd/index.js:235-304 | raycastFirst returns null exactly when raycast finds nothing, and otherwise one of raycast's hits |
| Traversal.RaycastFirstIsClosest | umd/index.js:235-304 | when no node takes the pruning exit, raycastFirst's hit is no farther than any hit raycast finds |
| Traversal.TieGoesToFirstVisited | umd/index.js:247-259 | on equal distances, the result is left's when direction[splitAxis] >= 0 and right's otherwise |
| Traversal.TiledNoEmptyLeaf | umd/index.js:737-742 | a tree built over a non-empty range has no leaf with count 0 |
| Traversal.RaycastAsWritten | umd/index.js:221-233 | raycast with the `if (this.count)` test: a count-0 leaf goes to the internal branch and fails on the undefined child; Traversal.EmptyMeshQueries and Traversal.AsWrittenAgrees state its behaviour |
| Traversal.RaycastFirstAsWritten | umd/index.js:235-304 | raycastFirst with the `if (this.count)` test, failing on a count-0 leaf in the same way; Traversal.EmptyMeshQueries and Traversal.AsWrittenAgrees state its behaviour |
| Traversal.EmptyMeshQueries | umd/index.js:223 | on the root of a zero-triangle mesh, both queries as written fail with `left` undefined; the corrected queries return no hit |
| Traversal.AsWrittenAgrees | umd/index.js:221-304 | without a count-0 leaf, the queries as written return the corrected results |

`Builder.TreeBuilder.SplitNode` states the whole outcome of `splitNode(node, offset, count, depth)`:

- the node is built over exactly `offset .. offset + count - 1` (predicate `Built`);
- `tris` changes only inside the range, as a permutation;
- each index triple of the range is what writeReorderedIndices writes for its triangle in the final order (slot 2 of a non-indexed triple is `3 * oldTri + 1`, as at line 466), and no other index entry changes;
- every child's box is the union box of its range;
- every internal node lies above `maxDepth`;
- `reachedMaxDepth` ends as its old value or'ed with "some node has depth >= maxDepth";
- the node is a leaf exactly in the four exits: `count <= maxLeafTris`, `depth >= maxDepth`, `split.axis == -1`, or a degenerate partition;
- otherwise the node carries the split axis and its left child ends at `offset` plus the split point.

`Builder.Build` states what `new MeshBVH(geo, options)` produces:

- a non-buffer geometry is an error;
- a fractional triangle count is an error;
- otherwise the result is a BVH:
  - its ghost final order is a permutation of the triangles;
  - index entries `3i .. 3i + 2` are what lines 464-466 write for triangle `order[i]`. Through `Builder.IndexedCorners` and `Context.ReindexedCorners`, an indexed geometry gets the triangle's three corners, and a non-indexed one gets `3t, 3t + 1, 3t + 1` for `t = order[i]`;
  - the root owns `0 .. n - 1`, and its box is the given bounding box;
  - every child's box is the union of its triangles' bounds;
  - internal nodes lie above `maxDepth`;
  - the warning is printed exactly when `verbose` holds and some node reaches `maxDepth`;
  - the buffer is a Uint16Array exactly when there are fewer than 65536 vertices, and every entry then fits.

## Left out

- The visualizer (MeshBVHVisualizer, lines 806-881): it is scene-graph drawing that only reads the tree.
- acceleratedRaycast, computeBoundsTree and disposeBoundsTree (lines 883-927): these are prototype patching and the world-matrix inverse. The queries take the reordered index that computeBoundsTree installs as the geometry's index.
- uvIntersection, checkIntersection, checkBufferGeometryIntersection and MeshBVHNode.intersectRay (lines 20-92, 213-219): floating-point ray geometry in three.js. They are the `hitTri` and `hitBox` oracles, fixed for the one ray of a query.
- A proof that the pruning exit of raycastFirst (lines 270-285) never drops a closer hit: it depends on ray geometry the oracles do not expose. `Traversal.RaycastFirstIsClosest` assumes no node prunes.
- Float32 rounding: coordinates, bounds and centroids are exact reals. Signed zero is not modelled either.
- The commented-out exact SAH (lines 621-661): it is not executed.
- geo.computeBoundingBox (line 788): the root box is a parameter of Build.
- console.warn (lines 795-796): it is modelled as the `warned` flag.
- The UMD wrapper and example/loadGltfWorker.js: module glue and I/O.
- Option values that are not numbers (`undefined` after Object.assign, strings): options are reals or absent.
- Builder.Build: requires ValidGeometry, meaning every index entry names an existing vertex. The source reads undefined for an out-of-range vertex and does not check.
- Builder.Build: models the Uint16/Uint32 element type as the `uint16` flag plus the proof that every entry fits; it does not model wrap-around on store.
- Builder.Build: the final triangle order is a ghost output. The source discards it after the build.
- Traversal.Choose: the second child's result is passed in already computed. The source evaluates it only when the first child does not prune; the oracles have no effects, so the result is the same.
- Traversal.RaycastFirst: c1Result and c2Result are computed from the children's boxes through `hitBox`; the `boxIntersection` point that intersectRay writes is not modelled.
- The JavaScript sort of filteredLists (line 577) is an insertion sort by p (`Sah.SortByP`). The SAH result depends only on the sorted keys, so the engine's comparator order for equal p does not matter.
- Builder.TreeBuilder.Subtree, Child, ChildBox, Children, Place, PartitionAndSplit and TrySplit split the body of splitNode into steps; the source has one closure.

## Findings

| source | as written | input that shows it | evidently intended | confidence | as-written member | corrected member |
|---|---|---|---|---|---|---|
| umd/index.js:466 | for a non-indexed geometry, slot 2 of triangle t gets `3 * oldTri + 1`; the build methods model this as written | one non-indexed triangle with vertices 0, 1, 2: the index becomes 0, 1, 1 | `3 * oldTri + 2`, the triangle's third corner | not executed | Geometry.ReorderedVertexAsWrittenLosesCorner | Geometry.ReorderedVertex |
| umd/index.js:223 | raycast takes a node with `count` 0 for an internal node and reads `this.left.intersectRay` | a geometry with no triangles: the root is a leaf with offset 0, count 0, and `left` is undefined | test for a leaf (`this.count !== undefined`), so an empty leaf yields no hits | not executed | Traversal.EmptyMeshQueries | Traversal.RaycastHitsExactly |
| umd/index.js:237 | raycastFirst makes the same `if (this.count)` test | the same zero-triangle root | an empty leaf yields null | not executed | Traversal.EmptyMeshQueries | Traversal.RaycastFirstFindsAHit |
