/**
 * The MeshBVH constructor and _buildTree: option defaulting and clamping,
 * then splitNode, which either turns a node into a leaf (writing its
 * triangles into the reordered index buffer) or partitions its range and
 * recurses into two children.
 */
module Builder {
  import opened Wrappers
  import opened Numbers
  import opened Boxes
  import opened Geometry
  import opened Ranges
  import opened Sah
  import opened Splitting
  import opened Context
  import opened Tree

  /** The options after defaulting: strategy, maxDepth, maxLeafTris, verbose. */
  datatype Options = Options(strategy: real, maxDepth: real, maxLeafTris: real, verbose: bool)

  /** The options object a caller passes; a field it leaves out is None. */
  datatype UserOptions = UserOptions(strategy: Option<real>, maxDepth: Option<real>, maxLeafTris: Option<real>, verbose: Option<bool>)

  /** The value of an optional field, or its default. */
  function OrElse<T>(o: Option<T>, default: T): T
  {
    if o.Some? then o.value else default
  }

  /**
   * The constructor's options: the defaults CENTER, 40, 10 and true for the
   * fields left out, and the strategy clamped into 0 .. 2
   * (Math.max(0, Math.min(2, strategy))).
   */
  function ResolveOptions(u: UserOptions): (o: Options)
    ensures 0.0 <= o.strategy <= 2.0
    ensures u.strategy.None? ==> o.strategy == CENTER
    ensures u.strategy.Some? && 0.0 <= u.strategy.value <= 2.0 ==> o.strategy == u.strategy.value
    ensures u.strategy.Some? && u.strategy.value < 0.0 ==> o.strategy == 0.0
    ensures u.strategy.Some? && u.strategy.value > 2.0 ==> o.strategy == 2.0
    ensures o.maxDepth == (if u.maxDepth.Some? then u.maxDepth.value else 40.0)
    ensures o.maxLeafTris == (if u.maxLeafTris.Some? then u.maxLeafTris.value else 10.0)
    ensures o.verbose == (if u.verbose.Some? then u.verbose.value else true)
  {
    var s := OrElse(u.strategy, CENTER);
    var upper := if 2.0 < s then 2.0 else s;
    var clamped := if upper < 0.0 then 0.0 else upper;
    Options(clamped, OrElse(u.maxDepth, 40.0), OrElse(u.maxLeafTris, 10.0), OrElse(u.verbose, true))
  }

  /** The resolved options given back to the constructor. */
  function Given(o: Options): UserOptions
  {
    UserOptions(Some(o.strategy), Some(o.maxDepth), Some(o.maxLeafTris), Some(o.verbose))
  }

  /** Resolving options that are already resolved changes nothing. */
  lemma ResolveIdempotent(u: UserOptions)
    ensures ResolveOptions(Given(ResolveOptions(u))) == ResolveOptions(u)
  {
  }

  /**
   * Whether splitNode makes the node over the range `ids` (at `depth`, with
   * box `box`) a leaf: the capacity limit, the depth limit, no split
   * found, or a partition that leaves one side empty.
   */
  predicate LeafExit(options: Options, box: seq<Num>, ids: seq<nat>, centroids: seq<real>, planes: seq<seq<SahPlane>>, depth: nat)
    requires |box| == 6 && Addresses(centroids, 3, ids)
    requires options.strategy == SAH ==> SahReady(planes, ids)
  {
    var split := OptimalSplit(box, ids, centroids, planes, options.strategy);
    || (|ids| as real) <= options.maxLeafTris
    || (depth as real) >= options.maxDepth
    || split.axis == -1
    || SplitPoint(centroids, ids, split.axis, split.pos) == 0
    || SplitPoint(centroids, ids, split.axis, split.pos) == |ids|
  }

  /** t is s with lo .. hi - 1 reordered and everything else in place. */
  predicate Permutes(s: seq<nat>, t: seq<nat>, lo: nat, hi: nat)
  {
    lo <= hi <= |s| && SameOutside(s, t, lo, hi) && multiset(s) == multiset(t)
  }

  /** The reordered range holds the same triangles as before. */
  lemma PermutesSlice(s: seq<nat>, t: seq<nat>, lo: nat, hi: nat)
    requires Permutes(s, t, lo, hi)
    ensures multiset(s[lo..hi]) == multiset(t[lo..hi])
  {
    assert s[..lo] == t[..lo];
    assert s[hi..] == t[hi..];
    SlicePermutation(s, t, lo, hi);
  }

  /** Entries lo .. hi - 1 of the triangle order have their vertex triples in the index buffer. */
  predicate ReindexedRange(g: Geometry, n: nat, indices: seq<nat>, tris: seq<nat>, lo: nat, hi: nat)
  {
    forall i :: lo <= i < hi ==> ReindexedAt(g, n, indices, tris, i)
  }

  /** Reordering a range and then a range next to it reorders their union. */
  lemma PermutesCompose(s0: seq<nat>, s1: seq<nat>, s2: seq<nat>, lo: nat, m: nat, hi: nat)
    requires Permutes(s0, s1, lo, m) && Permutes(s1, s2, m, hi)
    ensures Permutes(s0, s2, lo, hi)
  {
    SameOutsideCompose(s0, s1, s2, lo, m, hi);
  }

  /** Two reorderings of the same range make one. */
  lemma PermutesTwice(s0: seq<nat>, s1: seq<nat>, s2: seq<nat>, lo: nat, hi: nat)
    requires Permutes(s0, s1, lo, hi) && Permutes(s1, s2, lo, hi)
    ensures Permutes(s0, s2, lo, hi)
  {
  }

  /** Changes outside lo .. m - 1 and then outside m .. hi - 1 are together changes inside lo .. hi - 1 only. */
  lemma SameOutsideCompose(a: seq<nat>, b: seq<nat>, c: seq<nat>, lo: nat, m: nat, hi: nat)
    requires lo <= m <= hi && SameOutside(a, b, lo, m) && SameOutside(b, c, m, hi)
    ensures SameOutside(a, c, lo, hi)
  {
  }

  /** A node's box stays the box of its range while the range is only reordered. */
  lemma BoxSurvives(bounds: seq<real>, n: nat, s: seq<nat>, t: seq<nat>, lo: nat, hi: nat, box: seq<Num>)
    requires |bounds| == 6 * n && Below(s, n) && Below(t, n) && lo <= hi <= |s| == |t|
    requires multiset(s[lo..hi]) == multiset(t[lo..hi])
    requires Addresses(bounds, 6, s[lo..hi]) && box == RangeBox(bounds, s[lo..hi])
    ensures Addresses(bounds, 6, t[lo..hi]) && box == RangeBox(bounds, t[lo..hi])
  {
    var ids := t[lo..hi];
    forall k | 0 <= k < |ids| ensures ids[k] < n {
      assert ids[k] == t[lo + k];
    }
    BelowAddresses(ids, n, bounds, 6);
    RangeBoxPermutation(bounds, s[lo..hi], ids);
  }

  /** Written triples stay in place when neither their slots nor their triangles change. */
  lemma ReindexedFrame(g: Geometry, n: nat, a: seq<nat>, s: seq<nat>, b: seq<nat>, t: seq<nat>, lo: nat, hi: nat)
    requires ReindexedRange(g, n, a, s, lo, hi) && |b| == |a| && |t| == |s| && 3 * hi <= |a| && hi <= |s|
    requires forall j :: 3 * lo <= j < 3 * hi ==> a[j] == b[j]
    requires forall i :: lo <= i < hi ==> s[i] == t[i]
    ensures ReindexedRange(g, n, b, t, lo, hi)
  {
    forall i | lo <= i < hi ensures ReindexedAt(g, n, b, t, i) {
      assert ReindexedAt(g, n, a, s, i);
      assert a[3 * i] == b[3 * i] && a[3 * i + 1] == b[3 * i + 1] && a[3 * i + 2] == b[3 * i + 2];
    }
  }

  /**
   * The state of one _buildTree call: the construction context, the output
   * index buffer and the reachedMaxDepth flag that splitNode closes over.
   */
  class TreeBuilder {
    const ctx: ConstructionContext
    const indices: array<nat>
    const options: Options
    var reachedMaxDepth: bool

    ghost predicate Valid()
      reads ctx.tris
    {
      && ctx.Valid() && (options.strategy == SAH ==> ctx.PlanesFor())
      && indices.Length == 3 * ctx.triCount && indices != ctx.tris
      && ctx.strategy == options.strategy
    }

    constructor (c: ConstructionContext, target: array<nat>, o: Options)
      requires c.Valid() && target.Length == 3 * c.triCount && target != c.tris
      requires c.strategy == o.strategy && (o.strategy == SAH ==> c.PlanesFor())
      ensures Valid() && ctx == c && indices == target && options == o && !reachedMaxDepth
    {
      ctx := c;
      indices := target;
      options := o;
      reachedMaxDepth := false;
    }

    /** The range's ids address the centroids and, under SAH, the candidate lists. */
    lemma RangeReady(offset: nat, count: nat)
      requires Valid() && offset + count <= ctx.triCount
      ensures Addresses(ctx.centroids[..], 3, ctx.tris[offset..offset + count])
      ensures options.strategy == SAH ==> SahReady(ctx.sahplanes, ctx.tris[offset..offset + count])
    {
      ctx.RangeAddresses(offset, count);
    }

    /** A leaf exit: the range's triangles are written to the index buffer and the node records the range. */
    method MakeLeaf(box: seq<Num>, offset: nat, count: nat) returns (node: Node)
      requires Valid() && offset + count <= ctx.triCount
      modifies indices
      ensures node == Leaf(box, offset, count)
      ensures ReindexedRange(ctx.geo, ctx.triCount, indices[..], ctx.tris[..], offset, offset + count)
      ensures SameOutside(old(indices[..]), indices[..], 3 * offset, 3 * (offset + count))
    {
      ctx.WriteReorderedIndices(offset, count, indices);
      node := Leaf(box, offset, count);
    }

    /**
     * What splitNode leaves behind over lo .. hi - 1, given the permutation,
     * the index buffer and the flag before the call: the node owns the range;
     * the range is only reordered and every triangle of it is written into
     * the index buffer, nothing else of the buffer changing; child boxes are
     * the bounds of their triangles; internal nodes sit above maxDepth; and
     * the flag records reaching maxDepth.
     */
    ghost predicate Built(t0: seq<nat>, i0: seq<nat>, flag0: bool, node: Node, lo: nat, hi: nat, depth: nat)
      reads this, ctx.tris, indices, ctx.bounds
    {
      && Valid()
      && Tiles(node, lo, hi)
      && Permutes(t0, ctx.tris[..], lo, hi)
      && ReindexedRange(ctx.geo, ctx.triCount, indices[..], ctx.tris[..], lo, hi)
      && SameOutside(i0, indices[..], 3 * lo, 3 * hi)
      && ChildBoxes(node, ctx.bounds[..], ctx.tris[..])
      && InternalsBelow(node, depth, options.maxDepth)
      && reachedMaxDepth == (flag0 || ReachesDepth(node, depth, options.maxDepth))
    }

    /**
     * splitNode on the range offset .. offset + count - 1 with node box
     * `box`: the node is built over the range, and it is a leaf exactly at
     * one of the four exits; otherwise it splits where the optimal split
     * puts the split point.
     */
    method SplitNode(box: seq<Num>, offset: nat, count: nat, depth: nat) returns (node: Node)
      requires Valid() && |box| == 6 && offset + count <= ctx.triCount
      modifies this, ctx.tris, indices
      decreases count, 5
      ensures Built(old(ctx.tris[..]), old(indices[..]), old(reachedMaxDepth), node, offset, offset + count, depth)
      ensures node.boundingData == box
      ensures Addresses(ctx.centroids[..], 3, old(ctx.tris[offset..offset + count]))
      ensures options.strategy == SAH ==> SahReady(ctx.sahplanes, old(ctx.tris[offset..offset + count]))
      ensures node.Leaf? <==> LeafExit(options, box, old(ctx.tris[offset..offset + count]), ctx.centroids[..], ctx.sahplanes, depth)
      ensures node.Internal? ==>
                var split := OptimalSplit(box, old(ctx.tris[offset..offset + count]), ctx.centroids[..], ctx.sahplanes, options.strategy);
                node.splitAxis == split.axis && 0 <= split.axis
                && Hi(node.left) == offset + SplitPoint(ctx.centroids[..], old(ctx.tris[offset..offset + count]), split.axis, split.pos)
    {
      RangeReady(offset, count);
      if (depth as real) >= options.maxDepth {
        reachedMaxDepth := true;
      }
      if (count as real) <= options.maxLeafTris || (depth as real) >= options.maxDepth {
        node := MakeLeaf(box, offset, count);
        return;
      }
      node := TrySplit(box, offset, count, depth);
    }

    /** The rest of splitNode below the depth and capacity exits: find a split, partition, and recurse unless a side is empty. */
    method TrySplit(box: seq<Num>, offset: nat, count: nat, depth: nat) returns (node: Node)
      requires Valid() && |box| == 6 && offset + count <= ctx.triCount
      requires !((count as real) <= options.maxLeafTris) && (depth as real) < options.maxDepth
      modifies this, ctx.tris, indices
      decreases count, 4
      ensures Built(old(ctx.tris[..]), old(indices[..]), old(reachedMaxDepth), node, offset, offset + count, depth)
      ensures node.boundingData == box
      ensures Addresses(ctx.centroids[..], 3, old(ctx.tris[offset..offset + count]))
      ensures options.strategy == SAH ==> SahReady(ctx.sahplanes, old(ctx.tris[offset..offset + count]))
      ensures node.Leaf? <==> LeafExit(options, box, old(ctx.tris[offset..offset + count]), ctx.centroids[..], ctx.sahplanes, depth)
      ensures node.Internal? ==>
                var split := OptimalSplit(box, old(ctx.tris[offset..offset + count]), ctx.centroids[..], ctx.sahplanes, options.strategy);
                node.splitAxis == split.axis && 0 <= split.axis
                && Hi(node.left) == offset + SplitPoint(ctx.centroids[..], old(ctx.tris[offset..offset + count]), split.axis, split.pos)
    {
      var split := ctx.GetOptimalSplit(box, offset, count, options.strategy);
      if split.axis == -1 {
        node := MakeLeaf(box, offset, count);
        return;
      }
      node := PartitionAndSplit(box, offset, count, depth, split);
    }

    /** The part of splitNode after a split is found: partition the range, then a leaf if a side is empty, two children otherwise. */
    method PartitionAndSplit(box: seq<Num>, offset: nat, count: nat, depth: nat, split: Split) returns (node: Node)
      requires Valid() && |box| == 6 && offset + count <= ctx.triCount
      requires (depth as real) < options.maxDepth && 0 <= split.axis < 3
      modifies this, ctx.tris, indices
      decreases count, 3
      ensures Built(old(ctx.tris[..]), old(indices[..]), old(reachedMaxDepth), node, offset, offset + count, depth)
      ensures node.boundingData == box
      ensures Addresses(ctx.centroids[..], 3, old(ctx.tris[offset..offset + count]))
      ensures var p := SplitPoint(ctx.centroids[..], old(ctx.tris[offset..offset + count]), split.axis, split.pos);
              && (node.Leaf? <==> p == 0 || p == count)
              && (node.Internal? ==> node.splitAxis == split.axis && Hi(node.left) == offset + p)
    {
      ghost var t0 := ctx.tris[..];
      var splitOffset := PartitionRange(offset, count, split);
      ghost var t1 := ctx.tris[..];
      node := Place(box, offset, count, depth, split.axis, splitOffset);
      PermutesTwice(t0, t1, ctx.tris[..], offset, offset + count);
    }

    /** ctx.partition, seen from the builder: the range is reordered and split where the split point says. */
    method PartitionRange(offset: nat, count: nat, split: Split) returns (splitOffset: nat)
      requires Valid() && offset + count <= ctx.triCount && 0 <= split.axis < 3
      modifies ctx.tris
      ensures Valid()
      ensures Permutes(old(ctx.tris[..]), ctx.tris[..], offset, offset + count)
      ensures Addresses(ctx.centroids[..], 3, old(ctx.tris[offset..offset + count]))
      ensures offset <= splitOffset <= offset + count
      ensures splitOffset - offset == SplitPoint(ctx.centroids[..], old(ctx.tris[offset..offset + count]), split.axis, split.pos)
    {
      ghost var t0 := ctx.tris[..];
      splitOffset := ctx.Partition(offset, count, split);
      PartitionPermutes(t0, ctx.tris[..], offset, offset + count);
    }

    /** After partition returned splitOffset: a leaf when one side is empty, two children otherwise. */
    method Place(box: seq<Num>, offset: nat, count: nat, depth: nat, axis: int, splitOffset: nat) returns (node: Node)
      requires Valid() && |box| == 6 && offset <= splitOffset <= offset + count <= ctx.triCount
      requires (depth as real) < options.maxDepth
      modifies this, ctx.tris, indices
      decreases count, 2
      ensures Built(old(ctx.tris[..]), old(indices[..]), old(reachedMaxDepth), node, offset, offset + count, depth)
      ensures node.boundingData == box
      ensures node.Leaf? <==> splitOffset == offset || splitOffset == offset + count
      ensures node.Internal? ==> node.splitAxis == axis && Hi(node.left) == splitOffset
    {
      if splitOffset == offset || splitOffset == offset + count {
        node := MakeLeaf(box, offset, count);
        assert ctx.tris[..] == old(ctx.tris[..]);
        return;
      }
      node := SplitChildren(box, offset, count, depth, axis, splitOffset);
    }

    /** splitNode with only what a parent relies on: the node is built over its range with the given box. */
    method Subtree(box: seq<Num>, offset: nat, count: nat, depth: nat) returns (node: Node)
      requires Valid() && |box| == 6 && offset + count <= ctx.triCount
      modifies this, ctx.tris, indices
      decreases count, 6
      ensures Built(old(ctx.tris[..]), old(indices[..]), old(reachedMaxDepth), node, offset, offset + count, depth)
      ensures node.boundingData == box
    {
      node := SplitNode(box, offset, count, depth);
    }

    /**
     * One child of splitNode over lo .. hi - 1: its box from getBounds into a
     * fresh array, then the recursive call one level deeper.
     */
    method Child(lo: nat, hi: nat, depth: nat) returns (child: Node)
      requires Valid() && lo <= hi <= ctx.triCount
      modifies this, ctx.tris, indices
      decreases hi - lo, 7
      ensures Built(old(ctx.tris[..]), old(indices[..]), old(reachedMaxDepth), child, lo, hi, depth)
      ensures Lo(child) == lo && Hi(child) == hi && BoxOf(child, ctx.bounds[..], ctx.tris[..])
    {
      var boundingData := ChildBox(lo, hi);
      ghost var t0 := ctx.tris[..];
      child := Subtree(boundingData, lo, hi - lo, depth);
      ChildOutcome(ctx.bounds[..], ctx.triCount, t0, ctx.tris[..], lo, hi, child);
    }

    /** The child's box: getBounds of its range into a fresh six-slot array. */
    method ChildBox(lo: nat, hi: nat) returns (boundingData: seq<Num>)
      requires Valid() && lo <= hi <= ctx.triCount
      ensures |boundingData| == 6 && Addresses(ctx.bounds[..], 6, ctx.tris[lo..hi])
      ensures boundingData == RangeBox(ctx.bounds[..], ctx.tris[lo..hi])
    {
      var box := new Num[6];
      ctx.GetBounds(lo, hi - lo, box);
      boundingData := box[..];
    }

    /** The two recursive calls of splitNode: the left child over offset .. m - 1, then the right child over the rest. */
    method SplitChildren(box: seq<Num>, offset: nat, count: nat, depth: nat, axis: int, m: nat) returns (node: Node)
      requires Valid() && |box| == 6 && offset < m < offset + count <= ctx.triCount
      requires (depth as real) < options.maxDepth
      modifies this, ctx.tris, indices
      decreases count, 1
      ensures Built(old(ctx.tris[..]), old(indices[..]), old(reachedMaxDepth), node, offset, offset + count, depth)
      ensures node.Internal? && node.boundingData == box && node.splitAxis == axis && Hi(node.left) == m
    {
      var left, right := Children(offset, m, offset + count, depth + 1);
      node := Internal(box, axis, left, right);
      JoinBuilt(old(ctx.tris[..]), old(indices[..]), old(reachedMaxDepth), node, offset, m, offset + count, depth);
    }

    /** What the two recursive calls of splitNode leave behind over lo .. m - 1 and m .. hi - 1, children at depth d. */
    ghost predicate BuiltPair(t0: seq<nat>, i0: seq<nat>, flag0: bool, left: Node, right: Node, lo: nat, m: nat, hi: nat, d: nat)
      reads this, ctx.tris, indices, ctx.bounds
    {
      && Valid()
      && Tiles(left, lo, m) && Hi(left) == m && Tiles(right, m, hi)
      && Permutes(t0, ctx.tris[..], lo, hi)
      && ReindexedRange(ctx.geo, ctx.triCount, indices[..], ctx.tris[..], lo, hi)
      && SameOutside(i0, indices[..], 3 * lo, 3 * hi)
      && BoxOf(left, ctx.bounds[..], ctx.tris[..]) && ChildBoxes(left, ctx.bounds[..], ctx.tris[..])
      && BoxOf(right, ctx.bounds[..], ctx.tris[..]) && ChildBoxes(right, ctx.bounds[..], ctx.tris[..])
      && InternalsBelow(left, d, options.maxDepth) && InternalsBelow(right, d, options.maxDepth)
      && reachedMaxDepth == (flag0 || ReachesDepth(left, d, options.maxDepth) || ReachesDepth(right, d, options.maxDepth))
    }

    /** An internal node at depth d above maxDepth over two built children is built over their joint range. */
    lemma JoinBuilt(t0: seq<nat>, i0: seq<nat>, flag0: bool, node: Node, lo: nat, m: nat, hi: nat, d: nat)
      requires node.Internal? && lo < m < hi && (d as real) < options.maxDepth
      requires BuiltPair(t0, i0, flag0, node.left, node.right, lo, m, hi, d + 1)
      ensures Built(t0, i0, flag0, node, lo, hi, d)
    {
      Join(node, lo, m, hi, ctx.bounds[..], ctx.tris[..], d, options.maxDepth);
    }

    /** The left child over lo .. m - 1, then the right child over m .. hi - 1, both at depth d. */
    method Children(lo: nat, m: nat, hi: nat, d: nat) returns (left: Node, right: Node)
      requires Valid() && lo < m < hi <= ctx.triCount
      modifies this, ctx.tris, indices
      decreases hi - lo, 0
      ensures BuiltPair(old(ctx.tris[..]), old(indices[..]), old(reachedMaxDepth), left, right, lo, m, hi, d)
      ensures Hi(left) == m
    {
      ghost var t0 := ctx.tris[..];
      ghost var i0 := indices[..];
      left := Child(lo, m, d);
      ghost var t1 := ctx.tris[..];
      ghost var i1 := indices[..];
      right := Child(m, hi, d);
      Siblings(ctx.geo, ctx.triCount, ctx.bounds[..], t0, t1, ctx.tris[..], i0, i1, indices[..], left, right, lo, m, hi);
    }
  }

  /** An internal node over two children that own lo .. m - 1 and m .. hi - 1 and keep the build invariants keeps them too. */
  lemma Join(node: Node, lo: nat, m: nat, hi: nat, bounds: seq<real>, tris: seq<nat>, d: nat, maxDepth: real)
    requires node.Internal? && lo < m < hi && (d as real) < maxDepth
    requires Tiles(node.left, lo, m) && Hi(node.left) == m && Tiles(node.right, m, hi)
    requires BoxOf(node.left, bounds, tris) && ChildBoxes(node.left, bounds, tris)
    requires BoxOf(node.right, bounds, tris) && ChildBoxes(node.right, bounds, tris)
    requires InternalsBelow(node.left, d + 1, maxDepth) && InternalsBelow(node.right, d + 1, maxDepth)
    ensures Tiles(node, lo, hi) && ChildBoxes(node, bounds, tris) && InternalsBelow(node, d, maxDepth)
    ensures ReachesDepth(node, d, maxDepth) == (ReachesDepth(node.left, d + 1, maxDepth) || ReachesDepth(node.right, d + 1, maxDepth))
  {
  }

  /** partition's frame, stated as prefix and suffix, is a reordering of the range. */
  lemma PartitionPermutes(s: seq<nat>, t: seq<nat>, lo: nat, hi: nat)
    requires lo <= hi <= |s| == |t|
    requires t[..lo] == s[..lo] && t[hi..] == s[hi..]
    requires multiset(t) == multiset(s)
    ensures Permutes(s, t, lo, hi)
  {
    forall i | 0 <= i < |t| && !(lo <= i < hi) ensures s[i] == t[i] {
      if i < lo {
        assert s[i] == s[..lo][i] && t[i] == t[..lo][i];
      } else {
        assert s[i] == s[hi..][i - hi] && t[i] == t[hi..][i - hi];
      }
    }
  }

  /** A child built over lo .. hi - 1 with the box of its range keeps that box through its own reordering. */
  lemma ChildOutcome(bounds: seq<real>, n: nat, t0: seq<nat>, t1: seq<nat>, lo: nat, hi: nat, child: Node)
    requires |bounds| == 6 * n && Below(t0, n) && Below(t1, n) && |t0| == |t1|
    requires Tiles(child, lo, hi) && Permutes(t0, t1, lo, hi)
    requires Addresses(bounds, 6, t0[lo..hi]) && child.boundingData == RangeBox(bounds, t0[lo..hi])
    ensures Lo(child) == lo && Hi(child) == hi && BoxOf(child, bounds, t1)
  {
    TilesBounds(child, lo, hi);
    PermutesSlice(t0, t1, lo, hi);
    BoxSurvives(bounds, n, t0, t1, lo, hi, child.boundingData);
  }

  /** What the two children of an internal node give together: their ranges, reorderings, index triples and boxes combine. */
  lemma Siblings(g: Geometry, n: nat, bounds: seq<real>, t0: seq<nat>, t1: seq<nat>, t2: seq<nat>,
                 i0: seq<nat>, i1: seq<nat>, i2: seq<nat>, left: Node, right: Node, lo: nat, m: nat, hi: nat)
    requires lo < m < hi && |t2| == |t1| && |i2| == |i1| && 3 * hi <= |i1|
    requires Tiles(left, lo, m) && Lo(left) == lo && Hi(left) == m
    requires Tiles(right, m, hi) && Lo(right) == m && Hi(right) == hi
    requires Permutes(t0, t1, lo, m) && Permutes(t1, t2, m, hi)
    requires SameOutside(i0, i1, 3 * lo, 3 * m) && SameOutside(i1, i2, 3 * m, 3 * hi)
    requires ReindexedRange(g, n, i1, t1, lo, m) && ReindexedRange(g, n, i2, t2, m, hi)
    requires BoxOf(left, bounds, t1) && ChildBoxes(left, bounds, t1)
    requires BoxOf(right, bounds, t2) && ChildBoxes(right, bounds, t2)
    ensures Permutes(t0, t2, lo, hi) && SameOutside(i0, i2, 3 * lo, 3 * hi)
    ensures ReindexedRange(g, n, i2, t2, lo, hi)
    ensures BoxOf(left, bounds, t2) && ChildBoxes(left, bounds, t2)
  {
    PermutesCompose(t0, t1, t2, lo, m, hi);
    SameOutsideCompose(i0, i1, i2, 3 * lo, 3 * m, 3 * hi);
    assert t1[lo..m] == t2[lo..m];
    ChildBoxesFrame(left, lo, m, bounds, t1, t2);
    ReindexedFrame(g, n, i1, t1, i2, t2, lo, m);
  }

  /** Why the constructor throws. */
  datatype BuildError =
    | NotBufferGeometry   // 'MeshBVH: Only BufferGeometries are supported.'
    | InvalidArrayLength  // new Array(triCount) with a fractional triangle count

  /**
   * A built MeshBVH: the root node, the reordered index buffer, whether that
   * buffer is a Uint16Array (otherwise a Uint32Array), and whether the
   * max-depth warning is printed.
   */
  datatype MeshBVH = MeshBVH(root: Node, index: seq<nat>, uint16: bool, warned: bool)

  /**
   * new MeshBVH(geo, options) with the geometry's bounding box given.  The
   * ghost `order` is the final triangle permutation of the construction
   * context, which the source drops once the tree is built.
   */
  method Build(g: Geometry, u: UserOptions, boundingBox: Box3) returns (r: Result<MeshBVH, BuildError>, ghost order: seq<nat>)
    requires ValidGeometry(g)
    ensures !g.isBufferGeometry ==> r == Err(NotBufferGeometry)
    ensures g.isBufferGeometry && WholeTriangleCount(g).None? ==> r == Err(InvalidArrayLength)
    ensures g.isBufferGeometry && WholeTriangleCount(g).Some? ==> r.Ok?
    ensures r.Ok? ==>
              var n := WholeTriangleCount(g).value;
              var options := ResolveOptions(u);
              var bvh := r.value;
              && WholeTriangleCount(g).Some?
              && |order| == n && multiset(order) == multiset(Identity(n))
              && |bvh.index| == 3 * n
              && (forall i :: 0 <= i < n ==> ReindexedAt(g, n, bvh.index, order, i))
              && Tiles(bvh.root, 0, n)
              && bvh.root.boundingData == BoundsToArray(boundingBox)
              && ChildBoxes(bvh.root, BoundsData(g, n, n), order)
              && InternalsBelow(bvh.root, 0, options.maxDepth)
              && bvh.warned == (options.verbose && ReachesDepth(bvh.root, 0, options.maxDepth))
              && (bvh.uint16 <==> VertexCount(g) < 65536)
              && (bvh.uint16 ==> forall j :: 0 <= j < |bvh.index| ==> bvh.index[j] < 65536)
  {
    order := [];
    var options := ResolveOptions(u);
    if !g.isBufferGeometry {
      return Err(NotBufferGeometry), order;
    }
    var count := WholeTriangleCount(g);
    if count.None? {
      return Err(InvalidArrayLength), order;
    }
    var n := count.value;
    var root, index, reached;
    root, index, reached, order := BuildTree(g, n, options, BoundsToArray(boundingBox));
    var uint16 := VertexCount(g) < 65536;
    forall j | 0 <= j < |index| && uint16 ensures index[j] < 65536 {
      var i := j / 3;
      assert ReindexedAt(g, n, index, order, i);
      ReorderedVertexFitsBuffer(g, n, order[i], j - 3 * i);
    }
    r := Ok(MeshBVH(root, index, uint16, reached && options.verbose));
  }

  /** When the geometry is indexed, every written triple of a build is the corner triple of its triangle. */
  lemma IndexedCorners(g: Geometry, n: nat, index: seq<nat>, order: seq<nat>)
    requires forall i :: 0 <= i < n ==> ReindexedAt(g, n, index, order, i)
    ensures g.index.Some? ==> forall i, k :: 0 <= i < n && 0 <= k < 3 ==> ReindexedAt(g, n, index, order, i) && index[3 * i + k] == ReorderedVertex(g, n, order[i], k)
  {
    forall i, k | 0 <= i < n && 0 <= k < 3 && g.index.Some?
      ensures ReindexedAt(g, n, index, order, i) && index[3 * i + k] == ReorderedVertex(g, n, order[i], k)
    {
      ReindexedCorners(g, n, index, order, i);
    }
  }

  /**
   * _buildTree on a whole-triangle geometry: splitNode from the root box over
   * all triangles at depth 0.  Returns the root, the index buffer, whether
   * maxDepth was reached, and (ghost) the final triangle permutation.
   */
  method BuildTree(g: Geometry, n: nat, options: Options, box: seq<Num>)
    returns (root: Node, index: seq<nat>, reached: bool, ghost order: seq<nat>)
    requires Triangulated(g, n) && |box| == 6
    ensures |order| == n && multiset(order) == multiset(Identity(n))
    ensures |index| == 3 * n && forall i :: 0 <= i < n ==> ReindexedAt(g, n, index, order, i)
    ensures Tiles(root, 0, n) && root.boundingData == box
    ensures ChildBoxes(root, BoundsData(g, n, n), order)
    ensures InternalsBelow(root, 0, options.maxDepth)
    ensures reached == ReachesDepth(root, 0, options.maxDepth)
  {
    var builder := NewBuilder(g, n, options);
    root := builder.Subtree(box, 0, n, 0);
    order := builder.ctx.tris[..];
    index := builder.indices[..];
    reached := builder.reachedMaxDepth;
  }

  /** The set-up of _buildTree: the construction context, the index buffer of three slots per triangle, and a cleared flag. */
  method NewBuilder(g: Geometry, n: nat, options: Options) returns (builder: TreeBuilder)
    requires Triangulated(g, n)
    ensures fresh(builder) && fresh(builder.ctx.tris) && fresh(builder.indices)
    ensures builder.Valid() && builder.options == options && !builder.reachedMaxDepth
    ensures builder.ctx.geo == g && builder.ctx.triCount == n
    ensures builder.ctx.tris[..] == Identity(n) && builder.ctx.bounds[..] == BoundsData(g, n, n)
  {
    var ctx := new ConstructionContext(g, n, options.strategy);
    var indices := new nat[3 * n];
    builder := new TreeBuilder(ctx, indices, options);
  }
}
