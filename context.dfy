/**
 * BVHConstructionContext: the per-build state.  It holds the precomputed
 * triangle bounds and centroids, the SAH candidate lists, and `tris`, the
 * permutation of triangle ids that partition reorders in place so that every
 * node owns a contiguous range of it.
 */
module Context {
  import opened Numbers
  import opened Boxes
  import opened Geometry
  import opened Ranges
  import opened Sah
  import opened Splitting

  /** 0, 1, ..., n - 1: the initial triangle list. */
  function Identity(n: nat): (s: seq<nat>)
    ensures |s| == n && forall i :: 0 <= i < n ==> s[i] == i
  {
    seq(n, i requires 0 <= i < n => i)
  }

  /** Entries i * 3 .. i * 3 + 2 of the index buffer hold what writeReorderedIndices writes for triangle tris[i]. */
  predicate ReindexedAt(g: Geometry, n: nat, indices: seq<nat>, tris: seq<nat>, i: nat)
  {
    && Triangulated(g, n) && i < |tris| && tris[i] < n && 3 * i + 3 <= |indices|
    && indices[3 * i] == ReorderedVertexAsWritten(g, n, tris[i], 0)
    && indices[3 * i + 1] == ReorderedVertexAsWritten(g, n, tris[i], 1)
    && indices[3 * i + 2] == ReorderedVertexAsWritten(g, n, tris[i], 2)
  }

  /**
   * A written triple names the corners of triangle tris[i]: all three for an
   * indexed geometry, the first two otherwise, whose third slot repeats the
   * second.
   */
  lemma ReindexedCorners(g: Geometry, n: nat, indices: seq<nat>, tris: seq<nat>, i: nat)
    requires ReindexedAt(g, n, indices, tris, i)
    ensures forall k :: 0 <= k < 3 && (g.index.Some? || k < 2) ==> indices[3 * i + k] == ReorderedVertex(g, n, tris[i], k)
    ensures g.index.None? ==> indices[3 * i + 2] == indices[3 * i + 1] != ReorderedVertex(g, n, tris[i], 2)
  {
    forall k | 0 <= k < 3 && (g.index.Some? || k < 2) ensures indices[3 * i + k] == ReorderedVertex(g, n, tris[i], k) {
      ReorderedVertexAsWrittenAgrees(g, n, tris[i], k);
    }
  }

  /** Every id is below n. */
  predicate Below(ids: seq<nat>, n: nat)
  {
    forall k :: 0 <= k < |ids| ==> ids[k] < n
  }

  lemma BelowAddresses(ids: seq<nat>, n: nat, data: seq<real>, width: nat)
    requires Below(ids, n) && |data| == width * n
    ensures Addresses(data, width, ids)
  {
    forall k | 0 <= k < |ids| ensures width * ids[k] + width <= |data| {
      assert width * (ids[k] + 1) <= width * n by {
        assert ids[k] + 1 <= n;
      }
    }
  }

  /** s and t agree outside lo .. hi - 1. */
  predicate SameOutside(s: seq<nat>, t: seq<nat>, lo: int, hi: int)
  {
    |s| == |t| && forall i :: 0 <= i < |t| && !(lo <= i < hi) ==> s[i] == t[i]
  }

  /** Exchanging two entries inside lo .. hi - 1 permutes the sequence, keeps it below n and keeps the outside. */
  lemma SwapInside(orig: seq<nat>, s: seq<nat>, i: nat, j: nat, lo: int, hi: int, n: nat)
    requires lo <= i < hi && lo <= j < hi && hi <= |s|
    requires Below(s, n) && SameOutside(orig, s, lo, hi)
    ensures var t := s[i := s[j]][j := s[i]];
            multiset(t) == multiset(s) && Below(t, n) && SameOutside(orig, t, lo, hi)
  {
    var u := s[i := s[j]];
    var t := u[j := s[i]];
    assert multiset(u) == multiset(s) - multiset{s[i]} + multiset{s[j]};
    assert multiset(t) == multiset(u) - multiset{u[j]} + multiset{s[i]};
    forall k | 0 <= k < |t| ensures t[k] < n && (!(lo <= k < hi) ==> t[k] == orig[k]) {
      assert t[k] == s[k] || t[k] == s[i] || t[k] == s[j];
    }
  }

  /** A permutation of a whole sequence that keeps both ends in place permutes the middle. */
  lemma SlicePermutation(s: seq<nat>, t: seq<nat>, lo: nat, hi: nat)
    requires lo <= hi <= |s| == |t|
    requires multiset(s) == multiset(t) && s[..lo] == t[..lo] && s[hi..] == t[hi..]
    ensures multiset(s[lo..hi]) == multiset(t[lo..hi])
  {
    assert s == s[..lo] + s[lo..hi] + s[hi..];
    assert t == t[..lo] + t[lo..hi] + t[hi..];
    assert multiset(s[lo..hi]) == multiset(s) - multiset(s[..lo]) - multiset(s[hi..]);
    assert multiset(t[lo..hi]) == multiset(t) - multiset(t[..lo]) - multiset(t[hi..]);
  }

  class ConstructionContext {
    const geo: Geometry
    /** getTriangleCount(geo), known to be whole. */
    const triCount: nat
    const strategy: real
    const bounds: array<real>
    const centroids: array<real>
    /** The three candidate lists when the strategy is SAH; empty (null in the source) otherwise. */
    const sahplanes: seq<seq<SahPlane>>
    const tris: array<nat>

    /** The arrays have their sizes and tris only holds triangle ids. */
    ghost predicate Valid()
      reads tris
    {
      && Triangulated(geo, triCount)
      && bounds.Length == 6 * triCount && centroids.Length == 3 * triCount && tris.Length == triCount
      && Below(tris[..], triCount)
    }

    /**
     * The precomputed data is that of the geometry.  No method writes the
     * bounds or centroid arrays, so this holds from construction on.
     */
    ghost predicate DataMatches()
      reads bounds, centroids
    {
      && Triangulated(geo, triCount)
      && bounds[..] == BoundsData(geo, triCount, triCount)
      && centroids[..] == CentroidData(geo, triCount, triCount)
      && (strategy == SAH ==> sahplanes == SahPlanes(centroids[..], triCount))
    }

    /** The ids of the range offset .. offset + count - 1 address the bounds and centroid records. */
    lemma RangeAddresses(offset: nat, count: nat)
      requires Valid() && offset + count <= triCount
      ensures Addresses(bounds[..], 6, tris[offset..offset + count])
      ensures Addresses(centroids[..], 3, tris[offset..offset + count])
      ensures Below(tris[offset..offset + count], triCount)
    {
      var ids := tris[offset..offset + count];
      forall k | 0 <= k < |ids| ensures ids[k] < triCount {
        assert ids[k] == tris[..][offset + k];
      }
      BelowAddresses(ids, triCount, bounds[..], 6);
      BelowAddresses(ids, triCount, centroids[..], 3);
    }

    /** The constructor: triangle data, the identity permutation, and the SAH lists when SAH is chosen. */
    constructor (g: Geometry, n: nat, strategy: real)
      requires Triangulated(g, n)
      ensures Valid() && DataMatches()
      ensures geo == g && triCount == n && this.strategy == strategy
      ensures tris[..] == Identity(n)
      ensures strategy != SAH ==> sahplanes == []
      ensures strategy == SAH ==> PlanesFor()
      ensures fresh(tris)
    {
      geo := g;
      triCount := n;
      this.strategy := strategy;
      var b, c := ComputeTriangleData(g, n);
      bounds := b;
      centroids := c;
      var t := new nat[n];
      for i := 0 to n
        invariant forall j :: 0 <= j < i ==> t[j] == j
        invariant b[..] == BoundsData(g, n, n) && c[..] == CentroidData(g, n, n)
      {
        t[i] := i;
      }
      tris := t;
      var planes: seq<seq<SahPlane>> := [];
      if strategy == SAH {
        planes := InitSahPlanes(c, n);
      }
      sahplanes := planes;
    }

    /** getAverage: the mean centroid coordinate of the range on `axis`. */
    method GetAverage(offset: nat, count: nat, axis: nat) returns (avg: Num)
      requires Valid() && offset + count <= triCount && axis < 3
      ensures Addresses(centroids[..], 3, tris[offset..offset + count])
      ensures avg == Mean(centroids[..], tris[offset..offset + count], axis)
    {
      RangeAddresses(offset, count);
      var sum := 0.0;
      for i := offset to offset + count
        invariant sum == SumKeys(centroids[..], tris[offset..i], axis)
      {
        assert tris[offset..i + 1][..i - offset] == tris[offset..i];
        sum := sum + centroids[tris[i] * 3 + axis];
      }
      avg := Div(Fin(sum), Fin(count as real));
    }

    /** getBounds: the union of the range's triangle bounds, written into target. */
    method GetBounds(offset: nat, count: nat, target: array<Num>)
      requires Valid() && offset + count <= triCount && target.Length == 6
      modifies target
      ensures Addresses(bounds[..], 6, tris[offset..offset + count])
      ensures target[..] == RangeBox(bounds[..], tris[offset..offset + count])
    {
      var minx, miny, minz, maxx, maxy, maxz := RangeExtremes(offset, count);
      target[0] := minx;
      target[1] := miny;
      target[2] := minz;
      target[3] := maxx;
      target[4] := maxy;
      target[5] := maxz;
    }

    /** The loop of getBounds: running minima and maxima over the range, starting from the infinities. */
    method RangeExtremes(offset: nat, count: nat) returns (minx: Num, miny: Num, minz: Num, maxx: Num, maxy: Num, maxz: Num)
      requires Valid() && offset + count <= triCount
      ensures Addresses(bounds[..], 6, tris[offset..offset + count])
      ensures [minx, miny, minz, maxx, maxy, maxz] == RangeBox(bounds[..], tris[offset..offset + count])
    {
      RangeAddresses(offset, count);
      minx, miny, minz := PosInf, PosInf, PosInf;
      maxx, maxy, maxz := NegInf, NegInf, NegInf;
      for i := offset to offset + count
        invariant [minx, miny, minz, maxx, maxy, maxz] == RangeBox(bounds[..], tris[offset..i])
      {
        var tri := tris[i];
        RangeBoxSnoc(bounds[..], tris[offset..i], tri);
        assert tris[offset..i + 1] == tris[offset..i] + [tri];
        minx := Min(minx, Fin(bounds[tri * 6 + 0]));
        maxx := Max(maxx, Fin(bounds[tri * 6 + 1]));
        miny := Min(miny, Fin(bounds[tri * 6 + 2]));
        maxy := Max(maxy, Fin(bounds[tri * 6 + 3]));
        minz := Min(minz, Fin(bounds[tri * 6 + 4]));
        maxz := Max(maxz, Fin(bounds[tri * 6 + 5]));
      }
    }

    /**
     * writeReorderedIndices: the triples of the range's triangles land at
     * their new positions, with the third slot of a non-indexed triple
     * written as 3 * oldTri + 1, and the rest of the index buffer is left
     * alone.
     */
    method WriteReorderedIndices(offset: nat, count: nat, target: array<nat>)
      requires Valid() && offset + count <= triCount
      requires target.Length == 3 * triCount && target != tris
      modifies target
      ensures forall i :: offset <= i < offset + count ==> ReindexedAt(geo, triCount, target[..], tris[..], i)
      ensures forall j :: 0 <= j < target.Length && !(3 * offset <= j < 3 * (offset + count)) ==> target[j] == old(target[j])
    {
      for i := offset to offset + count
        invariant forall j :: offset <= j < i ==> ReindexedAt(geo, triCount, target[..], tris[..], j)
        invariant forall j :: 0 <= j < target.Length && !(3 * offset <= j < 3 * i) ==> target[j] == old(target[j])
      {
        ghost var before := target[..];
        var oldTri := tris[i];
        assert oldTri < triCount by {
          assert oldTri == tris[..][i];
        }
        target[3 * i + 0] := ReorderedVertexAsWritten(geo, triCount, oldTri, 0);
        target[3 * i + 1] := ReorderedVertexAsWritten(geo, triCount, oldTri, 1);
        target[3 * i + 2] := ReorderedVertexAsWritten(geo, triCount, oldTri, 2);
        assert ReindexedAt(geo, triCount, target[..], tris[..], i);
        forall j | offset <= j < i ensures ReindexedAt(geo, triCount, target[..], tris[..], j) {
          assert ReindexedAt(geo, triCount, before, tris[..], j);
          assert target[3 * j] == before[3 * j] && target[3 * j + 1] == before[3 * j + 1] && target[3 * j + 2] == before[3 * j + 2];
        }
      }
    }

    /**
     * getOptimalSplit: the split the strategy picks for the range inside the
     * node box `box`; a strategy other than CENTER, AVERAGE and SAH keeps
     * the initial { axis: -1, pos: 0 }.
     */
    method GetOptimalSplit(box: seq<Num>, offset: nat, count: nat, strategy: real) returns (s: Split)
      requires Valid() && |box| == 6 && offset + count <= triCount
      requires strategy == SAH ==> PlanesFor()
      ensures Addresses(centroids[..], 3, tris[offset..offset + count])
      ensures strategy == SAH ==> SahReady(sahplanes, tris[offset..offset + count])
      ensures s == OptimalSplit(box, tris[offset..offset + count], centroids[..], sahplanes, strategy)
    {
      RangeAddresses(offset, count);
      var axis := -1;
      var pos := Fin(0.0);
      if strategy == CENTER {
        axis := GetLongestEdgeIndex(box);
        if axis != -1 {
          pos := Div(Add(box[axis + 3], box[axis]), Fin(2.0));
        }
      } else if strategy == AVERAGE {
        axis := GetLongestEdgeIndex(box);
        if axis != -1 {
          pos := GetAverage(offset, count, axis);
        }
      } else if strategy == SAH {
        var lists := FilteredLists(offset, count);
        axis, pos := SahScan(box, lists, count);
      }
      s := Split(axis, pos);
    }

    /** The three candidate lists have an entry per triangle. */
    predicate PlanesFor()
    {
      |sahplanes| == 3 && |sahplanes[0]| == triCount && |sahplanes[1]| == triCount && |sahplanes[2]| == triCount
    }

    /** The SAH candidate lists of the range: gathered in range order, then sorted by position. */
    method FilteredLists(offset: nat, count: nat) returns (lists: seq<seq<SahPlane>>)
      requires tris.Length == triCount && Below(tris[..], triCount) && PlanesFor() && offset + count <= triCount
      ensures SahReady(sahplanes, tris[offset..offset + count])
      ensures lists == SahLists(sahplanes, tris[offset..offset + count])
    {
      var filtered: seq<seq<SahPlane>> := [[], [], []];
      for i := offset to offset + count
        invariant |filtered| == 3
        invariant InPlanes(sahplanes[0], tris[offset..i]) && filtered[0] == Gather(sahplanes[0], tris[offset..i])
        invariant InPlanes(sahplanes[1], tris[offset..i]) && filtered[1] == Gather(sahplanes[1], tris[offset..i])
        invariant InPlanes(sahplanes[2], tris[offset..i]) && filtered[2] == Gather(sahplanes[2], tris[offset..i])
      {
        var t := tris[i];
        assert tris[offset..i + 1] == tris[offset..i] + [t];
        GatherSnoc(sahplanes[0], tris[offset..i], t);
        GatherSnoc(sahplanes[1], tris[offset..i], t);
        GatherSnoc(sahplanes[2], tris[offset..i], t);
        filtered := PushCandidates(filtered, t);
      }
      SortedGathered(sahplanes, tris[offset..offset + count], filtered);
      lists := [SortByP(filtered[0]), SortByP(filtered[1]), SortByP(filtered[2])];
    }

    /** The inner loop of the gathering: appends triangle t's candidate of each axis to that axis's list. */
    method PushCandidates(filtered: seq<seq<SahPlane>>, t: nat) returns (pushed: seq<seq<SahPlane>>)
      requires PlanesFor() && t < triCount && |filtered| == 3
      ensures |pushed| == 3
      ensures pushed[0] == filtered[0] + [sahplanes[0][t]]
      ensures pushed[1] == filtered[1] + [sahplanes[1][t]]
      ensures pushed[2] == filtered[2] + [sahplanes[2][t]]
    {
      pushed := filtered;
      for v := 0 to 3
        invariant |pushed| == 3
        invariant forall w :: 0 <= w < v ==> pushed[w] == filtered[w] + [sahplanes[w][t]]
        invariant forall w :: v <= w < 3 ==> pushed[w] == filtered[w]
      {
        pushed := pushed[v := pushed[v] + [sahplanes[v][t]]];
      }
    }

    /**
     * partition: Hoare partitioning of the range about the split plane.  The
     * range is permuted in place, the triangles whose centroid is below pos
     * come first, and the start of the right part is returned; with a NaN
     * position nothing compares, so the range is reversed and split in half.
     */
    method Partition(offset: nat, count: nat, split: Split) returns (r: nat)
      requires Valid() && offset + count <= triCount && 0 <= split.axis < 3
      modifies tris
      ensures Valid()
      ensures offset <= r <= offset + count
      ensures tris[..offset] == old(tris[..offset]) && tris[offset + count..] == old(tris[offset + count..])
      ensures multiset(tris[..]) == multiset(old(tris[..]))
      ensures multiset(tris[offset..offset + count]) == multiset(old(tris[offset..offset + count]))
      ensures !split.pos.NaN? ==> AllLeft(centroids[..], tris[..], offset, r, split.axis, split.pos)
      ensures !split.pos.NaN? ==> AllRight(centroids[..], tris[..], r, offset + count, split.axis, split.pos)
      ensures Addresses(centroids[..], 3, old(tris[offset..offset + count]))
      ensures r - offset == SplitPoint(centroids[..], old(tris[offset..offset + count]), split.axis, split.pos)
    {
      ghost var orig := tris[..];
      assert Triangulated(geo, triCount) && tris.Length == triCount && centroids.Length == 3 * triCount;
      r := PartitionLoop(offset, count, split.axis, split.pos);
      PartitionOutcome(centroids[..], triCount, orig, tris[..], offset, count, split.axis, split.pos, r);
    }

    /** The swapping loop of partition, stated on the whole triangle array. */
    method PartitionLoop(offset: nat, count: nat, axis: nat, pos: Num) returns (r: nat)
      requires tris.Length == triCount && centroids.Length == 3 * triCount && Below(tris[..], triCount)
      requires offset + count <= triCount && axis < 3
      modifies tris
      ensures Below(tris[..], triCount) && offset <= r <= offset + count
      ensures SameOutside(old(tris[..]), tris[..], offset, offset + count)
      ensures multiset(tris[..]) == multiset(old(tris[..]))
      ensures !pos.NaN? ==> AllLeft(centroids[..], tris[..], offset, r, axis, pos)
      ensures !pos.NaN? ==> AllRight(centroids[..], tris[..], r, offset + count, axis, pos)
      ensures pos.NaN? ==> 2 * (r - offset) <= count <= 2 * (r - offset) + 1
    {
      ghost var orig := tris[..];
      ghost var cs := centroids[..];
      var left: int := offset;
      var right: int := offset + count - 1;
      var done := false;
      while !done
        invariant Partitioning(cs, orig, tris[..], triCount, offset, offset + count, left, right, axis, pos)
        invariant done ==> right <= left && (!pos.NaN? ==> right < left)
        decreases !done, right - left + 1
      {
        left, right, done := PartitionStep(cs, orig, offset, offset + count, left, right, axis, pos);
      }
      r := left;
      assert cs == centroids[..];
    }

    /**
     * One round of partition's outer loop: both scans, then either the swap
     * of the misplaced pair or, when the scans have met, the end.
     */
    method PartitionStep(ghost cs: seq<real>, ghost orig: seq<nat>, lo: int, hi: int, left0: int, right0: int,
                         axis: nat, pos: Num) returns (left: int, right: int, done: bool)
      requires tris.Length == triCount && centroids.Length == 3 * triCount && cs == centroids[..]
      requires Partitioning(cs, orig, tris[..], triCount, lo, hi, left0, right0, axis, pos)
      modifies tris
      ensures Partitioning(cs, orig, tris[..], triCount, lo, hi, left, right, axis, pos)
      ensures cs == centroids[..]
      ensures if done then right <= left && (!pos.NaN? ==> right < left) else right - left < right0 - left0
    {
      ghost var cur := tris[..];
      left := ScanLeft(cs, orig, lo, hi, left0, right0, axis, pos);
      right := ScanRight(cs, orig, lo, hi, left, right0, axis, pos);
      if left < right {
        SwapStep(cs, orig, cur, triCount, lo, hi, left, right, axis, pos);
        Swap(left, right);
        left := left + 1;
        right := right - 1;
        done := false;
      } else {
        done := true;
      }
    }

    /** Exchanges two entries of the triangle array. */
    method Swap(i: nat, j: nat)
      requires i < tris.Length && j < tris.Length
      modifies tris
      ensures tris[..] == old(tris[..])[i := old(tris[j])][j := old(tris[i])]
    {
      tris[i], tris[j] := tris[j], tris[i];
    }

    /** The first inner loop of partition: skips the triangles already on the left. */
    method ScanLeft(ghost cs: seq<real>, ghost orig: seq<nat>, lo: int, hi: int, left0: int, right: int, axis: nat, pos: Num) returns (left: int)
      requires tris.Length == triCount && centroids.Length == 3 * triCount && cs == centroids[..]
      requires Partitioning(cs, orig, tris[..], triCount, lo, hi, left0, right, axis, pos)
      ensures left0 <= left
      ensures Partitioning(cs, orig, tris[..], triCount, lo, hi, left, right, axis, pos)
      ensures left <= right ==> AllRight(cs, tris[..], left, left + 1, axis, pos)
    {
      left := left0;
      while left <= right && Lt(Fin(centroids[tris[left] * 3 + axis]), pos)
        invariant left0 <= left
        invariant Partitioning(cs, orig, tris[..], triCount, lo, hi, left, right, axis, pos)
        decreases right - left + 1
      {
        left := left + 1;
      }
    }

    /** The second inner loop of partition: skips the triangles already on the right. */
    method ScanRight(ghost cs: seq<real>, ghost orig: seq<nat>, lo: int, hi: int, left: int, right0: int, axis: nat, pos: Num) returns (right: int)
      requires tris.Length == triCount && centroids.Length == 3 * triCount && cs == centroids[..]
      requires Partitioning(cs, orig, tris[..], triCount, lo, hi, left, right0, axis, pos)
      ensures right <= right0
      ensures Partitioning(cs, orig, tris[..], triCount, lo, hi, left, right, axis, pos)
      ensures left <= right && !pos.NaN? ==> AllLeft(cs, tris[..], right, right + 1, axis, pos)
    {
      right := right0;
      while left <= right && Ge(Fin(centroids[tris[right] * 3 + axis]), pos)
        invariant right <= right0
        invariant Partitioning(cs, orig, tris[..], triCount, lo, hi, left, right, axis, pos)
        decreases right - left + 1
      {
        GeIsNotLt(Fin(centroids[tris[right] * 3 + axis]), pos);
        right := right - 1;
      }
    }
  }

  /**
   * The state of partition's outer loop: s permutes orig inside lo .. hi - 1
   * only, and (for a position that compares) everything before left is on
   * the left and everything after right is on the right; with a NaN
   * position both ends have moved in by the same amount.
   */
  predicate Partitioning(centroids: seq<real>, orig: seq<nat>, s: seq<nat>, n: nat, lo: int, hi: int,
                         left: int, right: int, axis: nat, pos: Num)
  {
    && |centroids| == 3 * n && |s| == n && 0 <= lo <= left <= right + 1 <= hi <= n && axis < 3
    && Below(s, n) && SameOutside(orig, s, lo, hi) && multiset(s) == multiset(orig)
    && (!pos.NaN? ==> AllLeft(centroids, s, lo, left, axis, pos) && AllRight(centroids, s, right + 1, hi, axis, pos))
    && (pos.NaN? ==> left - lo == hi - 1 - right)
  }

  /** Swapping the misplaced pair the two scans stopped at keeps the loop state, one step further in. */
  lemma SwapStep(centroids: seq<real>, orig: seq<nat>, s: seq<nat>, n: nat, lo: int, hi: int,
                 left: int, right: int, axis: nat, pos: Num)
    requires Partitioning(centroids, orig, s, n, lo, hi, left, right, axis, pos) && left < right
    requires !pos.NaN? ==> AllRight(centroids, s, left, left + 1, axis, pos) && AllLeft(centroids, s, right, right + 1, axis, pos)
    ensures Partitioning(centroids, orig, s[left := s[right]][right := s[left]], n, lo, hi, left + 1, right - 1, axis, pos)
  {
    SwapInside(orig, s, left, right, lo, hi, n);
    if !pos.NaN? {
      SwapExtends(centroids, s, lo, left, right, hi, axis, pos);
    }
  }

  /** Entries lo .. hi - 1 of s are triangles on the left of the plane. */
  predicate AllLeft(centroids: seq<real>, s: seq<nat>, lo: int, hi: int, axis: nat, pos: Num)
  {
    forall i :: lo <= i < hi ==> 0 <= i < |s| && 3 * s[i] + 3 <= |centroids| && axis < 3 && OnLeft(centroids, s[i], axis, pos)
  }

  /** Entries lo .. hi - 1 of s are triangles not on the left of the plane. */
  predicate AllRight(centroids: seq<real>, s: seq<nat>, lo: int, hi: int, axis: nat, pos: Num)
  {
    forall i :: lo <= i < hi ==> 0 <= i < |s| && 3 * s[i] + 3 <= |centroids| && axis < 3 && !OnLeft(centroids, s[i], axis, pos)
  }

  /** Swapping a misplaced pair grows both classified ends of the range by one. */
  lemma SwapExtends(centroids: seq<real>, s: seq<nat>, lo: int, left: int, right: int, hi: int, axis: nat, pos: Num)
    requires 0 <= lo <= left < right < hi <= |s|
    requires AllLeft(centroids, s, lo, left, axis, pos) && AllRight(centroids, s, right + 1, hi, axis, pos)
    requires AllLeft(centroids, s, right, right + 1, axis, pos) && AllRight(centroids, s, left, left + 1, axis, pos)
    ensures var t := s[left := s[right]][right := s[left]];
            AllLeft(centroids, t, lo, left + 1, axis, pos) && AllRight(centroids, t, right, hi, axis, pos)
  {
    var t := s[left := s[right]][right := s[left]];
    assert AllLeft(centroids, t, lo, left + 1, axis, pos) by {
      forall i | lo <= i < left + 1 ensures 0 <= i < |t| && 3 * t[i] + 3 <= |centroids| && axis < 3 && OnLeft(centroids, t[i], axis, pos) {
        if i == left { assert t[i] == s[right]; } else { assert t[i] == s[i]; }
      }
    }
    assert AllRight(centroids, t, right, hi, axis, pos) by {
      forall i | right <= i < hi ensures 0 <= i < |t| && 3 * t[i] + 3 <= |centroids| && axis < 3 && !OnLeft(centroids, t[i], axis, pos) {
        if i == right { assert t[i] == s[left]; } else { assert t[i] == s[i]; }
      }
    }
  }

  /** What the Hoare loop's final state says about the range, restated on the range itself. */
  lemma PartitionOutcome(centroids: seq<real>, n: nat, orig: seq<nat>, now: seq<nat>, offset: nat, count: nat,
                         axis: nat, pos: Num, r: nat)
    requires |centroids| == 3 * n && |orig| == |now| == n && offset <= r <= offset + count <= n && axis < 3
    requires Below(orig, n) && Below(now, n)
    requires SameOutside(orig, now, offset, offset + count)
    requires multiset(now) == multiset(orig)
    requires !pos.NaN? ==> AllLeft(centroids, now, offset, r, axis, pos) && AllRight(centroids, now, r, offset + count, axis, pos)
    requires pos.NaN? ==> 2 * (r - offset) <= count <= 2 * (r - offset) + 1
    ensures now[..offset] == orig[..offset] && now[offset + count..] == orig[offset + count..]
    ensures multiset(now[offset..offset + count]) == multiset(orig[offset..offset + count])
    ensures Addresses(centroids, 3, orig[offset..offset + count])
    ensures r - offset == SplitPoint(centroids, orig[offset..offset + count], axis, pos)
  {
    assert now[..offset] == orig[..offset];
    assert now[offset + count..] == orig[offset + count..];
    var before := orig[offset..offset + count];
    var after := now[offset..offset + count];
    SlicePermutation(now, orig, offset, offset + count);
    forall k | 0 <= k < |before| ensures before[k] < n {
      assert before[k] == orig[offset + k];
    }
    forall k | 0 <= k < |after| ensures after[k] < n {
      assert after[k] == now[offset + k];
    }
    BelowAddresses(before, n, centroids, 3);
    BelowAddresses(after, n, centroids, 3);
    if !pos.NaN? {
      forall k | 0 <= k < |after| ensures OnLeft(centroids, after[k], axis, pos) <==> k < r - offset {
        assert after[k] == now[offset + k];
      }
    }
    PartitionResult(centroids, before, after, axis, pos, r - offset);
  }

  /**
   * A range that its left/right classification splits at m, and that
   * permutes the original range, makes m the split point of the original.
   */
  lemma PartitionResult(centroids: seq<real>, before: seq<nat>, after: seq<nat>, axis: nat, pos: Num, m: nat)
    requires Addresses(centroids, 3, before) && Addresses(centroids, 3, after) && axis < 3
    requires multiset(before) == multiset(after) && m <= |after|
    requires !pos.NaN? ==> forall k :: 0 <= k < |after| ==> (OnLeft(centroids, after[k], axis, pos) <==> k < m)
    requires pos.NaN? ==> 2 * m <= |after| <= 2 * m + 1
    ensures m == SplitPoint(centroids, before, axis, pos)
  {
    assert |before| == |multiset(before)| == |multiset(after)| == |after|;
    if !pos.NaN? {
      LeftCountSplit(centroids, after, axis, pos, m);
      LeftCountPermutation(centroids, before, after, axis, pos);
    }
  }

  /** The SAH initialisation of the constructor: candidate lists filled triangle by triangle. */
  method InitSahPlanes(centroids: array<real>, n: nat) returns (planes: seq<seq<SahPlane>>)
    requires centroids.Length == 3 * n
    ensures planes == SahPlanes(centroids[..], n)
  {
    planes := [[], [], []];
    for tri := 0 to n
      invariant |planes| == 3
      invariant forall e :: 0 <= e < 3 ==> planes[e] == AxisPlanes(centroids[..], n, e)[..tri]
    {
      for el := 0 to 3
        invariant |planes| == 3
        invariant forall e :: 0 <= e < el ==> planes[e] == AxisPlanes(centroids[..], n, e)[..tri + 1]
        invariant forall e :: el <= e < 3 ==> planes[e] == AxisPlanes(centroids[..], n, e)[..tri]
      {
        assert AxisPlanes(centroids[..], n, el)[..tri + 1] == AxisPlanes(centroids[..], n, el)[..tri] + [SahPlane(centroids[tri * 3 + el], tri)];
        planes := planes[el := planes[el] + [SahPlane(centroids[tri * 3 + el], tri)]];
      }
    }
    assert forall e :: 0 <= e < 3 ==> AxisPlanes(centroids[..], n, e)[..n] == AxisPlanes(centroids[..], n, e);
  }
}
