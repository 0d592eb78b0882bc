/**
 * Quantities the construction context computes over a range of the triangle
 * permutation: the union of the triangles' bounds (getBounds), the mean
 * centroid (getAverage) and the number of triangles on the left of a split
 * plane (what partition returns).  A range is given by the triangle ids it
 * holds, in order.
 */
module Ranges {
  import opened Numbers

  /** Every id addresses a full record of `width` entries in `data`. */
  predicate Addresses(data: seq<real>, width: nat, ids: seq<nat>)
  {
    forall k :: 0 <= k < |ids| ==> width * ids[k] + width <= |data|
  }

  /** Entry j of triangle t's bounds record ([xmin, xmax, ymin, ymax, zmin, zmax] at t * 6). */
  function BoundAt(bounds: seq<real>, t: nat, j: nat): real
    requires 6 * t + 6 <= |bounds| && j < 6
  {
    bounds[6 * t + j]
  }

  /** Coordinate `axis` of triangle t's centroid (at t * 3). */
  function KeyAt(centroids: seq<real>, t: nat, axis: nat): real
    requires 3 * t + 3 <= |centroids| && axis < 3
  {
    centroids[3 * t + axis]
  }

  /** Math.min folded over entry j of the range's bounds, starting from Infinity. */
  function MinOver(bounds: seq<real>, ids: seq<nat>, j: nat): Num
    requires Addresses(bounds, 6, ids) && j < 6
  {
    if |ids| == 0 then PosInf
    else Min(MinOver(bounds, ids[..|ids| - 1], j), Fin(BoundAt(bounds, ids[|ids| - 1], j)))
  }

  /** Math.max folded over entry j of the range's bounds, starting from -Infinity. */
  function MaxOver(bounds: seq<real>, ids: seq<nat>, j: nat): Num
    requires Addresses(bounds, 6, ids) && j < 6
  {
    if |ids| == 0 then NegInf
    else Max(MaxOver(bounds, ids[..|ids| - 1], j), Fin(BoundAt(bounds, ids[|ids| - 1], j)))
  }

  /**
   * The box getBounds writes for a range, in the node layout
   * [minx, miny, minz, maxx, maxy, maxz] (the per-triangle records use the
   * interleaved layout, so the minimum on axis e comes from entry 2e).
   */
  function RangeBox(bounds: seq<real>, ids: seq<nat>): (box: seq<Num>)
    requires Addresses(bounds, 6, ids)
    ensures |box| == 6
  {
    [MinOver(bounds, ids, 0), MinOver(bounds, ids, 2), MinOver(bounds, ids, 4),
     MaxOver(bounds, ids, 1), MaxOver(bounds, ids, 3), MaxOver(bounds, ids, 5)]
  }

  /** Adding a triangle to a range widens each face of its box by that triangle's bounds. */
  lemma RangeBoxSnoc(bounds: seq<real>, ids: seq<nat>, t: nat)
    requires Addresses(bounds, 6, ids) && 6 * t + 6 <= |bounds|
    ensures Addresses(bounds, 6, ids + [t])
    ensures var b := RangeBox(bounds, ids);
            RangeBox(bounds, ids + [t])
            == [Min(b[0], Fin(BoundAt(bounds, t, 0))), Min(b[1], Fin(BoundAt(bounds, t, 2))), Min(b[2], Fin(BoundAt(bounds, t, 4))),
                Max(b[3], Fin(BoundAt(bounds, t, 1))), Max(b[4], Fin(BoundAt(bounds, t, 3))), Max(b[5], Fin(BoundAt(bounds, t, 5)))]
  {
    assert (ids + [t])[..|ids|] == ids;
  }

  /** The box of an empty range: Infinity minima and -Infinity maxima. */
  function EmptyBox(): seq<Num>
  {
    [PosInf, PosInf, PosInf, NegInf, NegInf, NegInf]
  }

  /** On a non-empty range the folded minimum is finite, attained by some triangle, and below every triangle. */
  lemma {:induction false} MinOverIsLeast(bounds: seq<real>, ids: seq<nat>, j: nat)
    requires Addresses(bounds, 6, ids) && j < 6 && |ids| > 0
    ensures MinOver(bounds, ids, j).Fin?
    ensures exists k :: 0 <= k < |ids| && MinOver(bounds, ids, j).v == BoundAt(bounds, ids[k], j)
    ensures forall k :: 0 <= k < |ids| ==> MinOver(bounds, ids, j).v <= BoundAt(bounds, ids[k], j)
  {
    var init := ids[..|ids| - 1];
    var last := |ids| - 1;
    if |init| == 0 {
      assert MinOver(bounds, ids, j) == Fin(BoundAt(bounds, ids[last], j));
    } else {
      MinOverIsLeast(bounds, init, j);
      var k :| 0 <= k < |init| && MinOver(bounds, init, j).v == BoundAt(bounds, init[k], j);
      if BoundAt(bounds, ids[last], j) < MinOver(bounds, init, j).v {
        assert MinOver(bounds, ids, j).v == BoundAt(bounds, ids[last], j);
      } else {
        assert MinOver(bounds, ids, j).v == BoundAt(bounds, ids[k], j);
      }
      forall k' | 0 <= k' < |ids| ensures MinOver(bounds, ids, j).v <= BoundAt(bounds, ids[k'], j) {
        if k' < last {
          assert ids[k'] == init[k'];
        }
      }
    }
  }

  /** On a non-empty range the folded maximum is finite, attained by some triangle, and above every triangle. */
  lemma {:induction false} MaxOverIsGreatest(bounds: seq<real>, ids: seq<nat>, j: nat)
    requires Addresses(bounds, 6, ids) && j < 6 && |ids| > 0
    ensures MaxOver(bounds, ids, j).Fin?
    ensures exists k :: 0 <= k < |ids| && MaxOver(bounds, ids, j).v == BoundAt(bounds, ids[k], j)
    ensures forall k :: 0 <= k < |ids| ==> BoundAt(bounds, ids[k], j) <= MaxOver(bounds, ids, j).v
  {
    var init := ids[..|ids| - 1];
    var last := |ids| - 1;
    if |init| == 0 {
      assert MaxOver(bounds, ids, j) == Fin(BoundAt(bounds, ids[last], j));
    } else {
      MaxOverIsGreatest(bounds, init, j);
      var k :| 0 <= k < |init| && MaxOver(bounds, init, j).v == BoundAt(bounds, init[k], j);
      if MaxOver(bounds, init, j).v < BoundAt(bounds, ids[last], j) {
        assert MaxOver(bounds, ids, j).v == BoundAt(bounds, ids[last], j);
      } else {
        assert MaxOver(bounds, ids, j).v == BoundAt(bounds, ids[k], j);
      }
      forall k' | 0 <= k' < |ids| ensures BoundAt(bounds, ids[k'], j) <= MaxOver(bounds, ids, j).v {
        if k' < last {
          assert ids[k'] == init[k'];
        }
      }
    }
  }

  /** An empty range yields the infinite sentinels. */
  lemma RangeBoxOfEmpty(bounds: seq<real>)
    ensures RangeBox(bounds, []) == EmptyBox()
  {
  }

  /**
   * A non-empty range's box is the tight union of its triangles' boxes: it is
   * finite, contains every triangle's bounds on every axis, and each of its six
   * faces is a face of some triangle in the range.
   */
  lemma RangeBoxIsTightUnion(bounds: seq<real>, ids: seq<nat>, e: nat)
    requires Addresses(bounds, 6, ids) && |ids| > 0 && e < 3
    ensures RangeBox(bounds, ids)[e].Fin? && RangeBox(bounds, ids)[e + 3].Fin?
    ensures forall k :: 0 <= k < |ids| ==>
              RangeBox(bounds, ids)[e].v <= BoundAt(bounds, ids[k], 2 * e)
              && BoundAt(bounds, ids[k], 2 * e + 1) <= RangeBox(bounds, ids)[e + 3].v
    ensures exists k :: 0 <= k < |ids| && RangeBox(bounds, ids)[e].v == BoundAt(bounds, ids[k], 2 * e)
    ensures exists k :: 0 <= k < |ids| && RangeBox(bounds, ids)[e + 3].v == BoundAt(bounds, ids[k], 2 * e + 1)
  {
    MinOverIsLeast(bounds, ids, 2 * e);
    MaxOverIsGreatest(bounds, ids, 2 * e + 1);
  }

  /** The minimum depends only on which triangles the range holds, not on their order. */
  lemma MinOverPermutation(bounds: seq<real>, s: seq<nat>, t: seq<nat>, j: nat)
    requires Addresses(bounds, 6, s) && Addresses(bounds, 6, t) && j < 6
    requires multiset(s) == multiset(t)
    ensures MinOver(bounds, s, j) == MinOver(bounds, t, j)
  {
    if |s| == 0 {
      assert |t| == |multiset(t)| == 0;
    } else {
      assert |t| == |multiset(t)| == |multiset(s)| == |s|;
      MinOverIsLeast(bounds, s, j);
      MinOverIsLeast(bounds, t, j);
      var ks :| 0 <= ks < |s| && MinOver(bounds, s, j).v == BoundAt(bounds, s[ks], j);
      var kt :| 0 <= kt < |t| && MinOver(bounds, t, j).v == BoundAt(bounds, t[kt], j);
      assert s[ks] in multiset(t);
      var it :| 0 <= it < |t| && t[it] == s[ks];
      assert t[kt] in multiset(s);
      var js :| 0 <= js < |s| && s[js] == t[kt];
    }
  }

  /** The maximum depends only on which triangles the range holds, not on their order. */
  lemma MaxOverPermutation(bounds: seq<real>, s: seq<nat>, t: seq<nat>, j: nat)
    requires Addresses(bounds, 6, s) && Addresses(bounds, 6, t) && j < 6
    requires multiset(s) == multiset(t)
    ensures MaxOver(bounds, s, j) == MaxOver(bounds, t, j)
  {
    if |s| == 0 {
      assert |t| == |multiset(t)| == 0;
    } else {
      assert |t| == |multiset(t)| == |multiset(s)| == |s|;
      MaxOverIsGreatest(bounds, s, j);
      MaxOverIsGreatest(bounds, t, j);
      var ks :| 0 <= ks < |s| && MaxOver(bounds, s, j).v == BoundAt(bounds, s[ks], j);
      var kt :| 0 <= kt < |t| && MaxOver(bounds, t, j).v == BoundAt(bounds, t[kt], j);
      assert s[ks] in multiset(t);
      var it :| 0 <= it < |t| && t[it] == s[ks];
      assert t[kt] in multiset(s);
      var js :| 0 <= js < |s| && s[js] == t[kt];
    }
  }

  /** Reordering a range leaves its box unchanged. */
  lemma RangeBoxPermutation(bounds: seq<real>, s: seq<nat>, t: seq<nat>)
    requires Addresses(bounds, 6, s) && Addresses(bounds, 6, t)
    requires multiset(s) == multiset(t)
    ensures RangeBox(bounds, s) == RangeBox(bounds, t)
  {
    MinOverPermutation(bounds, s, t, 0);
    MinOverPermutation(bounds, s, t, 2);
    MinOverPermutation(bounds, s, t, 4);
    MaxOverPermutation(bounds, s, t, 1);
    MaxOverPermutation(bounds, s, t, 3);
    MaxOverPermutation(bounds, s, t, 5);
  }

  /** Sum of the range's centroid coordinates on `axis`, accumulated front to back. */
  function SumKeys(centroids: seq<real>, ids: seq<nat>, axis: nat): real
    requires Addresses(centroids, 3, ids) && axis < 3
  {
    if |ids| == 0 then 0.0
    else SumKeys(centroids, ids[..|ids| - 1], axis) + KeyAt(centroids, ids[|ids| - 1], axis)
  }

  /** getAverage's result: the sum divided by the count (NaN for an empty range, 0 / 0). */
  function Mean(centroids: seq<real>, ids: seq<nat>, axis: nat): Num
    requires Addresses(centroids, 3, ids) && axis < 3
  {
    Div(Fin(SumKeys(centroids, ids, axis)), Fin(|ids| as real))
  }

  lemma {:induction false} SumKeysBetween(centroids: seq<real>, ids: seq<nat>, axis: nat, lo: real, hi: real)
    requires Addresses(centroids, 3, ids) && axis < 3
    requires forall k :: 0 <= k < |ids| ==> lo <= KeyAt(centroids, ids[k], axis) <= hi
    ensures |ids| as real * lo <= SumKeys(centroids, ids, axis) <= |ids| as real * hi
  {
    if |ids| > 0 {
      var init := ids[..|ids| - 1];
      forall k | 0 <= k < |init| ensures lo <= KeyAt(centroids, init[k], axis) <= hi {
        assert init[k] == ids[k];
      }
      SumKeysBetween(centroids, init, axis, lo, hi);
      assert |ids| as real * lo == |init| as real * lo + lo;
      assert |ids| as real * hi == |init| as real * hi + hi;
    }
  }

  /** The mean of a non-empty range is finite and lies between any bounds on its centroids. */
  lemma MeanBetween(centroids: seq<real>, ids: seq<nat>, axis: nat, lo: real, hi: real)
    requires Addresses(centroids, 3, ids) && axis < 3 && |ids| > 0
    requires forall k :: 0 <= k < |ids| ==> lo <= KeyAt(centroids, ids[k], axis) <= hi
    ensures Mean(centroids, ids, axis).Fin?
    ensures lo <= Mean(centroids, ids, axis).v <= hi
  {
    SumKeysBetween(centroids, ids, axis, lo, hi);
    var n := |ids| as real;
    var sum := SumKeys(centroids, ids, axis);
    assert Mean(centroids, ids, axis) == Fin(sum / n);
    assert n * lo <= sum <= n * hi;
    assert lo <= sum / n by {
      assert sum / n * n == sum;
    }
    assert sum / n <= hi by {
      assert sum / n * n == sum;
    }
  }

  /** Whether a triangle falls on the left of the plane: centroid < pos, as JavaScript compares. */
  predicate OnLeft(centroids: seq<real>, t: nat, axis: nat, pos: Num)
    requires 3 * t + 3 <= |centroids| && axis < 3
  {
    Lt(Fin(KeyAt(centroids, t, axis)), pos)
  }

  /** Number of triangles of the range that fall on the left of the plane. */
  function LeftCount(centroids: seq<real>, ids: seq<nat>, axis: nat, pos: Num): (c: nat)
    requires Addresses(centroids, 3, ids) && axis < 3
    ensures c <= |ids|
  {
    if |ids| == 0 then 0
    else (if OnLeft(centroids, ids[0], axis, pos) then 1 else 0) + LeftCount(centroids, ids[1..], axis, pos)
  }

  lemma {:induction false} LeftCountAppend(centroids: seq<real>, a: seq<nat>, b: seq<nat>, axis: nat, pos: Num)
    requires Addresses(centroids, 3, a) && Addresses(centroids, 3, b) && axis < 3
    ensures Addresses(centroids, 3, a + b)
    ensures LeftCount(centroids, a + b, axis, pos) == LeftCount(centroids, a, axis, pos) + LeftCount(centroids, b, axis, pos)
  {
    if |a| > 0 {
      assert (a + b)[0] == a[0] && (a + b)[1..] == a[1..] + b;
      LeftCountAppend(centroids, a[1..], b, axis, pos);
    } else {
      assert a + b == b;
    }
  }

  /** No triangle is on the left exactly when the count is 0; all of them exactly when it is the length. */
  lemma {:induction false} LeftCountExtremes(centroids: seq<real>, ids: seq<nat>, axis: nat, pos: Num)
    requires Addresses(centroids, 3, ids) && axis < 3
    ensures LeftCount(centroids, ids, axis, pos) == 0 <==> forall k :: 0 <= k < |ids| ==> !OnLeft(centroids, ids[k], axis, pos)
    ensures LeftCount(centroids, ids, axis, pos) == |ids| <==> forall k :: 0 <= k < |ids| ==> OnLeft(centroids, ids[k], axis, pos)
  {
    if |ids| > 0 {
      LeftCountExtremes(centroids, ids[1..], axis, pos);
      forall k | 1 <= k < |ids| ensures ids[k] == ids[1..][k - 1] { }
      if LeftCount(centroids, ids, axis, pos) == 0 {
        forall k | 0 <= k < |ids| ensures !OnLeft(centroids, ids[k], axis, pos) {
          if k > 0 { assert ids[k] == ids[1..][k - 1]; }
        }
      }
      if LeftCount(centroids, ids, axis, pos) == |ids| {
        forall k | 0 <= k < |ids| ensures OnLeft(centroids, ids[k], axis, pos) {
          if k > 0 { assert ids[k] == ids[1..][k - 1]; }
        }
      }
    }
  }

  /** A range whose first m triangles, and only those, are on the left has m of them on the left. */
  lemma LeftCountSplit(centroids: seq<real>, ids: seq<nat>, axis: nat, pos: Num, m: nat)
    requires Addresses(centroids, 3, ids) && axis < 3 && m <= |ids|
    requires forall k :: 0 <= k < |ids| ==> (OnLeft(centroids, ids[k], axis, pos) <==> k < m)
    ensures LeftCount(centroids, ids, axis, pos) == m
  {
    var a, b := ids[..m], ids[m..];
    assert ids == a + b;
    forall k | 0 <= k < |a| ensures OnLeft(centroids, a[k], axis, pos) {
      assert a[k] == ids[k];
    }
    forall k | 0 <= k < |b| ensures !OnLeft(centroids, b[k], axis, pos) {
      assert b[k] == ids[m + k];
    }
    LeftCountExtremes(centroids, a, axis, pos);
    LeftCountExtremes(centroids, b, axis, pos);
    LeftCountAppend(centroids, a, b, axis, pos);
  }

  /** The number of triangles on the left does not depend on the order of the range. */
  /** Removing the same element from both sides of a multiset equation. */
  lemma MultisetCancel(x: nat, a: multiset<nat>, p: multiset<nat>, q: multiset<nat>)
    requires multiset{x} + a == p + (multiset{x} + q)
    ensures a == p + q
  {
    forall y ensures a[y] == (p + q)[y] {
      assert (multiset{x} + a)[y] == (p + (multiset{x} + q))[y];
    }
  }

  lemma {:induction false} LeftCountPermutation(centroids: seq<real>, s: seq<nat>, t: seq<nat>, axis: nat, pos: Num)
    requires Addresses(centroids, 3, s) && Addresses(centroids, 3, t) && axis < 3
    requires multiset(s) == multiset(t)
    ensures LeftCount(centroids, s, axis, pos) == LeftCount(centroids, t, axis, pos)
    decreases |s|
  {
    if |s| == 0 {
      assert |t| == |multiset(t)| == 0;
    } else {
      assert s[0] in multiset(t);
      var j :| 0 <= j < |t| && t[j] == s[0];
      RemoveFirst(s, t, j);
      LeftCountRemoveAt(centroids, t, j, axis, pos);
      LeftCountPermutation(centroids, s[1..], t[..j] + t[j + 1..], axis, pos);
    }
  }

  /** Taking the head of s out of s, and the same element out of t, keeps the two multisets equal. */
  lemma RemoveFirst(s: seq<nat>, t: seq<nat>, j: nat)
    requires |s| > 0 && j < |t| && t[j] == s[0] && multiset(s) == multiset(t)
    ensures multiset(s[1..]) == multiset(t[..j] + t[j + 1..])
  {
    var pre, mid, post := t[..j], t[j..], t[j + 1..];
    assert mid == [t[j]] + post;
    assert t == pre + mid;
    assert multiset(mid) == multiset{t[j]} + multiset(post);
    assert multiset(t) == multiset(pre) + multiset(mid);
    assert s == [s[0]] + s[1..];
    assert multiset(s) == multiset{s[0]} + multiset(s[1..]);
    MultisetCancel(s[0], multiset(s[1..]), multiset(pre), multiset(post));
  }

  /** The left count of a range is that of the range without entry j, plus entry j's own contribution. */
  lemma LeftCountRemoveAt(centroids: seq<real>, t: seq<nat>, j: nat, axis: nat, pos: Num)
    requires Addresses(centroids, 3, t) && axis < 3 && j < |t|
    ensures Addresses(centroids, 3, t[..j] + t[j + 1..])
    ensures LeftCount(centroids, t, axis, pos)
            == (if OnLeft(centroids, t[j], axis, pos) then 1 else 0) + LeftCount(centroids, t[..j] + t[j + 1..], axis, pos)
  {
    var pre, mid, post := t[..j], t[j..], t[j + 1..];
    var rest := pre + post;
    forall k | 0 <= k < |rest| ensures 3 * rest[k] + 3 <= |centroids| {
      if k < j { assert rest[k] == t[k]; } else { assert rest[k] == t[k + 1]; }
    }
    assert t == pre + mid;
    assert mid[0] == t[j] && mid[1..] == post;
    LeftCountAppend(centroids, pre, post, axis, pos);
    LeftCountAppend(centroids, pre, mid, axis, pos);
  }

  /**
   * Where partition splits a range: the number of triangles on the left of
   * the plane, or half the range when pos is NaN (then neither scan of the
   * Hoare loop moves and every step swaps the two ends).
   */
  function SplitPoint(centroids: seq<real>, ids: seq<nat>, axis: nat, pos: Num): (c: nat)
    requires Addresses(centroids, 3, ids) && axis < 3
    ensures c <= |ids|
  {
    if pos.NaN? then |ids| / 2 else LeftCount(centroids, ids, axis, pos)
  }
}
