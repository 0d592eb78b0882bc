/**
 * Axis-aligned boxes.  A node's `boundingData` is a flat array of six numbers
 * in the layout [minx, miny, minz, maxx, maxy, maxz]; `Box3` is the
 * min/max-vector form that three.js uses.
 */
module Boxes {
  import opened Numbers

  datatype Vec3 = Vec3(x: Num, y: Num, z: Num)

  datatype Box3 = Box3(min: Vec3, max: Vec3)

  /** Component `i` of a vector (the `xyzFields` lookup). */
  function Coord(v: Vec3, i: nat): Num
    requires i < 3
  {
    if i == 0 then v.x else if i == 1 then v.y else v.z
  }

  /** boundsToArray: the flat [min.x, min.y, min.z, max.x, max.y, max.z] layout. */
  function BoundsToArray(b: Box3): (arr: seq<Num>)
    ensures |arr| == 6
    ensures forall i :: 0 <= i < 3 ==> arr[i] == Coord(b.min, i) && arr[i + 3] == Coord(b.max, i)
  {
    [b.min.x, b.min.y, b.min.z, b.max.x, b.max.y, b.max.z]
  }

  /** arrayToBox: reads the first six entries of a flat box back into min/max form. */
  function ArrayToBox(arr: seq<Num>): (b: Box3)
    requires |arr| >= 6
    ensures BoundsToArray(b) == arr[..6]
  {
    Box3(Vec3(arr[0], arr[1], arr[2]), Vec3(arr[3], arr[4], arr[5]))
  }

  /** The two layouts are inverse to each other. */
  lemma BoxLayoutRoundTrip(b: Box3)
    ensures ArrayToBox(BoundsToArray(b)) == b
  {
  }

  /** Extent of a flat box on axis i: bounds[i + 3] - bounds[i]. */
  function Extent(box: seq<Num>, i: nat): Num
    requires |box| == 6 && i < 3
  {
    Sub(box[i + 3], box[i])
  }

  /**
   * The (index, distance) pair of getLongestEdgeIndex after the first `i`
   * iterations of its loop: an axis is taken when its extent is strictly
   * greater than the best so far, starting from (-1, -Infinity).
   */
  function LongestPrefix(box: seq<Num>, i: nat): (int, Num)
    requires |box| == 6 && i <= 3
  {
    if i == 0 then (-1, NegInf)
    else
      var prev := LongestPrefix(box, i - 1);
      if Gt(Extent(box, i - 1), prev.1) then (i - 1, Extent(box, i - 1)) else prev
  }

  /**
   * The axis getLongestEdgeIndex returns: -1 exactly when no extent exceeds
   * -Infinity; otherwise the lowest axis of maximal extent (earlier axes win
   * ties because the comparison is strict; NaN extents are never taken).
   */
  function LongestEdge(box: seq<Num>): (r: int)
    requires |box| == 6
    ensures -1 <= r < 3
    ensures r == -1 <==> forall i :: 0 <= i < 3 ==> !Gt(Extent(box, i), NegInf)
    ensures r != -1 ==> Gt(Extent(box, r), NegInf)
    ensures r != -1 ==> forall j :: 0 <= j < r ==> !Ge(Extent(box, j), Extent(box, r))
    ensures r != -1 ==> forall j :: r < j < 3 ==> !Gt(Extent(box, j), Extent(box, r))
  {
    assert LongestPrefix(box, 0) == (-1, NegInf);
    var p1 := LongestPrefix(box, 1);
    var p2 := LongestPrefix(box, 2);
    var p3 := LongestPrefix(box, 3);
    assert p1 == if Gt(Extent(box, 0), NegInf) then (0, Extent(box, 0)) else (-1, NegInf);
    assert p2 == if Gt(Extent(box, 1), p1.1) then (1, Extent(box, 1)) else p1;
    assert p3 == if Gt(Extent(box, 2), p2.1) then (2, Extent(box, 2)) else p2;
    p3.0
  }

  /** getLongestEdgeIndex, with its loop. */
  method GetLongestEdgeIndex(bounds: seq<Num>) returns (splitDimIdx: int)
    requires |bounds| == 6
    ensures splitDimIdx == LongestEdge(bounds)
  {
    splitDimIdx := -1;
    var splitDist := NegInf;
    for i := 0 to 3
      invariant (splitDimIdx, splitDist) == LongestPrefix(bounds, i)
    {
      var dist := Sub(bounds[i + 3], bounds[i]);
      if Gt(dist, splitDist) {
        splitDist := dist;
        splitDimIdx := i;
      }
    }
  }

  /** A box with finite coordinates always has a longest axis, even when all its extents are zero. */
  lemma {:induction false} FiniteBoxHasLongestEdge(box: seq<Num>)
    requires |box| == 6
    requires forall i :: 0 <= i < 6 ==> box[i].Fin?
    ensures 0 <= LongestEdge(box) < 3
    ensures Extent(box, 0) == Fin(0.0) && Extent(box, 1) == Fin(0.0) && Extent(box, 2) == Fin(0.0)
            ==> LongestEdge(box) == 0
  {
    assert Extent(box, 0).Fin?;
  }
}
