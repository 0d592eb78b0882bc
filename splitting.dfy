/**
 * getOptimalSplit as a function of the node's box, the triangles of its range
 * and the strategy: CENTER splits the longest edge at its middle, AVERAGE at
 * the mean centroid, SAH at the cheapest candidate plane.
 */
module Splitting {
  import opened Numbers
  import opened Boxes
  import opened Ranges
  import opened Sah

  /** The { axis, pos } record getOptimalSplit returns; axis -1 means "do not split". */
  datatype Split = Split(axis: int, pos: Num)

  const CENTER: real := 0.0
  const AVERAGE: real := 1.0
  const SAH: real := 2.0

  /** The three candidate lists of the construction context, one per axis. */
  function SahPlanes(centroids: seq<real>, n: nat): (planes: seq<seq<SahPlane>>)
    requires |centroids| == 3 * n
    ensures |planes| == 3
  {
    [AxisPlanes(centroids, n, 0), AxisPlanes(centroids, n, 1), AxisPlanes(centroids, n, 2)]
  }

  /** The candidate lists have an entry for every triangle of the range. */
  predicate SahReady(planes: seq<seq<SahPlane>>, ids: seq<nat>)
  {
    |planes| == 3 && InPlanes(planes[0], ids) && InPlanes(planes[1], ids) && InPlanes(planes[2], ids)
  }

  /** Candidate lists built by SahPlanes are ready for any range of triangles below n. */
  lemma SahPlanesReady(centroids: seq<real>, n: nat, ids: seq<nat>)
    requires |centroids| == 3 * n
    requires forall k :: 0 <= k < |ids| ==> ids[k] < n
    ensures SahReady(SahPlanes(centroids, n), ids)
  {
  }

  /** getOptimalSplit for the range `ids` inside the node box `box`. */
  function OptimalSplit(box: seq<Num>, ids: seq<nat>, centroids: seq<real>, planes: seq<seq<SahPlane>>, strategy: real): (s: Split)
    requires |box| == 6 && Addresses(centroids, 3, ids)
    requires strategy == SAH ==> SahReady(planes, ids)
    ensures -1 <= s.axis < 3
    ensures s.axis == -1 ==> s.pos == Fin(0.0)
  {
    if strategy == CENTER then CenterSplit(box)
    else if strategy == AVERAGE then AverageSplit(box, ids, centroids)
    else if strategy == SAH then SahChoice(box, ids, planes)
    else Split(-1, Fin(0.0))
  }

  /** CENTER: the middle of the longest edge. */
  function CenterSplit(box: seq<Num>): (s: Split)
    requires |box| == 6
    ensures -1 <= s.axis < 3 && (s.axis == -1 ==> s.pos == Fin(0.0))
  {
    var axis := LongestEdge(box);
    if axis != -1 then Split(axis, Div(Add(box[axis + 3], box[axis]), Fin(2.0))) else Split(-1, Fin(0.0))
  }

  /** AVERAGE: the mean centroid of the range on the longest edge's axis. */
  function AverageSplit(box: seq<Num>, ids: seq<nat>, centroids: seq<real>): (s: Split)
    requires |box| == 6 && Addresses(centroids, 3, ids)
    ensures -1 <= s.axis < 3 && (s.axis == -1 ==> s.pos == Fin(0.0))
  {
    var axis := LongestEdge(box);
    if axis != -1 then Split(axis, Mean(centroids, ids, axis)) else Split(-1, Fin(0.0))
  }

  /** SAH: the outcome of the scan over the range's sorted candidates. */
  function SahChoice(box: seq<Num>, ids: seq<nat>, planes: seq<seq<SahPlane>>): (s: Split)
    requires |box| == 6 && SahReady(planes, ids)
    ensures -1 <= s.axis < 3 && (s.axis == -1 ==> s.pos == Fin(0.0))
  {
    var lists := SahLists(planes, ids);
    ScanAxisRange(CostTable(box, lists, |ids|), lists, |ids|, 3, 0);
    var best := SahSplit(box, lists, |ids|);
    Split(best.axis, best.pos)
  }

  /** The scan keeps axis -1 exactly with position 0, and otherwise names an axis. */
  lemma {:induction false} ScanAxisRange(costs: seq<seq<Num>>, lists: seq<seq<SahPlane>>, count: nat, i: nat, p: nat)
    requires CostsFor(costs, count) && ListsFor(lists, count)
    requires i <= 3 && p <= count && (i == 3 ==> p == 0)
    ensures var s := Scan(costs, lists, count, i, p);
            -1 <= s.axis < 3 && (s.axis == -1 ==> s.pos == Fin(0.0))
    decreases i, p
  {
    if p == 0 {
      if i > 0 {
        ScanAxisRange(costs, lists, count, i - 1, count);
      }
    } else {
      ScanAxisRange(costs, lists, count, i, p - 1);
    }
  }

  /** CENTER splits a finite box's longest edge at its middle, which lies inside the box. */
  lemma CenterSplitInsideBox(box: seq<Num>)
    requires |box| == 6
    requires forall j :: 0 <= j < 6 ==> box[j].Fin?
    requires forall e :: 0 <= e < 3 ==> box[e].v <= box[e + 3].v
    ensures var s := CenterSplit(box);
            && s.axis == LongestEdge(box) && 0 <= s.axis
            && s.pos.Fin? && box[s.axis].v <= s.pos.v <= box[s.axis + 3].v
  {
    FiniteBoxHasLongestEdge(box);
  }

  /** AVERAGE splits the longest edge at the mean centroid, which lies between the range's smallest and largest centroid. */
  lemma AverageSplitBetweenCentroids(box: seq<Num>, ids: seq<nat>, centroids: seq<real>, lo: real, hi: real)
    requires |box| == 6 && Addresses(centroids, 3, ids) && |ids| > 0
    requires LongestEdge(box) != -1
    requires forall k :: 0 <= k < |ids| ==> lo <= KeyAt(centroids, ids[k], LongestEdge(box)) <= hi
    ensures var s := AverageSplit(box, ids, centroids);
            && s.axis == LongestEdge(box)
            && s.pos == Mean(centroids, ids, s.axis) && s.pos.Fin? && lo <= s.pos.v <= hi
  {
    MeanBetween(centroids, ids, LongestEdge(box), lo, hi);
  }

  /** SAH either keeps the node whole or splits at the centroid of one of the range's triangles. */
  lemma SahSplitAtCentroid(box: seq<Num>, ids: seq<nat>, centroids: seq<real>, n: nat)
    requires |box| == 6 && |centroids| == 3 * n
    requires forall k :: 0 <= k < |ids| ==> ids[k] < n
    ensures SahReady(SahPlanes(centroids, n), ids)
    ensures var s := SahChoice(box, ids, SahPlanes(centroids, n));
            s.axis == -1 || exists j :: 0 <= j < |ids| && s.pos == Fin(KeyAt(centroids, ids[j], s.axis))
  {
    SahPlanesReady(centroids, n, ids);
    var lists := SahLists(SahPlanes(centroids, n), ids);
    SahSplitPosition(box, lists, |ids|);
    var r := SahSplit(box, lists, |ids|);
    if r.axis != -1 {
      ChosenCandidateIsCentroid(centroids, n, ids, r.axis, r.pos);
    }
  }

  /** A position taken from a sorted candidate list of the range is the centroid of one of its triangles. */
  lemma ChosenCandidateIsCentroid(centroids: seq<real>, n: nat, ids: seq<nat>, a: int, pos: Num)
    requires |centroids| == 3 * n && 0 <= a < 3
    requires forall k :: 0 <= k < |ids| ==> ids[k] < n
    requires SahReady(SahPlanes(centroids, n), ids)
    requires exists k :: 0 <= k < |ids| && pos == Fin(SahLists(SahPlanes(centroids, n), ids)[a][k].p)
    ensures exists j :: 0 <= j < |ids| && pos == Fin(KeyAt(centroids, ids[j], a))
  {
    var planes := SahPlanes(centroids, n);
    var lists: seq<seq<SahPlane>> := SahLists(planes, ids);
    var k: nat :| k < |ids| && pos == Fin(lists[a][k].p);
    assert planes[a] == AxisPlanes(centroids, n, a) by {
      if a == 0 {} else if a == 1 {} else {}
    }
    assert lists[a] == SortByP(Gather(planes[a], ids)) by {
      if a == 0 {} else if a == 1 {} else {}
    }
    SortedCandidateIsCentroid(centroids, n, ids, a, k);
  }
}
