/**
 * The surface area heuristic of getOptimalSplit: candidate planes at the
 * range's centroids, sorted per axis, scanned with running left/right counts,
 * keeping the first candidate whose cost is strictly below the best so far
 * (initially the cost of not splitting).
 */
module Sah {
  import opened Numbers
  import opened Boxes
  import opened Ranges

  /** A split-plane candidate: a triangle's centroid coordinate on one axis. */
  datatype SahPlane = SahPlane(p: real, tri: nat)

  /** The state the scan keeps: the chosen axis (-1 for none), position and cost. */
  datatype SahBest = SahBest(axis: int, pos: Num, cost: Num)

  const TRAVERSAL_COST: real := 3.0
  const INTERSECTION_COST: real := 1.0

  /** sahplanes[axis]: one candidate per triangle, at its centroid on `axis`. */
  function AxisPlanes(centroids: seq<real>, n: nat, axis: nat): (s: seq<SahPlane>)
    requires |centroids| == 3 * n && axis < 3
    ensures |s| == n
    ensures forall t :: 0 <= t < n ==> s[t] == SahPlane(KeyAt(centroids, t, axis), t)
  {
    seq(n, t requires 0 <= t < n => SahPlane(KeyAt(centroids, t, axis), t))
  }

  /** The ids address an entry of the plane list. */
  predicate InPlanes(planes: seq<SahPlane>, ids: seq<nat>)
  {
    forall k :: 0 <= k < |ids| ==> ids[k] < |planes|
  }

  /** filteredLists[v] before sorting: the range's candidates in range order. */
  function Gather(planes: seq<SahPlane>, ids: seq<nat>): (s: seq<SahPlane>)
    requires InPlanes(planes, ids)
    ensures |s| == |ids|
    ensures forall k :: 0 <= k < |ids| ==> s[k] == planes[ids[k]]
  {
    if |ids| == 0 then []
    else Gather(planes, ids[..|ids| - 1]) + [planes[ids[|ids| - 1]]]
  }

  predicate SortedByP(s: seq<SahPlane>)
  {
    forall i, j :: 0 <= i < j < |s| ==> s[i].p <= s[j].p
  }

  /** Inserts x before the first element that is not smaller, so equal keys keep their order. */
  function Insert(x: SahPlane, s: seq<SahPlane>): (r: seq<SahPlane>)
    requires SortedByP(s)
    ensures |r| == |s| + 1
    ensures SortedByP(r) && multiset(r) == multiset(s) + multiset{x}
  {
    if |s| == 0 || x.p <= s[0].p then
      var r := [x] + s;
      assert SortedByP(r) by {
        forall i, j | 0 <= i < j < |r| ensures r[i].p <= r[j].p {
          assert r[j] == s[j - 1];
          if i > 0 { assert r[i] == s[i - 1]; } else { assert s[0].p <= s[j - 1].p; }
        }
      }
      r
    else
      var rest := Insert(x, s[1..]);
      var r := [s[0]] + rest;
      assert multiset(s) == multiset{s[0]} + multiset(s[1..]) by {
        assert s == [s[0]] + s[1..];
      }
      assert multiset(r) == multiset{s[0]} + multiset(rest);
      assert SortedByP(r) by {
        forall i, j | 0 <= i < j < |r| ensures r[i].p <= r[j].p {
          assert r[j] == rest[j - 1];
          if i > 0 {
            assert r[i] == rest[i - 1];
          } else {
            assert rest[j - 1] in multiset(rest);
          }
        }
      }
      r
  }

  /** Gathering one more triangle appends its candidate. */
  lemma GatherSnoc(planes: seq<SahPlane>, ids: seq<nat>, t: nat)
    requires InPlanes(planes, ids) && t < |planes|
    ensures InPlanes(planes, ids + [t])
    ensures Gather(planes, ids + [t]) == Gather(planes, ids) + [planes[t]]
  {
    assert (ids + [t])[..|ids|] == ids;
  }

  /** planes.sort((a, b) => a.p - b.p): a stable sort by position. */
  function SortByP(s: seq<SahPlane>): (r: seq<SahPlane>)
    ensures |r| == |s|
    ensures SortedByP(r) && multiset(r) == multiset(s)
  {
    if |s| == 0 then []
    else
      assert s == [s[0]] + s[1..];
      Insert(s[0], SortByP(s[1..]))
  }

  /** 2 * (a * b + a * c + b * c): the surface area of a box with these three extents. */
  function SurfaceArea(a: Num, b: Num, c: Num): Num
  {
    Mul(Fin(2.0), Add(Add(Mul(a, b), Mul(a, c)), Mul(b, c)))
  }

  /** getCost: TRAVERSAL_COST + INTERSECTION_COST * ((sal / sa) * nl + (sar / sa) * nr). */
  function GetCost(sa: Num, sal: Num, nl: int, sar: Num, nr: int): Num
  {
    Add(Fin(TRAVERSAL_COST), Mul(Fin(INTERSECTION_COST), Add(Mul(Div(sal, sa), Fin(nl as real)), Mul(Div(sar, sa), Fin(nr as real)))))
  }

  /** With a positive surface area and non-negative sides, a split never costs less than the traversal cost. */
  lemma GetCostAtLeastTraversal(sa: real, sal: real, nl: nat, sar: real, nr: nat)
    requires sa > 0.0 && sal >= 0.0 && sar >= 0.0
    ensures GetCost(Fin(sa), Fin(sal), nl, Fin(sar), nr).Fin?
    ensures GetCost(Fin(sa), Fin(sal), nl, Fin(sar), nr).v >= TRAVERSAL_COST
  {
    assert sal / sa >= 0.0 && sar / sa >= 0.0;
    assert (sal / sa) * (nl as real) >= 0.0;
    assert (sar / sa) * (nr as real) >= 0.0;
  }

  /** The axis after i, cyclically: (i + 1) % 3. */
  function NextAxis(i: nat): (j: nat)
    requires i < 3
    ensures j < 3 && j == (i + 1) % 3
  {
    if i == 2 then 0 else i + 1
  }

  /**
   * The cost of splitting the box on axis i at `key` with nl triangles on the
   * left and nr on the right. Each side's area uses the plane's distance to the
   * box on axis i and the box's full extent on the other two axes.
   */
  function PlaneCost(box: seq<Num>, i: nat, key: real, nl: int, nr: int): Num
    requires |box| == 6 && i < 3
  {
    var sa := SurfaceArea(Extent(box, 0), Extent(box, 1), Extent(box, 2));
    var e1 := Extent(box, NextAxis(i));
    var e2 := Extent(box, NextAxis(NextAxis(i)));
    var sal := SurfaceArea(e1, e2, Sub(Fin(key), box[i]));
    var sar := SurfaceArea(e1, e2, Sub(box[i + 3], Fin(key)));
    GetCost(sa, sal, nl, sar, nr)
  }

  /** Three candidate lists, one per axis, each with one entry per triangle of the range. */
  predicate ListsFor(lists: seq<seq<SahPlane>>, count: nat)
  {
    |lists| == 3 && |lists[0]| == count && |lists[1]| == count && |lists[2]| == count
  }

  /** A cost per candidate of each axis. */
  predicate CostsFor(costs: seq<seq<Num>>, count: nat)
  {
    |costs| == 3 && |costs[0]| == count && |costs[1]| == count && |costs[2]| == count
  }

  /** The cost of the k-th sorted candidate of axis i: k + 1 triangles on its left, the rest on its right. */
  function CostOf(box: seq<Num>, planes: seq<SahPlane>, i: nat, count: nat, k: nat): Num
    requires |box| == 6 && i < 3 && k < |planes|
  {
    PlaneCost(box, i, planes[k].p, k + 1, count - (k + 1))
  }

  /** The costs of the candidates of one axis. */
  function CostRow(box: seq<Num>, planes: seq<SahPlane>, i: nat, count: nat): (row: seq<Num>)
    requires |box| == 6 && i < 3 && count <= |planes|
    ensures |row| == count
  {
    seq(count, k requires 0 <= k < count => CostOf(box, planes, i, count, k))
  }

  /** The cost of every candidate of the three lists. */
  function CostTable(box: seq<Num>, lists: seq<seq<SahPlane>>, count: nat): (costs: seq<seq<Num>>)
    requires |box| == 6 && ListsFor(lists, count)
    ensures CostsFor(costs, count)
  {
    seq(3, a requires 0 <= a < 3 => CostRow(box, lists[a], a, count))
  }

  /** Candidate (a, k) comes before position (i, p) of the scan. */
  predicate Before(a: nat, k: nat, i: nat, p: nat)
  {
    a < i || (a == i && k < p)
  }

  /** One step of the scan: take candidate (i, k) when its cost is strictly below the best so far. */
  function Step(s: SahBest, costs: seq<seq<Num>>, lists: seq<seq<SahPlane>>, count: nat, i: nat, k: nat): SahBest
    requires CostsFor(costs, count) && ListsFor(lists, count) && i < 3 && k < count
  {
    if Lt(costs[i][k], s.cost) then SahBest(i, Fin(lists[i][k].p), costs[i][k]) else s
  }

  /** The scan's state after every candidate before (i, p): axes in order 0, 1, 2, candidates in sorted order. */
  function Scan(costs: seq<seq<Num>>, lists: seq<seq<SahPlane>>, count: nat, i: nat, p: nat): SahBest
    requires CostsFor(costs, count) && ListsFor(lists, count)
    requires i <= 3 && p <= count && (i == 3 ==> p == 0)
    decreases i, p
  {
    if p == 0 then
      if i == 0 then SahBest(-1, Fin(0.0), Fin(INTERSECTION_COST * count as real))
      else Scan(costs, lists, count, i - 1, count)
    else Step(Scan(costs, lists, count, i, p - 1), costs, lists, count, i, p - 1)
  }

  /** The outcome of the whole scan over the box's candidate costs. */
  function SahSplit(box: seq<Num>, lists: seq<seq<SahPlane>>, count: nat): SahBest
    requires |box| == 6 && ListsFor(lists, count)
  {
    Scan(CostTable(box, lists, count), lists, count, 3, 0)
  }

  /**
   * Either nothing beat the no-split cost (axis -1, position 0, cost count), or
   * the chosen cost is strictly below count and is the cost of a candidate of
   * the chosen axis, whose position is the one chosen.
   */
  lemma {:induction false} ScanOutcome(costs: seq<seq<Num>>, lists: seq<seq<SahPlane>>, count: nat, i: nat, p: nat)
    requires CostsFor(costs, count) && ListsFor(lists, count)
    requires i <= 3 && p <= count && (i == 3 ==> p == 0)
    ensures var s := Scan(costs, lists, count, i, p);
            || (s.axis == -1 && s.pos == Fin(0.0) && s.cost == Fin(count as real))
            || (&& 0 <= s.axis < 3 && Lt(s.cost, Fin(count as real))
                && exists k :: 0 <= k < count && s.pos == Fin(lists[s.axis][k].p) && s.cost == costs[s.axis][k])
    decreases i, p
  {
    if p == 0 {
      if i > 0 {
        ScanOutcome(costs, lists, count, i - 1, count);
      }
    } else {
      ScanOutcome(costs, lists, count, i, p - 1);
      var prev := Scan(costs, lists, count, i, p - 1);
      if Lt(costs[i][p - 1], prev.cost) && prev.axis != -1 {
        LtTrans(costs[i][p - 1], prev.cost, Fin(count as real));
      }
    }
  }

  /** No candidate scanned so far costs less than the state's cost, and the state never costs more than not splitting. */
  lemma {:induction false} ScanIsMinimal(costs: seq<seq<Num>>, lists: seq<seq<SahPlane>>, count: nat, i: nat, p: nat)
    requires CostsFor(costs, count) && ListsFor(lists, count)
    requires i <= 3 && p <= count && (i == 3 ==> p == 0)
    ensures !Lt(Fin(count as real), Scan(costs, lists, count, i, p).cost)
    ensures forall a, k :: 0 <= a < 3 && 0 <= k < count && Before(a, k, i, p) ==>
              !Lt(costs[a][k], Scan(costs, lists, count, i, p).cost)
    decreases i, p
  {
    if p == 0 {
      if i > 0 {
        ScanIsMinimal(costs, lists, count, i - 1, count);
      }
    } else {
      ScanIsMinimal(costs, lists, count, i, p - 1);
      var prev := Scan(costs, lists, count, i, p - 1);
      var c := costs[i][p - 1];
      if Lt(c, prev.cost) {
        NotLtThrough(c, prev.cost, Fin(count as real));
        forall a, k | 0 <= a < 3 && 0 <= k < count && Before(a, k, i, p)
          ensures !Lt(costs[a][k], c)
        {
          if Before(a, k, i, p - 1) {
            NotLtThrough(c, prev.cost, costs[a][k]);
          }
        }
      }
    }
  }

  /**
   * r is a best split for the cost table: either "no split" (axis -1, pos 0,
   * cost count) or a candidate strictly cheaper than not splitting, and no
   * candidate of any axis is strictly cheaper than r.
   */
  predicate BestSplit(r: SahBest, costs: seq<seq<Num>>, lists: seq<seq<SahPlane>>, count: nat)
    requires CostsFor(costs, count) && ListsFor(lists, count)
  {
    && (|| (r.axis == -1 && r.pos == Fin(0.0) && r.cost == Fin(count as real))
        || (&& 0 <= r.axis < 3 && Lt(r.cost, Fin(count as real))
            && exists k :: 0 <= k < count && r.pos == Fin(lists[r.axis][k].p) && r.cost == TableEntry(costs, r.axis, k)))
    && !Lt(Fin(count as real), r.cost)
    && forall a, k :: 0 <= a < 3 && 0 <= k < count ==> !Lt(TableEntry(costs, a, k), r.cost)
  }

  /** The whole scan keeps a best split of the box's cost table (the costs of CostTableAt). */
  lemma SahSplitIsBest(box: seq<Num>, lists: seq<seq<SahPlane>>, count: nat)
    requires |box| == 6 && ListsFor(lists, count)
    ensures BestSplit(SahSplit(box, lists, count), CostTable(box, lists, count), lists, count)
  {
    var costs := CostTable(box, lists, count);
    ScanOutcome(costs, lists, count, 3, 0);
    ScanIsMinimal(costs, lists, count, 3, 0);
  }

  /** The position the scan chooses, when it splits, is the position of one of the chosen axis's candidates. */
  lemma SahSplitPosition(box: seq<Num>, lists: seq<seq<SahPlane>>, count: nat)
    requires |box| == 6 && ListsFor(lists, count)
    ensures var r := SahSplit(box, lists, count);
            r.axis == -1 || (0 <= r.axis < 3 && exists k :: 0 <= k < count && r.pos == Fin(lists[r.axis][k].p))
  {
    ScanOutcome(CostTable(box, lists, count), lists, count, 3, 0);
  }

  /** The table's entry for candidate k of axis a is that candidate's cost. */
  lemma CostTableAt(box: seq<Num>, lists: seq<seq<SahPlane>>, count: nat, a: nat, k: nat)
    requires |box| == 6 && ListsFor(lists, count) && a < 3 && k < count
    ensures CostTable(box, lists, count)[a][k] == CostOf(box, lists[a], a, count, k)
  {
    assert CostTable(box, lists, count)[a] == CostRow(box, lists[a], a, count);
  }

  /** Entry (a, k) of a cost table. */
  function TableEntry(costs: seq<seq<Num>>, a: nat, k: nat): Num
    requires a < |costs| && k < |costs[a]|
  {
    costs[a][k]
  }

  /** costs holds, for every axis a and sorted position k, the cost of that candidate. */
  predicate IsCostTable(costs: seq<seq<Num>>, box: seq<Num>, lists: seq<seq<SahPlane>>, count: nat)
  {
    && |box| == 6 && ListsFor(lists, count) && CostsFor(costs, count)
    && forall a, k {:trigger TableEntry(costs, a, k)} :: 0 <= a < 3 && 0 <= k < count ==>
         TableEntry(costs, a, k) == CostOf(box, lists[a], a, count, k)
  }

  /** CostTable is a cost table for its box and lists. */
  lemma CostTableIsCostTable(box: seq<Num>, lists: seq<seq<SahPlane>>, count: nat)
    requires |box| == 6 && ListsFor(lists, count)
    ensures IsCostTable(CostTable(box, lists, count), box, lists, count)
  {
    var costs := CostTable(box, lists, count);
    forall a, k | 0 <= a < 3 && 0 <= k < count
      ensures TableEntry(costs, a, k) == CostOf(box, lists[a], a, count, k)
    {
      CostTableAt(box, lists, count, a, k);
    }
  }

  /** The three candidate lists getOptimalSplit scans: each axis's candidates for the range, sorted. */
  function SahLists(planes: seq<seq<SahPlane>>, ids: seq<nat>): (lists: seq<seq<SahPlane>>)
    requires |planes| == 3 && InPlanes(planes[0], ids) && InPlanes(planes[1], ids) && InPlanes(planes[2], ids)
    ensures ListsFor(lists, |ids|)
    ensures lists[0] == SortByP(Gather(planes[0], ids))
    ensures lists[1] == SortByP(Gather(planes[1], ids))
    ensures lists[2] == SortByP(Gather(planes[2], ids))
  {
    var l0 := SortByP(Gather(planes[0], ids));
    var l1 := SortByP(Gather(planes[1], ids));
    var l2 := SortByP(Gather(planes[2], ids));
    [l0, l1, l2]
  }

  /** Sorting lists gathered from the planes for the range gives SahLists. */
  lemma SortedGathered(planes: seq<seq<SahPlane>>, ids: seq<nat>, f: seq<seq<SahPlane>>)
    requires |planes| == 3 && InPlanes(planes[0], ids) && InPlanes(planes[1], ids) && InPlanes(planes[2], ids)
    requires |f| == 3 && f[0] == Gather(planes[0], ids) && f[1] == Gather(planes[1], ids) && f[2] == Gather(planes[2], ids)
    ensures [SortByP(f[0]), SortByP(f[1]), SortByP(f[2])] == SahLists(planes, ids)
  {
  }

  /** When the plane lists are the centroid candidates, every sorted candidate's position is the centroid of a triangle of the range. */
  lemma SortedCandidateIsCentroid(centroids: seq<real>, n: nat, ids: seq<nat>, axis: nat, k: nat)
    requires |centroids| == 3 * n && axis < 3
    requires forall j :: 0 <= j < |ids| ==> ids[j] < n
    requires k < |SortByP(Gather(AxisPlanes(centroids, n, axis), ids))|
    ensures exists j :: 0 <= j < |ids| && SortByP(Gather(AxisPlanes(centroids, n, axis), ids))[k].p == KeyAt(centroids, ids[j], axis)
  {
    var planes := AxisPlanes(centroids, n, axis);
    var gathered := Gather(planes, ids);
    var sorted := SortByP(gathered);
    assert sorted[k] in multiset(sorted);
    assert sorted[k] in multiset(gathered);
    var j :| 0 <= j < |gathered| && gathered[j] == sorted[k];
    assert gathered[j] == planes[ids[j]];
  }

  /** The scan with its loops: axes in order, candidates in sorted order. */
  method SahScan(box: seq<Num>, lists: seq<seq<SahPlane>>, count: nat) returns (axis: int, pos: Num)
    requires |box| == 6 && ListsFor(lists, count)
    ensures SahSplit(box, lists, count).axis == axis && SahSplit(box, lists, count).pos == pos
  {
    var dim := [Extent(box, 0), Extent(box, 1), Extent(box, 2)];
    var sa := SurfaceArea(dim[0], dim[1], dim[2]);
    ghost var costs := CostTable(box, lists, count);
    CostTableIsCostTable(box, lists, count);
    var noSplitCost := Fin(INTERSECTION_COST * count as real);
    axis := -1;
    pos := Fin(0.0);
    var bestCost := noSplitCost;
    for i := 0 to 3
      invariant SahBest(axis, pos, bestCost) == Scan(costs, lists, count, i, 0)
    {
      axis, pos, bestCost := ScanAxis(box, dim, sa, lists, count, costs, i, axis, pos, bestCost);
    }
  }

  /** One pass of the outer loop: the candidates of axis i, with nl and nr updated incrementally. */
  method ScanAxis(box: seq<Num>, dim: seq<Num>, sa: Num, lists: seq<seq<SahPlane>>, count: nat,
                  ghost costs: seq<seq<Num>>, i: nat, axis0: int, pos0: Num, bestCost0: Num)
    returns (axis: int, pos: Num, bestCost: Num)
    requires |box| == 6 && ListsFor(lists, count) && i < 3
    requires dim == [Extent(box, 0), Extent(box, 1), Extent(box, 2)]
    requires sa == SurfaceArea(dim[0], dim[1], dim[2])
    requires IsCostTable(costs, box, lists, count)
    requires SahBest(axis0, pos0, bestCost0) == Scan(costs, lists, count, i, 0)
    ensures SahBest(axis, pos, bestCost) == Scan(costs, lists, count, i + 1, 0)
  {
    axis, pos, bestCost := axis0, pos0, bestCost0;
    var planes := lists[i];
    var nl := 0;
    var nr := count;
    for p := 0 to |planes|
      invariant nl == p && nr == count - p
      invariant SahBest(axis, pos, bestCost) == Scan(costs, lists, count, i, p)
    {
      var pinfo := planes[p];
      nl := nl + 1;
      nr := nr - 1;
      var cost := CandidateCostAt(box, dim, sa, lists, costs, i, p, nl, nr, count);
      if Lt(cost, bestCost) {
        axis := i;
        pos := Fin(pinfo.p);
        bestCost := cost;
      }
    }
  }

  /** The body of the scan's inner loop: the cost of candidate p on axis i, from the box's precomputed extents and area. */
  method CandidateCost(box: seq<Num>, dim: seq<Num>, sa: Num, planes: seq<SahPlane>, i: nat, p: nat, nl: int, nr: int, count: nat)
    returns (cost: Num)
    requires |box| == 6 && i < 3 && p < |planes|
    requires dim == [Extent(box, 0), Extent(box, 1), Extent(box, 2)]
    requires sa == SurfaceArea(dim[0], dim[1], dim[2])
    requires nl == p + 1 && nr == count - (p + 1)
    ensures cost == CostOf(box, planes, i, count, p)
  {
    var o1 := (i + 1) % 3;
    var o2 := (i + 2) % 3;
    OtherAxes(i);
    var bmin := box[i];
    var bmax := box[i + 3];
    var pinfo := planes[p];
    var ldim := Sub(Fin(pinfo.p), bmin);
    var rdim := Sub(bmax, Fin(pinfo.p));
    var ldimo1, rdimo1 := dim[o1], dim[o1];
    var ldimo2, rdimo2 := dim[o2], dim[o2];
    assert ldimo1 == Extent(box, o1) && ldimo2 == Extent(box, o2);
    var sal := SurfaceArea(ldimo1, ldimo2, ldim);
    var sar := SurfaceArea(rdimo1, rdimo2, rdim);
    cost := GetCost(sa, sal, nl, sar, nr);
    PlaneCostFrom(box, i, pinfo.p, nl, nr, sa, sal, sar);
  }

  /** o1 = (i + 1) % 3 and o2 = (i + 2) % 3 are the two axes after i. */
  lemma OtherAxes(i: nat)
    requires i < 3
    ensures (i + 1) % 3 == NextAxis(i) && (i + 2) % 3 == NextAxis(NextAxis(i))
  {
    if i == 0 {
    } else if i == 1 {
    } else {
    }
  }

  /** PlaneCost read off from the box's area and the two sides' areas the loop computes. */
  lemma PlaneCostFrom(box: seq<Num>, i: nat, key: real, nl: int, nr: int, sa: Num, sal: Num, sar: Num)
    requires |box| == 6 && i < 3
    requires sa == SurfaceArea(Extent(box, 0), Extent(box, 1), Extent(box, 2))
    requires sal == SurfaceArea(Extent(box, NextAxis(i)), Extent(box, NextAxis(NextAxis(i))), Sub(Fin(key), box[i]))
    requires sar == SurfaceArea(Extent(box, NextAxis(i)), Extent(box, NextAxis(NextAxis(i))), Sub(box[i + 3], Fin(key)))
    ensures PlaneCost(box, i, key, nl, nr) == GetCost(sa, sal, nl, sar, nr)
  {
  }

  /** CandidateCost, read off as an entry of the cost table. */
  method CandidateCostAt(box: seq<Num>, dim: seq<Num>, sa: Num, lists: seq<seq<SahPlane>>,
                         ghost costs: seq<seq<Num>>, i: nat, p: nat, nl: int, nr: int, count: nat)
    returns (cost: Num)
    requires |box| == 6 && ListsFor(lists, count) && i < 3 && p < count
    requires IsCostTable(costs, box, lists, count)
    requires dim == [Extent(box, 0), Extent(box, 1), Extent(box, 2)]
    requires sa == SurfaceArea(dim[0], dim[1], dim[2])
    requires nl == p + 1 && nr == count - (p + 1)
    ensures cost == costs[i][p]
  {
    cost := CandidateCost(box, dim, sa, lists[i], i, p, nl, nr, count);
    assert TableEntry(costs, i, p) == CostOf(box, lists[i], i, count, p);
  }
}
