/**
 * Ray queries over a built tree: MeshBVHNode.raycast and raycastFirst with
 * intersectTri, intersectTris and intersectClosestTri.  The floating-point
 * geometry of three.js is not modelled: for the one ray of a query,
 * `hitTri` stands for checkBufferGeometryIntersection on three vertex ids
 * (near/far filter included) and `hitBox` for MeshBVHNode.intersectRay on a
 * node box.  The index buffer is the reordered one the build produced, which
 * computeBoundsTree installs as the geometry's index.
 */
module Traversal {
  import opened Wrappers
  import opened Numbers
  import opened Tree

  datatype Vector3 = Vector3(x: real, y: real, z: real)

  /** v[xyzFields[axis]]: a coordinate, or undefined (NaN in arithmetic) off the three axes. */
  function Field(v: Vector3, axis: int): Num
  {
    if axis == 0 then Fin(v.x) else if axis == 1 then Fin(v.y) else if axis == 2 then Fin(v.z) else NaN
  }

  /** boundingData[k] of a Float32Array: undefined (NaN in arithmetic) out of range. */
  function Slot(box: seq<Num>, k: int): Num
  {
    if 0 <= k < |box| then box[k] else NaN
  }

  /** The ray in the mesh's local frame. */
  datatype Ray = Ray(origin: Vector3, direction: Vector3)

  /** An intersection record: its distance, its point, and the triangle slot faceIndex. */
  datatype Intersection = Intersection(distance: real, point: Vector3, faceIndex: nat)

  /**
   * The triangle test: the vertex-id triples the ray hits, with their
   * intersection; the faceIndex it reports is overwritten by intersectTri.
   */
  type TriTest = imap<(nat, nat, nat), Intersection>

  /** The box test: the node boxes the ray hits. */
  type BoxTest = iset<seq<Num>>

  /** The caller's `intersects` array, which raycast pushes onto. */
  class HitList {
    var items: seq<Intersection>

    constructor ()
      ensures items == []
    {
      items := [];
    }

    method Push(h: Intersection)
      modifies this
      ensures items == old(items) + [h]
    {
      items := items + [h];
    }
  }

  /** intersectTri: the triangle test on the triple of slot `tri`, tagged with faceIndex = tri. */
  function IntersectTri(index: seq<nat>, hitTri: TriTest, tri: nat): (r: Option<Intersection>)
    requires 3 * tri + 3 <= |index|
    ensures r.Some? <==> (index[3 * tri], index[3 * tri + 1], index[3 * tri + 2]) in hitTri
    ensures r.Some? ==> r.value.faceIndex == tri
  {
    var abc := (index[3 * tri], index[3 * tri + 1], index[3 * tri + 2]);
    if abc in hitTri then Some(hitTri[abc].(faceIndex := tri)) else None
  }

  /** The intersections of slots offset .. offset + count - 1, in slot order. */
  function TrisHits(index: seq<nat>, hitTri: TriTest, offset: nat, count: nat): seq<Intersection>
    requires 3 * (offset + count) <= |index|
    decreases count
  {
    if count == 0 then [] else TrisHits(index, hitTri, offset, count - 1) + SlotHits(index, hitTri, offset + count - 1)
  }

  /** The intersection of one slot as a list: one element when the slot is hit, none otherwise. */
  function SlotHits(index: seq<nat>, hitTri: TriTest, tri: nat): seq<Intersection>
    requires 3 * tri + 3 <= |index|
  {
    var h := IntersectTri(index, hitTri, tri);
    if h.Some? then [h.value] else []
  }

  /** faceIndex strictly increases along the list. */
  predicate Ascending(hits: seq<Intersection>)
  {
    forall j, k :: 0 <= j < k < |hits| ==> hits[j].faceIndex < hits[k].faceIndex
  }

  /** The range's list holds exactly the intersections of its slots, each once and in slot order. */
  lemma {:induction false} TrisHitsExactly(index: seq<nat>, hitTri: TriTest, offset: nat, count: nat)
    requires 3 * (offset + count) <= |index|
    ensures forall h :: h in TrisHits(index, hitTri, offset, count) <==>
              offset <= h.faceIndex < offset + count && IntersectTri(index, hitTri, h.faceIndex) == Some(h)
    ensures Ascending(TrisHits(index, hitTri, offset, count))
    decreases count
  {
    if count > 0 {
      TrisHitsExactly(index, hitTri, offset, count - 1);
      var prev := TrisHits(index, hitTri, offset, count - 1);
      var tail := SlotHits(index, hitTri, offset + count - 1);
      forall x: Intersection
        ensures x in prev + tail <==> offset <= x.faceIndex < offset + count && IntersectTri(index, hitTri, x.faceIndex) == Some(x)
      {
        if x.faceIndex == offset + count - 1 {
          assert x !in prev;
        }
      }
      forall j, k | 0 <= j < k < |prev + tail| ensures (prev + tail)[j].faceIndex < (prev + tail)[k].faceIndex {
        if k >= |prev| {
          assert (prev + tail)[j] in prev;
        }
      }
    }
  }

  /** intersectTris: every intersection of the range is pushed, in slot order. */
  method IntersectTris(index: seq<nat>, hitTri: TriTest, offset: nat, count: nat, intersects: HitList)
    requires 3 * (offset + count) <= |index|
    modifies intersects
    ensures intersects.items == old(intersects.items) + TrisHits(index, hitTri, offset, count)
  {
    for k := 0 to count
      invariant intersects.items == old(intersects.items) + TrisHits(index, hitTri, offset, k)
    {
      PushHit(index, hitTri, offset, k, intersects, old(intersects.items));
    }
  }

  /** One iteration of intersectTris, on slot offset + k: intersectTri pushes a hit onto the list. */
  method PushHit(index: seq<nat>, hitTri: TriTest, offset: nat, k: nat, intersects: HitList, ghost base: seq<Intersection>)
    requires 3 * (offset + k + 1) <= |index|
    requires intersects.items == base + TrisHits(index, hitTri, offset, k)
    modifies intersects
    ensures intersects.items == base + TrisHits(index, hitTri, offset, k + 1)
  {
    var intersection := IntersectTri(index, hitTri, offset + k);
    assert TrisHits(index, hitTri, offset, k + 1) == TrisHits(index, hitTri, offset, k) + SlotHits(index, hitTri, offset + k);
    if intersection.Some? {
      intersects.Push(intersection.value);
    }
  }

  /** The scan of intersectClosestTri over a list: a later hit replaces the kept one only when strictly closer. */
  function Closest(hits: seq<Intersection>): Option<Intersection>
  {
    if |hits| == 0 then None else Keep(Closest(hits[..|hits| - 1]), Some(hits[|hits| - 1]))
  }

  /** One step of the scan: the candidate h replaces the kept intersection when there is none kept or h is strictly closer. */
  function Keep(kept: Option<Intersection>, h: Option<Intersection>): Option<Intersection>
  {
    if h.Some? && (kept.None? || h.value.distance < kept.value.distance) then h else kept
  }

  /**
   * The scan keeps the earliest hit of least distance, and nothing only when
   * there is no hit; k is the position of the kept hit.
   */
  lemma {:induction false} ClosestIsEarliestMinimum(hits: seq<Intersection>) returns (k: nat)
    ensures Closest(hits).None? <==> |hits| == 0
    ensures Closest(hits).Some? ==>
              && k < |hits| && hits[k] == Closest(hits).value
              && (forall j :: 0 <= j < |hits| ==> hits[k].distance <= hits[j].distance)
              && (forall j :: 0 <= j < k ==> hits[k].distance < hits[j].distance)
  {
    k := 0;
    if |hits| > 0 {
      var init := hits[..|hits| - 1];
      var k0 := ClosestIsEarliestMinimum(init);
      var last := |hits| - 1;
      assert forall j :: 0 <= j < last ==> hits[j] == init[j];
      if Closest(init).None? || hits[last].distance < Closest(init).value.distance {
        k := last;
      } else {
        k := k0;
      }
    }
  }

  /** The kept hit is an element of the list and no farther than any of them. */
  lemma ClosestIsMember(hits: seq<Intersection>)
    ensures Closest(hits).Some? ==> Closest(hits).value in hits
    ensures Closest(hits).Some? ==> forall h :: h in hits ==> Closest(hits).value.distance <= h.distance
  {
    var k := ClosestIsEarliestMinimum(hits);
  }

  /** One more slot for the scan: its intersection is kept when there is none kept yet or it is strictly closer. */
  lemma ClosestStep(index: seq<nat>, hitTri: TriTest, offset: nat, k: nat)
    requires 3 * (offset + k + 1) <= |index|
    ensures Closest(TrisHits(index, hitTri, offset, k + 1))
            == Keep(Closest(TrisHits(index, hitTri, offset, k)), IntersectTri(index, hitTri, offset + k))
  {
    var prev := TrisHits(index, hitTri, offset, k);
    var next := TrisHits(index, hitTri, offset, k + 1);
    var h := IntersectTri(index, hitTri, offset + k);
    assert next == prev + SlotHits(index, hitTri, offset + k);
    if h.Some? {
      assert next[..|next| - 1] == prev && next[|next| - 1] == h.value;
    } else {
      assert next == prev;
    }
  }

  /** The scan over a range finds nothing only when no slot is hit, else the earliest hit slot of least distance. */
  lemma ClosestOfRange(index: seq<nat>, hitTri: TriTest, offset: nat, count: nat)
    requires 3 * (offset + count) <= |index|
    ensures var res := Closest(TrisHits(index, hitTri, offset, count));
            && (res.None? <==> forall i :: offset <= i < offset + count ==> IntersectTri(index, hitTri, i).None?)
            && (res.Some? ==> offset <= res.value.faceIndex < offset + count
                              && IntersectTri(index, hitTri, res.value.faceIndex) == res)
            && (res.Some? ==> forall i :: offset <= i < offset + count && IntersectTri(index, hitTri, i).Some? ==>
                                res.value.distance <= IntersectTri(index, hitTri, i).value.distance)
  {
    var hits := TrisHits(index, hitTri, offset, count);
    TrisHitsExactly(index, hitTri, offset, count);
    ClosestIsMember(hits);
    forall i | offset <= i < offset + count && IntersectTri(index, hitTri, i).Some?
      ensures IntersectTri(index, hitTri, i).value in hits
    {
    }
  }

  /**
   * intersectClosestTri, with dist starting at Infinity: the scan over the
   * range's intersections, which ClosestOfRange characterises.
   */
  method IntersectClosestTri(index: seq<nat>, hitTri: TriTest, offset: nat, count: nat) returns (res: Option<Intersection>)
    requires 3 * (offset + count) <= |index|
    ensures res == Closest(TrisHits(index, hitTri, offset, count))
  {
    var dist := PosInf;
    res := None;
    for k := 0 to count
      invariant res == ClosestSlot(index, hitTri, offset, k)
      invariant dist == Distance(res)
    {
      res, dist := ScanSlot(index, hitTri, offset, k, res, dist);
    }
    ClosestSlotIsClosest(index, hitTri, offset, count);
  }

  /** The scan of intersectClosestTri slot by slot: slot offset + k - 1 replaces the kept intersection when strictly closer. */
  function ClosestSlot(index: seq<nat>, hitTri: TriTest, offset: nat, k: nat): Option<Intersection>
    requires 3 * (offset + k) <= |index|
  {
    if k == 0 then None else Keep(ClosestSlot(index, hitTri, offset, k - 1), IntersectTri(index, hitTri, offset + k - 1))
  }

  /** Scanning the slots keeps what scanning the list of their intersections keeps. */
  lemma {:induction false} ClosestSlotIsClosest(index: seq<nat>, hitTri: TriTest, offset: nat, k: nat)
    requires 3 * (offset + k) <= |index|
    ensures ClosestSlot(index, hitTri, offset, k) == Closest(TrisHits(index, hitTri, offset, k))
  {
    if k > 0 {
      ClosestSlotIsClosest(index, hitTri, offset, k - 1);
      ClosestStep(index, hitTri, offset, k - 1);
    }
  }

  /** The distance kept by intersectClosestTri: Infinity while there is no intersection. */
  function Distance(res: Option<Intersection>): Num
  {
    if res.None? then PosInf else Fin(res.value.distance)
  }

  /** `distance < dist` holds exactly when nothing is kept yet or the distance is below the kept one. */
  lemma CloserThanKept(d: real, res: Option<Intersection>)
    ensures Lt(Fin(d), Distance(res)) <==> res.None? || d < res.value.distance
  {
  }

  /** One iteration of intersectClosestTri, on slot offset + k: it replaces the kept intersection when strictly closer. */
  method ScanSlot(index: seq<nat>, hitTri: TriTest, offset: nat, k: nat, res: Option<Intersection>, dist: Num)
    returns (res': Option<Intersection>, dist': Num)
    requires 3 * (offset + k + 1) <= |index|
    requires res == ClosestSlot(index, hitTri, offset, k) && dist == Distance(res)
    ensures res' == ClosestSlot(index, hitTri, offset, k + 1) && dist' == Distance(res')
  {
    var intersection := IntersectTri(index, hitTri, offset + k);
    if intersection.Some? && Lt(Fin(intersection.value.distance), dist) {
      CloserThanKept(intersection.value.distance, res);
      res' := intersection;
      dist' := Fin(intersection.value.distance);
    } else {
      if intersection.Some? {
        CloserThanKept(intersection.value.distance, res);
      }
      res' := res;
      dist' := dist;
    }
  }

  /** Every leaf's range has its triples in the index buffer. */
  predicate InIndex(node: Node, index: seq<nat>)
  {
    match node
    case Leaf(_, o, c) => 3 * (o + c) <= |index|
    case Internal(_, _, l, r) => InIndex(l, index) && InIndex(r, index)
  }

  /** A tree that owns lo .. hi - 1 with three index slots per triangle fits the buffer. */
  lemma {:induction false} TiledInIndex(node: Node, lo: nat, hi: nat, index: seq<nat>)
    requires Tiles(node, lo, hi) && 3 * hi <= |index|
    ensures InIndex(node, index)
  {
    match node
    case Leaf(_, _, _) =>
    case Internal(_, _, l, r) =>
      TilesBounds(r, Hi(l), hi);
      TiledInIndex(l, lo, Hi(l), index);
      TiledInIndex(r, Hi(l), hi, index);
  }

  /**
   * What raycast appends for a node: the intersections of a leaf's range,
   * or those under each child whose box the ray hits, left before right.
   * The leaf test is node.Leaf?, so a leaf of no triangles yields nothing.
   */
  function RaycastHits(node: Node, index: seq<nat>, hitTri: TriTest, hitBox: BoxTest): seq<Intersection>
    requires InIndex(node, index)
  {
    match node
    case Leaf(_, o, c) => TrisHits(index, hitTri, o, c)
    case Internal(_, _, l, r) =>
      (if l.boundingData in hitBox then RaycastHits(l, index, hitTri, hitBox) else [])
      + (if r.boundingData in hitBox then RaycastHits(r, index, hitTri, hitBox) else [])
  }

  /** The slot lies in a leaf reached from the node by descending only into children whose box is hit. */
  predicate Reaches(node: Node, hitBox: BoxTest, slot: nat)
  {
    match node
    case Leaf(_, o, c) => o <= slot < o + c
    case Internal(_, _, l, r) =>
      (l.boundingData in hitBox && Reaches(l, hitBox, slot)) || (r.boundingData in hitBox && Reaches(r, hitBox, slot))
  }

  lemma {:induction false} ReachesWithin(node: Node, lo: nat, hi: nat, hitBox: BoxTest, slot: nat)
    requires Tiles(node, lo, hi) && Reaches(node, hitBox, slot)
    ensures lo <= slot < hi
  {
    match node
    case Leaf(_, _, _) =>
    case Internal(_, _, l, r) =>
      if l.boundingData in hitBox && Reaches(l, hitBox, slot) {
        ReachesWithin(l, lo, Hi(l), hitBox, slot);
      } else {
        ReachesWithin(r, Hi(l), hi, hitBox, slot);
      }
  }

  /**
   * raycast appends exactly the intersections of the triangles in leaves
   * reached through hit boxes, each once, in slot order.
   */
  lemma {:induction false} RaycastHitsExactly(node: Node, lo: nat, hi: nat, index: seq<nat>, hitTri: TriTest, hitBox: BoxTest)
    requires Tiles(node, lo, hi) && 3 * hi <= |index|
    ensures InIndex(node, index)
    ensures forall h :: h in RaycastHits(node, index, hitTri, hitBox) <==>
              lo <= h.faceIndex < hi && Reaches(node, hitBox, h.faceIndex) && IntersectTri(index, hitTri, h.faceIndex) == Some(h)
    ensures Ascending(RaycastHits(node, index, hitTri, hitBox))
  {
    TiledInIndex(node, lo, hi, index);
    match node
    case Leaf(_, o, c) =>
      TrisHitsExactly(index, hitTri, o, c);
    case Internal(_, _, l, r) =>
      var m := Hi(l);
      TilesBounds(r, m, hi);
      RaycastHitsExactly(l, lo, m, index, hitTri, hitBox);
      RaycastHitsExactly(r, m, hi, index, hitTri, hitBox);
      var a: seq<Intersection> := if l.boundingData in hitBox then RaycastHits(l, index, hitTri, hitBox) else [];
      var b: seq<Intersection> := if r.boundingData in hitBox then RaycastHits(r, index, hitTri, hitBox) else [];
      forall h: Intersection
        ensures h in a + b <==>
                lo <= h.faceIndex < hi && Reaches(node, hitBox, h.faceIndex) && IntersectTri(index, hitTri, h.faceIndex) == Some(h)
      {
        if Reaches(l, hitBox, h.faceIndex) {
          ReachesWithin(l, lo, m, hitBox, h.faceIndex);
        }
        if Reaches(r, hitBox, h.faceIndex) {
          ReachesWithin(r, m, hi, hitBox, h.faceIndex);
        }
      }
      AscendingJoin(a, b, m);
  }

  /** An ascending list below m followed by an ascending list from m on is ascending. */
  lemma AscendingJoin(a: seq<Intersection>, b: seq<Intersection>, m: nat)
    requires Ascending(a) && Ascending(b)
    requires forall h :: h in a ==> h.faceIndex < m
    requires forall h :: h in b ==> m <= h.faceIndex
    ensures Ascending(a + b)
  {
    forall j, k | 0 <= j < k < |a + b| ensures (a + b)[j].faceIndex < (a + b)[k].faceIndex {
      if j < |a| && k >= |a| {
        assert (a + b)[j] in a && (a + b)[k] in b;
      }
    }
  }

  /** MeshBVHNode.raycast: a leaf pushes its range's intersections, an internal node descends into the children whose box is hit. */
  method Raycast(node: Node, index: seq<nat>, hitTri: TriTest, hitBox: BoxTest, intersects: HitList)
    requires InIndex(node, index)
    modifies intersects
    decreases node, 0
    ensures intersects.items == old(intersects.items) + RaycastHits(node, index, hitTri, hitBox)
  {
    match node
    case Leaf(_, o, c) =>
      IntersectTris(index, hitTri, o, c, intersects);
    case Internal(_, _, l, r) =>
      VisitChild(l, index, hitTri, hitBox, intersects);
      ghost var mid := intersects.items;
      VisitChild(r, index, hitTri, hitBox, intersects);
      AppendAssoc(old(intersects.items), mid[|old(intersects.items)|..], intersects.items[|mid|..]);
  }

  /** The first lines of raycast on a child: the child is descended into only when the ray hits its box. */
  method VisitChild(child: Node, index: seq<nat>, hitTri: TriTest, hitBox: BoxTest, intersects: HitList)
    requires InIndex(child, index)
    modifies intersects
    decreases child, 1
    ensures intersects.items == old(intersects.items) + (if child.boundingData in hitBox then RaycastHits(child, index, hitTri, hitBox) else [])
  {
    if child.boundingData in hitBox {
      Raycast(child, index, hitTri, hitBox, intersects);
    }
  }

  lemma AppendAssoc(a: seq<Intersection>, b: seq<Intersection>, c: seq<Intersection>)
    ensures a + b + c == a + (b + c)
  {
  }

  /** leftToRight: the ray's direction along the split axis is not negative. */
  predicate LeftToRight(ray: Ray, axis: int)
  {
    Ge(Field(ray.direction, axis), Fin(0.0))
  }

  /**
   * The pruning exit: the first child has a result and, along the split
   * axis, its point is no farther from the ray origin than either face of
   * the second child's box (squared distances compared).
   */
  predicate Prunes(ray: Ray, axis: int, c1Result: Option<Intersection>, c2Box: seq<Num>)
  {
    c1Result.Some? &&
    var rayOrig := Field(ray.origin, axis);
    var toPoint := Sub(rayOrig, Field(c1Result.value.point, axis));
    var toChild1 := Sub(rayOrig, Slot(c2Box, axis));
    var toChild2 := Sub(rayOrig, Slot(c2Box, axis + 3));
    var toPointSq := Mul(toPoint, toPoint);
    Le(toPointSq, Mul(toChild1, toChild1)) && Le(toPointSq, Mul(toChild2, toChild2))
  }

  /** The final choice of raycastFirst: the first child's result unless the second's is strictly closer. */
  function Pick(c1Result: Option<Intersection>, c2Result: Option<Intersection>): (r: Option<Intersection>)
    ensures r.None? <==> c1Result.None? && c2Result.None?
    ensures r == c1Result || r == c2Result
    ensures c1Result.Some? && c2Result.Some? ==> r.value.distance <= c1Result.value.distance && r.value.distance <= c2Result.value.distance
    ensures c1Result.Some? ==> r == c1Result || (c2Result.Some? && c2Result.value.distance < c1Result.value.distance)
  {
    if c1Result.Some? && c2Result.Some? then
      (if c1Result.value.distance <= c2Result.value.distance then c1Result else c2Result)
    else if c1Result.Some? then c1Result
    else c2Result
  }

  /** The child results in visiting order: the left child first when leftToRight. */
  function Visited(ray: Ray, axis: int, lr: Option<Intersection>, rr: Option<Intersection>): (Option<Intersection>, Option<Intersection>)
  {
    if LeftToRight(ray, axis) then (lr, rr) else (rr, lr)
  }

  /**
   * An internal node of raycastFirst, given its children's results lr and rr
   * (none for a child whose box is missed): the first visited result when it
   * prunes the second child's box, otherwise the pick between them.  It
   * finds nothing only when neither child does, returns one of the two, the
   * nearer of both without the pruning exit, the first visited on a tie, and
   * the first visited whenever the pruning exit is taken.
   */
  function Choose(ray: Ray, axis: int, lBox: seq<Num>, rBox: seq<Num>, lr: Option<Intersection>, rr: Option<Intersection>): (res: Option<Intersection>)
    ensures res.None? <==> lr.None? && rr.None?
    ensures res == lr || res == rr
    ensures !Prunes(ray, axis, Visited(ray, axis, lr, rr).0, if LeftToRight(ray, axis) then rBox else lBox) && lr.Some? && rr.Some? ==>
              res.value.distance <= lr.value.distance && res.value.distance <= rr.value.distance
    ensures lr.Some? && rr.Some? && lr.value.distance == rr.value.distance ==> res == Visited(ray, axis, lr, rr).0
    ensures Prunes(ray, axis, Visited(ray, axis, lr, rr).0, if LeftToRight(ray, axis) then rBox else lBox) ==> res == Visited(ray, axis, lr, rr).0
  {
    var (c1Result, c2Result) := Visited(ray, axis, lr, rr);
    var c2Box := if LeftToRight(ray, axis) then rBox else lBox;
    if Prunes(ray, axis, c1Result, c2Box) then c1Result else Pick(c1Result, c2Result)
  }

  /**
   * MeshBVHNode.raycastFirst.  A leaf gives intersectClosestTri over its
   * range; an internal node queries a child only when its box is hit and
   * chooses between the results.  The second child's result is computed
   * whether or not the pruning exit is taken: the queries have no effects,
   * so this is the value the source computes when it needs it.
   */
  function RaycastFirst(node: Node, ray: Ray, index: seq<nat>, hitTri: TriTest, hitBox: BoxTest): Option<Intersection>
    requires InIndex(node, index)
  {
    match node
    case Leaf(_, o, c) => Closest(TrisHits(index, hitTri, o, c))
    case Internal(_, axis, l, r) =>
      var lr := if l.boundingData in hitBox then RaycastFirst(l, ray, index, hitTri, hitBox) else None;
      var rr := if r.boundingData in hitBox then RaycastFirst(r, ray, index, hitTri, hitBox) else None;
      Choose(ray, axis, l.boundingData, r.boundingData, lr, rr)
  }

  /** raycastFirst finds nothing exactly when raycast finds nothing, and what it finds is one of raycast's hits. */
  lemma {:induction false} RaycastFirstFindsAHit(node: Node, ray: Ray, index: seq<nat>, hitTri: TriTest, hitBox: BoxTest)
    requires InIndex(node, index)
    ensures RaycastFirst(node, ray, index, hitTri, hitBox).None? <==> RaycastHits(node, index, hitTri, hitBox) == []
    ensures RaycastFirst(node, ray, index, hitTri, hitBox).Some? ==>
              RaycastFirst(node, ray, index, hitTri, hitBox).value in RaycastHits(node, index, hitTri, hitBox)
  {
    match node
    case Leaf(_, o, c) =>
      var k := ClosestIsEarliestMinimum(TrisHits(index, hitTri, o, c));
      ClosestIsMember(TrisHits(index, hitTri, o, c));
    case Internal(_, axis, l, r) =>
      RaycastFirstFindsAHit(l, ray, index, hitTri, hitBox);
      RaycastFirstFindsAHit(r, ray, index, hitTri, hitBox);
  }

  /** No internal node takes the pruning exit on this ray. */
  predicate NeverPrunes(node: Node, ray: Ray, index: seq<nat>, hitTri: TriTest, hitBox: BoxTest)
    requires InIndex(node, index)
  {
    match node
    case Leaf(_, _, _) => true
    case Internal(_, axis, l, r) =>
      var lr := if l.boundingData in hitBox then RaycastFirst(l, ray, index, hitTri, hitBox) else None;
      var rr := if r.boundingData in hitBox then RaycastFirst(r, ray, index, hitTri, hitBox) else None;
      && !Prunes(ray, axis, Visited(ray, axis, lr, rr).0, if LeftToRight(ray, axis) then r.boundingData else l.boundingData)
      && NeverPrunes(l, ray, index, hitTri, hitBox) && NeverPrunes(r, ray, index, hitTri, hitBox)
  }

  /** Without the pruning exit, raycastFirst's hit is no farther than any of raycast's hits. */
  lemma {:induction false} RaycastFirstIsClosest(node: Node, ray: Ray, index: seq<nat>, hitTri: TriTest, hitBox: BoxTest)
    requires InIndex(node, index) && NeverPrunes(node, ray, index, hitTri, hitBox)
    ensures RaycastFirst(node, ray, index, hitTri, hitBox).Some? ==>
              forall h :: h in RaycastHits(node, index, hitTri, hitBox) ==>
                RaycastFirst(node, ray, index, hitTri, hitBox).value.distance <= h.distance
  {
    match node
    case Leaf(_, o, c) =>
      ClosestIsMember(TrisHits(index, hitTri, o, c));
    case Internal(_, axis, l, r) =>
      RaycastFirstIsClosest(l, ray, index, hitTri, hitBox);
      RaycastFirstIsClosest(r, ray, index, hitTri, hitBox);
      RaycastFirstFindsAHit(l, ray, index, hitTri, hitBox);
      RaycastFirstFindsAHit(r, ray, index, hitTri, hitBox);
  }

  /**
   * Ties go to the child visited first: when both children's boxes are hit
   * and their results are at the same distance, raycastFirst returns the
   * left child's result when leftToRight and the right child's otherwise.
   */
  lemma TieGoesToFirstVisited(node: Node, ray: Ray, index: seq<nat>, hitTri: TriTest, hitBox: BoxTest)
    requires node.Internal? && InIndex(node, index)
    requires node.left.boundingData in hitBox && node.right.boundingData in hitBox
    requires var lr := RaycastFirst(node.left, ray, index, hitTri, hitBox);
             var rr := RaycastFirst(node.right, ray, index, hitTri, hitBox);
             lr.Some? && rr.Some? && lr.value.distance == rr.value.distance
    ensures RaycastFirst(node, ray, index, hitTri, hitBox)
            == if LeftToRight(ray, node.splitAxis) then RaycastFirst(node.left, ray, index, hitTri, hitBox)
               else RaycastFirst(node.right, ray, index, hitTri, hitBox)
  {
  }

  // ---------------------------------------------------------------------------
  // The leaf test as written: `if (this.count)`.

  /** Reading `left` or `right` of a node that has none, then calling a method on it. */
  datatype TraversalError = UndefinedChild

  /** Every leaf owns at least one triangle. */
  predicate NoEmptyLeaf(node: Node)
  {
    match node
    case Leaf(_, _, c) => c > 0
    case Internal(_, _, l, r) => NoEmptyLeaf(l) && NoEmptyLeaf(r)
  }

  /** Only the root of an empty mesh is an empty leaf. */
  lemma {:induction false} TiledNoEmptyLeaf(node: Node, lo: nat, hi: nat)
    requires Tiles(node, lo, hi) && lo < hi
    ensures NoEmptyLeaf(node)
  {
    match node
    case Leaf(_, _, _) =>
    case Internal(_, _, l, r) =>
      TiledNoEmptyLeaf(l, lo, Hi(l));
      TiledNoEmptyLeaf(r, Hi(l), hi);
  }

  /** raycast as written: a leaf of count 0 takes the internal-node branch and reads its undefined `left`. */
  function RaycastAsWritten(node: Node, index: seq<nat>, hitTri: TriTest, hitBox: BoxTest): Result<seq<Intersection>, TraversalError>
    requires InIndex(node, index)
  {
    match node
    case Leaf(_, o, c) => if c != 0 then Ok(TrisHits(index, hitTri, o, c)) else Err(UndefinedChild)
    case Internal(_, _, l, r) =>
      var a := if l.boundingData in hitBox then RaycastAsWritten(l, index, hitTri, hitBox) else Ok([]);
      if a.Err? then a
      else
        var b := if r.boundingData in hitBox then RaycastAsWritten(r, index, hitTri, hitBox) else Ok([]);
        if b.Err? then b else Ok(a.value + b.value)
  }

  /** raycastFirst as written: a leaf of count 0 takes the internal-node branch and calls intersectRay on an undefined child. */
  function RaycastFirstAsWritten(node: Node, ray: Ray, index: seq<nat>, hitTri: TriTest, hitBox: BoxTest): Result<Option<Intersection>, TraversalError>
    requires InIndex(node, index)
  {
    match node
    case Leaf(_, o, c) => if c != 0 then Ok(Closest(TrisHits(index, hitTri, o, c))) else Err(UndefinedChild)
    case Internal(_, axis, l, r) =>
      var lr := if l.boundingData in hitBox then RaycastFirstAsWritten(l, ray, index, hitTri, hitBox) else Ok(None);
      var rr := if r.boundingData in hitBox then RaycastFirstAsWritten(r, ray, index, hitTri, hitBox) else Ok(None);
      var c1Result := if LeftToRight(ray, axis) then lr else rr;
      var c2Result := if LeftToRight(ray, axis) then rr else lr;
      var c2Box := if LeftToRight(ray, axis) then r.boundingData else l.boundingData;
      if c1Result.Err? then c1Result
      else if Prunes(ray, axis, c1Result.value, c2Box) then c1Result
      else if c2Result.Err? then c2Result
      else Ok(Pick(c1Result.value, c2Result.value))
  }

  /** On a mesh of no triangles the root is an empty leaf: both queries as written fail, the corrected ones find nothing. */
  lemma EmptyMeshQueries(root: Node, ray: Ray, index: seq<nat>, hitTri: TriTest, hitBox: BoxTest)
    requires Tiles(root, 0, 0)
    ensures InIndex(root, index)
    ensures RaycastAsWritten(root, index, hitTri, hitBox) == Err(UndefinedChild)
    ensures RaycastFirstAsWritten(root, ray, index, hitTri, hitBox) == Err(UndefinedChild)
    ensures RaycastHits(root, index, hitTri, hitBox) == [] && RaycastFirst(root, ray, index, hitTri, hitBox) == None
  {
    TilesBounds(root, 0, 0);
  }

  /** Without empty leaves the queries as written and the corrected ones agree. */
  lemma {:induction false} AsWrittenAgrees(node: Node, ray: Ray, index: seq<nat>, hitTri: TriTest, hitBox: BoxTest)
    requires InIndex(node, index) && NoEmptyLeaf(node)
    ensures RaycastAsWritten(node, index, hitTri, hitBox) == Ok(RaycastHits(node, index, hitTri, hitBox))
    ensures RaycastFirstAsWritten(node, ray, index, hitTri, hitBox) == Ok(RaycastFirst(node, ray, index, hitTri, hitBox))
  {
    match node
    case Leaf(_, _, _) =>
    case Internal(_, _, l, r) =>
      AsWrittenAgrees(l, ray, index, hitTri, hitBox);
      AsWrittenAgrees(r, ray, index, hitTri, hitBox);
  }
}
