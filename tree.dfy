/**
 * The finished hierarchy (MeshBVHNode): a leaf records the range
 * offset .. offset + count - 1 of the triangle permutation it owns; an
 * internal node records its split axis and two children.  Every node carries
 * its box in the [minx, miny, minz, maxx, maxy, maxz] layout.
 */
module Tree {
  import opened Numbers
  import opened Ranges

  datatype Node =
    | Leaf(boundingData: seq<Num>, offset: nat, count: nat)
    | Internal(boundingData: seq<Num>, splitAxis: int, left: Node, right: Node)

  /** First slot of the permutation under the node. */
  function Lo(node: Node): nat
  {
    match node
    case Leaf(_, o, _) => o
    case Internal(_, _, l, _) => Lo(l)
  }

  /** One past the last slot under the node. */
  function Hi(node: Node): nat
  {
    match node
    case Leaf(_, o, c) => o + c
    case Internal(_, _, _, r) => Hi(r)
  }

  /**
   * The node owns exactly lo .. hi - 1: a leaf says so with its offset and
   * count, an internal node splits the range into two non-empty parts that
   * its children own, the left part first.
   */
  predicate Tiles(node: Node, lo: nat, hi: nat)
  {
    match node
    case Leaf(_, o, c) => o == lo && o + c == hi
    case Internal(_, _, l, r) => lo < Hi(l) < hi && Tiles(l, lo, Hi(l)) && Tiles(r, Hi(l), hi)
  }

  lemma {:induction false} TilesBounds(node: Node, lo: nat, hi: nat)
    requires Tiles(node, lo, hi)
    ensures Lo(node) == lo && Hi(node) == hi && lo <= hi
    ensures node.Internal? ==> lo + 2 <= hi
  {
    match node
    case Leaf(_, _, _) =>
    case Internal(_, _, l, r) =>
      TilesBounds(l, lo, Hi(l));
      TilesBounds(r, Hi(l), hi);
  }

  /** lo, lo + 1, ..., hi - 1. */
  function Interval(lo: nat, hi: nat): (s: seq<nat>)
    requires lo <= hi
    ensures |s| == hi - lo && forall i :: 0 <= i < |s| ==> s[i] == lo + i
  {
    seq(hi - lo, i requires 0 <= i < hi - lo => lo + i)
  }

  /** The slots of the permutation the leaves own, leaf by leaf from left to right. */
  function LeafSlots(node: Node): seq<nat>
  {
    match node
    case Leaf(_, o, c) => Interval(o, o + c)
    case Internal(_, _, l, r) => LeafSlots(l) + LeafSlots(r)
  }

  /** The leaves' ranges follow one another without gap or overlap: every slot of lo .. hi - 1 belongs to exactly one leaf. */
  lemma {:induction false} TilesCoverOnce(node: Node, lo: nat, hi: nat)
    requires Tiles(node, lo, hi)
    ensures lo <= hi && LeafSlots(node) == Interval(lo, hi)
  {
    match node
    case Leaf(_, _, _) =>
    case Internal(_, _, l, r) =>
      var m := Hi(l);
      TilesCoverOnce(l, lo, m);
      TilesCoverOnce(r, m, hi);
      assert Interval(lo, m) + Interval(m, hi) == Interval(lo, hi);
  }

  /** Length of the longest path from the node down to a leaf. */
  function Height(node: Node): nat
  {
    match node
    case Leaf(_, _, _) => 0
    case Internal(_, _, l, r) => 1 + (if Height(l) < Height(r) then Height(r) else Height(l))
  }

  /** Every internal node of a subtree whose root has depth d lies above maxDepth. */
  predicate InternalsBelow(node: Node, d: nat, maxDepth: real)
  {
    match node
    case Leaf(_, _, _) => true
    case Internal(_, _, l, r) => (d as real) < maxDepth && InternalsBelow(l, d + 1, maxDepth) && InternalsBelow(r, d + 1, maxDepth)
  }

  /** With internal nodes only above maxDepth, the deepest leaf is at most one level past it. */
  lemma {:induction false} DepthBound(node: Node, d: nat, maxDepth: real)
    requires InternalsBelow(node, d, maxDepth)
    ensures node.Internal? ==> ((d + Height(node) - 1) as real) < maxDepth
  {
    match node
    case Leaf(_, _, _) =>
    case Internal(_, _, l, r) =>
      DepthBound(l, d + 1, maxDepth);
      DepthBound(r, d + 1, maxDepth);
  }

  /** Some node of the subtree whose root has depth d has depth maxDepth or more. */
  predicate ReachesDepth(node: Node, d: nat, maxDepth: real)
  {
    (d as real) >= maxDepth ||
    match node
    case Leaf(_, _, _) => false
    case Internal(_, _, l, r) => ReachesDepth(l, d + 1, maxDepth) || ReachesDepth(r, d + 1, maxDepth)
  }

  /** Some node reaches maxDepth exactly when the deepest leaf does. */
  lemma {:induction false} ReachesDepthByHeight(node: Node, d: nat, maxDepth: real)
    ensures ReachesDepth(node, d, maxDepth) <==> ((d + Height(node)) as real) >= maxDepth
  {
    match node
    case Leaf(_, _, _) =>
    case Internal(_, _, l, r) =>
      ReachesDepthByHeight(l, d + 1, maxDepth);
      ReachesDepthByHeight(r, d + 1, maxDepth);
  }

  /** The child's box is the union of the bounds of the triangles it owns. */
  predicate BoxOf(child: Node, bounds: seq<real>, tris: seq<nat>)
  {
    Lo(child) <= Hi(child) <= |tris| && Addresses(bounds, 6, tris[Lo(child)..Hi(child)])
    && child.boundingData == RangeBox(bounds, tris[Lo(child)..Hi(child)])
  }

  /** Below the node, every child's box is the union of its triangles' bounds. */
  predicate ChildBoxes(node: Node, bounds: seq<real>, tris: seq<nat>)
  {
    match node
    case Leaf(_, _, _) => true
    case Internal(_, _, l, r) =>
      BoxOf(l, bounds, tris) && BoxOf(r, bounds, tris) && ChildBoxes(l, bounds, tris) && ChildBoxes(r, bounds, tris)
  }

  /** The child boxes of a subtree depend only on the slots it owns. */
  lemma {:induction false} ChildBoxesFrame(node: Node, lo: nat, hi: nat, bounds: seq<real>, s: seq<nat>, t: seq<nat>)
    requires Tiles(node, lo, hi) && hi <= |s| && hi <= |t|
    requires forall i :: lo <= i < hi ==> s[i] == t[i]
    requires ChildBoxes(node, bounds, s)
    ensures ChildBoxes(node, bounds, t)
  {
    match node
    case Leaf(_, _, _) =>
    case Internal(_, _, l, r) =>
      var m := Hi(l);
      TilesBounds(l, lo, m);
      TilesBounds(r, m, hi);
      BoxOfFrame(l, bounds, s, t);
      BoxOfFrame(r, bounds, s, t);
      ChildBoxesFrame(l, lo, m, bounds, s, t);
      ChildBoxesFrame(r, m, hi, bounds, s, t);
  }

  /** A child's box depends only on the slots it owns. */
  lemma BoxOfFrame(child: Node, bounds: seq<real>, s: seq<nat>, t: seq<nat>)
    requires Lo(child) <= Hi(child) <= |s| && Hi(child) <= |t|
    requires forall i :: Lo(child) <= i < Hi(child) ==> s[i] == t[i]
    requires BoxOf(child, bounds, s)
    ensures BoxOf(child, bounds, t)
  {
    assert s[Lo(child)..Hi(child)] == t[Lo(child)..Hi(child)];
  }

  /** Each triangle under a child lies inside that child's box. */
  lemma ChildBoxContains(child: Node, bounds: seq<real>, tris: seq<nat>, i: nat, e: nat)
    requires BoxOf(child, bounds, tris) && Lo(child) <= i < Hi(child) && e < 3
    ensures 6 * tris[i] + 6 <= |bounds|
    ensures child.boundingData[e].Fin? && child.boundingData[e + 3].Fin?
    ensures child.boundingData[e].v <= BoundAt(bounds, tris[i], 2 * e)
    ensures BoundAt(bounds, tris[i], 2 * e + 1) <= child.boundingData[e + 3].v
  {
    var ids := tris[Lo(child)..Hi(child)];
    assert ids[i - Lo(child)] == tris[i];
    RangeBoxIsTightUnion(bounds, ids, e);
  }
}
