/**
 * The input mesh and the per-triangle data the builder precomputes from it
 * (getTriangleCount, getBufferGeometryVertexElem, computeTriangleData), and
 * the vertex triples the builder writes into the reordered index buffer.
 */
module Geometry {
  import opened Wrappers

  /** One entry of the position attribute (item size 3). */
  datatype Vertex = Vertex(x: real, y: real, z: real)

  /** getX, getY, getZ of a vertex: coordinate `elem` (0, 1 or 2). */
  function Elem(v: Vertex, elem: nat): real
    requires elem < 3
  {
    if elem == 0 then v.x else if elem == 1 then v.y else v.z
  }

  /**
   * A BufferGeometry: its position attribute (one vertex per item) and an
   * optional index buffer (three vertex numbers per triangle).
   * `isBufferGeometry` is the flag the MeshBVH constructor tests.
   */
  datatype Geometry = Geometry(isBufferGeometry: bool, positions: seq<Vertex>, index: Option<seq<nat>>)

  /** position.count */
  function VertexCount(g: Geometry): nat
  {
    |g.positions|
  }

  /** Every index entry names an existing vertex. */
  predicate ValidGeometry(g: Geometry)
  {
    g.index.Some? ==> forall k :: 0 <= k < |g.index.value| ==> g.index.value[k] < VertexCount(g)
  }

  /** index.count for indexed geometry, position.count otherwise. */
  function ElementCount(g: Geometry): nat
  {
    if g.index.Some? then |g.index.value| else VertexCount(g)
  }

  /** getTriangleCount: a JavaScript division, so it is fractional when the element count is not a multiple of 3. */
  function TriangleCount(g: Geometry): (r: real)
    ensures r >= 0.0 && 3.0 * r == ElementCount(g) as real
  {
    ElementCount(g) as real / 3.0
  }

  /**
   * The triangle count when it is a whole number; `new Array(triCount)` in
   * the construction context throws a RangeError for any other count.
   */
  function WholeTriangleCount(g: Geometry): (r: Option<nat>)
    ensures r.Some? <==> TriangleCount(g) == TriangleCount(g).Floor as real
    ensures r.Some? ==> r.value as real == TriangleCount(g) && 3 * r.value == ElementCount(g)
  {
    ThirdIsWhole(ElementCount(g));
    if ElementCount(g) % 3 == 0 then Some(ElementCount(g) / 3) else None
  }

  /** e / 3 is a whole number exactly when 3 divides e. */
  lemma ThirdIsWhole(e: nat)
    ensures (e as real / 3.0 == (e as real / 3.0).Floor as real) <==> e % 3 == 0
    ensures e % 3 == 0 ==> (e / 3) as real == e as real / 3.0
  {
    var q, rem := e / 3, e % 3;
    assert e == 3 * q + rem;
    var t := e as real / 3.0;
    assert t == q as real + rem as real / 3.0;
    assert q as real <= t < q as real + 1.0;
    assert t.Floor == q;
  }

  /** A geometry together with its whole triangle count `n`. */
  predicate Triangulated(g: Geometry, n: nat)
  {
    ValidGeometry(g) && 3 * n == ElementCount(g)
  }

  /** The vertex used by corner `vert` of triangle `tri`: the index entry, or 3 * tri + vert without an index. */
  function VertexOf(g: Geometry, n: nat, tri: nat, vert: nat): (v: nat)
    requires Triangulated(g, n) && tri < n && vert < 3
    ensures v < VertexCount(g)
  {
    if g.index.Some? then g.index.value[3 * tri + vert] else 3 * tri + vert
  }

  /** getBufferGeometryVertexElem: coordinate `elem` of corner `vert` of triangle `tri`. */
  function VertexElem(g: Geometry, n: nat, tri: nat, vert: nat, elem: nat): real
    requires Triangulated(g, n) && tri < n && vert < 3 && elem < 3
  {
    Elem(g.positions[VertexOf(g, n, tri, vert)], elem)
  }

  /** Math.min of three coordinates. */
  function Min3(a: real, b: real, c: real): real
  {
    if a <= b && a <= c then a else if b <= c then b else c
  }

  /** Math.max of three coordinates. */
  function Max3(a: real, b: real, c: real): real
  {
    if a >= b && a >= c then a else if b >= c then b else c
  }

  /** Smallest coordinate on axis `e` among the triangle's three corners. */
  function TriLo(g: Geometry, n: nat, t: nat, e: nat): real
    requires Triangulated(g, n) && t < n && e < 3
  {
    Min3(VertexElem(g, n, t, 0, e), VertexElem(g, n, t, 1, e), VertexElem(g, n, t, 2, e))
  }

  /** Largest coordinate on axis `e` among the triangle's three corners. */
  function TriHi(g: Geometry, n: nat, t: nat, e: nat): real
    requires Triangulated(g, n) && t < n && e < 3
  {
    Max3(VertexElem(g, n, t, 0, e), VertexElem(g, n, t, 1, e), VertexElem(g, n, t, 2, e))
  }

  /** Mean of the triangle's three corners on axis `e`. */
  function Centroid(g: Geometry, n: nat, t: nat, e: nat): real
    requires Triangulated(g, n) && t < n && e < 3
  {
    (VertexElem(g, n, t, 0, e) + VertexElem(g, n, t, 1, e) + VertexElem(g, n, t, 2, e)) / 3.0
  }

  /** One triangle's entry in the bounds array: [xmin, xmax, ymin, ymax, zmin, zmax]. */
  function TriBounds(g: Geometry, n: nat, t: nat): seq<real>
    requires Triangulated(g, n) && t < n
  {
    [TriLo(g, n, t, 0), TriHi(g, n, t, 0), TriLo(g, n, t, 1), TriHi(g, n, t, 1), TriLo(g, n, t, 2), TriHi(g, n, t, 2)]
  }

  /** One triangle's entry in the centroids array: [x, y, z]. */
  function TriCentroid(g: Geometry, n: nat, t: nat): seq<real>
    requires Triangulated(g, n) && t < n
  {
    [Centroid(g, n, t, 0), Centroid(g, n, t, 1), Centroid(g, n, t, 2)]
  }

  /** The bounds array for the first `m` triangles. */
  function BoundsData(g: Geometry, n: nat, m: nat): (s: seq<real>)
    requires Triangulated(g, n) && m <= n
    ensures |s| == 6 * m
  {
    if m == 0 then [] else BoundsData(g, n, m - 1) + TriBounds(g, n, m - 1)
  }

  /** The centroids array for the first `m` triangles. */
  function CentroidData(g: Geometry, n: nat, m: nat): (s: seq<real>)
    requires Triangulated(g, n) && m <= n
    ensures |s| == 3 * m
  {
    if m == 0 then [] else CentroidData(g, n, m - 1) + TriCentroid(g, n, m - 1)
  }

  /** Triangle t's bounds sit interleaved at t * 6: minimum at 6t + 2e, maximum at 6t + 2e + 1. */
  lemma {:induction false} BoundsDataAt(g: Geometry, n: nat, m: nat, t: nat, e: nat)
    requires Triangulated(g, n) && m <= n && t < m && e < 3
    ensures BoundsData(g, n, m)[6 * t + 2 * e] == TriLo(g, n, t, e)
    ensures BoundsData(g, n, m)[6 * t + 2 * e + 1] == TriHi(g, n, t, e)
  {
    if t < m - 1 {
      BoundsDataAt(g, n, m - 1, t, e);
    }
  }

  /** Triangle t's centroid sits at t * 3 + e. */
  lemma {:induction false} CentroidDataAt(g: Geometry, n: nat, m: nat, t: nat, e: nat)
    requires Triangulated(g, n) && m <= n && t < m && e < 3
    ensures CentroidData(g, n, m)[3 * t + e] == Centroid(g, n, t, e)
  {
    if t < m - 1 {
      CentroidDataAt(g, n, m - 1, t, e);
    }
  }

  /** Every corner of a triangle, and its centroid, lies within the triangle's bounds. */
  lemma TriangleWithinBounds(g: Geometry, n: nat, t: nat, e: nat)
    requires Triangulated(g, n) && t < n && e < 3
    ensures TriLo(g, n, t, e) <= Centroid(g, n, t, e) <= TriHi(g, n, t, e)
    ensures forall v :: 0 <= v < 3 ==> TriLo(g, n, t, e) <= VertexElem(g, n, t, v, e) <= TriHi(g, n, t, e)
  {
  }

  /** computeTriangleData: fills the bounds and centroids arrays, one triangle at a time. */
  method ComputeTriangleData(g: Geometry, n: nat) returns (bounds: array<real>, centroids: array<real>)
    requires Triangulated(g, n)
    ensures bounds[..] == BoundsData(g, n, n)
    ensures centroids[..] == CentroidData(g, n, n)
  {
    bounds := new real[n * 6];
    centroids := new real[n * 3];
    for tri := 0 to n
      invariant bounds[..6 * tri] == BoundsData(g, n, tri)
      invariant centroids[..3 * tri] == CentroidData(g, n, tri)
    {
      WriteTriangleData(g, n, tri, bounds, centroids);
      DataStep(g, n, tri, bounds[..], centroids[..]);
    }
    assert bounds[..] == bounds[..6 * n];
    assert centroids[..] == centroids[..3 * n];
  }

  /** Arrays holding the first tri triangles' data, followed by triangle tri's, hold the first tri + 1. */
  lemma DataStep(g: Geometry, n: nat, tri: nat, b: seq<real>, c: seq<real>)
    requires Triangulated(g, n) && tri < n && |b| == 6 * n && |c| == 3 * n
    requires b[..6 * tri] == BoundsData(g, n, tri) && b[6 * tri..6 * tri + 6] == TriBounds(g, n, tri)
    requires c[..3 * tri] == CentroidData(g, n, tri) && c[3 * tri..3 * tri + 3] == TriCentroid(g, n, tri)
    ensures b[..6 * tri + 6] == BoundsData(g, n, tri + 1)
    ensures c[..3 * tri + 3] == CentroidData(g, n, tri + 1)
  {
    assert b[..6 * tri + 6] == b[..6 * tri] + b[6 * tri..6 * tri + 6];
    assert c[..3 * tri + 3] == c[..3 * tri] + c[3 * tri..3 * tri + 3];
  }

  /** The body of computeTriangleData's outer loop: the three axes of one triangle. */
  method WriteTriangleData(g: Geometry, n: nat, tri: nat, bounds: array<real>, centroids: array<real>)
    requires Triangulated(g, n) && tri < n
    requires bounds.Length == 6 * n && centroids.Length == 3 * n && bounds != centroids
    modifies bounds, centroids
    ensures bounds[..6 * tri] == old(bounds[..6 * tri])
    ensures bounds[6 * tri..6 * tri + 6] == TriBounds(g, n, tri)
    ensures centroids[..3 * tri] == old(centroids[..3 * tri])
    ensures centroids[3 * tri..3 * tri + 3] == TriCentroid(g, n, tri)
  {
    ghost var lo := 6 * tri;
    ghost var co := 3 * tri;
    for el := 0 to 3
      invariant bounds[..lo] == old(bounds[..lo])
      invariant centroids[..co] == old(centroids[..co])
      invariant forall e :: 0 <= e < el ==> bounds[lo + 2 * e] == TriLo(g, n, tri, e)
      invariant forall e :: 0 <= e < el ==> bounds[lo + 2 * e + 1] == TriHi(g, n, tri, e)
      invariant forall e :: 0 <= e < el ==> centroids[co + e] == Centroid(g, n, tri, e)
    {
      var a := VertexElem(g, n, tri, 0, el);
      var b := VertexElem(g, n, tri, 1, el);
      var c := VertexElem(g, n, tri, 2, el);
      bounds[tri * 6 + el * 2] := Min3(a, b, c);
      bounds[tri * 6 + el * 2 + 1] := Max3(a, b, c);
      centroids[tri * 3 + el] := (a + b + c) / 3.0;
    }
    TriBoundsFromEntries(g, n, tri, bounds[lo..lo + 6]);
    TriCentroidFromEntries(g, n, tri, centroids[co..co + 3]);
  }

  /** Six entries in the interleaved layout make up the triangle's bounds record. */
  lemma TriBoundsFromEntries(g: Geometry, n: nat, t: nat, s: seq<real>)
    requires Triangulated(g, n) && t < n && |s| == 6
    requires forall e :: 0 <= e < 3 ==> s[2 * e] == TriLo(g, n, t, e) && s[2 * e + 1] == TriHi(g, n, t, e)
    ensures s == TriBounds(g, n, t)
  {
    assert s[0] == TriLo(g, n, t, 0) && s[2] == TriLo(g, n, t, 1) && s[4] == TriLo(g, n, t, 2);
  }

  /** Three entries make up the triangle's centroid record. */
  lemma TriCentroidFromEntries(g: Geometry, n: nat, t: nat, s: seq<real>)
    requires Triangulated(g, n) && t < n && |s| == 3
    requires forall e :: 0 <= e < 3 ==> s[e] == Centroid(g, n, t, e)
    ensures s == TriCentroid(g, n, t)
  {
  }

  /**
   * Vertex number that writeReorderedIndices stores in slot `k` of the triple
   * for original triangle `t`, as written: the index entry when there is an
   * index buffer, and otherwise 3t + k, except that the third slot gets
   * 3t + 1 instead of 3t + 2.
   */
  function ReorderedVertexAsWritten(g: Geometry, n: nat, t: nat, k: nat): (v: nat)
    requires Triangulated(g, n) && t < n && k < 3
    ensures v < VertexCount(g)
  {
    if g.index.Some? then g.index.value[3 * t + k]
    else if k == 2 then 3 * t + 1 else 3 * t + k
  }

  /**
   * Where the as-written entry is right: it names corner k of the triangle
   * exactly when the geometry is indexed or k is one of the first two slots;
   * without an index the third slot repeats the second corner.
   */
  lemma ReorderedVertexAsWrittenAgrees(g: Geometry, n: nat, t: nat, k: nat)
    requires Triangulated(g, n) && t < n && k < 3
    ensures ReorderedVertexAsWritten(g, n, t, k) == VertexOf(g, n, t, k) <==> g.index.Some? || k < 2
    ensures g.index.None? && k == 2 ==> ReorderedVertexAsWritten(g, n, t, k) == VertexOf(g, n, t, 1)
  {
  }

  /** The as-written triple does not name the triangle's third corner: a one-triangle mesh without an index shows it. */
  lemma ReorderedVertexAsWrittenLosesCorner()
    ensures var g := Geometry(true, [Vertex(0.0, 0.0, 0.0), Vertex(1.0, 0.0, 0.0), Vertex(0.0, 1.0, 0.0)], None);
            Triangulated(g, 1) && ReorderedVertexAsWritten(g, 1, 0, 2) == 1 && VertexOf(g, 1, 0, 2) == 2
  {
    var g := Geometry(true, [Vertex(0.0, 0.0, 0.0), Vertex(1.0, 0.0, 0.0), Vertex(0.0, 1.0, 0.0)], None);
    assert ElementCount(g) == 3;
  }

  /**
   * Corrected writeReorderedIndices entry, with 3t + 2 in the third slot of a
   * non-indexed triple: it is the vertex getBufferGeometryVertexElem reads for
   * corner k, so without an index the three slots name three distinct vertices.
   */
  function ReorderedVertex(g: Geometry, n: nat, t: nat, k: nat): (v: nat)
    requires Triangulated(g, n) && t < n && k < 3
    ensures v < VertexCount(g)
    ensures g.index.None? ==> forall j :: 0 <= j < 3 && j != k ==> v != VertexOf(g, n, t, j)
  {
    VertexOf(g, n, t, k)
  }

  /** The Uint16 buffer is chosen only below 65536 vertices, so every vertex number written fits in it. */
  lemma ReorderedVertexFitsBuffer(g: Geometry, n: nat, t: nat, k: nat)
    requires Triangulated(g, n) && t < n && k < 3
    ensures VertexCount(g) < 65536 ==> ReorderedVertexAsWritten(g, n, t, k) < 65536
  {
  }
}
