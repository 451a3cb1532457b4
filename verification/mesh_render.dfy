/** Ray/triangle intersection (guard level) and the closest-hit scan over
    one mesh's triangle range, as render/mesh.py does them. */
module MeshRender {
  import opened Vector
  import opened Rays
  import opened HitRecords
  import opened MeshExport

  /** `sys.float_info.epsilon`, 2^-52. */
  const Epsilon: real := 1.0 / 4503599627370496.0

  function Abs(a: real): real { if a < 0.0 then -a else a }

  datatype Triangle = Triangle(v0: Vec3, v1: Vec3, v2: Vec3)

  function Edge1(tri: Triangle): Vec3 { Sub(tri.v1, tri.v0) }

  function Edge2(tri: Triangle): Vec3 { Sub(tri.v2, tri.v0) }

  /** The geometric (unnormalised) normal e1 x e2. */
  function TriNormal(tri: Triangle): Vec3 { Cross(Edge1(tri), Edge2(tri)) }

  /** Moller-Trumbore's `a = e1 . (dir x e2)`. */
  function Det(tri: Triangle, r: Ray): real { Dot(Edge1(tri), Cross(r.dir, Edge2(tri))) }

  function BaryU(tri: Triangle, r: Ray): real
    requires Det(tri, r) != 0.0
  {
    (1.0 / Det(tri, r)) * Dot(Sub(r.orig, tri.v0), Cross(r.dir, Edge2(tri)))
  }

  function BaryV(tri: Triangle, r: Ray): real
    requires Det(tri, r) != 0.0
  {
    (1.0 / Det(tri, r)) * Dot(r.dir, Cross(Sub(r.orig, tri.v0), Edge1(tri)))
  }

  function HitT(tri: Triangle, r: Ray): real
    requires Det(tri, r) != 0.0
  {
    (1.0 / Det(tri, r)) * Dot(Edge2(tri), Cross(Sub(r.orig, tri.v0), Edge1(tri)))
  }

  /** The guards that do not depend on the t interval: not parallel, and
      barycentric coordinates inside the triangle. */
  predicate InsideTriangle(tri: Triangle, r: Ray)
  {
    Abs(Det(tri, r)) > Epsilon &&
    0.0 <= BaryU(tri, r) <= 1.0 &&
    BaryV(tri, r) >= 0.0 && BaryU(tri, r) + BaryV(tri, r) <= 1.0
  }

  /** The ray meets the triangle at a parameter in (tMin, tMax]. */
  predicate Accepts(tri: Triangle, r: Ray, tMin: real, tMax: real)
  {
    InsideTriangle(tri, r) && tMin < HitT(tri, r) <= tMax
  }

  /** The record a successful test fills in (front_face keeps the empty record's 1). */
  function TriRecord(tri: Triangle, r: Ray): HitRecord
    requires Det(tri, r) != 0.0
  {
    HitRecord(At(r, HitT(tri, r)), TriNormal(tri), HitT(tri, r), 1)
  }

  /** `hit_triangle`: the nested guard clauses of Moller-Trumbore. */
  function HitTriangle(tri: Triangle, r: Ray, tMin: real, tMax: real): (res: (bool, HitRecord))
    ensures res.0 <==> Accepts(tri, r, tMin, tMax)
    ensures Abs(Det(tri, r)) <= Epsilon ==> !res.0
    ensures res.0 ==> 0.0 <= BaryU(tri, r) <= 1.0 && BaryV(tri, r) >= 0.0 && BaryU(tri, r) + BaryV(tri, r) <= 1.0
    ensures res.0 ==> tMin < res.1.t <= tMax && res.1.t == HitT(tri, r)
    ensures res.0 ==> res.1.p == At(r, res.1.t) && res.1.normal == TriNormal(tri)
    ensures !res.0 ==> res.1 == EmptyHitRecord()
  {
    if Abs(Det(tri, r)) > Epsilon then
      if BaryU(tri, r) <= 1.0 && BaryU(tri, r) >= 0.0 then
        if BaryV(tri, r) >= 0.0 && BaryU(tri, r) + BaryV(tri, r) <= 1.0 then
          var t := HitT(tri, r);
          if t > tMin && t <= tMax then
            (true, HitRecord(At(r, t), TriNormal(tri), t, 1))
          else (false, EmptyHitRecord())
        else (false, EmptyHitRecord())
      else (false, EmptyHitRecord())
    else (false, EmptyHitRecord())
  }

  /** Acceptance under a smaller t_max is acceptance under the larger one
      together with t bounded by the smaller one. */
  lemma AcceptsNarrowed(tri: Triangle, r: Ray, tMin: real, tMax: real, tMax0: real)
    requires tMax <= tMax0
    ensures Accepts(tri, r, tMin, tMax) <==> Accepts(tri, r, tMin, tMax0) && HitT(tri, r) <= tMax
  {
  }

  /** The render-side geometry buffers: triangles as global vertex index
      triples, vertex positions, per-triangle material index, and each
      mesh's [start, end) triangle range. */
  datatype Geometry = Geometry(tris: seq<Tri>, verts: seq<Vec3>, matIndices: seq<nat>,
                               startIndex: seq<nat>, endIndex: seq<nat>)

  predicate GeometryValid(g: Geometry)
  {
    |g.matIndices| == |g.tris| &&
    (forall i :: 0 <= i < |g.tris| ==> g.tris[i].a < |g.verts| && g.tris[i].b < |g.verts| && g.tris[i].c < |g.verts|) &&
    |g.startIndex| == |g.endIndex| &&
    (forall m :: 0 <= m < |g.startIndex| ==> g.startIndex[m] <= g.endIndex[m] <= |g.tris|)
  }

  /** The triangle with index i, its corners looked up in the vertex buffer. */
  function TriAt(g: Geometry, i: nat): Triangle
    requires GeometryValid(g) && i < |g.tris|
  {
    Triangle(g.verts[g.tris[i].a], g.verts[g.tris[i].b], g.verts[g.tris[i].c])
  }

  /** Triangle k is the closest accepted hit in [lo, hi) and the last one at
      that distance: every accepted triangle is at least as far, and every
      accepted triangle after k is strictly farther. */
  ghost predicate IsClosest(g: Geometry, r: Ray, tMin: real, tMax: real, lo: nat, hi: nat, k: nat)
    requires GeometryValid(g) && lo <= hi <= |g.tris|
  {
    lo <= k < hi && Accepts(TriAt(g, k), r, tMin, tMax) &&
    forall i :: lo <= i < hi && Accepts(TriAt(g, i), r, tMin, tMax) ==>
      HitT(TriAt(g, k), r) <= HitT(TriAt(g, i), r) &&
      (k < i ==> HitT(TriAt(g, k), r) < HitT(TriAt(g, i), r))
  }

  /** The record the scan keeps for triangle k: its hit record with the
      normal turned against the ray. */
  function OrientedRecord(g: Geometry, r: Ray, k: nat): HitRecord
    requires GeometryValid(g) && k < |g.tris| && Det(TriAt(g, k), r) != 0.0
  {
    SetFaceNormal(r, TriNormal(TriAt(g, k)), TriRecord(TriAt(g, k), r))
  }

  /** A triangle accepted no farther than the best so far (or the first
      accepted one) becomes the closest. */
  lemma ClosestNew(g: Geometry, r: Ray, tMin: real, tMax: real, lo: nat, i: nat, k: nat, had: bool)
    requires GeometryValid(g) && lo <= i < |g.tris|
    requires had ==> IsClosest(g, r, tMin, tMax, lo, i, k)
    requires !had ==> forall j :: lo <= j < i ==> !Accepts(TriAt(g, j), r, tMin, tMax)
    requires Accepts(TriAt(g, i), r, tMin, tMax)
    requires had ==> HitT(TriAt(g, i), r) <= HitT(TriAt(g, k), r)
    ensures IsClosest(g, r, tMin, tMax, lo, i + 1, i)
  {
  }

  /** A triangle that is not accepted, or is strictly farther, leaves the
      closest one in place. */
  lemma ClosestKeep(g: Geometry, r: Ray, tMin: real, tMax: real, lo: nat, i: nat, k: nat)
    requires GeometryValid(g) && lo <= i < |g.tris|
    requires IsClosest(g, r, tMin, tMax, lo, i, k)
    requires Accepts(TriAt(g, i), r, tMin, tMax) ==> HitT(TriAt(g, i), r) > HitT(TriAt(g, k), r)
    ensures IsClosest(g, r, tMin, tMax, lo, i + 1, k)
  {
  }

  /** `hit`: scans triangles start_index <= i < end_index of mesh meshIndex,
      shrinking t_max on every hit, so the closest hit wins and, on equal t,
      the later triangle. */
  method Hit(g: Geometry, meshIndex: nat, r: Ray, tMin: real, tMax: real)
    returns (hitAnything: bool, rec: HitRecord, materialId: nat)
    requires GeometryValid(g) && meshIndex < |g.startIndex|
    ensures hitAnything <==> exists i :: g.startIndex[meshIndex] <= i < g.endIndex[meshIndex] &&
                                          Accepts(TriAt(g, i), r, tMin, tMax)
    ensures hitAnything ==> exists k: nat :: IsClosest(g, r, tMin, tMax, g.startIndex[meshIndex], g.endIndex[meshIndex], k) &&
                                        rec == OrientedRecord(g, r, k) && materialId == g.matIndices[k]
    ensures hitAnything ==> tMin < rec.t <= tMax && Dot(r.dir, rec.normal) <= 0.0
    ensures !hitAnything ==> rec == EmptyHitRecord() && materialId == 0
  {
    var start, end := g.startIndex[meshIndex], g.endIndex[meshIndex];
    hitAnything, materialId, rec := false, 0, EmptyHitRecord();
    var tMaxNow := tMax;
    ghost var k: nat := start;
    var i := start;
    while i < end
      invariant start <= i <= end
      invariant tMaxNow <= tMax
      invariant hitAnything <==> exists j :: start <= j < i && Accepts(TriAt(g, j), r, tMin, tMax)
      invariant hitAnything ==> IsClosest(g, r, tMin, tMax, start, i, k) && tMaxNow == HitT(TriAt(g, k), r) &&
                                rec == OrientedRecord(g, r, k) && materialId == g.matIndices[k]
      invariant !hitAnything ==> tMaxNow == tMax && rec == EmptyHitRecord() && materialId == 0
    {
      var tri := TriAt(g, i);
      var res := HitTriangle(tri, r, tMin, tMaxNow);
      AcceptsNarrowed(tri, r, tMin, tMaxNow, tMax);
      if res.0 {
        ClosestNew(g, r, tMin, tMax, start, i, k, hitAnything);
        hitAnything := true;
        materialId := g.matIndices[i];
        rec := res.1;
        tMaxNow := rec.t;
        rec := SetFaceNormal(r, rec.normal, rec);
        k := i;
      } else if hitAnything {
        ClosestKeep(g, r, tMin, tMax, start, i, k);
      }
      i := i + 1;
    }
  }
}
