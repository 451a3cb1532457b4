/** Hit records: the point, the (ray-facing) normal, the ray parameter
    and the front-face flag (1 or 0, a taichi i32). */
module HitRecords {
  import opened Vector
  import opened Rays

  datatype HitRecord = HitRecord(p: Vec3, normal: Vec3, t: real, frontFace: int)

  /** The record every hit test starts from. */
  function EmptyHitRecord(): HitRecord
  {
    HitRecord(Splat3(0.0), Splat3(0.0), 0.0, 1)
  }

  /** Orients the normal against the incoming ray. The source updates the
      caller's record in place; here the updated record is returned and the
      caller rebinds it. */
  function SetFaceNormal(r: Ray, outwardNormal: Vec3, rec: HitRecord): (rec': HitRecord)
    ensures rec'.frontFace == 1 <==> Dot(r.dir, outwardNormal) < 0.0
    ensures rec'.frontFace == 0 || rec'.frontFace == 1
    ensures rec'.normal == if rec'.frontFace == 1 then outwardNormal else Neg(outwardNormal)
    ensures Dot(r.dir, rec'.normal) <= 0.0
    ensures rec'.p == rec.p && rec'.t == rec.t
  {
    var front := if Dot(r.dir, outwardNormal) < 0.0 then 1 else 0;
    rec.(frontFace := front, normal := if front == 1 then outwardNormal else Neg(outwardNormal))
  }
}
