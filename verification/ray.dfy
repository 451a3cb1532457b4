/** Rays: an origin, a direction (not necessarily of unit length) and a
    time sample that the hit tests do not use. */
module Rays {
  import opened Vector

  datatype Ray = Ray(orig: Vec3, dir: Vec3, time: real)

  /** The point of the ray at parameter t. */
  function At(r: Ray, t: real): (p: Vec3)
    ensures t == 0.0 ==> p == r.orig
    ensures Sub(p, r.orig) == Scale(r.dir, t)
  {
    Add(r.orig, Scale(r.dir, t))
  }

  /** Recovers the ray parameter of a point from its x coordinate alone;
      the source divides by the x component of the direction. */
  function TFromP(r: Ray, p: Vec3): (t: real)
    requires r.dir.x != 0.0
    ensures At(r, t).x == p.x
  {
    (p.x - r.orig.x) / r.dir.x
  }

  /** Round trip: the parameter recovered from the point at t is t. */
  lemma TFromPAt(r: Ray, t: real)
    requires r.dir.x != 0.0
    ensures TFromP(r, At(r, t)) == t
  {
    calc {
      TFromP(r, At(r, t));
      (r.orig.x + r.dir.x * t - r.orig.x) / r.dir.x;
      (r.dir.x * t) / r.dir.x;
      t;
    }
  }

  /** Only the x component of the point matters. */
  lemma TFromPOnlyX(r: Ray, p: Vec3, q: Vec3)
    requires r.dir.x != 0.0 && p.x == q.x
    ensures TFromP(r, p) == TFromP(r, q)
  {
  }
}
