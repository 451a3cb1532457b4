/** render/integrator.py: the bounce loop of the path tracer. The scene
    query, the material colour lookup and the hemisphere sampling are
    oracles the model is given. */
module Integrator {
  import opened Vector
  import opened Rays
  import opened HitRecords

  /** The `t_max` the scene is queried with. */
  const Infinity: real := 99999999.9

  /** The `t_min` the scene is queried with. */
  const HitEpsilon: real := 0.0001

  /** The scene as `trace_ray` sees it: `scene.hit(r, t_min, t_max)`, the
      colour of a material id, and the hemisphere direction drawn at a
      given bounce around a normal. */
  datatype Oracles = Oracles(hit: (Ray, real, real) -> (bool, HitRecord, nat),
                             color: nat -> Vec4,
                             hemisphere: (int, Vec3) -> Vec3)

  /** The ray leaving a hit: it starts at the hit point and heads for the
      sampled point `p + hemisphere(normal)`. */
  function NextRay(o: Oracles, r: Ray, rec: HitRecord, bounces: int): (next: Ray)
    ensures next.orig == rec.p
    ensures next.dir == o.hemisphere(bounces, rec.normal)
    ensures next.time == r.time
  {
    var target := Add(rec.p, o.hemisphere(bounces, rec.normal));
    r.(orig := rec.p, dir := Sub(target, rec.p))
  }

  /** The colour `trace_ray` returns from the state (ray, accumulated
      colour, bounce count) of its loop. */
  function Trace(o: Oracles, r: Ray, acc: Vec4, bounces: int, maxDepth: int, background: Vec4): Vec4
    decreases maxDepth - bounces
  {
    if bounces >= maxDepth then Splat4(0.0)
    else
      var q := o.hit(r, HitEpsilon, Infinity);
      if q.0 then Trace(o, NextRay(o, r, q.1, bounces), Mul4(acc, o.color(q.2)), bounces + 1, maxDepth, background)
      else if bounces == 1 then Splat4(0.0)
      else Mul4(acc, background)
  }

  /** The number of scene queries made from that state. */
  function Queries(o: Oracles, r: Ray, bounces: int, maxDepth: int): nat
    decreases maxDepth - bounces
  {
    if bounces >= maxDepth then 0
    else
      var q := o.hit(r, HitEpsilon, Infinity);
      if q.0 then 1 + Queries(o, NextRay(o, r, q.1, bounces), bounces + 1, maxDepth) else 1
  }

  /** `trace_ray`. */
  method TraceRay(o: Oracles, r: Ray, background: Vec4, maxDepth: int) returns (color: Vec4, ghost queries: nat)
    ensures color == Trace(o, r, Splat4(1.0), 1, maxDepth, background)
    ensures queries == Queries(o, r, 1, maxDepth)
  {
    var bounces := 1;
    color := Splat4(0.0);
    var accumulatedColor := Splat4(1.0);
    bounces := 1;
    var ray := r;
    queries := 0;
    while bounces < maxDepth
      invariant bounces >= 1
      invariant Trace(o, ray, accumulatedColor, bounces, maxDepth, background) == Trace(o, r, Splat4(1.0), 1, maxDepth, background)
      invariant queries + Queries(o, ray, bounces, maxDepth) == Queries(o, r, 1, maxDepth)
      invariant color == Splat4(0.0)
      decreases maxDepth - bounces
    {
      var q := o.hit(ray, HitEpsilon, Infinity);
      queries := queries + 1;
      var hit, rec, matId := q.0, q.1, q.2;
      if hit {
        accumulatedColor := Mul4(accumulatedColor, o.color(matId));
        var target := Add(rec.p, o.hemisphere(bounces, rec.normal));
        ray := ray.(orig := rec.p);
        ray := ray.(dir := Sub(target, rec.p));
        bounces := bounces + 1;
      } else if bounces == 1 {
        color := Splat4(0.0);
        break;
      } else {
        color := Mul4(accumulatedColor, background);
        break;
      }
    }
  }

  /** The loop makes at most max_depth - bounces queries, none at all once
      the budget is spent. */
  lemma {:induction false} QueriesBound(o: Oracles, r: Ray, bounces: int, maxDepth: int)
    ensures bounces >= maxDepth ==> Queries(o, r, bounces, maxDepth) == 0
    ensures bounces < maxDepth ==> Queries(o, r, bounces, maxDepth) <= maxDepth - bounces
    decreases maxDepth - bounces
  {
    if bounces < maxDepth {
      var q := o.hit(r, HitEpsilon, Infinity);
      if q.0 {
        QueriesBound(o, NextRay(o, r, q.1, bounces), bounces + 1, maxDepth);
      }
    }
  }

  /** With max_depth <= 1 no query is made and the colour is black. */
  lemma ShallowIsBlack(o: Oracles, r: Ray, background: Vec4, maxDepth: int)
    requires maxDepth <= 1
    ensures Trace(o, r, Splat4(1.0), 1, maxDepth, background) == Splat4(0.0)
    ensures Queries(o, r, 1, maxDepth) == 0
  {
  }

  /** A camera ray that hits nothing is black, not the background. */
  lemma FirstMissIsBlack(o: Oracles, r: Ray, background: Vec4, maxDepth: int)
    requires !o.hit(r, HitEpsilon, Infinity).0
    ensures Trace(o, r, Splat4(1.0), 1, maxDepth, background) == Splat4(0.0)
  {
  }

  /** The ray after k hits, starting at bounce count b. */
  function RayAfter(o: Oracles, r: Ray, b: int, k: nat): Ray
  {
    if k == 0 then r
    else
      var prev := RayAfter(o, r, b, k - 1);
      NextRay(o, prev, o.hit(prev, HitEpsilon, Infinity).1, b + k - 1)
  }

  /** The first k queries from that state all hit. */
  predicate HitsFor(o: Oracles, r: Ray, b: int, k: nat)
  {
    forall i :: 0 <= i < k ==> o.hit(RayAfter(o, r, b, i), HitEpsilon, Infinity).0
  }

  /** The product of the first k hit material colours with acc. */
  function Throughput(o: Oracles, r: Ray, acc: Vec4, b: int, k: nat): Vec4
  {
    if k == 0 then acc
    else Mul4(Throughput(o, r, acc, b, k - 1), o.color(o.hit(RayAfter(o, r, b, k - 1), HitEpsilon, Infinity).2))
  }

  /** k hits in a row, within the budget, move the loop to bounce b + k
      with the throughput multiplied by the k material colours. */
  lemma {:induction false} TraceAfterHits(o: Oracles, r: Ray, acc: Vec4, b: int, k: nat, maxDepth: int, background: Vec4)
    requires HitsFor(o, r, b, k) && b + k <= maxDepth
    ensures Trace(o, r, acc, b, maxDepth, background) ==
            Trace(o, RayAfter(o, r, b, k), Throughput(o, r, acc, b, k), b + k, maxDepth, background)
    ensures Queries(o, r, b, maxDepth) == k + Queries(o, RayAfter(o, r, b, k), b + k, maxDepth)
  {
    if k > 0 {
      TraceAfterHits(o, r, acc, b, k - 1, maxDepth, background);
      var prev := RayAfter(o, r, b, k - 1);
      assert o.hit(prev, HitEpsilon, Infinity).0;
    }
  }

  /** A miss after k >= 1 hits returns the product of the k hit colours
      times the background. */
  lemma MissAfterHits(o: Oracles, r: Ray, background: Vec4, k: nat, maxDepth: int)
    requires k >= 1 && HitsFor(o, r, 1, k) && 1 + k < maxDepth
    requires !o.hit(RayAfter(o, r, 1, k), HitEpsilon, Infinity).0
    ensures Trace(o, r, Splat4(1.0), 1, maxDepth, background) == Mul4(Throughput(o, r, Splat4(1.0), 1, k), background)
    ensures Queries(o, r, 1, maxDepth) == k + 1
  {
    TraceAfterHits(o, r, Splat4(1.0), 1, k, maxDepth, background);
  }

  /** When every query within the budget hits, the path is cut off and the
      colour is black. */
  lemma ExhaustedIsBlack(o: Oracles, r: Ray, background: Vec4, maxDepth: int)
    requires maxDepth >= 1 && HitsFor(o, r, 1, maxDepth - 1)
    ensures Trace(o, r, Splat4(1.0), 1, maxDepth, background) == Splat4(0.0)
    ensures Queries(o, r, 1, maxDepth) == maxDepth - 1
  {
    TraceAfterHits(o, r, Splat4(1.0), 1, maxDepth - 1, maxDepth, background);
  }
}
