/** `rayColor` (RayTracer/RayColor.cpp): the colour seen along a ray. It picks
    a hit among the shapes of the list, nearest first or in list order, lets
    the hit's material scatter the ray, and recurses with one bounce less. The
    shapes' intersection tests, the materials and the normalisation of the
    direction are code outside this model and appear as the functions of a
    `World`. */
module RayColor {
  import opened GraphMath
  import opened Wrappers

  type ShapeId = nat
  type MaterialId = nat

  /** `Ray`: an origin and a direction. */
  datatype Ray = Ray(origin: Vector3d, direction: Vector3d)

  /** `HitResult` (Shape/Shape.h): where and at which ray parameter `t` a
      shape was hit, and the material there. */
  datatype HitResult = HitResult(position: Vector3d, isOuter: bool, normal: Vector3d, t: real, material: MaterialId)

  /** A `double` upper bound on `t`, which may be `infinity`. */
  datatype Bound = Finite(value: real) | Infinity

  /** What a successful `Material::scatter` writes to its out-parameters. */
  datatype Scattered = Scattered(attenuation: Vector3d, ray: Ray)

  /** The code `rayColor` calls but that is not modelled here:
      `shape->hit(r, tMin, tMax, result)`, `material->scatter(r, hit,
      attenuation, scattered)` and the y component of `normalize(direction)`. */
  datatype World = World(
    hit: (ShapeId, Ray, real, Bound) -> Option<HitResult>,
    scatter: (MaterialId, Ray, HitResult) -> Option<Scattered>,
    unitY: Vector3d -> real)

  /** One call of `shape->hit`, with its arguments. */
  datatype Query = Query(shape: ShapeId, ray: Ray, tMin: real, tMax: Bound)

  /** The `t_min` of every hit test, which keeps a scattered ray from hitting
      the surface it leaves. */
  const T_MIN: real := 0.001

  /** What shape `s` reports for ray `r` in the hit tests of `rayColor`. */
  function Reported(w: World, r: Ray, s: ShapeId): Option<HitResult>
  {
    w.hit(s, r, T_MIN, Infinity)
  }

  /** A hit the nearest-hit scan can take: reported, with `t > 0`. */
  predicate Qualifies(w: World, r: Ray, s: ShapeId)
  {
    Reported(w, r, s).Some? && Reported(w, r, s).value.t > 0.0
  }

  function T(w: World, r: Ray, s: ShapeId): real
    requires Reported(w, r, s).Some?
  {
    Reported(w, r, s).value.t
  }

  // ---------------------------------------------------------------------------
  // The nearest-hit scan.

  /** The index that the nearest-hit scan holds after the first `n` shapes:
      replaced only by a qualifying hit with a strictly smaller `t`. */
  function NearestUpTo(w: World, r: Ray, shapes: seq<ShapeId>, n: nat): (o: Option<nat>)
    requires n <= |shapes|
    ensures o.Some? ==> o.value < n && Qualifies(w, r, shapes[o.value])
  {
    if n == 0 then None
    else
      var prev := NearestUpTo(w, r, shapes, n - 1);
      if Qualifies(w, r, shapes[n - 1]) && (prev.None? || T(w, r, shapes[n - 1]) < T(w, r, shapes[prev.value]))
      then Some(n - 1)
      else prev
  }

  /** No shape among the first `n` reports a hit with `t > 0`. */
  predicate NoneQualify(w: World, r: Ray, shapes: seq<ShapeId>, n: nat)
    requires n <= |shapes|
  {
    forall k :: 0 <= k < n ==> !Qualifies(w, r, shapes[k])
  }

  /** Shape `i` has the least `t` among the qualifying hits of the first `n`
      shapes, and every earlier qualifying hit is strictly farther. */
  predicate IsNearest(w: World, r: Ray, shapes: seq<ShapeId>, n: nat, i: nat)
    requires n <= |shapes|
  {
    && i < n
    && Qualifies(w, r, shapes[i])
    && (forall k :: 0 <= k < n && Qualifies(w, r, shapes[k]) ==> T(w, r, shapes[i]) <= T(w, r, shapes[k]))
    && (forall k :: 0 <= k < i && Qualifies(w, r, shapes[k]) ==> T(w, r, shapes[i]) < T(w, r, shapes[k]))
  }

  /** The scan finds nothing exactly when no shape qualifies, and otherwise
      finds exactly the nearest qualifying hit, ties going to the earliest. */
  lemma NearestUpToSpec(w: World, r: Ray, shapes: seq<ShapeId>, n: nat)
    requires n <= |shapes|
    ensures NearestUpTo(w, r, shapes, n).None? <==> NoneQualify(w, r, shapes, n)
    ensures forall i: nat :: NearestUpTo(w, r, shapes, n) == Some(i) <==> IsNearest(w, r, shapes, n, i)
  {
    NearestFound(w, r, shapes, n);
    forall i: nat | IsNearest(w, r, shapes, n, i) ensures NearestUpTo(w, r, shapes, n) == Some(i) {
      NearestUnique(w, r, shapes, n, i, NearestUpTo(w, r, shapes, n).value);
    }
  }

  /** What the scan holds is nothing exactly when no shape qualifies, and
      otherwise the nearest qualifying hit. */
  lemma {:induction false} NearestFound(w: World, r: Ray, shapes: seq<ShapeId>, n: nat)
    requires n <= |shapes|
    ensures NearestUpTo(w, r, shapes, n).None? <==> NoneQualify(w, r, shapes, n)
    ensures NearestUpTo(w, r, shapes, n).Some? ==> IsNearest(w, r, shapes, n, NearestUpTo(w, r, shapes, n).value)
  {
    if n > 0 {
      NearestFound(w, r, shapes, n - 1);
    }
  }

  /** At most one shape is the nearest. */
  lemma NearestUnique(w: World, r: Ray, shapes: seq<ShapeId>, n: nat, i: nat, j: nat)
    requires n <= |shapes| && IsNearest(w, r, shapes, n, i) && IsNearest(w, r, shapes, n, j)
    ensures i == j
  {
  }

  // ---------------------------------------------------------------------------
  // The first-hit scan.

  /** The first of the first `n` shapes that reports a hit, whatever its `t`. */
  function FirstUpTo(w: World, r: Ray, shapes: seq<ShapeId>, n: nat): (o: Option<nat>)
    requires n <= |shapes|
    ensures o.Some? ==> o.value < n && Reported(w, r, shapes[o.value]).Some?
  {
    if n == 0 then None
    else
      var prev := FirstUpTo(w, r, shapes, n - 1);
      if prev.Some? then prev
      else if Reported(w, r, shapes[n - 1]).Some? then Some(n - 1)
      else None
  }

  /** The first-hit scan finds nothing exactly when no shape reports a hit,
      and otherwise finds the first shape that does, even when a later one
      is nearer. */
  lemma {:induction false} FirstUpToSpec(w: World, r: Ray, shapes: seq<ShapeId>, n: nat)
    requires n <= |shapes|
    ensures FirstUpTo(w, r, shapes, n).None? <==> forall k :: 0 <= k < n ==> Reported(w, r, shapes[k]).None?
    ensures forall i: nat :: FirstUpTo(w, r, shapes, n) == Some(i) <==>
      i < n && Reported(w, r, shapes[i]).Some? && forall k :: 0 <= k < i ==> Reported(w, r, shapes[k]).None?
  {
    if n > 0 {
      FirstUpToSpec(w, r, shapes, n - 1);
    }
  }

  // ---------------------------------------------------------------------------
  // The recursion.

  /** The hit `rayColor` goes on with: the nearest one when `autoPriority`
      holds, the first one in list order otherwise. */
  function Chosen(w: World, r: Ray, shapes: seq<ShapeId>, autoPriority: bool): Option<HitResult>
  {
    var i := if autoPriority then NearestUpTo(w, r, shapes, |shapes|) else FirstUpTo(w, r, shapes, |shapes|);
    if i.Some? then Reported(w, r, shapes[i.value]) else None
  }

  /** The default sky: a blend between white and light blue by the height of
      the unit direction. */
  function Sky(w: World, r: Ray): Vector3d
  {
    var t := 0.5 * (w.unitY(r.direction) + 1.0);
    AddD(ScaleD(1.0 - t, Vector3d(1.0, 1.0, 1.0)), ScaleD(t, Vector3d(0.5, 0.7, 1.0)))
  }

  /** The colour that `rayColor(r, shapes, depth, autoPriority)` returns. */
  function Radiance(w: World, r: Ray, shapes: seq<ShapeId>, depth: int, autoPriority: bool): Vector3d
    decreases depth
  {
    if depth <= 0 then ZeroD()
    else
      match Chosen(w, r, shapes, autoPriority)
      case None => Sky(w, r)
      case Some(h) =>
        match w.scatter(h.material, r, h)
        case None => ZeroD()
        case Some(s) => MulD(s.attenuation, Radiance(w, s.ray, shapes, depth - 1, autoPriority))
  }

  /** Without depth left the colour is black, whatever the ray and the list. */
  lemma DepthCutoff(w: World, r: Ray, shapes: seq<ShapeId>, depth: int, autoPriority: bool)
    requires depth <= 0
    ensures Radiance(w, r, shapes, depth, autoPriority) == ZeroD()
  {
  }

  /** The sky depends on the direction of the ray only. */
  lemma SkyOfDirection(w: World, r: Ray, r': Ray)
    requires r.direction == r'.direction
    ensures Sky(w, r) == Sky(w, r')
  {
  }

  /** In nearest-hit mode, with no hit at `t > 0`, the colour is the sky. */
  lemma NearestMissIsSky(w: World, r: Ray, shapes: seq<ShapeId>, depth: int)
    requires depth > 0 && NoneQualify(w, r, shapes, |shapes|)
    ensures Radiance(w, r, shapes, depth, true) == Sky(w, r)
  {
    NearestUpToSpec(w, r, shapes, |shapes|);
  }

  /** In nearest-hit mode the colour comes from the nearest qualifying hit
      (the earliest of equally near ones): black when its material absorbs
      the ray, otherwise the attenuation times the colour of the scattered
      ray one bounce later. */
  lemma NearestHitColour(w: World, r: Ray, shapes: seq<ShapeId>, depth: int, i: nat)
    requires depth > 0 && i < |shapes| && IsNearest(w, r, shapes, |shapes|, i)
    ensures var h := Reported(w, r, shapes[i]).value;
      Radiance(w, r, shapes, depth, true)
        == match w.scatter(h.material, r, h)
           case None => ZeroD()
           case Some(s) => MulD(s.attenuation, Radiance(w, s.ray, shapes, depth - 1, true))
  {
    NearestUpToSpec(w, r, shapes, |shapes|);
  }

  /** In first-hit mode, with no shape reporting a hit, the colour is the sky. */
  lemma FirstMissIsSky(w: World, r: Ray, shapes: seq<ShapeId>, depth: int)
    requires depth > 0 && forall k :: 0 <= k < |shapes| ==> Reported(w, r, shapes[k]).None?
    ensures Radiance(w, r, shapes, depth, false) == Sky(w, r)
  {
    FirstUpToSpec(w, r, shapes, |shapes|);
  }

  /** In first-hit mode the colour comes from the first shape that reports a
      hit, even when a later shape reports a smaller `t`. */
  lemma FirstHitColour(w: World, r: Ray, shapes: seq<ShapeId>, depth: int, i: nat)
    requires depth > 0 && i < |shapes| && Reported(w, r, shapes[i]).Some?
    requires forall k :: 0 <= k < i ==> Reported(w, r, shapes[k]).None?
    ensures var h := Reported(w, r, shapes[i]).value;
      Radiance(w, r, shapes, depth, false)
        == match w.scatter(h.material, r, h)
           case None => ZeroD()
           case Some(s) => MulD(s.attenuation, Radiance(w, s.ray, shapes, depth - 1, false))
  {
    FirstUpToSpec(w, r, shapes, |shapes|);
  }

  /** Every query is a hit test on (0.001, infinity). */
  predicate Standard(queries: seq<Query>)
  {
    forall k :: 0 <= k < |queries| ==> queries[k].tMin == T_MIN && queries[k].tMax == Infinity
  }

  /** `rayColor`. `queries` lists the arguments of every call of `hit`, as
      passed, in the order made over the whole recursion, and `levels` counts
      the calls that tested the list. */
  method ComputeRayColor(w: World, r: Ray, shapes: seq<ShapeId>, depth: int, autoPriority: bool)
    returns (color: Vector3d, ghost queries: seq<Query>, ghost levels: nat)
    decreases depth
    ensures color == Radiance(w, r, shapes, depth, autoPriority)
    ensures Standard(queries)
    ensures depth <= 0 ==> levels == 0 && queries == []
    ensures depth > 0 ==> 1 <= levels <= depth
  {
    if depth <= 0 {
      return ZeroD(), [], 0;
    }
    queries := [];
    if autoPriority {
      var nearHit;
      nearHit, queries := NearestScan(w, r, shapes);
      if nearHit.Some? {
        var scattered := w.scatter(nearHit.value.material, r, nearHit.value);
        if scattered.Some? {
          var c, q, l := ComputeRayColor(w, scattered.value.ray, shapes, depth - 1, autoPriority);
          color, queries, levels := MulD(scattered.value.attenuation, c), queries + q, l + 1;
        } else {
          color, levels := ZeroD(), 1;
        }
      } else {
        color, levels := Sky(w, r), 1;
      }
    } else {
      var k := 0;
      while k < |shapes|
        invariant k <= |shapes|
        invariant FirstUpTo(w, r, shapes, k).None?
        invariant Standard(queries)
      {
        var q := Query(shapes[k], r, T_MIN, Infinity);
        var hit := w.hit(q.shape, q.ray, q.tMin, q.tMax);
        queries := queries + [q];
        if hit.Some? {
          FirstStays(w, r, shapes, k + 1, |shapes|);
          var scattered := w.scatter(hit.value.material, r, hit.value);
          if scattered.Some? {
            var c, q, l := ComputeRayColor(w, scattered.value.ray, shapes, depth - 1, autoPriority);
            return MulD(scattered.value.attenuation, c), queries + q, l + 1;
          } else {
            return ZeroD(), queries, 1;
          }
        }
        k := k + 1;
      }
      color, levels := Sky(w, r), 1;
    }
  }

  /** The first loop of `rayColor`: the hit with the least `t > 0`, replaced
      only by a strictly nearer one; `nearHit.t < infinity` afterwards is
      `nearHit.Some?`. */
  method NearestScan(w: World, r: Ray, shapes: seq<ShapeId>) returns (nearHit: Option<HitResult>, ghost queries: seq<Query>)
    ensures nearHit == Chosen(w, r, shapes, true)
    ensures Standard(queries) && |queries| == |shapes|
  {
    queries := [];
    nearHit := None;
    ghost var nearest: Option<nat> := None;
    var k := 0;
    while k < |shapes|
      invariant k <= |shapes| && |queries| == k
      invariant nearest == NearestUpTo(w, r, shapes, k)
      invariant nearHit == if nearest.Some? then Reported(w, r, shapes[nearest.value]) else None
      invariant Standard(queries)
    {
      var q := Query(shapes[k], r, T_MIN, Infinity);
      var hit := w.hit(q.shape, q.ray, q.tMin, q.tMax);
      queries := queries + [q];
      if hit.Some? && hit.value.t > 0.0 && (nearHit.None? || hit.value.t < nearHit.value.t) {
        nearHit := hit;
        nearest := Some(k);
      }
      k := k + 1;
    }
  }

  /** Once the first-hit scan has found a shape, later shapes do not change it. */
  lemma {:induction false} FirstStays(w: World, r: Ray, shapes: seq<ShapeId>, m: nat, n: nat)
    requires m <= n <= |shapes| && FirstUpTo(w, r, shapes, m).Some?
    ensures FirstUpTo(w, r, shapes, n) == FirstUpTo(w, r, shapes, m)
    decreases n - m
  {
    if m < n {
      FirstStays(w, r, shapes, m, n - 1);
    }
  }
}
