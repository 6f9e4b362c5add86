/**
 * `ray_color` (src/lib.rs): the colour seen along a ray, by recursion on
 * the remaining bounce depth.
 */
module Radiance {
  import opened Vectors
  import opened Rays
  import opened Options
  import opened Materials
  import opened HitRecords
  import opened Spheres
  import opened HittableLists
  import opened Scattering

  /** Hits closer than this are ignored, so a scattered ray does not re-hit its own origin. */
  const MinHitDistance: real := 0.001

  function Black(): Color { Vec3(0.0, 0.0, 0.0) }
  function White(): Color { Vec3(1.0, 1.0, 1.0) }
  function SkyBlue(): Color { Vec3(0.5, 0.7, 1.0) }

  /** The linear blend from white (t = 0) to sky blue (t = 1). */
  function Gradient(t: real): (c: Color)
    ensures t == 0.0 ==> c == White()
    ensures t == 1.0 ==> c == SkyBlue()
    ensures 0.0 <= t <= 1.0 ==> 0.5 <= c.x <= 1.0 && 0.7 <= c.y <= 1.0 && c.z == 1.0
  {
    Add(Scale(White(), 1.0 - t), Scale(SkyBlue(), t))
  }

  /** The background seen by a ray that hits nothing, blended on the height of its unit direction. */
  function Background(r: Ray, sqrt: real -> real): Color
  {
    var unit := Normalize(Direction(r), sqrt);
    Gradient((unit.y + 1.0) * 0.5)
  }

  /** The background is a colour between white and sky blue. */
  lemma BackgroundBounded(r: Ray, sqrt: real -> real)
    requires IsSqrt(sqrt)
    ensures var c := Background(r, sqrt);
      0.5 <= c.x <= 1.0 && 0.7 <= c.y <= 1.0 && c.z == 1.0 && InUnitCube(c)
  {
    NormalizeComponentsBounded(Direction(r), sqrt);
  }

  /**
   * The scatter step applied at a hit. The material in the record is not
   * set by the sphere, so the scatter rule is a parameter; the depth names
   * the bounce and stands for the fresh random draws each bounce makes.
   */
  type Scatterer = (Ray, HitRecord, int) -> Option<Scattered>

  /**
   * `ray_color`: black once the depth is used up; otherwise the nearest hit
   * in [0.001, +inf) either absorbs (black) or scatters (the colour along
   * the scattered ray, one bounce fewer, times the attenuation); a miss
   * sees the background.
   */
  function RayColor(r: Ray, world: seq<Sphere>, depth: int, sqrt: real -> real, scatter: Scatterer): (c: Color)
    requires AllWellFormed(world)
    ensures depth <= 0 ==> c == Black()
    decreases depth
  {
    if depth <= 0 then Black()
    else
      match ListHit(world, r, MinHitDistance, Infinite, sqrt)
      case None => Background(r, sqrt)
      case Some(rec) =>
        match scatter(r, rec, depth)
        case None => Black()
        case Some(s) => Mul(RayColor(s.ray, world, depth - 1, sqrt, scatter), s.attenuation)
  }

  /** Every attenuation the scatter rule produces lies in the unit cube. */
  ghost predicate AttenuationsBounded(scatter: Scatterer)
  {
    forall r: Ray, rec: HitRecord, k: int :: scatter(r, rec, k).Some? ==> InUnitCube(scatter(r, rec, k).value.attenuation)
  }

  /**
   * Energy is never created: with attenuations in the unit cube, every
   * colour `ray_color` returns lies in the unit cube.
   */
  lemma {:induction false} RayColorBounded(r: Ray, world: seq<Sphere>, depth: int, sqrt: real -> real, scatter: Scatterer)
    requires AllWellFormed(world) && IsSqrt(sqrt) && AttenuationsBounded(scatter)
    ensures InUnitCube(RayColor(r, world, depth, sqrt, scatter))
    decreases depth
  {
    if depth > 0 {
      match ListHit(world, r, MinHitDistance, Infinite, sqrt)
      case None =>
        BackgroundBounded(r, sqrt);
      case Some(rec) =>
        match scatter(r, rec, depth)
        case None =>
        case Some(s) =>
          RayColorBounded(s.ray, world, depth - 1, sqrt, scatter);
          MulInUnitCube(RayColor(s.ray, world, depth - 1, sqrt, scatter), s.attenuation);
    }
  }

  /** The last bounce: with one bounce left, any hit is black and a miss is the background. */
  lemma LastBounce(r: Ray, world: seq<Sphere>, sqrt: real -> real, scatter: Scatterer)
    requires AllWellFormed(world)
    ensures RayColor(r, world, 1, sqrt, scatter)
      == if ListHit(world, r, MinHitDistance, Infinite, sqrt).Some? then Black() else Background(r, sqrt)
  {
  }

  /**
   * The scatter rule of one material, with the draws of the bounce at each
   * remaining depth given by `draws`.
   */
  function MaterialScatterer(m: Material, draws: int -> Draws, sqrt: real -> real): Scatterer
    requires UsableMaterial(m)
  {
    (r: Ray, rec: HitRecord, k: int) => Scatter(m, r, rec, draws(k), sqrt)
  }

  /**
   * The colour bound reaches the real materials: rendered with a material
   * whose albedo lies in the unit cube, every colour lies in the unit cube.
   */
  lemma MaterialColorBounded(r: Ray, world: seq<Sphere>, depth: int, sqrt: real -> real,
                             m: Material, draws: int -> Draws)
    requires AllWellFormed(world) && IsSqrt(sqrt)
    requires UsableMaterial(m) && (!m.Dielectric? ==> InUnitCube(m.albedo))
    ensures InUnitCube(RayColor(r, world, depth, sqrt, MaterialScatterer(m, draws, sqrt)))
  {
    var scatter := MaterialScatterer(m, draws, sqrt);
    forall r': Ray, rec: HitRecord, k: int
      ensures scatter(r', rec, k).Some? ==> InUnitCube(scatter(r', rec, k).value.attenuation)
    {
      ScatterAttenuationBounded(m, r', rec, draws(k), sqrt);
    }
    RayColorBounded(r, world, depth, sqrt, scatter);
  }
}
