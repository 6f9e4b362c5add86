/**
 * The materials' `scatter` rules (src/material.rs). Each rule is
 * straight-line code returning an `Option`; the random draws it makes are
 * inputs, and the square root is a parameter.
 */
module Scattering {
  import opened Vectors
  import opened Rays
  import opened Options
  import opened Materials
  import opened HitRecords
  import opened Spheres

  /** A scattered ray together with its colour attenuation. */
  datatype Scattered = Scattered(ray: Ray, attenuation: Color)

  /**
   * The draws one `scatter` call may make: `random_unit_vector()` for the
   * Lambertian and metal rules, and `random::<f64>()` for the dielectric.
   */
  datatype Draws = Draws(unitVector: Vec3, uniform: real)

  /** A dielectric whose index makes the source divide by zero is excluded. */
  predicate UsableMaterial(m: Material)
  {
    m.Dielectric? ==> m.ir != 0.0 && m.ir != -1.0
  }

  // ---------------------------------------------------------------------
  // Lambertian
  // ---------------------------------------------------------------------

  /** The diffuse direction, falling back to the normal when the sum is degenerate. */
  function LambertianDirection(normal: Vec3, sample: Vec3): (d: Vec3)
    ensures NearZero(Add(normal, sample)) ==> d == normal
    ensures !NearZero(Add(normal, sample)) ==> d == Add(normal, sample)
    ensures !NearZero(normal) ==> !NearZero(d)
  {
    var candidate := Add(normal, sample);
    if NearZero(candidate) then normal else candidate
  }

  /** `Lambertian::scatter`: never absorbs; leaves from the hit point with the albedo. */
  function LambertianScatter(albedo: Color, rec: HitRecord, d: Draws): (res: Option<Scattered>)
    ensures res.Some?
    ensures Origin(res.value.ray) == rec.p && res.value.attenuation == albedo
    ensures Direction(res.value.ray) == LambertianDirection(rec.normal, d.unitVector)
  {
    Some(Scattered(NewRay(rec.p, LambertianDirection(rec.normal, d.unitVector)), albedo))
  }

  /**
   * With a unit normal and a unit sample the diffuse direction never points
   * into the surface.
   */
  lemma LambertianLeavesSurface(normal: Vec3, sample: Vec3)
    requires Dot(normal, normal) == 1.0 && Dot(sample, sample) == 1.0
    ensures Dot(LambertianDirection(normal, sample), normal) >= 0.0
  {
    UnitDotBounded(sample, normal);
    DotLinear(normal, sample, normal, 1.0);
    assert Dot(Add(normal, sample), normal) == Dot(normal, normal) + Dot(sample, normal);
  }

  // ---------------------------------------------------------------------
  // Metal
  // ---------------------------------------------------------------------

  /**
   * `Metal::scatter`: the mirror direction perturbed by `fuzz` times the
   * sample; absorbed when the hit is on the back face.
   */
  function MetalScatter(albedo: Color, fuzz: real, rIn: Ray, rec: HitRecord, d: Draws): (res: Option<Scattered>)
    ensures res.None? <==> !rec.frontFace
    ensures res.Some? ==> Origin(res.value.ray) == rec.p && res.value.attenuation == albedo
    ensures res.Some? ==>
      Direction(res.value.ray) == Add(Reflect(Direction(rIn), rec.normal), Scale(d.unitVector, fuzz))
  {
    var reflected := Reflect(Direction(rIn), rec.normal);
    var scattered := NewRay(rec.p, Add(reflected, Scale(d.unitVector, fuzz)));
    if rec.frontFace then Some(Scattered(scattered, albedo)) else None
  }

  /**
   * A polished metal (fuzz 0) is a mirror: the normal component of the
   * direction changes sign, the length is kept, and a ray arriving against
   * the normal leaves along it.
   */
  lemma PolishedMetalMirrors(albedo: Color, rIn: Ray, rec: HitRecord, d: Draws)
    requires rec.frontFace && Dot(rec.normal, rec.normal) == 1.0
    ensures var out := Direction(MetalScatter(albedo, 0.0, rIn, rec, d).value.ray);
      Dot(out, rec.normal) == -Dot(Direction(rIn), rec.normal) &&
      LengthSquared(out) == LengthSquared(Direction(rIn)) &&
      (Dot(Direction(rIn), rec.normal) <= 0.0 ==> Dot(out, rec.normal) >= 0.0)
  {
    var reflected := Reflect(Direction(rIn), rec.normal);
    assert Add(reflected, Scale(d.unitVector, 0.0)) == reflected;
    ReflectFlipsNormalComponent(Direction(rIn), rec.normal);
    ReflectPreservesLength(Direction(rIn), rec.normal);
  }

  /**
   * On a record oriented by `set_face_normal`, the metal absorbs exactly
   * the rays that meet the surface from inside (or tangentially).
   */
  lemma MetalAbsorbsFromInside(albedo: Color, fuzz: real, rIn: Ray, rec: HitRecord, outward: Vec3, d: Draws)
    ensures MetalScatter(albedo, fuzz, rIn, SetFaceNormal(rec, rIn, outward), d).None?
        <==> Dot(Direction(rIn), outward) >= 0.0
  {
  }

  /**
   * A mirror sphere struck dead centre: a unit-direction ray aimed at the
   * centre of a polished metal sphere is sent straight back.
   */
  lemma MirrorSphereReflectsBack(s: Sphere, r: Ray, k: real, tMin: real, tMax: Horizon, sqrt: real -> real,
                                 albedo: Color, d: Draws)
    requires IsSqrt(sqrt)
    requires 0.0 < s.radius < k
    requires LengthSquared(Direction(r)) == 1.0
    requires Origin(r) == Sub(s.center, Scale(Direction(r), k))
    requires Within(k - s.radius, tMin, tMax)
    ensures WellFormed(s) && Hit(s, r, tMin, tMax, sqrt).Some?
    ensures var rec := Hit(s, r, tMin, tMax, sqrt).value;
      MetalScatter(albedo, 0.0, r, rec, d) == Some(Scattered(NewRay(rec.p, Neg(Direction(r))), albedo))
  {
    AimedAtCenter(s, r, k, tMin, tMax, sqrt);
    var rec := Hit(s, r, tMin, tMax, sqrt).value;
    var dir := Direction(r);
    DotOfNeg(dir, dir);
    assert Reflect(dir, Neg(dir)) == Neg(dir);
    assert Add(Neg(dir), Scale(d.unitVector, 0.0)) == Neg(dir);
  }

  // ---------------------------------------------------------------------
  // Dielectric
  // ---------------------------------------------------------------------

  /** `cos_theta`: minus the dot of the normalised incoming direction with the normal. */
  function CosTheta(rIn: Ray, normal: Vec3, sqrt: real -> real): real
  {
    -Dot(Normalize(Direction(rIn), sqrt), normal)
  }

  /** `sin_theta`: the square root of one minus cos squared. */
  function SinTheta(cosTheta: real, sqrt: real -> real): real
  {
    sqrt(1.0 - cosTheta * cosTheta)
  }

  /** The dielectric's choice: reflect when refraction is impossible or the draw falls below the reflectance. */
  predicate DielectricReflects(ir: real, rIn: Ray, rec: HitRecord, uniform: real, sqrt: real -> real)
    requires ir != 0.0 && ir != -1.0
  {
    var ratio := RefractionRatio(rec.frontFace, ir);
    R0Reciprocal(ir);
    var cosTheta := CosTheta(rIn, rec.normal, sqrt);
    var cannotRefract := ratio * SinTheta(cosTheta, sqrt) > 1.0;
    cannotRefract || Reflectance(cosTheta, ratio) > uniform
  }

  /** `Dielectric::scatter`: never absorbs, attenuates nothing, and reflects or refracts. */
  function DielectricScatter(ir: real, rIn: Ray, rec: HitRecord, d: Draws, sqrt: real -> real): (res: Option<Scattered>)
    requires ir != 0.0 && ir != -1.0
    ensures res.Some?
    ensures Origin(res.value.ray) == rec.p && res.value.attenuation == Vec3(1.0, 1.0, 1.0)
    ensures DielectricReflects(ir, rIn, rec, d.uniform, sqrt) ==>
      Direction(res.value.ray) == Reflect(Direction(rIn), rec.normal)
    ensures !DielectricReflects(ir, rIn, rec, d.uniform, sqrt) ==>
      Direction(res.value.ray) == Refract(Direction(rIn), rec.normal, RefractionRatio(rec.frontFace, ir), sqrt)
  {
    var ratio := RefractionRatio(rec.frontFace, ir);
    var direction :=
      if DielectricReflects(ir, rIn, rec, d.uniform, sqrt) then Reflect(Direction(rIn), rec.normal)
      else Refract(Direction(rIn), rec.normal, ratio, sqrt);
    Some(Scattered(NewRay(rec.p, direction), Vec3(1.0, 1.0, 1.0)))
  }

  /** Schlick's reflectance does not depend on which side the ray comes from. */
  lemma ReflectanceSideIndependent(cosine: real, ir: real)
    requires ir != 0.0 && ir != -1.0
    ensures RefractionRatio(true, ir) != -1.0
    ensures Reflectance(cosine, RefractionRatio(true, ir)) == Reflectance(cosine, RefractionRatio(false, ir))
  {
    R0Reciprocal(ir);
    assert RefractionRatio(true, ir) == 1.0 / ir;
  }

  /** Total internal reflection: when refraction is impossible the ray reflects, whatever the draw. */
  lemma CannotRefractReflects(ir: real, rIn: Ray, rec: HitRecord, uniform: real, sqrt: real -> real)
    requires ir != 0.0 && ir != -1.0
    requires RefractionRatio(rec.frontFace, ir) * SinTheta(CosTheta(rIn, rec.normal, sqrt), sqrt) > 1.0
    ensures DielectricReflects(ir, rIn, rec, uniform, sqrt)
  {
  }

  /** A ray grazing the surface (cos_theta = 0) always reflects for a draw in [0,1). */
  lemma GrazingRayReflects(ir: real, rIn: Ray, rec: HitRecord, uniform: real, sqrt: real -> real)
    requires ir != 0.0 && ir != -1.0
    requires CosTheta(rIn, rec.normal, sqrt) == 0.0 && 0.0 <= uniform < 1.0
    ensures DielectricReflects(ir, rIn, rec, uniform, sqrt)
  {
    R0Reciprocal(ir);
    ReflectanceGrazing(RefractionRatio(rec.frontFace, ir));
  }

  /**
   * Entering a denser medium (front face, index at least 1) refraction is
   * always possible, so total internal reflection never happens there.
   */
  lemma EnteringDenserCanRefract(ir: real, rIn: Ray, rec: HitRecord, sqrt: real -> real)
    requires IsSqrt(sqrt) && 1.0 <= ir && rec.frontFace && Dot(rec.normal, rec.normal) == 1.0
    ensures RefractionRatio(rec.frontFace, ir) * SinTheta(CosTheta(rIn, rec.normal, sqrt), sqrt) <= 1.0
  {
    var ratio := RefractionRatio(true, ir);
    RatioAtMostOne(ratio, ir);
    var cosTheta := CosTheta(rIn, rec.normal, sqrt);
    CosThetaBounded(rIn, rec.normal, sqrt);
    var sin := SinTheta(cosTheta, sqrt);
    SinThetaBounded(cosTheta, sqrt);
    ProductMonotone(ratio, 1.0, sin, 1.0);
  }

  lemma RatioAtMostOne(ratio: real, ir: real)
    requires ratio * ir == 1.0 && 1.0 <= ir
    ensures 0.0 <= ratio <= 1.0
  {
  }

  /** With a unit normal, cos_theta lies in [-1,1]. */
  lemma CosThetaBounded(rIn: Ray, normal: Vec3, sqrt: real -> real)
    requires IsSqrt(sqrt) && Dot(normal, normal) == 1.0
    ensures -1.0 <= CosTheta(rIn, normal, sqrt) <= 1.0
  {
    var u := Normalize(Direction(rIn), sqrt);
    if Direction(rIn) == Zero() {
      NormalizeZero(sqrt);
    } else {
      NormalizeIsUnit(Direction(rIn), sqrt);
      UnitDotBounded(u, normal);
    }
  }

  /** For cos_theta in [-1,1], sin_theta lies in [0,1]. */
  lemma SinThetaBounded(cosTheta: real, sqrt: real -> real)
    requires IsSqrt(sqrt) && -1.0 <= cosTheta <= 1.0
    ensures 0.0 <= SinTheta(cosTheta, sqrt) <= 1.0
  {
    SquareAtMostOneIfBounded(cosTheta);
    SquareNonNegative(cosTheta);
    var sin := SinTheta(cosTheta, sqrt);
    assert sin * sin <= 1.0;
    SquareAtMostOne(sin);
  }

  // ---------------------------------------------------------------------
  // Dispatch on the material
  // ---------------------------------------------------------------------

  /** `Material::scatter` for each kind of material. */
  function Scatter(m: Material, rIn: Ray, rec: HitRecord, d: Draws, sqrt: real -> real): (res: Option<Scattered>)
    requires UsableMaterial(m)
    ensures res.None? <==> m.Metal? && !rec.frontFace
    ensures res.Some? ==> Origin(res.value.ray) == rec.p
    ensures res.Some? && m.Dielectric? ==> res.value.attenuation == Vec3(1.0, 1.0, 1.0)
    ensures res.Some? && !m.Dielectric? ==> res.value.attenuation == m.albedo
  {
    match m
    case Lambertian(albedo) => LambertianScatter(albedo, rec, d)
    case Metal(albedo, fuzz) => MetalScatter(albedo, fuzz, rIn, rec, d)
    case Dielectric(ir) => DielectricScatter(ir, rIn, rec, d, sqrt)
  }

  /**
   * No material creates energy: with its albedo in the unit cube (glass has
   * none and attenuates by (1,1,1)), every scattered ray's attenuation lies
   * in the unit cube.
   */
  lemma ScatterAttenuationBounded(m: Material, rIn: Ray, rec: HitRecord, d: Draws, sqrt: real -> real)
    requires UsableMaterial(m) && (!m.Dielectric? ==> InUnitCube(m.albedo))
    ensures var res := Scatter(m, rIn, rec, d, sqrt);
      res.Some? ==> InUnitCube(res.value.attenuation)
  {
  }
}
