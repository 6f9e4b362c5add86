/**
 * Materials (src/material.rs): the three surface kinds with the values
 * their constructors store, and the closed-form pieces of the dielectric
 * rule: Schlick's reflectance and the choice of refraction ratio. The
 * scatter rules themselves, which need hit records, are in `Scattering`.
 */
module Materials {
  import opened Vectors

  datatype Material =
    | Lambertian(albedo: Color)
    | Metal(albedo: Color, fuzz: real)
    | Dielectric(ir: real)

  /** `Metal::new`: the fuzz is clamped from above at 1, never from below. */
  function MetalNew(albedo: Color, fuzz: real): (m: Material)
    ensures m.Metal? && m.albedo == albedo
    ensures m.fuzz <= 1.0
    ensures fuzz < 1.0 ==> m.fuzz == fuzz
    ensures 1.0 <= fuzz ==> m.fuzz == 1.0
  {
    Metal(albedo, if fuzz < 1.0 then fuzz else 1.0)
  }

  /** Clamping is idempotent: building a metal from a stored fuzz stores it again. */
  lemma MetalNewIdempotent(albedo: Color, fuzz: real)
    ensures MetalNew(albedo, MetalNew(albedo, fuzz).fuzz) == MetalNew(albedo, fuzz)
  {
  }

  /** `x` raised to the natural power `n` (`powi`). */
  function Pow(x: real, n: nat): real
  {
    if n == 0 then 1.0 else x * Pow(x, n - 1)
  }

  /** Schlick's reflectance at normal incidence, ((1 - ir) / (1 + ir))^2. */
  function R0(ir: real): real
    requires ir != -1.0
  {
    var q := (1.0 - ir) / (1.0 + ir);
    q * q
  }

  /**
   * `Dielectric::reflectance`: Schlick's approximation
   * r0 + (1 - r0) (1 - cosine)^5. An index of -1 divides by zero in the
   * source and is excluded here.
   */
  function Reflectance(cosine: real, ir: real): real
    requires ir != -1.0
  {
    var r0 := R0(ir);
    r0 + (1.0 - r0) * Pow(1.0 - cosine, 5)
  }

  /**
   * The refraction ratio of `Dielectric::scatter`: `1/ir` when the ray
   * enters through the front face, `ir` when it leaves through the back.
   */
  function RefractionRatio(frontFace: bool, ir: real): (ratio: real)
    requires ir != 0.0
    ensures frontFace ==> ratio * ir == 1.0
    ensures !frontFace ==> ratio == ir
  {
    if frontFace then 1.0 / ir else ir
  }

  // ---------------------------------------------------------------------
  // Properties of Schlick's polynomial
  // ---------------------------------------------------------------------

  lemma {:induction false} PowOfOne(n: nat)
    ensures Pow(1.0, n) == 1.0
  {
    if n > 0 {
      PowOfOne(n - 1);
    }
  }

  lemma {:induction false} PowOfZero(n: nat)
    requires n > 0
    ensures Pow(0.0, n) == 0.0
  {
  }

  lemma {:induction false} PowNonNegative(x: real, n: nat)
    requires 0.0 <= x
    ensures 0.0 <= Pow(x, n)
  {
    if n > 0 {
      PowNonNegative(x, n - 1);
      NonNegativeProduct(x, Pow(x, n - 1));
    }
  }

  /** Powers of non-negative reals are monotone in the base. */
  lemma {:induction false} PowMonotone(a: real, b: real, n: nat)
    requires 0.0 <= a <= b
    ensures Pow(a, n) <= Pow(b, n)
  {
    if n > 0 {
      PowMonotone(a, b, n - 1);
      PowNonNegative(a, n - 1);
      ProductMonotone(a, b, Pow(a, n - 1), Pow(b, n - 1));
    }
  }

  lemma {:induction false} PowAtMostOne(x: real, n: nat)
    requires 0.0 <= x <= 1.0
    ensures Pow(x, n) <= 1.0
  {
    PowMonotone(x, 1.0, n);
    PowOfOne(n);
  }

  /** For a non-negative index, the normal-incidence reflectance lies in [0,1]. */
  lemma R0Bounded(ir: real)
    requires 0.0 <= ir
    ensures 0.0 <= R0(ir) <= 1.0
  {
    var q := (1.0 - ir) / (1.0 + ir);
    assert -1.0 <= q <= 1.0;
    SquareNonNegative(q);
    SquareAtMostOneIfBounded(q);
  }

  lemma SquareAtMostOneIfBounded(q: real)
    requires -1.0 <= q <= 1.0
    ensures q * q <= 1.0
  {
    if q < 0.0 {
      ProductMonotone(-q, 1.0, -q, 1.0);
    } else {
      ProductMonotone(q, 1.0, q, 1.0);
    }
  }

  /** An index and its reciprocal reflect the same at normal incidence. */
  lemma R0Reciprocal(ir: real)
    requires ir != 0.0 && ir != -1.0
    ensures 1.0 / ir != -1.0
    ensures R0(1.0 / ir) == R0(ir)
  {
    var j := 1.0 / ir;
    assert (1.0 - j) / (1.0 + j) == -((1.0 - ir) / (1.0 + ir));
  }

  /** Head-on (cosine 1) the reflectance is exactly r0. */
  lemma ReflectanceHeadOn(ir: real)
    requires ir != -1.0
    ensures Reflectance(1.0, ir) == R0(ir)
  {
    PowOfZero(5);
  }

  /** At grazing incidence (cosine 0) everything is reflected. */
  lemma ReflectanceGrazing(ir: real)
    requires ir != -1.0
    ensures Reflectance(0.0, ir) == 1.0
  {
    PowOfOne(5);
  }

  /** For cosines in [0,1] the reflectance lies between r0 and 1. */
  lemma ReflectanceBounded(cosine: real, ir: real)
    requires 0.0 <= ir
    requires 0.0 <= cosine <= 1.0
    ensures R0(ir) <= Reflectance(cosine, ir) <= 1.0
  {
    var r0 := R0(ir);
    var p := Pow(1.0 - cosine, 5);
    R0Bounded(ir);
    PowNonNegative(1.0 - cosine, 5);
    PowAtMostOne(1.0 - cosine, 5);
    NonNegativeProduct(1.0 - r0, p);
    ProductMonotone(1.0 - r0, 1.0 - r0, p, 1.0);
  }

  /** The reflectance does not increase as the cosine grows towards 1. */
  lemma ReflectanceNonIncreasing(c1: real, c2: real, ir: real)
    requires 0.0 <= ir
    requires c1 <= c2 <= 1.0
    ensures Reflectance(c2, ir) <= Reflectance(c1, ir)
  {
    var r0 := R0(ir);
    R0Bounded(ir);
    PowMonotone(1.0 - c2, 1.0 - c1, 5);
    PowNonNegative(1.0 - c2, 5);
    ProductMonotone(1.0 - r0, 1.0 - r0, Pow(1.0 - c2, 5), Pow(1.0 - c1, 5));
  }
}
