/**
 * Ray-sphere intersection (src/sphere.rs). The ray meets the sphere where
 * |O + tD - C|^2 = r^2, a quadratic a t^2 + 2 half_b t + c = 0; `hit` tries
 * the smaller root first and falls back to the larger one, each checked
 * against [t_min, t_max].
 */
module Spheres {
  import opened Vectors
  import opened Rays
  import opened Options
  import opened HitRecords

  datatype Sphere = Sphere(center: Point3, radius: real)

  /** A zero radius makes the source divide by zero when it builds the normal. */
  predicate WellFormed(s: Sphere)
  {
    s.radius != 0.0
  }

  /** The reference definition of a hit: at parameter t the ray lies on the surface. */
  predicate OnSurface(s: Sphere, r: Ray, t: real)
  {
    LengthSquared(Sub(At(r, t), s.center)) == s.radius * s.radius
  }

  // ---------------------------------------------------------------------
  // The quadratic's coefficients, as `hit` computes them
  // ---------------------------------------------------------------------

  /** `oc`: from the centre to the ray's origin. */
  function Offset(s: Sphere, r: Ray): Vec3
  {
    Sub(Origin(r), s.center)
  }

  function QuadA(r: Ray): real
  {
    LengthSquared(Direction(r))
  }

  function HalfB(s: Sphere, r: Ray): real
  {
    Dot(Direction(r), Offset(s, r))
  }

  function QuadC(s: Sphere, r: Ray): real
  {
    LengthSquared(Offset(s, r)) - s.radius * s.radius
  }

  function Discriminant(s: Sphere, r: Ray): real
  {
    HalfB(s, r) * HalfB(s, r) - QuadA(r) * QuadC(s, r)
  }

  /** The quadratic itself, evaluated at t. */
  function Quadratic(s: Sphere, r: Ray, t: real): real
  {
    QuadA(r) * t * t + 2.0 * HalfB(s, r) * t + QuadC(s, r)
  }

  function NearRoot(s: Sphere, r: Ray, sqrtd: real): real
    requires QuadA(r) != 0.0
  {
    (-HalfB(s, r) - sqrtd) / QuadA(r)
  }

  function FarRoot(s: Sphere, r: Ray, sqrtd: real): real
    requires QuadA(r) != 0.0
  {
    (-HalfB(s, r) + sqrtd) / QuadA(r)
  }

  /** `(p - center) / radius`: the outward normal at a surface point. */
  function OutwardNormal(s: Sphere, p: Point3): Vec3
    requires WellFormed(s)
  {
    DivScalar(Sub(p, s.center), s.radius)
  }

  /**
   * The record `hit` fills in for an accepted root: a default record with
   * `t` and `p` set, then `set_face_normal` with the outward normal.
   */
  function Record(s: Sphere, r: Ray, t: real): (rec: HitRecord)
    requires WellFormed(s)
    ensures rec.t == t && rec.p == At(r, t) && rec.mat == None
    ensures rec.frontFace ==> rec.normal == OutwardNormal(s, rec.p)
    ensures !rec.frontFace ==> rec.normal == Neg(OutwardNormal(s, rec.p))
    ensures rec.frontFace <==> Dot(Direction(r), OutwardNormal(s, rec.p)) < 0.0
    ensures Dot(Direction(r), rec.normal) <= 0.0
  {
    var p := At(r, t);
    SetFaceNormal(DefaultRecord().(t := t, p := p), r, OutwardNormal(s, p))
  }

  /**
   * `Sphere::hit`. A ray with a zero direction (a == 0) makes the source
   * divide by zero and accept a NaN root; here it is reported as a miss.
   */
  function Hit(s: Sphere, r: Ray, tMin: real, tMax: Horizon, sqrt: real -> real): (res: Option<HitRecord>)
    requires WellFormed(s)
    ensures Discriminant(s, r) < 0.0 ==> res == None
    ensures res.Some? ==> Within(res.value.t, tMin, tMax) && res.value == Record(s, r, res.value.t)
  {
    var a := QuadA(r);
    var disc := Discriminant(s, r);
    if disc < 0.0 || a == 0.0 then
      None
    else
      var sqrtd := sqrt(disc);
      var near := NearRoot(s, r, sqrtd);
      if Within(near, tMin, tMax) then
        Some(Record(s, r, near))
      else
        var far := FarRoot(s, r, sqrtd);
        if Within(far, tMin, tMax) then Some(Record(s, r, far)) else None
  }

  // ---------------------------------------------------------------------
  // Root selection
  // ---------------------------------------------------------------------

  /**
   * The near root is returned whenever it lies in range; otherwise the far
   * root if it does; otherwise nothing.
   */
  lemma HitRootSelection(s: Sphere, r: Ray, tMin: real, tMax: Horizon, sqrt: real -> real)
    requires WellFormed(s)
    requires QuadA(r) != 0.0 && 0.0 <= Discriminant(s, r)
    ensures var sqrtd := sqrt(Discriminant(s, r));
      var near := NearRoot(s, r, sqrtd);
      var far := FarRoot(s, r, sqrtd);
      Hit(s, r, tMin, tMax, sqrt)
        == if Within(near, tMin, tMax) then Some(Record(s, r, near))
           else if Within(far, tMin, tMax) then Some(Record(s, r, far))
           else None
  {
  }

  // ---------------------------------------------------------------------
  // The quadratic describes the surface
  // ---------------------------------------------------------------------

  lemma SquareOfSum(p: real, q: real, t: real)
    ensures (p + q * t) * (p + q * t) == p * p + 2.0 * t * (q * p) + t * t * (q * q)
  {
  }

  lemma DotOfAffine(oc: Vec3, d: Vec3, t: real)
    ensures var w := Add(oc, Scale(d, t));
      Dot(w, w) == Dot(oc, oc) + 2.0 * t * Dot(d, oc) + t * t * Dot(d, d)
  {
    SquareOfSum(oc.x, d.x, t);
    SquareOfSum(oc.y, d.y, t);
    SquareOfSum(oc.z, d.z, t);
  }

  /** |P(t) - C|^2 - r^2 is the quadratic whose coefficients `hit` computes. */
  lemma QuadraticIdentity(s: Sphere, r: Ray, t: real)
    ensures LengthSquared(Sub(At(r, t), s.center)) - s.radius * s.radius == Quadratic(s, r, t)
    ensures OnSurface(s, r, t) <==> Quadratic(s, r, t) == 0.0
  {
    var oc := Offset(s, r);
    assert Sub(At(r, t), s.center) == Add(oc, Scale(r.dir, t));
    DotOfAffine(oc, r.dir, t);
  }

  lemma ScaledQuadratic(a: real, hb: real, c: real, sq: real, t: real)
    requires sq * sq == hb * hb - a * c
    ensures a * (a * t * t + 2.0 * hb * t + c) == (a * t + hb - sq) * (a * t + hb + sq)
  {
    var u := a * t + hb;
    calc {
      (a * t + hb - sq) * (a * t + hb + sq);
      u * u - sq * sq;
      u * u - (hb * hb - a * c);
      a * a * t * t + 2.0 * a * t * hb + a * c;
      a * (a * t * t + 2.0 * hb * t + c);
    }
  }

  lemma ProductZero(x: real, y: real)
    ensures x * y == 0.0 <==> x == 0.0 || y == 0.0
  {
  }

  lemma SolveLinear(a: real, b: real, t: real)
    requires a != 0.0
    ensures a * t + b == 0.0 <==> t == -b / a
  {
  }

  /** With sq a square root of the discriminant, the roots are (-hb -/+ sq)/a. */
  lemma RootsOfQuadratic(a: real, hb: real, c: real, sq: real, t: real)
    requires a != 0.0
    requires sq * sq == hb * hb - a * c
    ensures a * t * t + 2.0 * hb * t + c == 0.0 <==> t == (-hb - sq) / a || t == (-hb + sq) / a
  {
    ScaledQuadratic(a, hb, c, sq, t);
    ProductZero(a, a * t * t + 2.0 * hb * t + c);
    ProductZero(a * t + hb - sq, a * t + hb + sq);
    SolveLinear(a, hb - sq, t);
    SolveLinear(a, hb + sq, t);
    assert -(hb - sq) / a == (-hb + sq) / a;
    assert -(hb + sq) / a == (-hb - sq) / a;
  }

  /** A negative discriminant leaves the quadratic without a real root. */
  lemma NoRootWhenNegative(a: real, hb: real, c: real, t: real)
    requires a != 0.0
    requires hb * hb - a * c < 0.0
    ensures a * t * t + 2.0 * hb * t + c != 0.0
  {
    var u := a * t + hb;
    var q := a * t * t + 2.0 * hb * t + c;
    assert a * q == u * u - (hb * hb - a * c);
    assert 0.0 <= u * u;
  }

  lemma DivMonotone(x: real, y: real, a: real)
    requires x <= y && 0.0 < a
    ensures x / a <= y / a
  {
    assert y / a - x / a == (y - x) / a;
  }

  /** A ray with a non-zero direction meets the surface exactly at the two roots. */
  lemma SurfaceRoots(s: Sphere, r: Ray, sqrt: real -> real, t: real)
    requires IsSqrt(sqrt)
    requires QuadA(r) != 0.0 && 0.0 <= Discriminant(s, r)
    ensures var sqrtd := sqrt(Discriminant(s, r));
      NearRoot(s, r, sqrtd) <= FarRoot(s, r, sqrtd) &&
      (OnSurface(s, r, t) <==> t == NearRoot(s, r, sqrtd) || t == FarRoot(s, r, sqrtd))
  {
    var sqrtd := sqrt(Discriminant(s, r));
    QuadraticIdentity(s, r, t);
    OrderedRoots(QuadA(r), HalfB(s, r), QuadC(s, r), sqrtd, t);
  }

  /** The two roots are ordered, and they are the only solutions. */
  lemma OrderedRoots(a: real, hb: real, c: real, sq: real, t: real)
    requires 0.0 < a && 0.0 <= sq && sq * sq == hb * hb - a * c
    ensures (-hb - sq) / a <= (-hb + sq) / a
    ensures a * t * t + 2.0 * hb * t + c == 0.0 <==> t == (-hb - sq) / a || t == (-hb + sq) / a
  {
    DivMonotone(-hb - sq, -hb + sq, a);
    RootsOfQuadratic(a, hb, c, sq, t);
  }

  /** A negative discriminant means the ray never meets the surface. */
  lemma NegativeDiscriminantMisses(s: Sphere, r: Ray, t: real)
    requires Discriminant(s, r) < 0.0
    ensures !OnSurface(s, r, t)
  {
    var hb := HalfB(s, r);
    assert 0.0 <= hb * hb;
    QuadraticIdentity(s, r, t);
    NoRootWhenNegative(QuadA(r), hb, QuadC(s, r), t);
  }

  // ---------------------------------------------------------------------
  // What `hit` returns, against the reference definition
  // ---------------------------------------------------------------------

  /** Every reported hit lies on the surface (so it solves the quadratic). */
  lemma HitIsOnSurface(s: Sphere, r: Ray, tMin: real, tMax: Horizon, sqrt: real -> real)
    requires WellFormed(s) && IsSqrt(sqrt)
    requires Hit(s, r, tMin, tMax, sqrt).Some?
    ensures var t := Hit(s, r, tMin, tMax, sqrt).value.t;
      OnSurface(s, r, t) && Quadratic(s, r, t) == 0.0
  {
    var t := Hit(s, r, tMin, tMax, sqrt).value.t;
    SurfaceRoots(s, r, sqrt, t);
    QuadraticIdentity(s, r, t);
  }

  /** The reported hit is the nearest surface point within [t_min, t_max]. */
  lemma HitIsNearest(s: Sphere, r: Ray, tMin: real, tMax: Horizon, sqrt: real -> real, t': real)
    requires WellFormed(s) && IsSqrt(sqrt)
    requires Hit(s, r, tMin, tMax, sqrt).Some?
    requires Within(t', tMin, tMax) && OnSurface(s, r, t')
    ensures Hit(s, r, tMin, tMax, sqrt).value.t <= t'
  {
    SurfaceRoots(s, r, sqrt, t');
  }

  /** A miss by a ray with a non-zero direction means no surface point within range. */
  lemma MissMeansNoSurfacePoint(s: Sphere, r: Ray, tMin: real, tMax: Horizon, sqrt: real -> real, t': real)
    requires WellFormed(s) && IsSqrt(sqrt)
    requires QuadA(r) != 0.0
    requires Hit(s, r, tMin, tMax, sqrt).None?
    requires Within(t', tMin, tMax)
    ensures !OnSurface(s, r, t')
  {
    if Discriminant(s, r) < 0.0 {
      NegativeDiscriminantMisses(s, r, t');
    } else {
      SurfaceRoots(s, r, sqrt, t');
    }
  }

  /**
   * Lowering the upper end to `c` (itself within the interval) keeps the
   * hit when it lies at or before `c`, and never yields a later one.
   */
  lemma NarrowedHit(s: Sphere, r: Ray, tMin: real, tMax: Horizon, c: real, sqrt: real -> real)
    requires WellFormed(s) && IsSqrt(sqrt)
    requires Hit(s, r, tMin, tMax, sqrt).Some? && Within(c, tMin, tMax)
    ensures var h := Hit(s, r, tMin, tMax, sqrt).value;
      var n := Hit(s, r, tMin, Finite(c), sqrt);
      (h.t <= c ==> n == Some(h)) && (n.Some? ==> n.value.t <= h.t)
  {
    var h := Hit(s, r, tMin, tMax, sqrt).value;
    var n := Hit(s, r, tMin, Finite(c), sqrt);
    HitIsOnSurface(s, r, tMin, tMax, sqrt);
    if h.t <= c {
      assert QuadA(r) != 0.0;
      if n.None? {
        MissMeansNoSurfacePoint(s, r, tMin, Finite(c), sqrt, h.t);
        assert false;
      }
      HitIsNearest(s, r, tMin, Finite(c), sqrt, h.t);
      HitIsOnSurface(s, r, tMin, Finite(c), sqrt);
      WithinNarrowed(n.value.t, tMin, tMax, c);
      HitIsNearest(s, r, tMin, tMax, sqrt, n.value.t);
    }
  }

  /** At a surface point the outward normal has unit length. */
  lemma OutwardNormalIsUnit(s: Sphere, p: Point3)
    requires WellFormed(s)
    requires LengthSquared(Sub(p, s.center)) == s.radius * s.radius
    ensures LengthSquared(OutwardNormal(s, p)) == 1.0
  {
    var w := Sub(p, s.center);
    var k := 1.0 / s.radius;
    DivScalarUndoesScale(w, s.radius);
    LengthSquaredOfScale(w, k);
    calc {
      LengthSquared(OutwardNormal(s, p));
      LengthSquared(Scale(w, k));
      k * k * (s.radius * s.radius);
      (k * s.radius) * (k * s.radius);
      1.0;
    }
  }

  /** The stored normal of a reported hit has unit length. */
  lemma HitNormalIsUnit(s: Sphere, r: Ray, tMin: real, tMax: Horizon, sqrt: real -> real)
    requires WellFormed(s) && IsSqrt(sqrt)
    requires Hit(s, r, tMin, tMax, sqrt).Some?
    ensures LengthSquared(Hit(s, r, tMin, tMax, sqrt).value.normal) == 1.0
  {
    var rec := Hit(s, r, tMin, tMax, sqrt).value;
    HitIsOnSurface(s, r, tMin, tMax, sqrt);
    OutwardNormalIsUnit(s, rec.p);
    var n := OutwardNormal(s, rec.p);
    assert LengthSquared(Neg(n)) == LengthSquared(n);
  }

  // ---------------------------------------------------------------------
  // Rays starting inside, and a ray aimed at the centre
  // ---------------------------------------------------------------------

  /** A square root that exceeds |h| in square exceeds |h|. */
  lemma SqrtDominates(sq: real, h: real)
    requires 0.0 <= sq && h * h < sq * sq
    ensures -sq < h < sq
  {
    if sq <= h {
      ProductMonotone(sq, h, sq, h);
    } else if h <= -sq {
      ProductMonotone(sq, -h, sq, -h);
    }
  }

  lemma DivNegative(x: real, a: real)
    requires x < 0.0 && 0.0 < a
    ensures x / a < 0.0
  {
  }

  /**
   * A ray that starts strictly inside the sphere skips the near root,
   * which lies behind its origin, and reports the far root: the exit point.
   */
  lemma InsideGivesFarRoot(s: Sphere, r: Ray, tMin: real, sqrt: real -> real)
    requires WellFormed(s) && IsSqrt(sqrt)
    requires QuadA(r) != 0.0
    requires LengthSquared(Offset(s, r)) < s.radius * s.radius
    requires 0.0 <= tMin
    ensures 0.0 <= Discriminant(s, r)
    ensures var sqrtd := sqrt(Discriminant(s, r));
      NearRoot(s, r, sqrtd) < 0.0 &&
      Hit(s, r, tMin, Infinite, sqrt)
        == if tMin <= FarRoot(s, r, sqrtd) then Some(Record(s, r, FarRoot(s, r, sqrtd))) else None
  {
    var a := QuadA(r);
    var hb := HalfB(s, r);
    var c := QuadC(s, r);
    assert 0.0 < a;
    assert c < 0.0;
    calc {
      hb * hb;
    < hb * hb - a * c;
      Discriminant(s, r);
    }
    assert 0.0 <= hb * hb;
    var sqrtd := sqrt(Discriminant(s, r));
    assert 0.0 <= sqrtd && sqrtd * sqrtd == Discriminant(s, r);
    SqrtDominates(sqrtd, hb);
    DivNegative(-hb - sqrtd, a);
  }

  /** The non-negative square root of r^2, for r >= 0, is r. */
  lemma SqrtOfSquare(sqrt: real -> real, x: real, r: real)
    requires IsSqrt(sqrt) && 0.0 <= r && x == r * r
    ensures sqrt(x) == r
  {
    assert 0.0 <= r * r;
    var q := sqrt(x);
    assert 0.0 <= q && q * q == r * r;
    assert (q - r) * (q + r) == 0.0;
    ProductZero(q - r, q + r);
  }

  /**
   * A unit-direction ray that starts at distance k > radius from the centre
   * and points at it hits the near side at t = k - radius, on the front
   * face, where the normal points straight back along the ray.
   */
  lemma AimedAtCenter(s: Sphere, r: Ray, k: real, tMin: real, tMax: Horizon, sqrt: real -> real)
    requires IsSqrt(sqrt)
    requires 0.0 < s.radius < k
    requires LengthSquared(Direction(r)) == 1.0
    requires Origin(r) == Sub(s.center, Scale(Direction(r), k))
    requires Within(k - s.radius, tMin, tMax)
    ensures WellFormed(s)
    ensures Hit(s, r, tMin, tMax, sqrt)
         == Some(HitRecord(Sub(s.center, Scale(Direction(r), s.radius)), Neg(Direction(r)), None, k - s.radius, true))
  {
    AimedCoefficients(s, r, k);
    AimedDiscriminant(s, r, k);
    SqrtOfSquare(sqrt, Discriminant(s, r), s.radius);
    AimedNearRoot(s, r, k);
    AimedRecord(s, r, k);
    HitRootSelection(s, r, tMin, tMax, sqrt);
  }

  lemma AimedOffset(s: Sphere, r: Ray, k: real)
    requires Origin(r) == Sub(s.center, Scale(Direction(r), k))
    ensures Offset(s, r) == Scale(Direction(r), -k)
  {
  }

  lemma AimedCoefficients(s: Sphere, r: Ray, k: real)
    requires LengthSquared(Direction(r)) == 1.0
    requires Origin(r) == Sub(s.center, Scale(Direction(r), k))
    ensures QuadA(r) == 1.0
    ensures HalfB(s, r) == -k
    ensures QuadC(s, r) == k * k - s.radius * s.radius
  {
    var d := r.dir;
    AimedOffset(s, r, k);
    DotLinear(d, d, d, -k);
    DotSymmetric(d, Scale(d, -k));
    LengthSquaredOfScale(d, -k);
  }

  lemma AimedDiscriminant(s: Sphere, r: Ray, k: real)
    requires LengthSquared(Direction(r)) == 1.0
    requires Origin(r) == Sub(s.center, Scale(Direction(r), k))
    ensures Discriminant(s, r) == s.radius * s.radius
  {
    AimedCoefficients(s, r, k);
    DiscriminantOf(HalfB(s, r), QuadA(r), QuadC(s, r), k, s.radius);
  }

  lemma DiscriminantOf(hb: real, a: real, c: real, k: real, rad: real)
    requires a == 1.0 && hb == -k && c == k * k - rad * rad
    ensures hb * hb - a * c == rad * rad
  {
  }

  lemma AimedNearRoot(s: Sphere, r: Ray, k: real)
    requires QuadA(r) == 1.0 && HalfB(s, r) == -k
    ensures NearRoot(s, r, s.radius) == k - s.radius
  {
  }

  lemma AimedPoint(s: Sphere, r: Ray, k: real)
    requires Origin(r) == Sub(s.center, Scale(Direction(r), k))
    ensures At(r, k - s.radius) == Sub(s.center, Scale(Direction(r), s.radius))
  {
    var d := r.dir;
    var rad := s.radius;
    assert d.x * (k - rad) == d.x * k - d.x * rad;
    assert d.y * (k - rad) == d.y * k - d.y * rad;
    assert d.z * (k - rad) == d.z * k - d.z * rad;
  }

  lemma AimedNormal(s: Sphere, r: Ray)
    requires 0.0 < s.radius
    ensures OutwardNormal(s, Sub(s.center, Scale(Direction(r), s.radius))) == Neg(Direction(r))
  {
    var d := r.dir;
    assert Sub(Sub(s.center, Scale(d, s.radius)), s.center) == Scale(Neg(d), s.radius);
    DivScalarExact(Scale(Neg(d), s.radius), s.radius, Neg(d));
  }

  lemma AimedRecord(s: Sphere, r: Ray, k: real)
    requires 0.0 < s.radius
    requires LengthSquared(Direction(r)) == 1.0
    requires Origin(r) == Sub(s.center, Scale(Direction(r), k))
    ensures Record(s, r, k - s.radius)
         == HitRecord(Sub(s.center, Scale(Direction(r), s.radius)), Neg(Direction(r)), None, k - s.radius, true)
  {
    AimedPoint(s, r, k);
    AimedNormal(s, r);
    DotOfNeg(r.dir, r.dir);
  }
}
