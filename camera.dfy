/**
 * The camera (src/camera.rs): its frame, fixed at construction, and the
 * generation of primary rays through a thin lens. `tan`, `to_radians` and
 * the square root are parameters, and the lens sample is an input.
 */
module Cameras {
  import opened Vectors
  import opened Rays

  datatype Camera = Camera(
    origin: Point3,
    lowerLeftCorner: Point3,
    horizontal: Vec3,
    vertical: Vec3,
    lensRadius: real,
    u: Vec3,
    v: Vec3,
    w: Vec3)

  /** The viewport height for a vertical field of view given in degrees. */
  function ViewportHeight(vfov: real, tan: real -> real, toRadians: real -> real): real
  {
    2.0 * tan(toRadians(vfov) / 2.0)
  }

  /** The viewport width: the aspect ratio times the height. */
  function ViewportWidth(vfov: real, aspectRatio: real, tan: real -> real, toRadians: real -> real): real
  {
    aspectRatio * ViewportHeight(vfov, tan, toRadians)
  }

  /** `Camera::new`. */
  function NewCamera(lookFrom: Point3, lookAt: Point3, vup: Vec3, vfov: real, aspectRatio: real,
                     aperture: real, focusDist: real,
                     sqrt: real -> real, tan: real -> real, toRadians: real -> real): (cam: Camera)
    ensures cam.origin == lookFrom
    ensures cam.lensRadius * 2.0 == aperture
    ensures cam.horizontal == Scale(cam.u, ViewportWidth(vfov, aspectRatio, tan, toRadians))
    ensures cam.vertical == Scale(cam.v, ViewportHeight(vfov, tan, toRadians))
    ensures cam.w == Normalize(Sub(lookFrom, lookAt), sqrt)
    ensures cam.u == Normalize(Cross(vup, cam.w), sqrt)
    ensures cam.v == Cross(cam.w, cam.u)
  {
    var viewportHeight := ViewportHeight(vfov, tan, toRadians);
    var viewportWidth := ViewportWidth(vfov, aspectRatio, tan, toRadians);
    var w := Normalize(Sub(lookFrom, lookAt), sqrt);
    var u := Normalize(Cross(vup, w), sqrt);
    var v := Cross(w, u);
    var origin := lookFrom;
    var horizontal := Scale(u, viewportWidth);
    var vertical := Scale(v, viewportHeight);
    var lowerLeftCorner :=
      Sub(Sub(Sub(origin, DivScalar(horizontal, 2.0)), DivScalar(vertical, 2.0)), Scale(w, focusDist));
    Camera(origin, lowerLeftCorner, horizontal, vertical, aperture / 2.0, u, v, w)
  }

  /** The point of the focus plane that the rays for (s, t) pass through. */
  function FocusPoint(cam: Camera, s: real, t: real): Point3
  {
    Add(Add(cam.lowerLeftCorner, Scale(cam.horizontal, s)), Scale(cam.vertical, t))
  }

  /** Where the lens sample moves the ray's origin, relative to the camera origin. */
  function LensOffset(cam: Camera, disk: Vec3): Vec3
  {
    var rd := Scale(disk, cam.lensRadius);
    Add(Scale(cam.u, rd.x), Scale(cam.v, rd.y))
  }

  /**
   * `get_ray`: from the origin moved across the lens by the sample, towards
   * the focus-plane point for (s, t).
   */
  function GetRay(cam: Camera, s: real, t: real, disk: Vec3): (r: Ray)
    ensures Origin(r) == Add(cam.origin, LensOffset(cam, disk))
    ensures At(r, 1.0) == FocusPoint(cam, s, t)
  {
    var lightOrigin := Add(cam.origin, LensOffset(cam, disk));
    NewRay(lightOrigin, Sub(FocusPoint(cam, s, t), lightOrigin))
  }

  // ---------------------------------------------------------------------
  // The frame
  // ---------------------------------------------------------------------

  /** Normalising keeps a vector orthogonal to whatever it was orthogonal to. */
  lemma NormalizeKeepsOrthogonal(c: Vec3, w: Vec3, sqrt: real -> real)
    requires Dot(c, w) == 0.0
    ensures Dot(Normalize(c, sqrt), w) == 0.0
  {
    var l := Length(c, sqrt);
    if l != 0.0 {
      assert Normalize(c, sqrt) == Scale(c, 1.0 / l);
      DotLinear(c, c, w, 1.0 / l);
    }
  }

  /** u, v and w are pairwise orthogonal. */
  lemma FrameOrthogonal(lookFrom: Point3, lookAt: Point3, vup: Vec3, vfov: real, aspectRatio: real,
                        aperture: real, focusDist: real,
                        sqrt: real -> real, tan: real -> real, toRadians: real -> real)
    ensures var cam := NewCamera(lookFrom, lookAt, vup, vfov, aspectRatio, aperture, focusDist, sqrt, tan, toRadians);
      Dot(cam.u, cam.w) == 0.0 && Dot(cam.v, cam.w) == 0.0 && Dot(cam.v, cam.u) == 0.0
  {
    var cam := NewCamera(lookFrom, lookAt, vup, vfov, aspectRatio, aperture, focusDist, sqrt, tan, toRadians);
    CrossOrthogonal(vup, cam.w);
    NormalizeKeepsOrthogonal(Cross(vup, cam.w), cam.w, sqrt);
    CrossOrthogonal(cam.w, cam.u);
  }

  /**
   * Given a true square root, distinct look-from and look-at points and an
   * up vector not parallel to the view direction, the frame is orthonormal.
   */
  lemma FrameOrthonormal(lookFrom: Point3, lookAt: Point3, vup: Vec3, vfov: real, aspectRatio: real,
                         aperture: real, focusDist: real,
                         sqrt: real -> real, tan: real -> real, toRadians: real -> real)
    requires IsSqrt(sqrt) && lookFrom != lookAt
    requires Cross(vup, Normalize(Sub(lookFrom, lookAt), sqrt)) != Zero()
    ensures var cam := NewCamera(lookFrom, lookAt, vup, vfov, aspectRatio, aperture, focusDist, sqrt, tan, toRadians);
      LengthSquared(cam.u) == 1.0 && LengthSquared(cam.v) == 1.0 && LengthSquared(cam.w) == 1.0
  {
    var cam := NewCamera(lookFrom, lookAt, vup, vfov, aspectRatio, aperture, focusDist, sqrt, tan, toRadians);
    var w := Normalize(Sub(lookFrom, lookAt), sqrt);
    var u := Normalize(Cross(vup, w), sqrt);
    assert Sub(lookFrom, lookAt) != Zero();
    NormalizeIsUnit(Sub(lookFrom, lookAt), sqrt);
    NormalizeIsUnit(Cross(vup, w), sqrt);
    FrameOrthogonal(lookFrom, lookAt, vup, vfov, aspectRatio, aperture, focusDist, sqrt, tan, toRadians);
    DotSymmetric(u, w);
    CrossOfOrthonormal(w, u);
  }

  /**
   * The image plane has the requested aspect ratio: with a non-degenerate
   * frame, `horizontal` is `aspect_ratio` times as long as `vertical`.
   */
  lemma ImagePlaneAspect(lookFrom: Point3, lookAt: Point3, vup: Vec3, vfov: real, aspectRatio: real,
                         aperture: real, focusDist: real,
                         sqrt: real -> real, tan: real -> real, toRadians: real -> real)
    requires IsSqrt(sqrt) && lookFrom != lookAt
    requires Cross(vup, Normalize(Sub(lookFrom, lookAt), sqrt)) != Zero()
    ensures var cam := NewCamera(lookFrom, lookAt, vup, vfov, aspectRatio, aperture, focusDist, sqrt, tan, toRadians);
      LengthSquared(cam.horizontal) == aspectRatio * aspectRatio * LengthSquared(cam.vertical)
  {
    var cam := NewCamera(lookFrom, lookAt, vup, vfov, aspectRatio, aperture, focusDist, sqrt, tan, toRadians);
    var height := ViewportHeight(vfov, tan, toRadians);
    assert cam.horizontal == Scale(cam.u, aspectRatio * height);
    assert cam.vertical == Scale(cam.v, height);
    FrameOrthonormal(lookFrom, lookAt, vup, vfov, aspectRatio, aperture, focusDist, sqrt, tan, toRadians);
    ScaledUnitsRatio(cam.u, cam.v, aspectRatio, height);
  }

  /** Unit vectors scaled by `ratio * h` and by `h` have squared lengths in the ratio `ratio * ratio`. */
  lemma ScaledUnitsRatio(a: Vec3, b: Vec3, ratio: real, h: real)
    requires LengthSquared(a) == 1.0 && LengthSquared(b) == 1.0
    ensures LengthSquared(Scale(a, ratio * h)) == ratio * ratio * LengthSquared(Scale(b, h))
  {
    var width := ratio * h;
    LengthSquaredOfScale(a, width);
    LengthSquaredOfScale(b, h);
    calc {
      LengthSquared(Scale(a, width));
      width * width;
      ratio * ratio * (h * h);
      ratio * ratio * LengthSquared(Scale(b, h));
    }
  }

  /** The cross product of two orthogonal unit vectors is a unit vector. */
  lemma CrossOfOrthonormal(a: Vec3, b: Vec3)
    requires LengthSquared(a) == 1.0 && LengthSquared(b) == 1.0 && Dot(a, b) == 0.0
    ensures LengthSquared(Cross(a, b)) == 1.0
  {
    CrossLengthSquared(a, b);
  }

  /**
   * The centre of the image plane lies on the view axis at the focus
   * distance: lower-left corner plus half of each edge is origin - w * focus.
   */
  lemma ImagePlaneCentre(lookFrom: Point3, lookAt: Point3, vup: Vec3, vfov: real, aspectRatio: real,
                         aperture: real, focusDist: real,
                         sqrt: real -> real, tan: real -> real, toRadians: real -> real)
    ensures var cam := NewCamera(lookFrom, lookAt, vup, vfov, aspectRatio, aperture, focusDist, sqrt, tan, toRadians);
      FocusPoint(cam, 0.5, 0.5) == Sub(cam.origin, Scale(cam.w, focusDist))
  {
  }

  // ---------------------------------------------------------------------
  // Ray generation
  // ---------------------------------------------------------------------

  /** With a zero lens radius every ray starts at the camera origin: a pinhole camera. */
  lemma PinholeOrigin(cam: Camera, s: real, t: real, disk: Vec3)
    requires cam.lensRadius == 0.0
    ensures Origin(GetRay(cam, s, t, disk)) == cam.origin
  {
    assert LensOffset(cam, disk) == Zero();
  }

  /**
   * A pinhole camera's centre ray points from the look-from point along -w
   * for the focus distance, that is, straight at the view axis.
   */
  lemma PinholeCentreRay(lookFrom: Point3, lookAt: Point3, vup: Vec3, vfov: real, aspectRatio: real,
                         focusDist: real, disk: Vec3,
                         sqrt: real -> real, tan: real -> real, toRadians: real -> real)
    ensures var cam := NewCamera(lookFrom, lookAt, vup, vfov, aspectRatio, 0.0, focusDist, sqrt, tan, toRadians);
      var r := GetRay(cam, 0.5, 0.5, disk);
      Origin(r) == lookFrom && Direction(r) == Scale(cam.w, -focusDist)
  {
    var cam := NewCamera(lookFrom, lookAt, vup, vfov, aspectRatio, 0.0, focusDist, sqrt, tan, toRadians);
    PinholeOrigin(cam, 0.5, 0.5, disk);
    ImagePlaneCentre(lookFrom, lookAt, vup, vfov, aspectRatio, 0.0, focusDist, sqrt, tan, toRadians);
  }

  /** |a u + b v|^2 = a^2 + b^2 for orthonormal u and v. */
  lemma OrthonormalCombination(u: Vec3, v: Vec3, a: real, b: real)
    requires Dot(u, u) == 1.0 && Dot(v, v) == 1.0 && Dot(u, v) == 0.0
    ensures LengthSquared(Add(Scale(u, a), Scale(v, b))) == a * a + b * b
  {
    var p := Scale(u, a);
    var q := Scale(v, b);
    DotLinear(p, q, Add(p, q), 1.0);
    assert Dot(Add(p, q), Add(p, q)) == Dot(p, Add(p, q)) + Dot(q, Add(p, q));
    assert Dot(p, Add(p, q)) == Dot(p, p) + Dot(p, q);
    assert Dot(q, Add(p, q)) == Dot(q, p) + Dot(q, q);
    LengthSquaredOfScale(u, a);
    LengthSquaredOfScale(v, b);
    ScaledDotZero(u, v, a, b);
  }

  lemma ScaledDotZero(u: Vec3, v: Vec3, a: real, b: real)
    requires Dot(u, v) == 0.0
    ensures Dot(Scale(u, a), Scale(v, b)) == 0.0 && Dot(Scale(v, b), Scale(u, a)) == 0.0
  {
    assert Dot(Scale(u, a), Scale(v, b)) == a * b * Dot(u, v);
  }

  lemma ScaledDiskSquare(dx: real, dy: real, k: real)
    ensures (dx * k) * (dx * k) + (dy * k) * (dy * k) == k * k * (dx * dx + dy * dy)
  {
  }

  lemma ShrinkBySquare(k: real, q: real)
    requires k != 0.0 && q < 1.0
    ensures k * k * q < k * k
  {
    calc {
      k * k - k * k * q;
      k * (k * (1.0 - q));
    > { SquareTimesPositive(k, 1.0 - q); }
      0.0;
    }
  }

  lemma SquareTimesPositive(k: real, d: real)
    requires k != 0.0 && 0.0 < d
    ensures 0.0 < k * (k * d)
  {
    if 0.0 < k {
      PositiveProduct(k, d);
      PositiveProduct(k, k * d);
    } else {
      PositiveProduct(-k, d);
      PositiveProduct(-k, -k * d);
      assert k * (k * d) == (-k) * (-k * d);
    }
  }

  /**
   * Defocus blur stays within the aperture: with an orthonormal u, v and a
   * sample strictly inside the unit disk, the ray's origin lies strictly
   * within the lens radius of the camera origin.
   */
  lemma LensOriginWithinAperture(cam: Camera, s: real, t: real, disk: Vec3)
    requires Dot(cam.u, cam.u) == 1.0 && Dot(cam.v, cam.v) == 1.0 && Dot(cam.u, cam.v) == 0.0
    requires cam.lensRadius != 0.0 && disk.x * disk.x + disk.y * disk.y < 1.0
    ensures LengthSquared(Sub(Origin(GetRay(cam, s, t, disk)), cam.origin)) < cam.lensRadius * cam.lensRadius
  {
    var offset := LensOffset(cam, disk);
    var k := cam.lensRadius;
    calc {
      LengthSquared(Sub(Origin(GetRay(cam, s, t, disk)), cam.origin));
      { assert Sub(Origin(GetRay(cam, s, t, disk)), cam.origin) == offset; }
      LengthSquared(offset);
      { OrthonormalCombination(cam.u, cam.v, disk.x * k, disk.y * k); }
      (disk.x * k) * (disk.x * k) + (disk.y * k) * (disk.y * k);
      { ScaledDiskSquare(disk.x, disk.y, k); }
      k * k * (disk.x * disk.x + disk.y * disk.y);
    < { ShrinkBySquare(k, disk.x * disk.x + disk.y * disk.y); }
      k * k;
    }
  }
}
