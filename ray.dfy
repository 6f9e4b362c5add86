/**
 * Rays (src/ray.rs): an origin and a direction, with the point at
 * parameter `t` given by `orig + dir * t`.
 */
module Rays {
  import opened Vectors

  datatype Ray = Ray(orig: Point3, dir: Vec3)

  /** `Ray::new`. */
  function NewRay(orig: Point3, dir: Vec3): (r: Ray)
    ensures Origin(r) == orig && Direction(r) == dir
  {
    Ray(orig, dir)
  }

  /** `origin`: a copy of the stored origin. */
  function Origin(r: Ray): Point3
  {
    r.orig
  }

  /** `direction`: a copy of the stored direction. */
  function Direction(r: Ray): Vec3
  {
    r.dir
  }

  /** `at`: the point reached after travelling `t` direction-lengths. */
  function At(r: Ray, t: real): Point3
  {
    Add(r.orig, Scale(r.dir, t))
  }

  lemma AtZero(r: Ray)
    ensures At(r, 0.0) == Origin(r)
  {
  }

  /** The displacement from the origin is the direction scaled by `t`. */
  lemma AtOffset(r: Ray, t: real)
    ensures Sub(At(r, t), Origin(r)) == Scale(Direction(r), t)
  {
  }

  /** `at` is affine in `t`. */
  lemma AtAffine(r: Ray, s: real, t: real)
    ensures At(r, s + t) == Add(At(r, s), Scale(Direction(r), t))
  {
    assert r.dir.x * (s + t) == r.dir.x * s + r.dir.x * t;
    assert r.dir.y * (s + t) == r.dir.y * s + r.dir.y * t;
    assert r.dir.z * (s + t) == r.dir.z * s + r.dir.z * t;
  }

  /** The squared distance travelled is t^2 times the squared direction length. */
  lemma AtDistance(r: Ray, t: real)
    ensures LengthSquared(Sub(At(r, t), Origin(r))) == t * t * LengthSquared(Direction(r))
  {
    AtOffset(r, t);
    LengthSquaredOfScale(r.dir, t);
  }
}
