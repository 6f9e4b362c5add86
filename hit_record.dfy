/**
 * Hit records and the parameter interval of a hit query (src/hittable.rs).
 * A record is a value: `set_face_normal`, which writes two fields of the
 * record through `&mut self`, is modelled as a function returning the
 * updated record.
 */
module HitRecords {
  import opened Vectors
  import opened Rays
  import opened Options
  import opened Materials

  datatype HitRecord = HitRecord(p: Point3, normal: Vec3, mat: Option<Material>, t: real, frontFace: bool)

  /** `Default::default()`: zero vectors, no material, t = 0, back face. */
  function DefaultRecord(): HitRecord
  {
    HitRecord(Zero(), Zero(), None, 0.0, false)
  }

  /**
   * `set_face_normal`: the record is marked front-facing when the ray
   * travels against the outward normal, and the stored normal is the
   * outward one turned, if need be, to face the ray.
   */
  function SetFaceNormal(rec: HitRecord, r: Ray, outward: Vec3): (res: HitRecord)
    ensures res.frontFace <==> Dot(Direction(r), outward) < 0.0
    ensures res.normal == outward || res.normal == Neg(outward)
    ensures res.frontFace ==> res.normal == outward
    ensures !res.frontFace ==> res.normal == Neg(outward)
    ensures Dot(Direction(r), res.normal) <= 0.0
    ensures res.p == rec.p && res.t == rec.t && res.mat == rec.mat
  {
    var front := Dot(r.dir, outward) < 0.0;
    DotOfNeg(r.dir, outward);
    rec.(frontFace := front, normal := if front then outward else Neg(outward))
  }

  lemma DotOfNeg(a: Vec3, b: Vec3)
    ensures Dot(a, Neg(b)) == -Dot(a, b)
  {
  }

  /** Orienting again against the same ray and outward normal changes nothing. */
  lemma SetFaceNormalIdempotent(rec: HitRecord, r: Ray, outward: Vec3)
    ensures SetFaceNormal(SetFaceNormal(rec, r, outward), r, outward) == SetFaceNormal(rec, r, outward)
  {
  }

  /** The oriented normal has the length of the outward normal. */
  lemma SetFaceNormalKeepsLength(rec: HitRecord, r: Ray, outward: Vec3)
    ensures LengthSquared(SetFaceNormal(rec, r, outward).normal) == LengthSquared(outward)
  {
  }

  /**
   * Upper end of a query interval. `f64::INFINITY` is the only non-finite
   * bound the source passes, so it gets a constructor of its own.
   */
  datatype Horizon = Finite(bound: real) | Infinite

  /** The acceptance test shared by every `hit`: t_min <= t <= t_max. */
  predicate Within(t: real, tMin: real, tMax: Horizon)
  {
    tMin <= t && (tMax.Finite? ==> t <= tMax.bound)
  }

  /** Narrowing the upper end to a finite value shrinks the accepted set. */
  lemma WithinNarrowed(t: real, tMin: real, tMax: Horizon, b: real)
    requires Within(b, tMin, tMax)
    ensures Within(t, tMin, Finite(b)) ==> Within(t, tMin, tMax)
  {
  }
}
