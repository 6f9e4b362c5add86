# A verified model of a small Rust path tracer

This project models, in Dafny, the geometric and decision layer of a
Monte-Carlo path tracer written in Rust ("Ray Tracing in One Weekend" style).
It covers:

- the `Vec3` algebra;
- rays and hit records;
- ray/sphere intersection with its root selection;
- the closest-hit search over the scene list;
- the three materials' scatter rules and Schlick's reflectance;
- the recursive `ray_color`;
- the thin-lens camera;
- the rejection samplers for points in the unit ball and the unit disk.

Arithmetic is exact (`real`), not IEEE-754. The square root, `tan` and
`to_radians` are function parameters. The square root is constrained only by
`IsSqrt`: for `x >= 0`, `sqrt(x) >= 0` and `sqrt(x) * sqrt(x) == x`.
Random draws are inputs.

Modules, one per file:

| module (file) | role |
|---|---|
| `Vectors` (`vec3.dfy`) | the `Vec3` operators, dot, cross, `length_squared`, `near_zero`, `reflect`, `normalize`, `refract`, `linearmap`, the `Sum` fold, and a mutable place for `+=` and `*=` |
| `Rays` (`ray.dfy`) | `Ray::new`, `origin`, `direction`, `at` |
| `Materials` | the material variants, `Metal::new`, Schlick's reflectance and the refraction ratio |
| `HitRecords` | the hit record, `set_face_normal`, and the `[t_min, t_max]` test with `t_max` possibly `+inf` (`Horizon`) |
| `Spheres` | `Sphere::hit`: coefficients, discriminant, near/far root selection, record construction, and the geometric meaning of the result |
| `HittableLists` | the `HittableList` class (`new`, `add`, `hit`); `hit` is a loop proved against a fold (`Scan`) over the objects |
| `Scattering` | `scatter` for Lambertian, Metal and Dielectric, with draws as inputs |
| `Radiance` | `ray_color` and the sky gradient |
| `Cameras` | `Camera::new` and `get_ray` |
| `Points` | the rejection loops of `random_in_unit_sphere` and `random_in_unit_disk`, and `random_unit_vector` |

Behaviour of the code that is easy to misread, and that the model follows:

- `Metal::new` clamps `fuzz` only from above, to at most 1. Negative values are kept.
- Metal perturbs the reflection with `random_unit_vector()`, a point on the unit sphere, not a point inside the ball.
- On a back-face hit the normal is `-outward`. So `dot(direction, normal) <= 0` holds for every hit, front or back; it is not `> 0` on the back face.
- The sphere accepts a root equal to `t_max`. The list's upper bound therefore need not shrink strictly, and on a tie the later object's record wins (`LaterWinsTie`).

## Model

| member | source | states |
|---|---|---|
| Vectors.LengthSquared | src/vec3.rs:38-40 | the squared length equals `dot(v, v)` and is never negative |
| Vectors.SumOfSquaresOfThree | src/vec3.rs:38-40 | the map-and-sum over the three components is `x*x + y*y + z*z` |
| Vectors.LengthSquaredPositive | src/vec3.rs:38-40 | a non-zero vector has strictly positive squared length |
| Vectors.LengthSquaredOfScale | src/vec3.rs:38-40 | scaling by `k` multiplies the squared length by `k*k` |
| Vectors.NearZero | src/vec3.rs:41-44 | holds exactly when every component has absolute value below 1e-8 |
| Vectors.NearZeroIsShort | src/vec3.rs:41-44 | a near-zero vector has squared length below 3e-16 |
| Vectors.DotSymmetric | src/vec3.rs:46-48 | `dot(a, b) == dot(b, a)` |
| Vectors.DotLinear | src/vec3.rs:46-48 | dot is linear in its first argument over `+`, `-`, scaling and negation |
| Vectors.UnitDotBounded | src/vec3.rs:46-48 | the dot product of two unit vectors lies in [-1, 1] |
| Vectors.CrossOrthogonal | src/vec3.rs:50-58 | `cross(a, b)` is orthogonal to `a` and to `b` |
| Vectors.CrossAntiCommutative | src/vec3.rs:50-58 | `cross(b, a) == -cross(a, b)` |
| Vectors.CrossLengthSquared | src/vec3.rs:50-58 | Lagrange's identity: `|a x b|^2 == |a|^2 |b|^2 - (a.b)^2` |
| Vectors.NormalizeIsUnit | src/vec3.rs:60-63 | with a true square root, a non-zero vector normalises to unit length |
| Vectors.NormalizeComponentsBounded | src/vec3.rs:60-63 | every component of a normalised vector lies in [-1, 1] |
| Vectors.NormalizeZero | src/vec3.rs:60-63 | the zero vector is returned unchanged (the source divides by zero there) |
| Vectors.ReflectFlipsNormalComponent | src/vec3.rs:75-77 | with a unit normal, `dot(reflect(v, n), n) == -dot(v, n)` |
| Vectors.ReflectInvolutive | src/vec3.rs:75-77 | with a unit normal, reflecting twice returns `v` |
| Vectors.ReflectPreservesLength | src/vec3.rs:75-77 | with a unit normal, reflection keeps the squared length |
| Vectors.LinearMap | src/vec3.rs:22-25 | a draw in [0, 1) with `min < max` lands in [min, max) |
| Vectors.RandomVec | src/vec3.rs:17-21 | the draws become the components, the same vector `random_in_range(0, 1)` gives; with draws in [0, 1) every component lies in [0, 1) |
| Vectors.RandomInRange | src/vec3.rs:22-33 | with three draws in [0, 1), every component lies in [min, max) |
| Vectors.SubIsAddNeg | src/vec3.rs:137-156 | `a - b == a + (-b)` |
| Vectors.NegInvolutive | src/vec3.rs:147-156 | `-(-a) == a` |
| Vectors.AddCommutesAndAssociates | src/vec3.rs:127-135 | addition is commutative and associative, with the zero vector as identity |
| Vectors.DivScalarUndoesScale | src/vec3.rs:87-105 | dividing by a non-zero `k` undoes scaling by `k`, and equals scaling by `1/k` |
| Vectors.DivScalarExact | src/vec3.rs:87-105 | if `w * k == v` with `k != 0` then `v / k == w` |
| Vectors.DivUndoesMul | src/vec3.rs:107-125 | componentwise division undoes componentwise multiplication by a vector with no zero component, and the reverse |
| Vectors.MulInUnitCube | src/vec3.rs:107-115 | the componentwise product of two colours in [0,1]^3 stays in [0,1]^3 |
| Vectors.Vec3Place.constructor | src/vec3.rs:158-176 | a fresh place holds the given vector |
| Vectors.Vec3Place.AddAssign | src/vec3.rs:158-168 | `+=` leaves the old value plus `other` in the place |
| Vectors.Vec3Place.MulAssign | src/vec3.rs:170-176 | `*=` leaves the old value scaled by `k` in the place |
| Vectors.SumBase | src/vec3.rs:178-182 | the empty sum is `(0,0,0)`, and one more element is added on the right: a left fold of `Add` |
| Vectors.SumConcat | src/vec3.rs:178-182 | the sum of a concatenation is the sum of the two partial sums |
| Vectors.SumCommutes | src/vec3.rs:178-182 | summing two blocks in either order gives the same total |
| Vectors.SumComponents | src/vec3.rs:178-182 | each component of the sum is the sum of that component |
| Rays.NewRay | src/ray.rs:12-20 | `origin()` and `direction()` return what `new` stored |
| Rays.AtZero | src/ray.rs:21-23 | `at(0)` is the origin |
| Rays.AtOffset | src/ray.rs:21-23 | `at(t) - origin == dir * t` |
| Rays.AtAffine | src/ray.rs:21-23 | `at(s + t) == at(s) + dir * t` |
| Rays.AtDistance | src/ray.rs:21-23 | the squared distance from the origin to `at(t)` is `t*t` times the squared length of `dir` |
| Materials.MetalNew | src/material.rs:52-59 | `fuzz` is stored unchanged below 1 and as 1 otherwise; the result never exceeds 1 |
| Materials.MetalNewIdempotent | src/material.rs:52-59 | rebuilding a metal from its stored fuzz changes nothing |
| Materials.RefractionRatio | src/material.rs:68-71 | the ratio is `ir` on a back face and the reciprocal of `ir` on a front face |
| Materials.R0Bounded | src/material.rs:96-99 | for `ir >= 0`, `r0` lies in [0, 1] |
| Materials.R0Reciprocal | src/material.rs:96-99 | `r0(1/ir) == r0(ir)` |
| Materials.ReflectanceHeadOn | src/material.rs:96-101 | at `cosine = 1` the reflectance is `r0` |
| Materials.ReflectanceGrazing | src/material.rs:96-101 | at `cosine = 0` the reflectance is 1 |
| Materials.ReflectanceBounded | src/material.rs:96-101 | for `cosine` in [0, 1] and `ir >= 0`, the reflectance lies between `r0` and 1 |
| Materials.ReflectanceNonIncreasing | src/material.rs:96-101 | for `c1 <= c2 <= 1`, the reflectance at `c2` is at most that at `c1` |
| HitRecords.SetFaceNormal | src/hittable.rs:14-21 | `front_face` iff `dot(dir, outward) < 0`; the normal is `outward` on a front face and `-outward` otherwise, so `dot(dir, normal) <= 0`; `p`, `t` and the material are unchanged |
| HitRecords.SetFaceNormalIdempotent | src/hittable.rs:14-21 | orienting twice with the same ray and outward normal is the same as once |
| HitRecords.SetFaceNormalKeepsLength | src/hittable.rs:14-21 | the oriented normal has the outward normal's length |
| HitRecords.WithinNarrowed | src/hittable.rs:47-48 | narrowing the upper end to a value inside [t_min, t_max] shrinks the accepted set |
| Spheres.Record | src/sphere.rs:33-37 | the record's `t` is the root and `p == at(t)`; the normal is `(p - center)/radius` exactly when `front_face`, and its negation otherwise (including a grazing ray); `front_face` iff the ray meets the outward normal head-on, so the normal faces against the ray |
| Spheres.Hit | src/sphere.rs:13-40 | a negative discriminant gives `None`; any returned record has `t` in [t_min, t_max] and is the record built for that root |
| Spheres.HitRootSelection | src/sphere.rs:25-31 | the near root is returned when in range, else the far root when in range, else `None` |
| Spheres.QuadraticIdentity | src/sphere.rs:14-18 | `|at(t) - center|^2 - radius^2` equals `a t^2 + 2 half_b t + c`, so `t` is on the surface iff it solves the quadratic |
| Spheres.RootsOfQuadratic | src/sphere.rs:25-27 | with `a != 0` and `sq*sq` equal to the discriminant, the quadratic vanishes exactly at `(-half_b - sq)/a` and `(-half_b + sq)/a` |
| Spheres.NoRootWhenNegative | src/sphere.rs:18-21 | with a negative discriminant the quadratic has no root |
| Spheres.SurfaceRoots | src/sphere.rs:14-31 | with a true square root, near <= far, and the ray meets the surface exactly at those two roots |
| Spheres.NegativeDiscriminantMisses | src/sphere.rs:18-21 | a negative discriminant means no point of the ray is on the sphere |
| Spheres.HitIsOnSurface | src/sphere.rs:13-31 | every reported hit lies on the sphere's surface |
| Spheres.HitIsNearest | src/sphere.rs:25-31 | the reported `t` is no later than any surface point within [t_min, t_max] |
| Spheres.MissMeansNoSurfacePoint | src/sphere.rs:25-31 | for a non-zero direction, `None` means no surface point lies in [t_min, t_max] |
| Spheres.NarrowedHit | src/sphere.rs:25-31 | lowering `t_max` to `c` keeps a hit at or before `c` and never yields a later one |
| Spheres.OutwardNormalIsUnit | src/sphere.rs:36 | at a surface point `(p - center)/radius` has unit length |
| Spheres.HitNormalIsUnit | src/sphere.rs:33-37 | every reported normal has unit length |
| Spheres.InsideGivesFarRoot | src/sphere.rs:25-31 | from inside the sphere the near root is negative, so with `t_min >= 0` the far root is the hit |
| Spheres.AimedAtCenter | src/sphere.rs:13-39 | a unit ray aimed at the centre from distance `k` hits at `k - radius`, at the facing surface point, with normal `-dir` and a front face |
| HittableLists.HittableList.constructor | src/hittable.rs:33-37 | a new list is empty |
| HittableLists.HittableList.Add | src/hittable.rs:38-40 | the object is appended at the end and earlier objects are unchanged |
| HittableLists.HittableList.Hit | src/hittable.rs:42-53 | the loop returns the fold `ListHit` of its objects: each object is asked with the bound narrowed to the last accepted `t` |
| HittableLists.ScanInvariant | src/hittable.rs:44-50 | the bound never exceeds `t_max`; with no record it is `t_max`; with a record it is that record's `t`, which lies in [t_min, t_max] |
| HittableLists.StepNarrows | src/hittable.rs:47-49 | one iteration never raises `closest_so_far`: an accepted hit lies within the current bound |
| HittableLists.ScanNarrows | src/hittable.rs:44-51 | `closest_so_far` never increases as the loop advances: after `i` objects it is no later than after any `j <= i` |
| HittableLists.EmptyListMisses | src/hittable.rs:42-53 | an empty list returns `None` |
| HittableLists.ListHitWithin | src/hittable.rs:46-52 | a returned record's `t` lies in [t_min, t_max] |
| HittableLists.ListHitProvenance | src/hittable.rs:46-52 | the returned record was built by one of the objects, at a point on its surface |
| HittableLists.ListHitNearest | src/hittable.rs:46-52 | if any object reports a hit on the whole interval, the list returns one, no later than that object's |
| HittableLists.LaterWinsTie | src/hittable.rs:47-49 | an appended object whose hit has the current record's `t` replaces the record |
| HittableLists.ListMissIffAllMiss | src/hittable.rs:42-53 | the list misses exactly when every object misses on the whole interval |
| Scattering.LambertianDirection | src/material.rs:21-26 | the direction is the normal when `normal + sample` is near zero and the sum otherwise; it is never near zero when the normal is not |
| Scattering.LambertianScatter | src/material.rs:20-30 | always `Some`, from `rec.p`, with the albedo as attenuation |
| Scattering.LambertianLeavesSurface | src/material.rs:21-26 | for a unit normal and a unit sample the direction never points into the surface |
| Scattering.MetalScatter | src/material.rs:39-49 | `None` exactly on a back face; otherwise from `rec.p` with direction `reflect(dir, normal) + sample*fuzz` and the albedo |
| Scattering.PolishedMetalMirrors | src/material.rs:40-42 | with fuzz 0 and a unit normal, the normal component changes sign, the length is kept, and the ray leaves away from the surface |
| Scattering.MetalAbsorbsFromInside | src/material.rs:44-48 | on a record oriented by `set_face_normal`, the metal absorbs exactly when `dot(dir, outward) >= 0` |
| Scattering.MirrorSphereReflectsBack | src/material.rs:38-49 | a unit ray aimed at the centre of a polished metal sphere is sent straight back along `-dir` |
| Scattering.DielectricScatter | src/material.rs:66-90 | always `Some`, from `rec.p`, with attenuation (1,1,1); reflects when refraction is impossible or the reflectance exceeds the draw, and refracts otherwise |
| Scattering.ReflectanceSideIndependent | src/material.rs:77-79 | the reflectance is the same with the ratio `ir` and with its reciprocal |
| Scattering.CannotRefractReflects | src/material.rs:77-82 | when `ratio * sin_theta > 1` the ray reflects, whatever the draw |
| Scattering.GrazingRayReflects | src/material.rs:77-82 | at `cos_theta = 0` a draw in [0, 1) always reflects |
| Scattering.EnteringDenserCanRefract | src/material.rs:68-77 | entering through a front face with `ir >= 1` and a unit normal, `ratio * sin_theta <= 1` |
| Scattering.CosThetaBounded | src/material.rs:73-75 | with a unit normal, `cos_theta` lies in [-1, 1] |
| Scattering.SinThetaBounded | src/material.rs:76 | for `cos_theta` in [-1, 1], `sin_theta` lies in [0, 1] |
| Scattering.Scatter | src/material.rs:4-7 | only a metal hit on a back face absorbs; the ray leaves from `rec.p`; the attenuation is the albedo, or (1,1,1) for glass |
| Radiance.Gradient | src/lib.rs:33-35 | white at `t = 0`, (0.5, 0.7, 1.0) at `t = 1`, and in between for `t` in [0, 1] |
| Radiance.BackgroundBounded | src/lib.rs:33-35 | the sky colour has `x` in [0.5, 1], `y` in [0.7, 1] and `z = 1` |
| Radiance.RayColor | src/lib.rs:20-36 | black whenever `depth <= 0`, whatever the ray or world |
| Radiance.RayColorBounded | src/lib.rs:20-36 | with attenuations in [0,1]^3, every colour returned lies in [0,1]^3 |
| Scattering.ScatterAttenuationBounded | src/material.rs:4-7 | for a material whose albedo lies in [0,1]^3 (glass: always), every scattered attenuation lies in [0,1]^3 |
| Radiance.MaterialColorBounded | src/lib.rs:20-36 | rendered with the scatter rule of a material whose albedo lies in [0,1]^3, every colour lies in [0,1]^3 |
| Radiance.LastBounce | src/lib.rs:22-31 | with one bounce left, a hit is black and a miss is the background |
| Cameras.NewCamera | src/camera.rs:17-53 | the origin is `lookfrom`; `lens_radius * 2 == aperture`; `horizontal` and `vertical` are `u` and `v` times the viewport width and height; `v == cross(w, u)` |
| Cameras.GetRay | src/camera.rs:54-62 | the origin is moved by the lens offset, and `origin + direction` is the focus-plane point for (s, t), whatever the lens sample |
| Cameras.FrameOrthogonal | src/camera.rs:32-34 | `u`, `v` and `w` are pairwise orthogonal |
| Cameras.FrameOrthonormal | src/camera.rs:32-34 | with distinct look points and `vup` not parallel to the view axis, `u`, `v` and `w` have unit length |
| Cameras.ImagePlaneAspect | src/camera.rs:26-38 | with a non-degenerate frame, `|horizontal|^2 == aspect_ratio^2 * |vertical|^2`: the image plane has the requested aspect ratio |
| Cameras.ImagePlaneCentre | src/camera.rs:36-39 | `lower_left_corner + horizontal/2 + vertical/2 == origin - w * focus_dist` |
| Cameras.PinholeOrigin | src/camera.rs:55-57 | with a zero lens radius every ray starts at the camera origin |
| Cameras.PinholeCentreRay | src/camera.rs:55-61 | with zero aperture the centre ray starts at `lookfrom` with direction `-w * focus_dist` |
| Cameras.LensOriginWithinAperture | src/camera.rs:55-57 | for an orthonormal `u`, `v` and a sample strictly inside the unit disk, the origin lies strictly within the lens radius |
| Points.DiskCandidate | src/vec3/point.rs:18-28 | `z == 0`, and with draws in [0, 1), `x` and `y` lie in [-1, 1) |
| Points.FirstInDiskInSquare | src/vec3/point.rs:16-32 | with all draws in [0, 1), the disk sampler's point has `x` and `y` in [-1, 1) |
| Points.FirstInBall | src/vec3/point.rs:4-11 | any point returned has squared length below 1 |
| Points.FirstInDisk | src/vec3/point.rs:16-32 | any point returned has `z == 0` and squared length below 1 |
| Points.RandomInUnitSphere | src/vec3/point.rs:4-11 | the loop returns the first candidate inside the unit ball, which has squared length below 1 |
| Points.RandomInUnitDisk | src/vec3/point.rs:16-32 | the loop returns the first candidate inside the unit disk, with `z == 0` and squared length below 1 |
| Points.RandomUnitVector | src/vec3/point.rs:12-14 | fails exactly when the ball sampler fails; otherwise the ball sample normalised, of unit length (given a true square root) unless the sample is the zero vector |
| Points.BallSamplerRejectsOnlyOutside | src/vec3/point.rs:6-9 | the sampler fails only when every candidate lies outside the open ball; otherwise it returns the first candidate inside, and all earlier ones were outside |

## Left out

- `render` (src/lib.rs:38-87): image output through `print!`, parallel sampling, and the thread-ambient random source. This is I/O and concurrency.
- `random_scene` (src/lib.rs:89-151): scene population by random draws. src/colors.rs and src/main.rs are output writers. src/vec3/ray.rs is an unused duplicate of `Ray`. None of these is part of this model.
- Floating point: all arithmetic is exact. `sqrt`, `tan` and `to_radians` are parameters, and the statistical quality of the random source is not modelled.
- Division by zero, which gives NaN or infinity in the source, is replaced as follows:
  - `Normalize` returns a zero-length vector unchanged.
  - `Spheres.Hit` returns `None` for a zero direction (`a == 0`).
  - A sphere of radius 0 is excluded (`WellFormed`).
  - A dielectric with index 0 or -1 is excluded (`UsableMaterial`).
  - `DivScalar`, `Div`: the divisor (each component for `Div`) must be non-zero.
- Vectors.Refract: modelled by its defining expression only. Its properties depend on the square root of a possibly negative value.
- `Vec3::new` and the accessors `x`, `y`, `z` are the datatype constructor and its fields. `Vec3::length` is `sqrt` of `LengthSquared`.
- HitRecords.SetFaceNormal: the source mutates the record in place (`&mut self`). The model returns the updated record as a value, which is equivalent because the record is a fresh local in `Sphere::hit`.
- The `Hittable` trait and `Arc` sharing: the only hittable object in the source is the sphere, so the list holds spheres.
- Radiance.RayColor: the sphere never sets the record's material, and `ray_color` unwraps it (src/lib.rs:27). The scatter step is therefore a parameter of `RayColor`, so the model does not capture the material lookup. Its integer argument, the depth, stands for the fresh draws of each bounce. `Scattering.Scatter` is the per-material rule it stands for.
- Points.RandomInUnitSphere, Points.RandomInUnitDisk: the source loops until a candidate is accepted, which terminates only with probability 1. The model reads a finite sequence of draws and returns `None` when it runs out.
- Points.RandomUnitVector: normalising a zero sample yields the zero vector (NaN in the source).
- `Sphere::new`, called in src/lib.rs:93, is absent from src/sphere.rs. Spheres are built with the datatype constructor.
