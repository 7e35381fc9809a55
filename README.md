# A verified model of a small Rust path tracer

This project models the deterministic core of a "Ray Tracing in One Weekend"
style path tracer written in Rust, over Dafny's `real` numbers. It covers:

- vector and ray algebra;
- the intersection layer: the stationary sphere of the older out-parameter
  interface, the moving sphere, the three axis-aligned rectangles, the six-sided
  box, and the closest-hit fold over a list of objects;
- Lambertian and metal materials;
- the thin-lens camera;
- the depth-bounded radiance recursion;
- quantisation of a pixel to 8-bit channels;
- the row-band layout of the image buffer.

Conventions used throughout:

- **Square root.** `f64::sqrt` is a function parameter `sqrt` with the contract
  `IsSqrt`: for every `x >= 0`, `sqrt(x) >= 0` and `sqrt(x) * sqrt(x) == x`.
  `Vectors.SqrtUnique` shows that nothing depends on which such function is used.
- **Random draws are inputs.** This covers the unit-sphere sample of a Lambertian
  bounce, the lens sample and shutter time of the camera, and the per-sample
  jitter. Each comes with the precondition its generator guarantees.
- **Truncating casts.** `as u8` and `as i32` are `Floor` of a non-negative real.
- **Upper bounds.** The `t_max` of the newer `hit` interface is a `Limit`, either
  `Finite(v)` or `Infinity`, because the scene is queried up to `+infinity`.
- **Hit records.** The repository's files come from two snapshots of one API.
  One `HitRecord` datatype is a superset of both record shapes. The older
  out-parameter style (`Hit_Record` with setters, `Sphere::hit(..) -> bool`)
  becomes the class `Hittables.HitRecordCell`, whose methods update the record in
  place. The newer `hit(..) -> Option<HitRecord>` functions are Dafny functions
  returning an `Option`.
- **`set_face_normal`.** `src/sphere.rs` calls it, but `src/hittable.rs` does not
  define it. It is defined by the front-face rule the rectangles and the moving
  sphere use (`Hittables.FacingNormal`).
- **Scene objects.** A scene object is the datatype `HittableLists.Object`,
  standing for the kinds behind `Box<dyn Hittable>`. `ray_color` and `render` see
  the world only through `hit(r, 0.001, +infinity)`, so they take it as a
  function `World = Ray -> Option<HitRecord>`. `Raytracer.Scene` builds that
  function from an object.

The primitives do not agree on the ends of the interval, and the model keeps each
file's own comparison. `sphere.rs` (30-36) and `rectangle.rs` (54) accept
`t_min <= t <= t_max`, while `moving_sphere.rs` (43-44) accepts only
`t_min < t < t_max`.

Files: `vec3.dfy` (module `Vectors`), `ray.dfy` (`Rays`), `option.dfy` (`Options`),
`color.dfy` (`Colors`), `material.dfy` (`Materials`, `Scattering`), `hittable.dfy`
(`Hittables`), `sphere.dfy` (`Spheres`), `moving_sphere.dfy` (`MovingSpheres`),
`rectangle.dfy` (`Rectangles`), `hittable_list.dfy` (`HittableLists`), `hbox.dfy`
(`Boxes`), `camera.dfy` (`Cameras`) and `raytracer.dfy` (`Raytracer`).

## Model

| member | source | states |
|---|---|---|
| Vectors.SqrtUnique | src/vec3.rs:20-22 | Two functions meeting the square-root contract agree on every non-negative input, so `len` is determined. |
| Vectors.SqrtMonotone | src/vec3.rs:20-22 | The square root preserves order on the non-negative reals. |
| Vectors.SqLen | src/vec3.rs:16-18 | The squared length is never negative. |
| Vectors.Len | src/vec3.rs:20-22 | `len` is non-negative and its square is `sqlen`. |
| Vectors.LenZero | src/vec3.rs:20-22 | `len` is zero exactly when `sqlen` is, and positive otherwise. |
| Vectors.Normalize | src/vec3.rs:34-36 | A vector of non-zero length normalises to a unit vector that, scaled back by the length, gives the original. |
| Vectors.Dot | src/vec3.rs:24-26 | Definition; its properties are in `DotSymmetric`, `DotSelf` and `CrossOrthogonal`. |
| Vectors.Cross | src/vec3.rs:28-32 | Definition; its properties are in `CrossOrthogonal`, `CrossLength` and `CrossScale`. |
| Vectors.Add | src/vec3.rs:64-68 | Definition; its properties are in `AddSubCancel` and `NegInvolution`. |
| Vectors.Sub | src/vec3.rs:74-78 | Definition; its properties are in `AddSubCancel`. |
| Vectors.SubScalar | src/vec3.rs:84-88 | Definition; its properties are in `SubScalarIsSub`. |
| Vectors.Neg | src/vec3.rs:94-98 | Definition; its properties are in `NegInvolution`. |
| Vectors.Mul | src/vec3.rs:104-108 | Definition; its properties are in `MulOneIdentity`. |
| Vectors.Scale | src/vec3.rs:114-118 | Definition; its properties are in `SqLenScale`, `ScaleDivCancel` and `CrossScale`. |
| Vectors.Div | src/vec3.rs:124-128 | Definition, for a non-zero divisor; its properties are in `ScaleDivCancel`. |
| Vectors.NearZero | src/vec3.rs:55-58 | Definition; its properties are in `NearZeroFacts`. |
| Vectors.AddSubCancel | src/vec3.rs:64-78 | `(a + b) - b == a`. |
| Vectors.DotSymmetric | src/vec3.rs:24-26 | `dot` is symmetric. |
| Vectors.DotSelf | src/vec3.rs:16-26 | `dot(v, v) == sqlen(v)`. |
| Vectors.CrossOrthogonal | src/vec3.rs:28-32 | `cross(a, b)` is orthogonal to both `a` and `b`. |
| Vectors.CrossLength | src/vec3.rs:28-32 | Lagrange's identity: `sqlen(a x b) == sqlen(a) sqlen(b) - dot(a, b)^2`. |
| Vectors.CrossScale | src/vec3.rs:28-32 | Scaling the second argument of `cross` scales the result. |
| Vectors.NegInvolution | src/vec3.rs:94-98 | Negation is an involution, and `v + (-v)` is the zero vector. |
| Vectors.ScaleDivCancel | src/vec3.rs:114-128 | For `k != 0`, `(v * k) / k == v`. |
| Vectors.SqLenScale | src/vec3.rs:114-118 | `sqlen(v * k) == k^2 sqlen(v)`. |
| Vectors.NearZeroFacts | src/vec3.rs:55-58 | The zero vector is near zero. A near-zero vector has squared length below `3e-16`. A vector that is not near zero is not the zero vector. |
| Vectors.SubScalarIsSub | src/vec3.rs:84-88 | `v - k` subtracts `k` from every component. |
| Vectors.MulOneIdentity | src/vec3.rs:104-108 | The Hadamard product with (1, 1, 1) is the identity on either side. |
| Rays.New | src/ray.rs:10-20 | `origin()` and `direction()` return exactly what `new` was given; a ray made this way has time 0. |
| Rays.NewTimed | src/camera.rs:60-62 | The three-argument constructor keeps origin, direction and time. |
| Rays.At | src/ray.rs:22-24 | Definition; its properties are in `AtZero`, `AtDisplacement`, `AtZeroDirection` and `AtAffine`. |
| Rays.AtZero | src/ray.rs:22-24 | `at(0) == origin`. |
| Rays.AtDisplacement | src/ray.rs:22-24 | `at(t) - origin == direction * t` for every `t`. |
| Rays.AtZeroDirection | src/ray.rs:22-24 | With a zero direction, `at(t) == origin` for every `t`. |
| Rays.AtAffine | src/ray.rs:22-24 | Going `s` further along the direction from `at(t)` lands on `at(t + s)`. |
| Colors.Clamp | src/color.rs:5-9 | For `min <= max` the result lies in `[min, max]`. It is the identity on that interval, `min` below it and `max` above it. |
| Colors.ClampIdempotent | src/raytracer.rs:27-31 | Clamping twice is clamping once. This `clamp` is the same function as the one in `color.rs`. |
| Colors.ClampMonotone | src/color.rs:5-9 | Clamping preserves order. |
| Colors.Quantise | src/color.rs:16-19 | Every channel value lies in [0, 255], because `256 * 0.999 < 256`. |
| Colors.AverageMonotone | src/color.rs:16-17 | Scaling by `1 / samples_per_pixel` preserves order for a positive sample count. |
| Colors.QuantiseZero | src/color.rs:16-19 | A zero colour component maps to 0, whatever the sample count. |
| Colors.QuantiseMonotone | src/color.rs:16-19 | For a fixed positive sample count, the channel value never decreases as the component grows. |
| Colors.QuantiseSaturates | src/color.rs:17-19 | Once the averaged component reaches 1, the channel saturates at 255. |
| Colors.QuantiseAverages | src/color.rs:16-19 | The scale `1 / samples_per_pixel` is applied before the gamma square root: quantising a sum equals quantising its mean as one sample. |
| Colors.WriteColor | src/color.rs:11-21 | The three integers printed for a pixel are the channel quantisations of its components, each in [0, 255]. |
| Materials.Reflect | src/material.rs:12-14 | Definition; its properties are in `ReflectFormula`, `ReflectFlipsNormalComponent`, `ReflectInvolution` and `ReflectPreservesLength`. |
| Materials.Albedo | src/material.rs:40-49 | Definition; its properties are in `NewLambertian`, `NewMetal`, `Default` and `Scattering.ScatterOf`. |
| Materials.ReflectFormula | src/material.rs:12-14 | `reflect(u, n) == u - 2 dot(u, n) n`. |
| Materials.ReflectFlipsNormalComponent | src/material.rs:12-14 | For a unit `n`, `dot(reflect(u, n), n) == -dot(u, n)`. |
| Materials.ReflectInvolution | src/material.rs:12-14 | For a unit `n`, `reflect(reflect(u, n), n) == u`. |
| Materials.ReflectPreservesLength | src/material.rs:12-14 | For a unit `n`, reflection keeps the squared length. |
| Materials.NewLambertian | src/material.rs:51-53 | The result is Lambertian and `albedo()` returns the given colour. |
| Materials.NewMetal | src/material.rs:55-57 | The result is metal and `albedo()` returns the given colour. |
| Materials.Default | src/material.rs:60-64 | The default material is Lambertian with a zero albedo. |
| Materials.Emitted | src/raytracer.rs:43-45 | Neither material variant emits light: the emitted colour is black. |
| Scattering.DiffuseDirection | src/material.rs:20-25 | The Lambertian direction is `normal + sample`, or exactly `normal` when that sum is near zero. |
| Scattering.ScatterOf | src/material.rs:17-38 | The attenuation is the albedo and the scattered ray starts at `rec.p`. A Lambertian surface always scatters, along `DiffuseDirection`. Metal reflects the incoming direction, and scatters exactly when `dot(scattered.direction, normal) > 0`. This holds for any sample vector; only the Lambertian branch reads it. |
| Scattering.ScatterInto | src/material.rs:17-38 | The out-parameter form, which reassigns the direction in the degenerate case, produces the same outcome as `ScatterOf`. |
| Scattering.DiffuseDirectionNotDegenerate | src/material.rs:22-25 | With a unit normal, the scattered Lambertian direction is never near zero. |
| Scattering.MetalScattersIffIncoming | src/material.rs:31-36 | With a unit normal, metal scatters exactly the rays that arrive against the normal, and absorbs the rest. |
| Hittables.FacingNormal | src/rectangle.rs:64-73 | The stored normal is the outward one on the front face and its negation on the back face, so `dot(direction, normal) <= 0`. |
| Hittables.HitRecordCell.constructor | src/hittable.rs:4-9 | The cell holds the given record. |
| Hittables.HitRecordCell.SetP | src/hittable.rs:24-26 | Only `p` changes, to the given value; the getter `p()` then returns it. |
| Hittables.HitRecordCell.SetT | src/hittable.rs:28-30 | Only `t` changes, to the given value. |
| Hittables.HitRecordCell.SetNormal | src/hittable.rs:32-34 | Only `normal` changes, to the given value. |
| Hittables.HitRecordCell.SetFaceNormal | src/sphere.rs:40-41 | Records whether the front face was hit and stores the normal facing the ray; nothing else changes. |
| Hittables.DefaultHit | src/hittable.rs:37-40 | The default `hit` returns false and cannot modify the record. |
| Spheres.Coefficients | src/sphere.rs:19-22 | Definition; its properties are in `DistanceAlongRay`. |
| Spheres.NearRoot | src/sphere.rs:30 | Definition; its properties are in `QuadraticRoot`, `QuadraticSolutions` and `NearestRootFirst`. |
| Spheres.FarRoot | src/sphere.rs:32 | Definition; its properties are in `QuadraticRoot`, `QuadraticSolutions` and `NearestRootFirst`. |
| Spheres.Outward | src/sphere.rs:40 | Definition; its properties are in `OutwardIsUnit`. |
| Spheres.Root | src/sphere.rs:23-36 | A chosen root lies in `[t_min, t_max]`, with both bounds inclusive. |
| Spheres.Hit | src/sphere.rs:18-44 | `hit` succeeds exactly when `Root` finds a root. On failure, including a negative discriminant or both roots out of range, the record is untouched. On success only `t`, `p = r.at(t)`, the face and the normal change. |
| Spheres.NearestRootFirst | src/sphere.rs:30-36 | The nearer root is no greater than the farther one. It is chosen whenever it is in range. The farther root is chosen only when the nearer one is out of range. |
| Spheres.QuadraticRoot | src/sphere.rs:19-32 | Both roots solve the half-b quadratic `a t^2 + 2 b t + c == 0`. |
| Spheres.QuadraticSolutions | src/sphere.rs:19-32 | Conversely, every solution of the quadratic is one of the two roots, and then the discriminant is non-negative. |
| Spheres.DistanceAlongRay | src/sphere.rs:19-22 | The squared distance from the centre to `r.at(t)` is the quadratic at `t` plus the squared radius. |
| Spheres.RootOnSphere | src/sphere.rs:29-38 | The point at the chosen root lies on the sphere. |
| Spheres.RootIsNearest | src/sphere.rs:25-36 | If any point of the ray within `[t_min, t_max]` is on the sphere, `Root` succeeds with a `t` no later than it; a miss means no such point exists. |
| Spheres.OutwardIsUnit | src/sphere.rs:40 | At a point of the sphere, `(p - center) / radius` has unit length. |
| MovingSpheres.Center | src/moving_sphere.rs:25-27 | Definition; its properties are in `CenterEndpoints` and `CenterVelocity`. |
| MovingSpheres.CenterEndpoints | src/moving_sphere.rs:25-27 | `center(time0) == center0` and `center(time1) == center1`. |
| MovingSpheres.CenterVelocity | src/moving_sphere.rs:25-27 | The centre moves with constant velocity `(center1 - center0) / (time1 - time0)`. |
| MovingSpheres.Roots | src/moving_sphere.rs:36-43 | There are no candidates or two, and `root_1 <= root_2`. A negative discriminant gives none. |
| MovingSpheres.FirstInRange | src/moving_sphere.rs:43-44 | The loop returns a candidate strictly inside `(t_min, t_max)` such that every earlier candidate fails the test; if it returns none, no candidate is in range. |
| MovingSpheres.RecordAt | src/moving_sphere.rs:45-55 | The record has `p == r.at(t)` and the sphere's material. Its face and stored normal follow the front-face rule against `(p - center(time)) / radius`. |
| MovingSpheres.Hit | src/moving_sphere.rs:31-61 | A returned `t` lies strictly inside `(t_min, t_max)`, and the record is the one built at that `t`. |
| MovingSpheres.HitLoop | src/moving_sphere.rs:31-61 | The loop over `[root_1, root_2]` with its early return computes `Hit`. |
| MovingSpheres.HitOnSphere | src/moving_sphere.rs:32-46 | A hit lies on the sphere as it stands at the ray's time. |
| MovingSpheres.RootSolves | src/moving_sphere.rs:32-41 | Each candidate solves the ray-sphere quadratic. |
| MovingSpheres.HitIsNearest | src/moving_sphere.rs:38-60 | For a ray with a non-zero direction, any point of the sphere strictly inside `(t_min, t_max)` means a hit no later than it; a miss means no such point exists. |
| MovingSpheres.HitNormal | src/moving_sphere.rs:46-54 | The stored normal has unit length and never points along the ray (`dot(direction, normal) <= 0`), and the material is the sphere's. |
| MovingSpheres.HitBoundMonotone | src/moving_sphere.rs:43-44 | Lowering `t_max` can only lose the hit, never move it. A hit lost that way is not below the new bound. |
| Rectangles.UnitAlong | src/rectangle.rs:64 | The normal of each rectangle is the unit vector of its axis. |
| Rectangles.AxesDistinct | src/rectangle.rs:53-58 | Each rectangle's plane axis and its two extent axes are distinct. |
| Rectangles.Hit | src/rectangle.rs:52-77 | A returned record is the one built at its `t` and carries the rectangle's material. The same holds for all three rectangle kinds. |
| Rectangles.Crossing | src/rectangle.rs:53 | Definition; its properties are in `CrossingUnique` and `HitCrossing`. |
| Rectangles.RecordAt | src/rectangle.rs:62-76 | Definition; its properties are in `RecordFields`, `RecordSurface` and `RecordNormal`. |
| Rectangles.CoordAt | src/rectangle.rs:57-58 | The coordinates `hit` computes for `x`, `y`, `z` are those of `r.at(t)`. |
| Rectangles.CrossingUnique | src/rectangle.rs:53 | For a non-zero direction component, the ray is in the plane at `(k - origin) / direction` and at no other `t`. |
| Rectangles.HitOnRect | src/rectangle.rs:53-65 | A hit lies within `[t_min, t_max]`, inclusive. It has `p == r.at(t)`, has `p` on the plane `k`, and falls within both extents. |
| Rectangles.HitComplete | src/rectangle.rs:53-61 | Conversely, every point of the rectangle that the ray reaches within the bounds is the hit. |
| Rectangles.ParallelMisses | src/rectangle.rs:53 | A ray parallel to the plane is reported as no hit. |
| Rectangles.HitCrossing | src/rectangle.rs:53-61 | On a hit, `t` is the plane crossing, within both bounds and both extents. |
| Rectangles.HitSurfaceCoordinates | src/rectangle.rs:62-63 | `u` and `v` lie in [0, 1], and interpolating the extents by them gives back the hit point. |
| Rectangles.RecordFields | src/rectangle.rs:62-65 | The record's `u`, `v` and `p` are the fractions along the extents and `r.at(t)`. |
| Rectangles.RecordSurface | src/rectangle.rs:57-63 | Inside the extents, the record's surface coordinates are in [0, 1] and interpolate back to `p`. |
| Rectangles.FractionInUnit | src/rectangle.rs:62-63 | A coordinate within `[lo, hi]` has a fraction in [0, 1] that interpolates back to it. |
| Rectangles.HitNormal | src/rectangle.rs:64-73 | The front face is hit exactly when the direction component along the normal axis is negative. The stored normal is then `+e` or `-e` for the axis unit vector `e`; it has unit length and strictly opposes the ray. The same holds for the XZ and YZ rectangles. |
| Rectangles.RecordNormal | src/rectangle.rs:64-73 | The same face and normal facts for the record built at any `t`. |
| Rectangles.AxisFrontFace | src/rectangle.rs:64-66 | The front-face test against an axis unit vector is the sign of that direction component. |
| Rectangles.AxisNormalUnit | src/rectangle.rs:64-73 | The stored axis normal has unit length. |
| Rectangles.AxisNormalOpposes | src/rectangle.rs:66-73 | The stored axis normal strictly opposes a ray not parallel to the plane. |
| Rectangles.HitBoundMonotone | src/rectangle.rs:54-56 | Lowering `t_max` can only lose the hit, never move it. |
| Rectangles.HitAt | src/rectangle.rs:53-77 | A plane crossing within the bounds and within both extents is returned as the hit, as the record built at that `t`. |
| HittableLists.Hit | src/hittable_list.rs:16-27 | Definition, dispatching on the kind of object; its properties are in `ObjectPlaced` and `ObjectBounds`. |
| HittableLists.ListHitFrom | src/hittable_list.rs:20-26 | Definition; its properties are in `FoldPlaced`, `FoldNone`, `FoldMin` and `FoldWitness`. |
| HittableLists.ListHit | src/hittable_list.rs:16-27 | Definition; its properties are in `ListHitIsClosest` and `ListHitLoop`. |
| HittableLists.ListHitLoop | src/hittable_list.rs:16-27 | The loop updating `closest_so_far` and `hit_record` computes the fold `ListHit`. |
| HittableLists.SpherePlaced | src/moving_sphere.rs:43-54 | A moving sphere's hit lies within the bounds and on the ray. It has a unit normal facing the ray and the sphere's material. |
| HittableLists.RectPlaced | src/rectangle.rs:54-76 | The same for a rectangle's hit, with the rectangle's material. |
| HittableLists.ObjectPlaced | src/hittable_list.rs:21 | Every object's hit lies within the queried interval and on the ray. It has a unit normal that does not point along the ray, and it is made of one of the object's own materials. |
| HittableLists.FoldPlaced | src/hittable_list.rs:17-26 | The record the loop ends with lies below the bound it started from, so `closest_so_far` never exceeds `t_max`. It has a unit normal facing the ray, and it is the starting record or carries one of the list's materials. |
| HittableLists.FoldNone | src/hittable_list.rs:17-26 | The loop ends with no record exactly when it started with none and every object misses. So once `hit_record` is set it never reverts, and an empty list gives `None`. |
| HittableLists.ObjectBounds | src/hittable_list.rs:21 | Lowering the bound passed to an object can only lose its hit, never move it. |
| HittableLists.ListBounds | src/hittable_list.rs:16-27 | The same for the whole list. |
| HittableLists.FoldMin | src/hittable_list.rs:20-26 | The record the loop ends with is no later than any object's hit at the starting bound. |
| HittableLists.FoldMinAfterHit | src/hittable_list.rs:21-23 | The same, for the step where the first object hits and the bound drops to its `t`. |
| HittableLists.FoldWitness | src/hittable_list.rs:20-26 | The record the loop ends with is the starting record or at the `t` of some object's hit. |
| HittableLists.ListHitNoLater | src/hittable_list.rs:20-26 | If some object hits no later than `t'`, the loop ends with a record no later than `t'`. |
| HittableLists.ListHitIsClosest | src/hittable_list.rs:16-27 | `hit` returns `None` exactly when every object misses. Otherwise it returns a record within the bounds, on the ray, with a unit normal facing the ray, and made of a list material. Its `t` is the `t` of some object's hit, and no later than any object's hit. |
| Boxes.Sides | src/hbox.rs:18-23 | `new` builds exactly six sides. |
| Boxes.AsObjects | src/hbox.rs:16-25 | Each pushed side becomes the list object at its own position. |
| Boxes.Box | src/hbox.rs:15-28 | Definition; its properties are in `NewBox`, `BoxValid` and `SidesCoverSurface`. |
| Boxes.NewBox | src/hbox.rs:15-28 | The six pushes build the box with `min`, `max` stored unchanged and the sides in order. |
| Boxes.BoxValid | src/hbox.rs:18-25 | The box is a valid object exactly when its corners differ in every coordinate; all six faces carry the box's material. |
| Boxes.MaterialsOfRects | src/hbox.rs:18-23 | Rectangles that share one material give a list made of that material alone. |
| Boxes.SidesCoverSurface | src/hbox.rs:18-23 | The faces sit on `z = max.z`, `z = min.z`, `y = max.y`, `y = min.y`, `x = max.x` and `x = min.x`, each spanning the other two axes. For ordered corners, their union is exactly the box's surface. |
| Boxes.BoxHitOnSurface | src/hbox.rs:31-35 | `hit`, which delegates to the six-side list, returns a point of the box's surface made of its material, within the bounds, with a unit normal facing the ray. |
| Boxes.SideHitOnRect | src/hbox.rs:32-34 | A side's hit lies on that side. |
| Boxes.BoxHitIsNearest | src/hbox.rs:31-35 | Any point on a side that a ray not parallel to that side reaches within the bounds means a hit no later than it. |
| Cameras.New | src/camera.rs:23-55 | `origin == lookfrom` and `lens_radius == aperture / 2`. The shutter times are stored. `w` and `u` are unit vectors, and `w` scaled by the distance is `lookfrom - lookat`. |
| Cameras.NonParallelNonZero | src/camera.rs:36-37 | A view direction not parallel to `vup` is non-zero, so `normalize` can divide by its length. |
| Cameras.CrossWithDirection | src/camera.rs:37 | Normalising `w` keeps it not parallel to `vup`, so the second `normalize` is well defined. |
| Cameras.NormalizeFactor | src/camera.rs:36 | `normalize(d)` is `d` scaled by a non-zero factor. |
| Cameras.FrameOrthonormal | src/camera.rs:36-38 | `u`, `v`, `w` are unit length and pairwise perpendicular, `u` is perpendicular to `vup`, and `v == w x u`. |
| Cameras.ViewportCentred | src/camera.rs:41-47 | `lower_left_corner + horizontal/2 + vertical/2 == origin - w * focus_dist`. |
| Cameras.HorizontalExtent | src/camera.rs:33-41 | `horizontal == u * (aspect_ratio * 2h) * focus_dist`. |
| Cameras.VerticalExtent | src/camera.rs:33-42 | `vertical == v * 2h * focus_dist`. |
| Cameras.GetRay | src/camera.rs:57-63 | The ray's time lies in `[time0, time1)`. |
| Cameras.RayThroughViewport | src/camera.rs:59-61 | `origin + direction == lower_left_corner + s * horizontal + t * vertical`, whatever the lens sample. |
| Cameras.OriginOffset | src/camera.rs:58-60 | The ray origin is `origin + u * rd.x + v * rd.y`, where `rd` is the disk sample scaled by `lens_radius`. |
| Cameras.PinholeRay | src/camera.rs:58-60 | With `lens_radius == 0`, the ray starts at the camera origin. |
| Cameras.RayFromLensPlane | src/camera.rs:58-60 | For an orthonormal frame, the origin's offset is perpendicular to `w`. |
| Cameras.RayFromLensDistance | src/camera.rs:58-60 | The offset's squared length is `lens_radius^2 (rd.x^2 + rd.y^2)` for the unscaled sample. |
| Cameras.RayWithinLens | src/camera.rs:58-60 | For a sample in the unit disk, the ray starts within `lens_radius` of the camera origin. |
| Cameras.OffsetInPlane | src/camera.rs:59 | A combination of `u` and `v` is perpendicular to `w`, with squared length `a^2 + b^2`. |
| Raytracer.Scene | src/raytracer.rs:37 | The world is queried with `t_min = 0.001` and `t_max = +infinity`. |
| Raytracer.RayColor | src/raytracer.rs:33-52 | Definition; its properties are in `DepthExhausted`, `MissIsBackground`, `AbsorbedIsEmission`, `ScatteredIsTinted`, `DarkScene` and `ColorBounded`. |
| Raytracer.DepthExhausted | src/raytracer.rs:34-36 | With `depth <= 0`, `ray_color` is black, whatever the scene. |
| Raytracer.MissIsBackground | src/raytracer.rs:48-50 | On a miss, `ray_color` returns the background. |
| Raytracer.AbsorbedIsEmission | src/raytracer.rs:43-45 | When the material does not scatter, the colour is `emitted(u, v, p)`, which is black. |
| Raytracer.ScatteredIsTinted | src/raytracer.rs:39-42 | On scatter, the colour is the albedo times `ray_color` of the scattered ray, from `rec.p`, with one bounce less. |
| Raytracer.EmptyWorldIsBackground | src/raytracer.rs:37-50 | In an empty list, every ray of positive depth has the background colour. |
| Raytracer.DarkScene | src/raytracer.rs:33-52 | With a black background every ray is black, since no material emits. |
| Raytracer.SceneFacing | src/raytracer.rs:37 | Every record the scene reports has a unit normal that does not point along the ray. |
| Raytracer.SceneScatter | src/raytracer.rs:37-41 | At any surface the scene reports, a Lambertian bounce scatters along a direction that is not near zero. Metal scatters exactly the rays that arrive against the stored normal. |
| Raytracer.SceneAbsorbing | src/raytracer.rs:37-41 | A world built from objects whose albedos all lie in [0, 1] reports only such surfaces. |
| Raytracer.ColorBounded | src/raytracer.rs:33-52 | If those albedos lie in [0, 1] and the background in `[0, bound]`, every ray's colour lies in `[0, bound]`, at any depth. |
| Raytracer.TintWithinBound | src/raytracer.rs:41 | Tinting by an albedo in [0, 1] keeps a colour within `[0, bound]`. |
| Raytracer.BouncesBeyondDepthUnused | src/raytracer.rs:39-42 | A ray of depth `d` uses only the first `d` bounce samples, so recursion ends after at most `depth` bounces. |
| Raytracer.PixelOf | src/raytracer.rs:77-79 | Byte `j` of a row belongs to pixel `j / 3`, which is within the row. |
| Raytracer.SampleColor | src/raytracer.rs:66-70 | Definition; what it feeds is in `AccumulatePixel`. |
| Raytracer.PixelSum | src/raytracer.rs:65-71 | Definition; its properties are in `AccumulatePixel`. |
| Raytracer.PixelByte | src/raytracer.rs:72-79 | Definition; its properties are in `QuantisedPixel` and `BufferLayout`. |
| Raytracer.AccumulatePixel | src/raytracer.rs:65-71 | The inner loop's `pixel_color` is the sum of the pixel's `samples_per_pixel` sample colours, in loop order. |
| Raytracer.QuantisedPixel | src/raytracer.rs:72-79 | Each byte written for pixel `x` is `floor(256 * clamp(sqrt(c / spp), 0, 0.999))` of its channel: the row's byte `3x + k`. |
| Raytracer.WritePixel | src/raytracer.rs:77-79 | The three writes set bytes `3x`, `3x + 1`, `3x + 2` of the band to the quantised channels, and nothing else. |
| Raytracer.RenderPixel | src/raytracer.rs:64-80 | One pass of the outer loop writes exactly pixel `x`'s three bytes of row `y`. |
| Raytracer.RenderLine | src/raytracer.rs:54-81 | `render_line` writes bytes `0 .. 3 * width` of its band with row `y`'s bytes and nothing outside the band. |
| Raytracer.RenderBand | src/raytracer.rs:92-95 | Rendering band `i` as row `i` fills bytes `i * 3w .. (i + 1) * 3w` and changes nothing else. |
| Raytracer.BandBytes | src/raytracer.rs:92-95 | Byte `i` of band `row` is byte `i - row * 3w` of that row. |
| Raytracer.BandOf | src/raytracer.rs:92 | Every flat index falls in one of the `height` bands. |
| Raytracer.RowBounds | src/raytracer.rs:92 | Band `row` lies within the buffer. |
| Raytracer.InBand | src/raytracer.rs:92 | An index in band `row` has band number `row` and offset `i - row * n`. |
| Raytracer.Render | src/raytracer.rs:83-100 | The buffer is new and has `width * height * 3` bytes. Byte `i` is byte `i % 3w` of row `i / 3w`, as `render_line` computes it. |
| Raytracer.BufferLayout | src/raytracer.rs:91-95 | Byte `k` of pixel `(x, y)` sits at `(y * width + x) * 3 + k` and holds that pixel's quantised channel `k`. |
| Raytracer.IndexSplit | src/raytracer.rs:91-92 | `(y * width + x) * 3 + k == y * (3 * width) + (3x + k)`. |

## Left out

- PNG encoding and file creation (`write_image`), the `println!` of `write_color` and the `eprintln!` progress lines are I/O. `Colors.WriteColor` returns the three integers instead of printing them, and `Raytracer.Render` returns the buffer.
- Rayon's parallel iteration over the bands is not modelled. `Raytracer.Render` renders the bands one after another; they are disjoint, so the final buffer is the same.
- Random number generation (`Vec3::random`, `random_in_unit_sphere`, `random_in_unit_disk`, `gen`, `gen_range`, per-thread seeding) is not modelled; the draws are parameters. Their preconditions are what the generators guarantee: unit-sphere samples with `sqlen < 1`, a unit-disk sample with `sqlen < 1`, jitter in [0, 1), and a time in `[time0, time1)`. `random_in_unit_disk` does not exist in `src/vec3.rs`. The model takes a vector with `sqlen < 1`, of which `get_ray` uses `x` and `y`.
- `tan` and `to_radians` in `Camera::new`: the model takes `h = tan(vfov / 2)` as an input.
- IEEE-754 infinities and NaNs are not modelled; division by zero is excluded or given the outcome the IEEE comparisons produce. The per-case lines below say which.
- Rectangles.Hit: a ray with a zero direction component along the plane's axis is reported as no hit. In IEEE arithmetic, `t` is then infinite or NaN. A ray lying in the plane gets `t = NaN`, which passes every comparison, so the source returns a record with NaN fields.
- MovingSpheres.Roots: with a zero direction (`a == 0`), the IEEE roots are NaN or infinite and fail the strict range test. The model gives no candidates there.
- Spheres.Hit: requires a non-zero direction and a non-zero radius. Its comparisons are negated, so a NaN root would be accepted under IEEE.
- MovingSpheres.Valid: requires `time1 != time0` and `radius != 0`, the divisors of `center` and the normal. The same goes for `Rectangles.Valid` (non-flat extents) and `Boxes.ValidCorners`.
- Cameras.New: requires the view direction not to be parallel to `vup`, the divisor condition of both `normalize` calls.
- Raytracer.ValidJob: requires an image at least two pixels wide and high. This keeps the divisors `width - 1` and `height - 1` non-zero.
- Colors.Quantise: the NaN cases are modelled explicitly. A negative scaled component has a NaN square root, which `clamp` lets through and the cast turns into 0. Zero samples give an infinite scale, which saturates a positive sum.
- The old `Sphere` (out-parameter interface) is modelled on its own in `Spheres`. It is not one of the scene objects, because it implements the older `hit` signature.
- The moving sphere's record in the source has no `u`, `v`; the model's common record sets them to 0.
- `Ray::new` in `material.rs` takes no time, so a scattered ray has time 0.
- Ties in `HittableLists` follow the bound each object applies. `hit_list` passes `closest_so_far = rec.t` as the next object's `t_max`. A later rectangle or box accepts `t == t_max` and replaces the record; a later moving sphere rejects it, so the earlier record stays. The model keeps this behaviour, but the lemmas state only `t`, so they say nothing about which record wins a tie.
- `emitted` is called in `src/raytracer.rs` but defined in none of the modelled files. The model defines it as black for both material variants, so `AbsorbedIsEmission` states black.
- The `clamp` in `src/raytracer.rs` duplicates the one in `src/color.rs`; both are `Colors.Clamp`.
- `render_line` receives its band as a slice. The model passes the whole buffer and the band's offset, and proves the method writes nothing outside the band.
- The inner sample loop of `render_line` is the method `AccumulatePixel`. The three byte writes are `WritePixel`, one outer iteration is `RenderPixel`, and one band of `render` is `RenderBand`.
- The world of `ray_color` and `render` is a `dyn Hittable`, modelled as a function from rays to `Option<HitRecord>`. `Raytracer.Scene` connects it to the scene objects.
- `src/texture.rs` (a `sin` checker texture), `src/scene.rs` (random scene assembly), `src/main.rs` (an early PPM prototype) and `src/lib.rs` (module declarations) are not part of this model.
