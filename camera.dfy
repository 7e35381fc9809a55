/** The thin-lens camera: an orthonormal frame `u`, `v`, `w` built from where it looks
    from and to, a viewport `focus_dist` in front of the lens, and rays from a point
    of the lens disk through a point of the viewport. */
module Cameras {
  import opened Vectors
  import opened Rays

  datatype Camera = Camera(origin: Point3, lowerLeftCorner: Point3, horizontal: Vec3, vertical: Vec3,
                           u: Vec3, v: Vec3, w: Vec3, lensRadius: real, time0: real, time1: real)

  /** `Camera::new`. `h` is `tan(vfov.to_radians() / 2)`, passed in because the model
      has no trigonometry. The view direction must not be parallel to `vup` (which
      also rules out `lookfrom == lookat`): otherwise `normalize` divides by zero. */
  function New(lookfrom: Point3, lookat: Point3, vup: Vec3, h: real, aspectRatio: real,
               aperture: real, focusDist: real, t0: real, t1: real, sqrt: real -> real): (cam: Camera)
    requires IsSqrt(sqrt) && SqLen(Cross(vup, Sub(lookfrom, lookat))) != 0.0
    ensures cam.origin == lookfrom && cam.lensRadius == aperture / 2.0
    ensures cam.time0 == t0 && cam.time1 == t1
    ensures SqLen(cam.w) == 1.0 && SqLen(cam.u) == 1.0
    ensures Scale(cam.w, Len(Sub(lookfrom, lookat), sqrt)) == Sub(lookfrom, lookat)
  {
    var viewportHeight := ViewportHeight(h);
    var viewportWidth := ViewportWidth(aspectRatio, h);
    NonParallelNonZero(vup, Sub(lookfrom, lookat), sqrt);
    var w := Normalize(Sub(lookfrom, lookat), sqrt);
    CrossWithDirection(vup, Sub(lookfrom, lookat), sqrt);
    var u := Normalize(Cross(vup, w), sqrt);
    var v := Cross(w, u);
    var origin := lookfrom;
    var horizontal := Scale(Scale(u, viewportWidth), focusDist);
    var vertical := Scale(Scale(v, viewportHeight), focusDist);
    Camera(origin, Sub(Sub(Sub(origin, Div(horizontal, 2.0)), Div(vertical, 2.0)), Scale(w, focusDist)),
           horizontal, vertical, u, v, w, aperture / 2.0, t0, t1)
  }

  /** The viewport's height and width at unit distance, `2h` and `aspect_ratio * 2h`. */
  function ViewportHeight(h: real): real {
    2.0 * h
  }

  function ViewportWidth(aspectRatio: real, h: real): real {
    aspectRatio * ViewportHeight(h)
  }

  /** A vector not parallel to some other vector is not zero. */
  lemma NonParallelNonZero(a: Vec3, d: Vec3, sqrt: real -> real)
    requires SqLen(Cross(a, d)) != 0.0
    ensures SqLen(d) != 0.0
  {
    CrossLength(a, d);
    SquareNonNegative(Dot(a, d));
  }

  /** Normalising `d` does not change whether `a` is parallel to it. */
  lemma CrossWithDirection(a: Vec3, d: Vec3, sqrt: real -> real)
    requires IsSqrt(sqrt) && SqLen(d) != 0.0 && SqLen(Cross(a, d)) != 0.0
    ensures SqLen(Cross(a, Normalize(d, sqrt))) != 0.0
  {
    var k := NormalizeFactor(d, sqrt);
    CrossScale(a, d, k);
    ScaledNonZero(Cross(a, d), k);
  }

  /** `normalize(d)` is `d` scaled by a non-zero factor. */
  lemma NormalizeFactor(d: Vec3, sqrt: real -> real) returns (k: real)
    requires IsSqrt(sqrt) && SqLen(d) != 0.0
    ensures k != 0.0 && Normalize(d, sqrt) == Scale(d, k)
  {
    var l := Len(d, sqrt);
    LenZero(d, sqrt);
    k := 1.0 / l;
    assert Normalize(d, sqrt) == Scale(d, k);
  }

  /** Scaling by a non-zero factor keeps a vector non-zero: scaling back by the
      reciprocal recovers it. */
  lemma ScaledNonZero(c: Vec3, k: real)
    requires k != 0.0 && SqLen(c) != 0.0
    ensures SqLen(Scale(c, k)) != 0.0
  {
    var sc := Scale(c, k);
    var inv := 1.0 / k;
    UnscaleComponent(c.x, k);
    UnscaleComponent(c.y, k);
    UnscaleComponent(c.z, k);
    assert Scale(sc, inv) == c;
    SqLenScale(sc, inv);
  }

  lemma UnscaleComponent(x: real, k: real)
    requires k != 0.0
    ensures (1.0 / k) * (k * x) == x
  {
    assert (1.0 / k) * k == 1.0;
    assert (1.0 / k) * (k * x) == ((1.0 / k) * k) * x;
  }

  /** The frame the camera builds is orthonormal and right-handed: `w` points back
      from the target, `u` is level (perpendicular to `vup`), and `v = w x u`. */
  lemma FrameOrthonormal(lookfrom: Point3, lookat: Point3, vup: Vec3, h: real, aspectRatio: real,
                         aperture: real, focusDist: real, t0: real, t1: real, sqrt: real -> real, cam: Camera)
    requires IsSqrt(sqrt) && SqLen(Cross(vup, Sub(lookfrom, lookat))) != 0.0
    requires cam == New(lookfrom, lookat, vup, h, aspectRatio, aperture, focusDist, t0, t1, sqrt)
    ensures Orthonormal(cam) && Dot(cam.u, vup) == 0.0 && cam.v == Cross(cam.w, cam.u)
  {
    var w := cam.w;
    NonParallelNonZero(vup, Sub(lookfrom, lookat), sqrt);
    CrossWithDirection(vup, Sub(lookfrom, lookat), sqrt);
    var c := Cross(vup, w);
    var l := Len(c, sqrt);
    LenZero(c, sqrt);
    assert cam.u == Scale(c, 1.0 / l);
    CrossOrthogonal(vup, w);
    ScaledOrthogonal(c, w, 1.0 / l);
    ScaledOrthogonal(c, vup, 1.0 / l);
    CrossOrthogonal(w, cam.u);
    DotSymmetric(cam.v, cam.w);
    DotSymmetric(cam.u, cam.v);
    DotSymmetric(cam.u, cam.w);
    CrossLength(w, cam.u);
  }

  lemma ScaledOrthogonal(a: Vec3, b: Vec3, k: real)
    requires Dot(a, b) == 0.0
    ensures Dot(Scale(a, k), b) == 0.0
  {
    assert Dot(Scale(a, k), b) == k * Dot(a, b);
  }

  /** The viewport is centred `focus_dist` in front of the lens, along `-w`. */
  lemma ViewportCentred(lookfrom: Point3, lookat: Point3, vup: Vec3, h: real, aspectRatio: real,
                        aperture: real, focusDist: real, t0: real, t1: real, sqrt: real -> real, cam: Camera)
    requires IsSqrt(sqrt) && SqLen(Cross(vup, Sub(lookfrom, lookat))) != 0.0
    requires cam == New(lookfrom, lookat, vup, h, aspectRatio, aperture, focusDist, t0, t1, sqrt)
    ensures Add(Add(cam.lowerLeftCorner, Scale(cam.horizontal, 0.5)), Scale(cam.vertical, 0.5)) ==
        Sub(cam.origin, Scale(cam.w, focusDist))
  {
  }

  /** The viewport spans its width times `focus_dist` along `u` ... */
  lemma HorizontalExtent(lookfrom: Point3, lookat: Point3, vup: Vec3, h: real, aspectRatio: real,
                         aperture: real, focusDist: real, t0: real, t1: real, sqrt: real -> real, cam: Camera)
    requires IsSqrt(sqrt) && SqLen(Cross(vup, Sub(lookfrom, lookat))) != 0.0
    requires cam == New(lookfrom, lookat, vup, h, aspectRatio, aperture, focusDist, t0, t1, sqrt)
    ensures cam.horizontal == Scale(cam.u, ViewportWidth(aspectRatio, h) * focusDist)
  {
    ScaleTwice(cam.u, ViewportWidth(aspectRatio, h), focusDist, cam.horizontal);
  }

  /** ... and its height times `focus_dist` along `v`. */
  lemma VerticalExtent(lookfrom: Point3, lookat: Point3, vup: Vec3, h: real, aspectRatio: real,
                       aperture: real, focusDist: real, t0: real, t1: real, sqrt: real -> real, cam: Camera)
    requires IsSqrt(sqrt) && SqLen(Cross(vup, Sub(lookfrom, lookat))) != 0.0
    requires cam == New(lookfrom, lookat, vup, h, aspectRatio, aperture, focusDist, t0, t1, sqrt)
    ensures cam.vertical == Scale(cam.v, ViewportHeight(h) * focusDist)
  {
    ScaleTwice(cam.v, ViewportHeight(h), focusDist, cam.vertical);
  }

  lemma ScaleTwice(a: Vec3, j: real, k: real, b: Vec3)
    requires b == Scale(Scale(a, j), k)
    ensures b == Scale(a, j * k)
  {
  }

  /** What `random_in_unit_disk` draws: a point inside the unit sphere, of which
      `get_ray` uses only the x and y coordinates. */
  predicate InUnitDisk(disk: Vec3) {
    SqLen(disk) < 1.0
  }

  /** `get_ray(s, t)`. The point `disk` drawn by `random_in_unit_disk` and the time
      drawn by `gen_range(time0..time1)` are passed in; `gen_range` rejects an empty
      range, so the camera's shutter interval must be non-empty. */
  function GetRay(cam: Camera, s: real, t: real, disk: Vec3, time: real): (r: Ray)
    requires cam.time0 <= time < cam.time1
    ensures cam.time0 <= r.time < cam.time1
  {
    var offset := LensOffset(cam, disk);
    NewTimed(Add(cam.origin, offset),
             Sub(Sub(Add(Add(cam.lowerLeftCorner, Scale(cam.horizontal, s)), Scale(cam.vertical, t)), cam.origin), offset),
             time)
  }

  /** The viewport point for screen coordinates (s, t). */
  function ViewportPoint(cam: Camera, s: real, t: real): Point3 {
    Add(Add(cam.lowerLeftCorner, Scale(cam.horizontal, s)), Scale(cam.vertical, t))
  }

  /** Whatever point of the lens it starts from, the ray reaches the viewport point
      for (s, t) at parameter 1: the viewport is in focus. */
  lemma RayThroughViewport(cam: Camera, s: real, t: real, disk: Vec3, time: real)
    requires cam.time0 <= time < cam.time1
    ensures At(GetRay(cam, s, t, disk, time), 1.0) == ViewportPoint(cam, s, t)
  {
  }

  /** `u`, `v`, `w` have unit length and are pairwise perpendicular. */
  predicate Orthonormal(cam: Camera) {
    SqLen(cam.u) == 1.0 && SqLen(cam.v) == 1.0 && SqLen(cam.w) == 1.0 &&
    Dot(cam.u, cam.v) == 0.0 && Dot(cam.v, cam.w) == 0.0 && Dot(cam.u, cam.w) == 0.0
  }

  /** A pinhole camera (lens radius 0) shoots every ray from its origin. */
  lemma PinholeRay(cam: Camera, s: real, t: real, disk: Vec3, time: real)
    requires cam.time0 <= time < cam.time1 && cam.lensRadius == 0.0
    ensures GetRay(cam, s, t, disk, time).origin == cam.origin
  {
    OriginOffset(cam, s, t, disk, time);
    ZeroOffset(cam.u, cam.v, disk.x, disk.y);
    SubZero(GetRay(cam, s, t, disk, time).origin, cam.origin);
  }

  lemma ZeroOffset(u: Vec3, v: Vec3, a: real, b: real)
    ensures Add(Scale(u, a * 0.0), Scale(v, b * 0.0)) == Zero
  {
  }

  lemma SubZero(p: Vec3, q: Vec3)
    requires Sub(p, q) == Zero
    ensures p == q
  {
    assert p.x - q.x == 0.0 && p.y - q.y == 0.0 && p.z - q.z == 0.0;
  }

  /** The ray starts on the lens: its origin is offset from the camera's within the
      lens plane, perpendicular to `w` ... */
  lemma RayFromLensPlane(cam: Camera, s: real, t: real, disk: Vec3, time: real)
    requires cam.time0 <= time < cam.time1 && Orthonormal(cam)
    ensures Dot(Sub(GetRay(cam, s, t, disk, time).origin, cam.origin), cam.w) == 0.0
  {
    OriginOffset(cam, s, t, disk, time);
    OffsetInPlane(cam.u, cam.v, cam.w, disk.x * cam.lensRadius, disk.y * cam.lensRadius);
  }

  /** ... at the distance of the disk sample scaled by the lens radius. */
  lemma RayFromLensDistance(cam: Camera, s: real, t: real, disk: Vec3, time: real)
    requires cam.time0 <= time < cam.time1 && Orthonormal(cam)
    ensures SqLen(Sub(GetRay(cam, s, t, disk, time).origin, cam.origin)) ==
              cam.lensRadius * cam.lensRadius * (disk.x * disk.x + disk.y * disk.y)
  {
    OriginOffset(cam, s, t, disk, time);
    OffsetInPlane(cam.u, cam.v, cam.w, disk.x * cam.lensRadius, disk.y * cam.lensRadius);
    SquareOfProduct(disk.x, cam.lensRadius);
    SquareOfProduct(disk.y, cam.lensRadius);
  }

  /** So every ray leaves the lens within the lens radius of its centre. */
  lemma RayWithinLens(cam: Camera, s: real, t: real, disk: Vec3, time: real)
    requires InUnitDisk(disk) && cam.time0 <= time < cam.time1 && Orthonormal(cam)
    ensures SqLen(Sub(GetRay(cam, s, t, disk, time).origin, cam.origin)) <= cam.lensRadius * cam.lensRadius
  {
    RayFromLensDistance(cam, s, t, disk, time);
    var q := SqLen(Sub(GetRay(cam, s, t, disk, time).origin, cam.origin));
    SquareNonNegative(cam.lensRadius);
    SquareNonNegative(disk.x);
    SquareNonNegative(disk.y);
    SquareNonNegative(disk.z);
    var d := disk.x * disk.x + disk.y * disk.y;
    assert d <= SqLen(disk);
    assert q == cam.lensRadius * cam.lensRadius * d;
    BelowOneFactor(cam.lensRadius * cam.lensRadius, disk.x * disk.x + disk.y * disk.y, q);
  }

  lemma BelowOneFactor(kk: real, d: real, q: real)
    requires kk >= 0.0 && 0.0 <= d < 1.0 && q == kk * d
    ensures q <= kk
  {
    assert kk - q == kk * (1.0 - d);
    if kk > 0.0 { MulPositive(kk, 1.0 - d); }
  }

  /** The lens offset `u * rd.x + v * rd.y` of `get_ray`, with `rd` the disk sample
      scaled by the lens radius. */
  function LensOffset(cam: Camera, disk: Vec3): Vec3 {
    var rd := Scale(disk, cam.lensRadius);
    Add(Scale(cam.u, rd.x), Scale(cam.v, rd.y))
  }

  lemma OriginOffset(cam: Camera, s: real, t: real, disk: Vec3, time: real)
    requires cam.time0 <= time < cam.time1
    ensures Sub(GetRay(cam, s, t, disk, time).origin, cam.origin) ==
              Add(Scale(cam.u, disk.x * cam.lensRadius), Scale(cam.v, disk.y * cam.lensRadius))

  {
    var offset := LensOffset(cam, disk);
    assert GetRay(cam, s, t, disk, time).origin == Add(cam.origin, offset);
    AddSubCancel(offset, cam.origin);
    assert Add(cam.origin, offset) == Add(offset, cam.origin);
  }

  lemma OffsetInPlane(u: Vec3, v: Vec3, w: Vec3, a: real, b: real)
    requires SqLen(u) == 1.0 && SqLen(v) == 1.0 && Dot(u, v) == 0.0 && Dot(u, w) == 0.0 && Dot(v, w) == 0.0
    ensures Dot(Add(Scale(u, a), Scale(v, b)), w) == 0.0
    ensures SqLen(Add(Scale(u, a), Scale(v, b))) == a * a + b * b
  {
    DotCombination(u, v, w, a, b);
    SqLenSum(Scale(u, a), Scale(v, b));
    SqLenScale(u, a);
    SqLenScale(v, b);
    DotScaleBoth(u, v, a, b);
  }

  /** `(a u + b v) . w = a (u . w) + b (v . w)` */
  lemma DotCombination(u: Vec3, v: Vec3, w: Vec3, a: real, b: real)
    ensures Dot(Add(Scale(u, a), Scale(v, b)), w) == a * Dot(u, w) + b * Dot(v, w)
  {
  }

  /** `(a u) . (b v) = a b (u . v)` */
  lemma DotScaleBoth(u: Vec3, v: Vec3, a: real, b: real)
    ensures Dot(Scale(u, a), Scale(v, b)) == (a * b) * Dot(u, v)
  {
    ScaledProduct(a, u.x, b, v.x);
    ScaledProduct(a, u.y, b, v.y);
    ScaledProduct(a, u.z, b, v.z);
  }

  lemma ScaledProduct(a: real, x: real, b: real, y: real)
    ensures (a * x) * (b * y) == (a * b) * (x * y)
  {
  }

  /** `|p + q|^2 = |p|^2 + 2 p.q + |q|^2` */
  lemma SqLenSum(p: Vec3, q: Vec3)
    ensures SqLen(Add(p, q)) == SqLen(p) + 2.0 * Dot(p, q) + SqLen(q)
  {
  }

  lemma SquareOfProduct(x: real, k: real)
    ensures (x * k) * (x * k) == k * k * (x * x)
  {
  }
}
