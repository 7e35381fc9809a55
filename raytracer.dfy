/** The renderer: the radiance of a ray, bounded by a bounce depth, and the loops
    that fill the image buffer row by row. The random draws of the source (the
    jitter of each sample, the lens and shutter samples of the camera, and the
    unit-sphere sample of each Lambertian bounce) are inputs. */
module Raytracer {
  import opened Vectors
  import opened Rays
  import opened Colors
  import opened Materials
  import opened Scattering
  import opened Hittables
  import opened Options
  import opened HittableLists
  import opened Cameras

  /** The near end of the interval the world is queried on, which keeps a scattered
      ray from hitting the surface it leaves. */
  const HitTMin: real := 0.001

  /** Samples drawn by `random_in_unit_sphere`: strictly inside the unit sphere. */
  predicate InUnitBall(samples: seq<Vec3>) {
    forall i :: 0 <= i < |samples| ==> SqLen(samples[i]) < 1.0
  }

  /** The world as `ray_color` and `render` see it: a `dyn Hittable` of which only
      `hit(r, 0.001, +infinity)` is ever asked. */
  type World = Ray -> Option<HitRecord>

  /** The world made of an object: the nearest hit of `o` in (0.001, +infinity). */
  function Scene(o: Object, sqrt: real -> real): (world: World)
    requires ValidObject(o) && IsSqrt(sqrt)
    ensures forall r :: world(r) == Hit(o, r, HitTMin, Infinity, sqrt)
  {
    r => Hit(o, r, HitTMin, Infinity, sqrt)
  }

  /** `ray_color(r, background, world, depth)`. The bounce at depth `d` scatters with
      `bounces[d - 1]`; a ray that runs out of depth is black, one that misses the
      world has the background colour, one that is absorbed has the colour the
      surface emits, and a scattered ray is tinted by the attenuation. */
  function RayColor(r: Ray, background: Color, world: World, depth: int, bounces: seq<Vec3>): Color
    requires InUnitBall(bounces) && depth <= |bounces|
    decreases depth
  {
    if depth <= 0 then Zero
    else
      match world(r)
      case None => background
      case Some(rec) =>
        var s := ScatterOf(rec.material, r, rec, bounces[depth - 1]);
        if s.scatters then Mul(s.attenuation, RayColor(s.scattered, background, world, depth - 1, bounces))
        else Emitted(rec.material, rec.u, rec.v, rec.p)
  }

  /** Out of depth, every ray is black, whatever the scene. */
  lemma DepthExhausted(r: Ray, background: Color, world: World, depth: int, bounces: seq<Vec3>)
    requires InUnitBall(bounces) && depth <= |bounces|
    requires depth <= 0
    ensures RayColor(r, background, world, depth, bounces) == Zero
  {
  }

  /** A ray that hits nothing in (0.001, +infinity) has the background colour. */
  lemma MissIsBackground(r: Ray, background: Color, world: World, depth: int, bounces: seq<Vec3>)
    requires InUnitBall(bounces) && 0 < depth <= |bounces|
    requires world(r).None?
    ensures RayColor(r, background, world, depth, bounces) == background
  {
  }

  /** A ray that reaches a surface which does not scatter it has the colour that
      surface emits: black, for these materials. */
  lemma AbsorbedIsEmission(r: Ray, background: Color, world: World, depth: int, bounces: seq<Vec3>)
    requires InUnitBall(bounces) && 0 < depth <= |bounces|
    requires world(r).Some?
    requires !ScatterOf(world(r).value.material, r, world(r).value, bounces[depth - 1]).scatters
    ensures var rec := world(r).value;
      RayColor(r, background, world, depth, bounces) == Emitted(rec.material, rec.u, rec.v, rec.p) &&
      RayColor(r, background, world, depth, bounces) == Zero
  {
  }

  /** A ray that is scattered is tinted by the surface's attenuation and continues
      with one bounce less. */
  lemma ScatteredIsTinted(r: Ray, background: Color, world: World, depth: int, bounces: seq<Vec3>)
    requires InUnitBall(bounces) && 0 < depth <= |bounces|
    requires world(r).Some?
    requires ScatterOf(world(r).value.material, r, world(r).value, bounces[depth - 1]).scatters
    ensures var rec := world(r).value;
      var s := ScatterOf(rec.material, r, rec, bounces[depth - 1]);
      s.attenuation == Albedo(rec.material) && s.scattered.origin == rec.p &&
      RayColor(r, background, world, depth, bounces) ==
        Mul(Albedo(rec.material), RayColor(s.scattered, background, world, depth - 1, bounces))
  {
  }

  /** In an empty world every ray has the background colour. */
  lemma EmptyWorldIsBackground(r: Ray, background: Color, depth: int, bounces: seq<Vec3>, sqrt: real -> real)
    requires IsSqrt(sqrt) && InUnitBall(bounces) && 0 < depth <= |bounces|
    ensures RayColor(r, background, Scene(ListObject(HittableList([])), sqrt), depth, bounces) == background
  {
  }

  /** No surface of these materials emits, so without a background light the whole
      scene is black. */
  lemma {:induction false} DarkScene(r: Ray, world: World, depth: int, bounces: seq<Vec3>)
    requires InUnitBall(bounces) && depth <= |bounces|
    ensures RayColor(r, Zero, world, depth, bounces) == Zero
    decreases depth
  {
    if depth > 0 {
      match world(r)
      case None =>
      case Some(rec) =>
        var s := ScatterOf(rec.material, r, rec, bounces[depth - 1]);
        if s.scatters {
          DarkScene(s.scattered, world, depth - 1, bounces);
          TintBlack(s.attenuation);
        }
    }
  }

  lemma TintBlack(a: Color)
    ensures Mul(a, Zero) == Zero
  {
  }

  /** Each channel of the albedo lies in [0, 1]: the surface absorbs part of the
      light and adds none. */
  predicate Absorbing(m: Material) {
    var a := Albedo(m);
    0.0 <= a.x <= 1.0 && 0.0 <= a.y <= 1.0 && 0.0 <= a.z <= 1.0
  }

  /** Every surface the world can report is absorbing. */
  ghost predicate AbsorbingWorld(world: World) {
    forall r :: world(r).Some? ==> Absorbing(world(r).value.material)
  }

  /** A world made of an object whose materials are all absorbing is absorbing. */
  lemma SceneAbsorbing(o: Object, sqrt: real -> real)
    requires ValidObject(o) && IsSqrt(sqrt)
    requires forall m :: m in MaterialsOf(o) ==> Absorbing(m)
    ensures AbsorbingWorld(Scene(o, sqrt))
  {
    forall r | Scene(o, sqrt)(r).Some?
      ensures Absorbing(Scene(o, sqrt)(r).value.material)
    {
      ObjectPlaced(o, r, HitTMin, Infinity, sqrt);
    }
  }

  /** Every record the world reports has a unit normal that does not point along
      the ray it was hit by. */
  ghost predicate FacingWorld(world: World) {
    forall r :: world(r).Some? ==> Facing(world(r).value, r)
  }

  /** A world made of objects keeps the front-face convention of its primitives. */
  lemma SceneFacing(o: Object, sqrt: real -> real)
    requires ValidObject(o) && IsSqrt(sqrt)
    ensures FacingWorld(Scene(o, sqrt))
  {
    forall r | Scene(o, sqrt)(r).Some?
      ensures Facing(Scene(o, sqrt)(r).value, r)
    {
      ObjectPlaced(o, r, HitTMin, Infinity, sqrt);
    }
  }

  /** At every surface the scene reports, a Lambertian bounce never leaves along a
      degenerate direction, and metal scatters exactly the rays that arrive against
      the stored normal. */
  lemma SceneScatter(world: World, r: Ray, sample: Vec3)
    requires FacingWorld(world) && world(r).Some?
    ensures var rec := world(r).value;
      var s := ScatterOf(rec.material, r, rec, sample);
      (rec.material.Lambertian? ==> s.scatters && !NearZero(s.scattered.direction)) &&
      (rec.material.Metal? ==> (s.scatters <==> Dot(r.direction, rec.normal) < 0.0))
  {
    var rec := world(r).value;
    assert Facing(rec, r);
    match rec.material
    case Lambertian(_) => DiffuseDirectionNotDegenerate(rec.normal, sample);
    case Metal(albedo) => MetalScattersIffIncoming(albedo, r, rec, sample);
  }

  /** Each channel of the colour lies in [0, bound]. */
  predicate WithinBound(c: Color, bound: real) {
    0.0 <= c.x <= bound && 0.0 <= c.y <= bound && 0.0 <= c.z <= bound
  }

  /** Energy is not created: when every surface of the world is absorbing and the
      background lies in [0, bound], so does the colour of every ray, whatever its
      depth and its bounces. */
  lemma {:induction false} ColorBounded(r: Ray, background: Color, bound: real, world: World, depth: int,
                                        bounces: seq<Vec3>)
    requires InUnitBall(bounces) && depth <= |bounces|
    requires WithinBound(background, bound) && AbsorbingWorld(world)
    ensures WithinBound(RayColor(r, background, world, depth, bounces), bound)
    decreases depth
  {
    if depth > 0 {
      match world(r)
      case None =>
      case Some(rec) =>
        var s := ScatterOf(rec.material, r, rec, bounces[depth - 1]);
        if s.scatters {
          ColorBounded(s.scattered, background, bound, world, depth - 1, bounces);
          assert Absorbing(rec.material);
          TintWithinBound(s.attenuation, RayColor(s.scattered, background, world, depth - 1, bounces), bound);
        }
    }
  }

  lemma TintWithinBound(a: Color, c: Color, bound: real)
    requires 0.0 <= a.x <= 1.0 && 0.0 <= a.y <= 1.0 && 0.0 <= a.z <= 1.0 && WithinBound(c, bound)
    ensures WithinBound(Mul(a, c), bound)
  {
    TintBounded(a.x, c.x, bound);
    TintBounded(a.y, c.y, bound);
    TintBounded(a.z, c.z, bound);
  }

  /** Tinting by a factor in [0, 1] keeps a value within [0, bound]. */
  lemma TintBounded(a: real, c: real, bound: real)
    requires 0.0 <= a <= 1.0 && 0.0 <= c <= bound
    ensures 0.0 <= a * c <= bound
  {
    assert bound - a * c == (bound - c) + (1.0 - a) * c;
    NonNegativeProduct(a, c);
    NonNegativeProduct(1.0 - a, c);
  }

  lemma NonNegativeProduct(a: real, c: real)
    requires 0.0 <= a && 0.0 <= c
    ensures 0.0 <= a * c
  {
    if a > 0.0 && c > 0.0 { MulPositive(a, c); }
  }

  /** A ray of depth `depth` bounces at most `depth` times: it uses only the first
      `depth` bounce samples. */
  lemma {:induction false} BouncesBeyondDepthUnused(r: Ray, background: Color, world: World, depth: int,
                                                    bounces: seq<Vec3>, bounces': seq<Vec3>)
    requires InUnitBall(bounces) && InUnitBall(bounces')
    requires 0 <= depth <= |bounces| && depth <= |bounces'| && bounces[..depth] == bounces'[..depth]
    ensures RayColor(r, background, world, depth, bounces) == RayColor(r, background, world, depth, bounces')
    decreases depth
  {
    if depth > 0 {
      assert bounces[depth - 1] == bounces[..depth][depth - 1];
      assert bounces'[depth - 1] == bounces'[..depth][depth - 1];
      assert bounces[..depth - 1] == bounces[..depth][..depth - 1];
      assert bounces'[..depth - 1] == bounces'[..depth][..depth - 1];
      match world(r)
      case None =>
      case Some(rec) =>
        var s := ScatterOf(rec.material, r, rec, bounces[depth - 1]);
        if s.scatters {
          BouncesBeyondDepthUnused(s.scattered, background, world, depth - 1, bounces, bounces');
        }
    }
  }

  /** The random draws for one sample of one pixel: the jitter added to the pixel's
      coordinates, the lens sample, the shutter time and the bounce samples. */
  datatype Draw = Draw(du: real, dv: real, disk: Vec3, time: real, bounces: seq<Vec3>)

  /** The arguments `render` passes on to `render_line`. */
  datatype Job = Job(camera: Camera, world: World, background: Color, width: int, height: int,
                     samplesPerPixel: int, maxDepth: int)

  /** What the random number generators can produce: `gen::<f64>()` lies in [0, 1),
      the lens sample in the unit disk, the time in the shutter interval, and
      enough unit-ball samples for `max_depth` bounces. */
  predicate ValidDraw(job: Job, d: Draw) {
    0.0 <= d.du < 1.0 && 0.0 <= d.dv < 1.0 && InUnitDisk(d.disk) &&
    job.camera.time0 <= d.time < job.camera.time1 &&
    InUnitBall(d.bounces) && job.maxDepth <= |d.bounces|
  }

  /** The image spans at least two pixels each way, so that `width - 1` and
      `height - 1` are non-zero divisors. */
  predicate ValidJob(job: Job) {
    job.width >= 2 && job.height >= 2
  }

  /** `draws(x, y, s)` is the draw for sample `s` of pixel (x, y). */
  predicate ValidDraws(job: Job, draws: (int, int, int) -> Draw) {
    forall x, y, s :: 0 <= x < job.width && 0 <= y < job.height && 0 <= s < job.samplesPerPixel ==>
      ValidDraw(job, draws(x, y, s))
  }

  /** The number of samples the loop `0..samples_per_pixel` takes. */
  function SampleCount(job: Job): nat {
    if job.samplesPerPixel < 0 then 0 else job.samplesPerPixel
  }

  /** One sample of pixel (x, y): the jittered pixel position in viewport
      coordinates, row 0 at the top, and the colour of the camera ray through it. */
  function SampleColor(job: Job, x: int, y: int, d: Draw): Color
    requires ValidJob(job) && ValidDraw(job, d)
  {
    var u := (x as real + d.du) / ((job.width - 1) as real);
    var v := (job.height as real - (y as real + d.dv)) / ((job.height - 1) as real);
    RayColor(GetRay(job.camera, u, v, d.disk, d.time), job.background, job.world, job.maxDepth, d.bounces)
  }

  /** The sum of the first `n` samples of pixel (x, y), in the loop's order. */
  function PixelSum(job: Job, draws: (int, int, int) -> Draw, x: int, y: int, n: nat): Color
    requires ValidJob(job) && ValidDraws(job, draws)
    requires 0 <= x < job.width && 0 <= y < job.height && n <= SampleCount(job)
  {
    if n == 0 then Zero
    else Add(PixelSum(job, draws, x, y, n - 1), SampleColor(job, x, y, draws(x, y, n - 1)))
  }

  /** Channel `k` (red, green, blue) of a colour. */
  function Channel(c: Color, k: int): real
    requires 0 <= k < 3
  {
    if k == 0 then c.x else if k == 1 then c.y else c.z
  }

  /** Byte `k` of pixel (x, y) in the output. */
  function PixelByte(job: Job, draws: (int, int, int) -> Draw, x: int, y: int, k: int, sqrt: real -> real): byte
    requires IsSqrt(sqrt) && ValidJob(job) && ValidDraws(job, draws)
    requires 0 <= x < job.width && 0 <= y < job.height && 0 <= k < 3
  {
    Quantise(Channel(PixelSum(job, draws, x, y, SampleCount(job)), k), job.samplesPerPixel, sqrt) as byte
  }

  /** Byte `j` of the band that row `y` is rendered into: pixel `j / 3`, channel
      `j % 3`. */
  function LineByte(job: Job, draws: (int, int, int) -> Draw, y: int, j: int, sqrt: real -> real): byte
    requires IsSqrt(sqrt) && ValidJob(job) && ValidDraws(job, draws)
    requires 0 <= y < job.height && 0 <= j < 3 * job.width
  {
    PixelOf(j, job.width);
    PixelByte(job, draws, j / 3, y, j % 3, sqrt)
  }

  lemma PixelOf(j: int, width: int)
    requires 0 <= j < 3 * width
    ensures 0 <= j / 3 < width
  {
    var q := j / 3;
    assert j == 3 * q + j % 3;
  }

  /** The inner loop of `render_line`: the colours of the samples of pixel (x, y)
      added up in `pixel_color`. */
  method AccumulatePixel(job: Job, draws: (int, int, int) -> Draw, x: int, y: int, sqrt: real -> real)
    returns (pixelColor: Color)
    requires IsSqrt(sqrt) && ValidJob(job) && ValidDraws(job, draws)
    requires 0 <= x < job.width && 0 <= y < job.height
    ensures pixelColor == PixelSum(job, draws, x, y, SampleCount(job))
  {
    pixelColor := Zero;
    var s := 0;
    while s < job.samplesPerPixel
      invariant 0 <= s <= SampleCount(job)
      invariant pixelColor == PixelSum(job, draws, x, y, s)
    {
      pixelColor := Add(pixelColor, SampleColor(job, x, y, draws(x, y, s)));
      s := s + 1;
    }
  }

  /** The three bytes `render_line` writes for pixel (x, y) are bytes `3 * x`,
      `3 * x + 1` and `3 * x + 2` of its row. */
  lemma QuantisedPixel(job: Job, draws: (int, int, int) -> Draw, x: int, y: int, pixelColor: Color,
                       sqrt: real -> real)
    requires IsSqrt(sqrt) && ValidJob(job) && ValidDraws(job, draws)
    requires 0 <= x < job.width && 0 <= y < job.height
    requires pixelColor == PixelSum(job, draws, x, y, SampleCount(job))
    ensures forall j :: x * 3 <= j < x * 3 + 3 ==>
              Quantise(Channel(pixelColor, j - x * 3), job.samplesPerPixel, sqrt) as byte == LineByte(job, draws, y, j, sqrt)
  {
    forall j | x * 3 <= j < x * 3 + 3
      ensures Quantise(Channel(pixelColor, j - x * 3), job.samplesPerPixel, sqrt) as byte == LineByte(job, draws, y, j, sqrt)
    {
      InBand(j, x, 3);
    }
  }

  /** The three byte writes of `render_line` for pixel `x`, into the band that
      starts at `start`: channel `k` of the quantised colour goes to byte
      `x * 3 + k` of the band, and nothing else changes. */
  method WritePixel(pixels: array<byte>, start: int, x: int, pixelColor: Color, samples: int, sqrt: real -> real)
    requires IsSqrt(sqrt) && 0 <= start && 0 <= x && start + x * 3 + 3 <= pixels.Length
    modifies pixels
    ensures forall i :: 0 <= i < pixels.Length && !(start + x * 3 <= i < start + x * 3 + 3) ==> pixels[i] == old(pixels[i])
    ensures forall i :: start + x * 3 <= i < start + x * 3 + 3 ==>
              pixels[i] == Quantise(Channel(pixelColor, i - start - x * 3), samples, sqrt) as byte
  {
    pixels[start + x * 3] := Quantise(pixelColor.x, samples, sqrt) as byte;
    pixels[start + x * 3 + 1] := Quantise(pixelColor.y, samples, sqrt) as byte;
    pixels[start + x * 3 + 2] := Quantise(pixelColor.z, samples, sqrt) as byte;
  }

  /** `render_line(band, ..., y)`, with the band of `pixels` starting at `start`:
      row `y` is written to the `3 * width` bytes of the band, pixel by pixel, and
      nothing outside the band changes. */
  method RenderLine(pixels: array<byte>, start: int, job: Job, draws: (int, int, int) -> Draw, y: int,
                    sqrt: real -> real)
    requires IsSqrt(sqrt) && ValidJob(job) && ValidDraws(job, draws) && 0 <= y < job.height
    requires 0 <= start && start + job.width * 3 <= pixels.Length
    modifies pixels
    ensures forall i :: 0 <= i < pixels.Length && !(start <= i < start + job.width * 3) ==> pixels[i] == old(pixels[i])
    ensures forall j :: 0 <= j < job.width * 3 ==> pixels[start + j] == LineByte(job, draws, y, j, sqrt)
  {
    var x := 0;
    while x < job.width
      invariant 0 <= x <= job.width
      invariant forall i :: 0 <= i < pixels.Length && !(start <= i < start + x * 3) ==> pixels[i] == old(pixels[i])
      invariant forall j :: 0 <= j < x * 3 ==> pixels[start + j] == LineByte(job, draws, y, j, sqrt)
    {
      RenderPixel(pixels, start, job, draws, x, y, sqrt);
      x := x + 1;
    }
  }

  /** One pass of the outer loop of `render_line`: the samples of pixel (x, y) are
      added up and its three bytes written at `x * 3` in the band. */
  method RenderPixel(pixels: array<byte>, start: int, job: Job, draws: (int, int, int) -> Draw, x: int, y: int,
                     sqrt: real -> real)
    requires IsSqrt(sqrt) && ValidJob(job) && ValidDraws(job, draws) && 0 <= x < job.width && 0 <= y < job.height
    requires 0 <= start && start + job.width * 3 <= pixels.Length
    modifies pixels
    ensures forall i :: 0 <= i < pixels.Length && !(start + x * 3 <= i < start + x * 3 + 3) ==> pixels[i] == old(pixels[i])
    ensures forall j :: x * 3 <= j < x * 3 + 3 ==> pixels[start + j] == LineByte(job, draws, y, j, sqrt)
  {
    var pixelColor := AccumulatePixel(job, draws, x, y, sqrt);
    WritePixel(pixels, start, x, pixelColor, job.samplesPerPixel, sqrt);
    QuantisedPixel(job, draws, x, y, pixelColor, sqrt);
  }

  /** Where byte `k` of pixel (x, y) sits in the flat RGB buffer. */
  function PixelIndex(width: int, x: int, y: int, k: int): int {
    (y * width + x) * 3 + k
  }

  /** The byte the finished buffer holds at flat index `i`: band `i / (3 * width)`
      is row y, and its offset within the band gives the pixel and the channel. */
  function BufferByte(job: Job, draws: (int, int, int) -> Draw, i: int, sqrt: real -> real): byte
    requires IsSqrt(sqrt) && ValidJob(job) && ValidDraws(job, draws) && 0 <= i < job.width * job.height * 3
  {
    var n := 3 * job.width;
    BandOf(i, job.width, job.height);
    LineByte(job, draws, i / n, i % n, sqrt)
  }

  lemma BandOf(i: int, width: int, height: int)
    requires width >= 1 && height >= 0 && 0 <= i < width * height * 3
    ensures 0 <= i / (3 * width) < height
  {
    var n := 3 * width;
    var q, r := i / n, i % n;
    assert i == q * n + r && 0 <= r < n;
    assert width * height * 3 == height * n;
    MulLe(height, q, n);
    MulLe(q, -1, n);
  }

  /** `a <= b` implies `a * n <= b * n` for `n >= 0`. */
  lemma MulLe(a: int, b: int, n: int)
    requires n >= 0
    ensures a <= b ==> a * n <= b * n
  {
    assert b * n - a * n == (b - a) * n;
    if a <= b && n > 0 {
      assert (b - a) * n >= 0;
    }
  }

  /** `render`: a zeroed buffer of `width * height * 3` bytes, split into `height`
      bands of `3 * width` bytes; band i is rendered as row i. The bands are
      rendered one after the other. */
  method Render(job: Job, draws: (int, int, int) -> Draw, sqrt: real -> real) returns (pixels: array<byte>)
    requires IsSqrt(sqrt) && ValidJob(job) && ValidDraws(job, draws)
    ensures fresh(pixels) && pixels.Length == job.width * job.height * 3
    ensures forall i :: 0 <= i < pixels.Length ==> pixels[i] == BufferByte(job, draws, i, sqrt)
  {
    var n := 3 * job.width;
    pixels := new byte[job.width * job.height * 3](_ => 0);
    assert pixels.Length == job.height * n;
    var row := 0;
    while row < job.height
      invariant 0 <= row <= job.height && 0 <= row * n <= pixels.Length
      invariant forall i :: 0 <= i < row * n ==> pixels[i] == BufferByte(job, draws, i, sqrt)
    {
      RowBounds(row, n, job.height);
      RenderBand(pixels, job, draws, row, sqrt);
      row := row + 1;
    }
  }

  /** One band of `render`: row `row` rendered into bytes `row * n .. (row + 1) * n`
      of the buffer, where `n = 3 * width`. */
  method RenderBand(pixels: array<byte>, job: Job, draws: (int, int, int) -> Draw, row: int, sqrt: real -> real)
    requires IsSqrt(sqrt) && ValidJob(job) && ValidDraws(job, draws) && 0 <= row < job.height
    requires pixels.Length == job.width * job.height * 3
    modifies pixels
    ensures forall i :: 0 <= i < pixels.Length && !(row * (3 * job.width) <= i < (row + 1) * (3 * job.width)) ==>
              pixels[i] == old(pixels[i])
    ensures forall i :: row * (3 * job.width) <= i < (row + 1) * (3 * job.width) ==>
              0 <= i < pixels.Length && pixels[i] == BufferByte(job, draws, i, sqrt)
  {
    var n := 3 * job.width;
    assert pixels.Length == job.height * n;
    RowBounds(row, n, job.height);
    RenderLine(pixels, row * n, job, draws, row, sqrt);
    BandBytes(job, draws, row, n, sqrt);
    forall i | row * n <= i < (row + 1) * n
      ensures pixels[i] == BufferByte(job, draws, i, sqrt)
    {
      var j := i - row * n;
      assert pixels[row * n + j] == LineByte(job, draws, row, j, sqrt);
    }
  }

  /** Byte `i` of band `row` of the buffer is byte `i - row * n` of that row. */
  lemma BandBytes(job: Job, draws: (int, int, int) -> Draw, row: int, n: int, sqrt: real -> real)
    requires IsSqrt(sqrt) && ValidJob(job) && ValidDraws(job, draws) && 0 <= row < job.height
    requires n == 3 * job.width
    ensures forall i :: row * n <= i < (row + 1) * n ==>
              0 <= i < job.width * job.height * 3 &&
              BufferByte(job, draws, i, sqrt) == LineByte(job, draws, row, i - row * n, sqrt)
  {
    RowBounds(row, n, job.height);
    assert job.width * job.height * 3 == job.height * n;
    forall i | row * n <= i < (row + 1) * n
      ensures 0 <= i < job.width * job.height * 3 &&
              BufferByte(job, draws, i, sqrt) == LineByte(job, draws, row, i - row * n, sqrt)
    {
      InBand(i, row, n);
    }
  }

  lemma RowBounds(row: int, n: int, height: int)
    requires 0 <= row < height && n >= 0
    ensures 0 <= row * n && row * n + n <= height * n && (row + 1) * n == row * n + n
  {
    MulLe(0, row, n);
    MulLe(row + 1, height, n);
  }

  /** A flat index in band `row` has band number `row` and offset `i - row * n`. */
  lemma InBand(i: int, row: int, n: int)
    requires n > 0 && row >= 0 && row * n <= i < (row + 1) * n
    ensures i / n == row && i % n == i - row * n
  {
    var q, r := i / n, i % n;
    assert i == q * n + r && 0 <= r < n;
    MulLe(q, row - 1, n);
    MulLe(row + 1, q, n);
    assert (row - 1) * n == row * n - n;
  }

  /** The row-band layout: byte `k` of pixel (x, y) is at `(y * width + x) * 3 + k`. */
  lemma BufferLayout(job: Job, draws: (int, int, int) -> Draw, x: int, y: int, k: int, sqrt: real -> real)
    requires IsSqrt(sqrt) && ValidJob(job) && ValidDraws(job, draws)
    requires 0 <= x < job.width && 0 <= y < job.height && 0 <= k < 3
    ensures 0 <= PixelIndex(job.width, x, y, k) < job.width * job.height * 3
    ensures BufferByte(job, draws, PixelIndex(job.width, x, y, k), sqrt) == PixelByte(job, draws, x, y, k, sqrt)
  {
    var n := 3 * job.width;
    var i := PixelIndex(job.width, x, y, k);
    IndexSplit(job.width, x, y, k);
    RowBounds(y, n, job.height);
    assert job.width * job.height * 3 == job.height * n;
    InBand(i, y, n);
    InBand(3 * x + k, x, 3);
  }

  lemma IndexSplit(width: int, x: int, y: int, k: int)
    ensures PixelIndex(width, x, y, k) == y * (3 * width) + (3 * x + k)
  {
    assert (y * width + x) * 3 == (y * width) * 3 + x * 3;
    assert (y * width) * 3 == y * (3 * width);
  }
}
