/** Surface materials: their albedo and the mirror reflection used by metal. */
module Materials {
  import opened Vectors
  import opened Colors

  datatype Material = Lambertian(albedo: Color) | Metal(albedo: Color)

  /** `reflect(u, n)`: `u - n * dot(u, n) * 2`. */
  function Reflect(u: Vec3, n: Vec3): Vec3 {
    Sub(u, Scale(Scale(n, Dot(u, n)), 2.0))
  }

  /** The reflection removes twice the component of `u` along `n`. */
  lemma ReflectFormula(u: Vec3, n: Vec3)
    ensures Reflect(u, n) == Sub(u, Scale(n, 2.0 * Dot(u, n)))
  {
  }

  /** About a unit normal, reflection flips the normal component ... */
  lemma ReflectFlipsNormalComponent(u: Vec3, n: Vec3)
    requires SqLen(n) == 1.0
    ensures Dot(Reflect(u, n), n) == -Dot(u, n)
  {
    var d := Dot(u, n);
    DotSelf(n);
    DotSubScale(u, n, n, 2.0 * d);
    assert Dot(Reflect(u, n), n) == d - 2.0 * d * SqLen(n);
  }

  /** ... so reflecting twice gives back the original vector. */
  lemma ReflectInvolution(u: Vec3, n: Vec3)
    requires SqLen(n) == 1.0
    ensures Reflect(Reflect(u, n), n) == u
  {
    var d := Dot(u, n);
    ReflectFormula(u, n);
    ReflectFormula(Reflect(u, n), n);
    ReflectFlipsNormalComponent(u, n);
    var w := Reflect(u, n);
    assert Dot(w, n) == -d;
    assert Reflect(w, n) == Sub(w, Scale(n, -2.0 * d));
  }

  /** Reflection about a unit normal keeps the length. */
  lemma ReflectPreservesLength(u: Vec3, n: Vec3)
    requires SqLen(n) == 1.0
    ensures SqLen(Reflect(u, n)) == SqLen(u)
  {
    var d := Dot(u, n);
    var k := 2.0 * d;
    ReflectFormula(u, n);
    DotSelf(u);
    DotSelf(n);
    DotSelf(Reflect(u, n));
    DotSubScale(u, n, u, k);
    DotSubScale(u, n, n, k);
    DotSymmetric(u, n);
    var w := Reflect(u, n);
    assert Dot(w, u) == SqLen(u) - k * d;
    assert Dot(w, n) == d - k;
    DotSubScaleLeft(w, u, n, k);
    assert Dot(w, w) == Dot(w, u) - k * Dot(w, n);
    assert k * (d - k) == k * d - k * k;
    assert k * d == 2.0 * d * d;
    assert k * k == 4.0 * d * d;
  }

  /** `dot(a - n*k, b) == dot(a, b) - k * dot(n, b)` */
  lemma DotSubScale(a: Vec3, n: Vec3, b: Vec3, k: real)
    ensures Dot(Sub(a, Scale(n, k)), b) == Dot(a, b) - k * Dot(n, b)
  {
  }

  /** `dot(w, a - n*k) == dot(w, a) - k * dot(w, n)` */
  lemma DotSubScaleLeft(w: Vec3, a: Vec3, n: Vec3, k: real)
    ensures Dot(w, Sub(a, Scale(n, k))) == Dot(w, a) - k * Dot(w, n)
  {
  }

  /** `albedo()`: the colour either variant carries. */
  function Albedo(m: Material): Color {
    match m
    case Lambertian(a) => a
    case Metal(a) => a
  }

  /** `new_lambertian` */
  function NewLambertian(albedo: Color): (m: Material)
    ensures m.Lambertian? && Albedo(m) == albedo
  {
    Lambertian(albedo)
  }

  /** `new_metal` */
  function NewMetal(albedo: Color): (m: Material)
    ensures m.Metal? && Albedo(m) == albedo
  {
    Metal(albedo)
  }

  /** `Material::default()`: a Lambertian surface with a black albedo. */
  function Default(): (m: Material)
    ensures m.Lambertian? && Albedo(m) == Zero
  {
    Lambertian(Zero)
  }

  /** The light a surface gives off at surface coordinates (u, v) and point p. Neither
      variant of this material type emits, so it is black. */
  function Emitted(m: Material, u: real, v: real, p: Point3): (c: Color)
    ensures c == Zero
  {
    Zero
  }
}

/** `Material::scatter`: how a ray that reached a surface continues, with the random
    unit-sphere sample passed in as a parameter. */
module Scattering {
  import opened Vectors
  import opened Colors
  import opened Rays
  import opened Materials
  import opened Hittables

  /** What `scatter` writes through its two out-parameters and returns. */
  datatype Scatter = Scatter(scatters: bool, attenuation: Color, scattered: Ray)

  /** The Lambertian direction: the normal plus the sample, falling back to the bare
      normal when that sum is degenerate. */
  function DiffuseDirection(normal: Vec3, sample: Vec3): (d: Vec3)
    ensures !NearZero(Add(normal, sample)) ==> d == Add(normal, sample)
    ensures NearZero(Add(normal, sample)) ==> d == normal
  {
    if NearZero(Add(normal, sample)) then normal else Add(normal, sample)
  }

  /** The outcome of `scatter` for an incoming ray `rIn` at the hit `rec`. The
      `sample` is the draw of `random_in_unit_sphere`; only the Lambertian branch
      reads it, and no contract here depends on where it lies. */
  function ScatterOf(m: Material, rIn: Ray, rec: HitRecord, sample: Vec3): (s: Scatter)
    ensures s.attenuation == Albedo(m)
    ensures s.scattered.origin == rec.p
    ensures m.Lambertian? ==> s.scatters && s.scattered.direction == DiffuseDirection(rec.normal, sample)
    ensures m.Metal? ==> s.scattered.direction == Reflect(rIn.direction, rec.normal)
    ensures m.Metal? ==> (s.scatters <==> Dot(s.scattered.direction, rec.normal) > 0.0)
  {
    match m
    case Lambertian(albedo) =>
      Scatter(true, albedo, New(rec.p, DiffuseDirection(rec.normal, sample)))
    case Metal(albedo) =>
      var reflected := Reflect(rIn.direction, rec.normal);
      Scatter(Dot(reflected, rec.normal) > 0.0, albedo, New(rec.p, reflected))
  }

  /** `scatter` as the source writes it: the direction is reassigned in the
      degenerate case and the results go to out-parameters. */
  method ScatterInto(m: Material, rIn: Ray, rec: HitRecord, sample: Vec3)
    returns (scatters: bool, attenuation: Color, scattered: Ray)
    ensures Scatter(scatters, attenuation, scattered) == ScatterOf(m, rIn, rec, sample)
  {
    match m {
      case Lambertian(albedo) =>
        var direction := Add(rec.normal, sample);
        if NearZero(direction) {
          direction := rec.normal;
        }
        scattered := New(rec.p, direction);
        attenuation := albedo;
        scatters := true;
      case Metal(albedo) =>
        var reflected := Reflect(rIn.direction, rec.normal);
        scattered := New(rec.p, reflected);
        attenuation := albedo;
        scatters := Dot(scattered.direction, rec.normal) > 0.0;
    }
  }

  /** With a unit normal the fallback never leaves a degenerate direction: the
      scattered Lambertian direction is never near zero. */
  lemma DiffuseDirectionNotDegenerate(normal: Vec3, sample: Vec3)
    requires SqLen(normal) == 1.0
    ensures !NearZero(DiffuseDirection(normal, sample))
  {
    if NearZero(normal) {
      NearZeroFacts(normal);
      assert false;
    }
  }

  /** A metal surface with a unit normal reflects exactly the rays that arrive
      against the normal, and absorbs the rest. */
  lemma MetalScattersIffIncoming(albedo: Color, rIn: Ray, rec: HitRecord, sample: Vec3)
    requires SqLen(rec.normal) == 1.0
    ensures ScatterOf(Metal(albedo), rIn, rec, sample).scatters <==> Dot(rIn.direction, rec.normal) < 0.0
  {
    ReflectFlipsNormalComponent(rIn.direction, rec.normal);
  }
}
