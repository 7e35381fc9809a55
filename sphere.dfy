/** The stationary sphere of the older interface: `hit` reports success as a boolean
    and writes the record through a mutable reference. */
module Spheres {
  import opened Vectors
  import opened Rays
  import opened Hittables
  import opened Options

  datatype Sphere = Sphere(center: Point3, radius: real)

  /** The ray-sphere quadratic `a t^2 + 2 halfB t + c = 0` in its half-b form. */
  datatype Quadratic = Quadratic(a: real, halfB: real, c: real)

  function Coefficients(s: Sphere, r: Ray): Quadratic {
    var oc := Sub(r.origin, s.center);
    Quadratic(SqLen(r.direction), Dot(oc, r.direction), SqLen(oc) - s.radius * s.radius)
  }

  function Discriminant(q: Quadratic): real {
    q.halfB * q.halfB - q.a * q.c
  }

  /** The value of the quadratic at `t`. */
  function Eval(q: Quadratic, t: real): real {
    q.a * t * t + 2.0 * q.halfB * t + q.c
  }

  /** The nearer and the farther root, for a non-negative discriminant. */
  function NearRoot(q: Quadratic, sqrt: real -> real): real
    requires IsSqrt(sqrt) && q.a != 0.0 && Discriminant(q) >= 0.0
  {
    (-q.halfB - sqrt(Discriminant(q))) / q.a
  }

  function FarRoot(q: Quadratic, sqrt: real -> real): real
    requires IsSqrt(sqrt) && q.a != 0.0 && Discriminant(q) >= 0.0
  {
    (-q.halfB + sqrt(Discriminant(q))) / q.a
  }

  /** `root < t_min || t_max < root`, the rejection test of `hit`. */
  predicate OutOfRange(root: real, tMin: real, tMax: real) {
    root < tMin || tMax < root
  }

  /** The parameter `hit` settles on: none for a negative discriminant, otherwise the
      nearer root if it lies in [tMin, tMax], else the farther one if that does. */
  function Root(s: Sphere, r: Ray, tMin: real, tMax: real, sqrt: real -> real): (root: Option<real>)
    requires IsSqrt(sqrt) && SqLen(r.direction) != 0.0
    ensures root.Some? ==> tMin <= root.value <= tMax
  {
    var q := Coefficients(s, r);
    if Discriminant(q) < 0.0 then None
    else if !OutOfRange(NearRoot(q, sqrt), tMin, tMax) then Some(NearRoot(q, sqrt))
    else if !OutOfRange(FarRoot(q, sqrt), tMin, tMax) then Some(FarRoot(q, sqrt))
    else None
  }

  /** The outward unit normal at a point of the sphere. */
  function Outward(s: Sphere, p: Point3): Vec3
    requires s.radius != 0.0
  {
    Div(Sub(p, s.center), s.radius)
  }

  /** `Sphere::hit`. On success the record gets `t`, then `p = r.at(t)`, then the face
      and the normal; on failure it is left as it was. */
  method Hit(s: Sphere, r: Ray, tMin: real, tMax: real, cell: HitRecordCell, sqrt: real -> real)
    returns (hit: bool)
    requires IsSqrt(sqrt) && SqLen(r.direction) != 0.0 && s.radius != 0.0
    modifies cell
    ensures hit == Root(s, r, tMin, tMax, sqrt).Some?
    ensures !hit ==> cell.rec == old(cell.rec)
    ensures hit ==>
      var t := Root(s, r, tMin, tMax, sqrt).value;
      var p := At(r, t);
      cell.rec == old(cell.rec).(t := t, p := p, frontFace := FrontFace(r, Outward(s, p)),
                                 normal := FacingNormal(r, Outward(s, p)))
  {
    var oc := Sub(r.origin, s.center);
    var a := SqLen(r.direction);
    var b := Dot(oc, r.direction);
    var c := SqLen(oc) - s.radius * s.radius;
    var discriminant := b * b - a * c;
    ghost var q := Coefficients(s, r);
    assert q == Quadratic(a, b, c) && discriminant == Discriminant(q);
    if discriminant < 0.0 {
      return false;
    }
    var sqrtd := sqrt(discriminant);
    var root := (-b - sqrtd) / a;
    assert root == NearRoot(q, sqrt);
    if root < tMin || tMax < root {
      root := (-b + sqrtd) / a;
      assert root == FarRoot(q, sqrt);
      if root < tMin || tMax < root {
        return false;
      }
    }
    assert Root(s, r, tMin, tMax, sqrt) == Some(root);
    cell.SetT(root);
    cell.SetP(At(r, cell.rec.t));
    var outward := Div(Sub(cell.rec.p, s.center), s.radius);
    cell.SetFaceNormal(r, outward);
    return true;
  }

  /** The nearer root comes first: it is chosen whenever it is in range, and the
      farther root is chosen only when the nearer one is out of range. */
  lemma NearestRootFirst(s: Sphere, r: Ray, tMin: real, tMax: real, sqrt: real -> real)
    requires IsSqrt(sqrt) && SqLen(r.direction) != 0.0 && Discriminant(Coefficients(s, r)) >= 0.0
    ensures NearRoot(Coefficients(s, r), sqrt) <= FarRoot(Coefficients(s, r), sqrt)
    ensures !OutOfRange(NearRoot(Coefficients(s, r), sqrt), tMin, tMax) ==>
              Root(s, r, tMin, tMax, sqrt) == Some(NearRoot(Coefficients(s, r), sqrt))
    ensures Root(s, r, tMin, tMax, sqrt) == Some(FarRoot(Coefficients(s, r), sqrt)) ==>
              OutOfRange(NearRoot(Coefficients(s, r), sqrt), tMin, tMax) ||
              NearRoot(Coefficients(s, r), sqrt) == FarRoot(Coefficients(s, r), sqrt)
  {
    var q := Coefficients(s, r);
    var d := sqrt(Discriminant(q));
    DivMonotone(-q.halfB - d, -q.halfB + d, q.a);
  }

  lemma DivMonotone(x: real, y: real, a: real)
    requires x <= y && a > 0.0
    ensures x / a <= y / a
  {
    assert y / a - x / a == (y - x) / a;
  }

  /** Both roots of the half-b quadratic solve it. */
  lemma QuadraticRoot(a: real, b: real, c: real, q: real, t: real)
    requires a != 0.0 && q * q == b * b - a * c
    requires t == (-b - q) / a || t == (-b + q) / a
    ensures a * t * t + 2.0 * b * t + c == 0.0
  {
    var s: real := if t == (-b - q) / a then -q else q;
    var x := -b + s;
    assert t == x / a;
    MulDivCancel(x, a);
    assert s * s == q * q;
    calc {
      a * (a * t * t + 2.0 * b * t + c);
      (a * t) * (a * t) + 2.0 * b * (a * t) + a * c;
      x * x + 2.0 * b * x + a * c;
      s * s - b * b + a * c;
      0.0;
    }
    ProductZero(a, a * t * t + 2.0 * b * t + c);
  }

  /** Every solution of the half-b quadratic is one of the two roots, and there is
      none when the discriminant is negative. */
  lemma QuadraticSolutions(a: real, b: real, c: real, disc: real, t: real, sqrt: real -> real)
    requires IsSqrt(sqrt) && a != 0.0 && disc == b * b - a * c && a * t * t + 2.0 * b * t + c == 0.0
    ensures disc >= 0.0
    ensures t == (-b - sqrt(disc)) / a || t == (-b + sqrt(disc)) / a
  {
    var y := a * t + b;
    calc {
      y * y;
      a * (a * t * t + 2.0 * b * t + c) + b * b - a * c;
      b * b - a * c;
    }
    SquareNonNegative(y);
    var q := sqrt(disc);
    var ay := Abs(y);
    assert ay * ay == y * y;
    SquareInjective(ay, q);
    var x: real := if y < 0.0 then -q else q;
    assert a * t == -b + x;
    assert t == (a * t) / a;
  }

  lemma MulDivCancel(x: real, a: real)
    requires a != 0.0
    ensures a * (x / a) == x
  {
  }

  lemma ProductZero(a: real, y: real)
    requires a != 0.0 && a * y == 0.0
    ensures y == 0.0
  {
  }

  /** The squared distance from the centre along the ray is the quadratic plus the
      squared radius. */
  lemma DistanceAlongRay(s: Sphere, r: Ray, t: real)
    ensures SqLen(Sub(At(r, t), s.center)) == Eval(Coefficients(s, r), t) + s.radius * s.radius
  {
    var oc := Sub(r.origin, s.center);
    var d := r.direction;
    assert Sub(At(r, t), s.center) == Add(oc, Scale(d, t));
    SqLenAddScaled(oc, d, t);
  }

  lemma SqLenAddScaled(o: Vec3, d: Vec3, t: real)
    ensures SqLen(Add(o, Scale(d, t))) == SqLen(o) + 2.0 * t * Dot(o, d) + t * t * SqLen(d)
  {
    assert (o.x + t * d.x) * (o.x + t * d.x) == o.x * o.x + 2.0 * t * (o.x * d.x) + t * t * (d.x * d.x);
    assert (o.y + t * d.y) * (o.y + t * d.y) == o.y * o.y + 2.0 * t * (o.y * d.y) + t * t * (d.y * d.y);
    assert (o.z + t * d.z) * (o.z + t * d.z) == o.z * o.z + 2.0 * t * (o.z * d.z) + t * t * (d.z * d.z);
  }

  /** The point `Root` picks lies on the sphere. */
  lemma RootOnSphere(s: Sphere, r: Ray, tMin: real, tMax: real, sqrt: real -> real)
    requires IsSqrt(sqrt) && SqLen(r.direction) != 0.0 && Root(s, r, tMin, tMax, sqrt).Some?
    ensures SqLen(Sub(At(r, Root(s, r, tMin, tMax, sqrt).value), s.center)) == s.radius * s.radius
  {
    var q := Coefficients(s, r);
    var t := Root(s, r, tMin, tMax, sqrt).value;
    QuadraticRoot(q.a, q.halfB, q.c, sqrt(Discriminant(q)), t);
    assert Eval(q, t) == 0.0;
    DistanceAlongRay(s, r, t);
  }

  /** `Root` finds the nearest point of the sphere within [tMin, tMax]: any point of
      the ray on the sphere in that range means `Root` succeeds, no later than it. In
      particular, when `Root` finds nothing, no point of the ray in range is on the
      sphere. */
  lemma RootIsNearest(s: Sphere, r: Ray, tMin: real, tMax: real, sqrt: real -> real, t': real)
    requires IsSqrt(sqrt) && SqLen(r.direction) != 0.0
    requires tMin <= t' <= tMax && SqLen(Sub(At(r, t'), s.center)) == s.radius * s.radius
    ensures Root(s, r, tMin, tMax, sqrt).Some? && Root(s, r, tMin, tMax, sqrt).value <= t'
  {
    var q := Coefficients(s, r);
    DistanceAlongRay(s, r, t');
    assert Eval(q, t') == 0.0;
    QuadraticSolutions(q.a, q.halfB, q.c, Discriminant(q), t', sqrt);
    NearestRootFirst(s, r, tMin, tMax, sqrt);
  }

  /** At a point on the sphere the outward normal has unit length. */
  lemma OutwardIsUnit(s: Sphere, p: Point3)
    requires s.radius != 0.0 && SqLen(Sub(p, s.center)) == s.radius * s.radius
    ensures SqLen(Outward(s, p)) == 1.0
  {
    var v := Sub(p, s.center);
    var k := 1.0 / s.radius;
    assert Outward(s, p) == Scale(v, k);
    SqLenScale(v, k);
    assert k * k * (s.radius * s.radius) == 1.0;
  }
}
