/** A sphere whose centre moves linearly from `center0` at `time0` to `center1` at
    `time1`; a ray meets it where the centre is at the ray's own time. */
module MovingSpheres {
  import opened Vectors
  import opened Rays
  import opened Materials
  import opened Hittables
  import opened Options
  import Spheres

  datatype MovingSphere = MovingSphere(center0: Point3, center1: Point3, time0: real, time1: real,
                                       radius: real, material: Material)

  /** `center` divides by the length of the time span and the normal by the radius. */
  predicate Valid(s: MovingSphere) {
    s.time1 != s.time0 && s.radius != 0.0
  }

  /** `center(time)`: `center0 + (center1 - center0) * (time - time0) / (time1 - time0)`. */
  function Center(s: MovingSphere, time: real): Point3
    requires s.time1 != s.time0
  {
    Add(s.center0, Div(Scale(Sub(s.center1, s.center0), time - s.time0), s.time1 - s.time0))
  }

  /** The centre is `center0` at `time0` and `center1` at `time1`. */
  lemma CenterEndpoints(s: MovingSphere)
    requires s.time1 != s.time0
    ensures Center(s, s.time0) == s.center0
    ensures Center(s, s.time1) == s.center1
  {
    var span := s.time1 - s.time0;
    var d := Sub(s.center1, s.center0);
    ScaledShift(d, 0.0, span);
    ScaledShift(d, span, span);
    assert Scale(d, span / span) == d;
  }

  /** One component of the displacement `d * u / span`. */
  lemma ScaledShift(d: Vec3, u: real, span: real)
    requires span != 0.0
    ensures Div(Scale(d, u), span) == Scale(d, u / span)
  {
    ShiftComponent(d.x, u, span);
    ShiftComponent(d.y, u, span);
    ShiftComponent(d.z, u, span);
  }

  lemma ShiftComponent(x: real, u: real, span: real)
    requires span != 0.0
    ensures (u * x) / span == (u / span) * x
  {
    var k := 1.0 / span;
    assert (u * x) / span == u * x * k;
    assert u / span == u * k;
  }

  /** The centre moves with constant velocity `(center1 - center0) / (time1 - time0)`. */
  lemma CenterVelocity(s: MovingSphere, t: real, t': real)
    requires s.time1 != s.time0
    ensures Sub(Center(s, t'), Center(s, t)) == Scale(Sub(s.center1, s.center0), (t' - t) / (s.time1 - s.time0))
  {
    var span := s.time1 - s.time0;
    var d := Sub(s.center1, s.center0);
    var u, w := t' - s.time0, t - s.time0;
    ScaledShift(d, u, span);
    ScaledShift(d, w, span);
    assert Sub(Center(s, t'), Center(s, t)) == Sub(Scale(d, u / span), Scale(d, w / span));
    DivDifference(u, w, span);
    ScaleDifference(d, u / span, w / span);
    assert u - w == t' - t;
  }

  lemma DivDifference(u: real, w: real, span: real)
    requires span != 0.0
    ensures u / span - w / span == (u - w) / span
  {
    var k := 1.0 / span;
    assert u / span == u * k && w / span == w * k && (u - w) / span == (u - w) * k;
  }

  lemma ScaleDifference(d: Vec3, a: real, b: real)
    ensures Sub(Scale(d, a), Scale(d, b)) == Scale(d, a - b)
  {
    assert a * d.x - b * d.x == (a - b) * d.x;
    assert a * d.y - b * d.y == (a - b) * d.y;
    assert a * d.z - b * d.z == (a - b) * d.z;
  }

  /** The stationary sphere the ray sees: the moving one frozen at time `time`. */
  function AtTime(s: MovingSphere, time: real): Spheres.Sphere
    requires s.time1 != s.time0
  {
    Spheres.Sphere(Center(s, time), s.radius)
  }

  /** The candidate parameters in the order `hit` tries them: the two roots, nearer
      first, when the discriminant is non-negative. With `a == 0` the IEEE roots are
      NaN or infinite and fail both comparisons, so there is no candidate. */
  function Roots(s: MovingSphere, r: Ray, sqrt: real -> real): (roots: seq<real>)
    requires Valid(s) && IsSqrt(sqrt)
    ensures |roots| == 0 || |roots| == 2
    ensures |roots| == 2 ==> roots[0] <= roots[1]
    ensures Spheres.Discriminant(Spheres.Coefficients(AtTime(s, r.time), r)) < 0.0 ==> roots == []
  {
    var q := Spheres.Coefficients(AtTime(s, r.time), r);
    if Spheres.Discriminant(q) >= 0.0 && q.a != 0.0 then
      var d := sqrt(Spheres.Discriminant(q));
      Spheres.DivMonotone(-q.halfB - d, -q.halfB + d, q.a);
      [Spheres.NearRoot(q, sqrt), Spheres.FarRoot(q, sqrt)]
    else []
  }

  /** The strict acceptance test `t_min < root < t_max`. */
  predicate InRange(root: real, tMin: real, tMax: Limit) {
    tMin < root && StrictlyBelow(root, tMax)
  }

  /** The first candidate that passes the test. */
  function FirstInRange(roots: seq<real>, tMin: real, tMax: Limit): (found: Option<real>)
    ensures found.Some? ==> found.value in roots && InRange(found.value, tMin, tMax)
    ensures found.Some? ==> exists i :: 0 <= i < |roots| && roots[i] == found.value &&
                                        forall j :: 0 <= j < i ==> !InRange(roots[j], tMin, tMax)
    ensures found.None? ==> forall i :: 0 <= i < |roots| ==> !InRange(roots[i], tMin, tMax)
  {
    if |roots| == 0 then None
    else if InRange(roots[0], tMin, tMax) then Some(roots[0])
    else FirstInRange(roots[1..], tMin, tMax)
  }

  /** The record built for an accepted root; this record type has no `u`, `v`, which
      are set to zero. */
  function RecordAt(s: MovingSphere, r: Ray, t: real): (h: HitRecord)
    requires Valid(s)
    ensures h.t == t && h.p == At(r, t) && h.material == s.material
    ensures h.frontFace == FrontFace(r, Spheres.Outward(AtTime(s, r.time), h.p))
    ensures h.normal == FacingNormal(r, Spheres.Outward(AtTime(s, r.time), h.p))
  {
    var p := At(r, t);
    var outward := Div(Sub(p, Center(s, r.time)), s.radius);
    HitRecord(t, 0.0, 0.0, p, FacingNormal(r, outward), FrontFace(r, outward), s.material)
  }

  /** `MovingSphere::hit` as a value. */
  function Hit(s: MovingSphere, r: Ray, tMin: real, tMax: Limit, sqrt: real -> real): (h: Option<HitRecord>)
    requires Valid(s) && IsSqrt(sqrt)
    ensures h.Some? ==> InRange(h.value.t, tMin, tMax) && h.value == RecordAt(s, r, h.value.t)
  {
    match FirstInRange(Roots(s, r, sqrt), tMin, tMax)
    case None => None
    case Some(t) => Some(RecordAt(s, r, t))
  }

  /** `hit` as the source writes it: the roots are tried in a loop that returns the
      record for the first one in range. */
  method HitLoop(s: MovingSphere, r: Ray, tMin: real, tMax: Limit, sqrt: real -> real)
    returns (hit: Option<HitRecord>)
    requires Valid(s) && IsSqrt(sqrt)
    ensures hit == Hit(s, r, tMin, tMax, sqrt)
  {
    var oc := Sub(r.origin, Center(s, r.time));
    var a := SqLen(r.direction);
    var b := Dot(oc, r.direction);
    var c := SqLen(oc) - s.radius * s.radius;
    var discriminant := b * b - a * c;
    ghost var q := Spheres.Coefficients(AtTime(s, r.time), r);
    assert q == Spheres.Quadratic(a, b, c) && discriminant == Spheres.Discriminant(q);
    // `a != 0` stands for the IEEE outcome described at `Roots`.
    if discriminant >= 0.0 && a != 0.0 {
      var sqrtd := sqrt(discriminant);
      var roots := [(-b - sqrtd) / a, (-b + sqrtd) / a];
      assert roots == Roots(s, r, sqrt);
      var i := 0;
      while i < |roots|
        invariant 0 <= i <= |roots|
        invariant FirstInRange(roots[i..], tMin, tMax) == FirstInRange(roots, tMin, tMax)
      {
        var root := roots[i];
        if StrictlyBelow(root, tMax) && root > tMin {
          var p := At(r, root);
          var normal := Div(Sub(p, Center(s, r.time)), s.radius);
          var frontFace := Dot(r.direction, normal) < 0.0;
          return Some(HitRecord(root, 0.0, 0.0, p, if frontFace then normal else Neg(normal),
                                frontFace, s.material));
        }
        assert roots[i..][1..] == roots[i + 1..];
        i := i + 1;
      }
    }
    return None;
  }

  /** A hit lies on the sphere as it stands at the ray's time. */
  lemma HitOnSphere(s: MovingSphere, r: Ray, tMin: real, tMax: Limit, sqrt: real -> real)
    requires Valid(s) && IsSqrt(sqrt) && Hit(s, r, tMin, tMax, sqrt).Some?
    ensures SqLen(Sub(Hit(s, r, tMin, tMax, sqrt).value.p, Center(s, r.time))) == s.radius * s.radius
  {
    var sp := AtTime(s, r.time);
    var t := Hit(s, r, tMin, tMax, sqrt).value.t;
    var roots := Roots(s, r, sqrt);
    assert FirstInRange(roots, tMin, tMax) == Some(t);
    var i :| 0 <= i < |roots| && roots[i] == t;
    RootSolves(s, r, sqrt, i);
    Spheres.DistanceAlongRay(sp, r, t);
  }

  /** Each candidate solves the ray-sphere quadratic. */
  lemma RootSolves(s: MovingSphere, r: Ray, sqrt: real -> real, i: int)
    requires Valid(s) && IsSqrt(sqrt) && 0 <= i < |Roots(s, r, sqrt)|
    ensures Spheres.Eval(Spheres.Coefficients(AtTime(s, r.time), r), Roots(s, r, sqrt)[i]) == 0.0
  {
    var q := Spheres.Coefficients(AtTime(s, r.time), r);
    var d := sqrt(Spheres.Discriminant(q));
    var t := Roots(s, r, sqrt)[i];
    assert t == (-q.halfB - d) / q.a || t == (-q.halfB + d) / q.a;
    Spheres.QuadraticRoot(q.a, q.halfB, q.c, d, t);
  }

  /** `hit` finds the nearest point of the sphere strictly inside (tMin, tMax): any
      such point means a hit, no later than it. In particular a miss means that no
      point of the ray in that range is on the sphere. */
  lemma HitIsNearest(s: MovingSphere, r: Ray, tMin: real, tMax: Limit, sqrt: real -> real, t': real)
    requires Valid(s) && IsSqrt(sqrt) && InRange(t', tMin, tMax)
    requires SqLen(Sub(At(r, t'), Center(s, r.time))) == s.radius * s.radius
    requires SqLen(r.direction) != 0.0
    ensures Hit(s, r, tMin, tMax, sqrt).Some? && Hit(s, r, tMin, tMax, sqrt).value.t <= t'
  {
    var sp := AtTime(s, r.time);
    var q := Spheres.Coefficients(sp, r);
    Spheres.DistanceAlongRay(sp, r, t');
    assert Spheres.Eval(q, t') == 0.0;
    Spheres.QuadraticSolutions(q.a, q.halfB, q.c, Spheres.Discriminant(q), t', sqrt);
    var roots := Roots(s, r, sqrt);
    assert t' == roots[0] || t' == roots[1];
  }

  /** The stored normal has unit length and opposes the ray, and the record carries
      the sphere's material. */
  lemma HitNormal(s: MovingSphere, r: Ray, tMin: real, tMax: Limit, sqrt: real -> real)
    requires Valid(s) && IsSqrt(sqrt) && Hit(s, r, tMin, tMax, sqrt).Some?
    ensures SqLen(Hit(s, r, tMin, tMax, sqrt).value.normal) == 1.0
    ensures Dot(r.direction, Hit(s, r, tMin, tMax, sqrt).value.normal) <= 0.0
    ensures Hit(s, r, tMin, tMax, sqrt).value.material == s.material
  {
    var h := Hit(s, r, tMin, tMax, sqrt).value;
    HitOnSphere(s, r, tMin, tMax, sqrt);
    var outward := Spheres.Outward(AtTime(s, r.time), h.p);
    Spheres.OutwardIsUnit(AtTime(s, r.time), h.p);
    assert SqLen(Neg(outward)) == SqLen(outward);
  }

  /** Lowering the upper bound can only lose the hit, never change it: a hit under
      the lower bound `tMax'` is the hit under `tMax`, and a hit under `tMax` that
      disappears under `tMax'` is not below `tMax'`. */
  lemma HitBoundMonotone(s: MovingSphere, r: Ray, tMin: real, tMax': Limit, tMax: Limit, sqrt: real -> real)
    requires Valid(s) && IsSqrt(sqrt) && LimitLe(tMax', tMax)
    ensures Hit(s, r, tMin, tMax', sqrt).Some? ==> Hit(s, r, tMin, tMax, sqrt) == Hit(s, r, tMin, tMax', sqrt)
    ensures Hit(s, r, tMin, tMax, sqrt).Some? && Hit(s, r, tMin, tMax', sqrt).None? ==>
              !StrictlyBelow(Hit(s, r, tMin, tMax, sqrt).value.t, tMax')
  {
    var roots := Roots(s, r, sqrt);
    if |roots| == 2 {
      assert roots[1..][1..] == [];
    }
  }
}
