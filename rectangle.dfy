/** Axis-aligned rectangles: `XYRect` lies in the plane z = k, `XZRect` in y = k and
    `YZRect` in x = k. The three `hit` functions are the same computation with the
    axes permuted, so the model writes it once over the rectangle's axes. */
module Rectangles {
  import opened Vectors
  import opened Rays
  import opened Materials
  import opened Hittables
  import opened Options

  datatype Axis = X | Y | Z

  /** The component of `v` along `a`. */
  function Coord(v: Vec3, a: Axis): real {
    match a
    case X => v.x
    case Y => v.y
    case Z => v.z
  }

  /** The unit vector along `a`. */
  function UnitAlong(a: Axis): (e: Vec3)
    ensures SqLen(e) == 1.0 && Coord(e, a) == 1.0
  {
    match a
    case X => Vec3(1.0, 0.0, 0.0)
    case Y => Vec3(0.0, 1.0, 0.0)
    case Z => Vec3(0.0, 0.0, 1.0)
  }

  /** The constructors are `XYRect::new`, `XZRect::new` and `YZRect::new`. */
  datatype Rect =
    | XYRect(x0: real, x1: real, y0: real, y1: real, k: real, material: Material)
    | XZRect(x0: real, x1: real, z0: real, z1: real, k: real, material: Material)
    | YZRect(y0: real, y1: real, z0: real, z1: real, k: real, material: Material)

  /** The axis the rectangle is perpendicular to. */
  function NormalAxis(rc: Rect): Axis {
    match rc
    case XYRect(_, _, _, _, _, _) => Z
    case XZRect(_, _, _, _, _, _) => Y
    case YZRect(_, _, _, _, _, _) => X
  }

  /** The axis of `u` and its extent [Lo1, Hi1]. */
  function FirstAxis(rc: Rect): Axis {
    if rc.YZRect? then Y else X
  }

  function Lo1(rc: Rect): real {
    if rc.YZRect? then rc.y0 else rc.x0
  }

  function Hi1(rc: Rect): real {
    if rc.YZRect? then rc.y1 else rc.x1
  }

  /** The axis of `v` and its extent [Lo2, Hi2]. */
  function SecondAxis(rc: Rect): Axis {
    if rc.XYRect? then Y else Z
  }

  function Lo2(rc: Rect): real {
    if rc.XYRect? then rc.y0 else rc.z0
  }

  function Hi2(rc: Rect): real {
    if rc.XYRect? then rc.y1 else rc.z1
  }

  /** The three axes are distinct. */
  lemma AxesDistinct(rc: Rect)
    ensures NormalAxis(rc) != FirstAxis(rc) && NormalAxis(rc) != SecondAxis(rc)
    ensures FirstAxis(rc) != SecondAxis(rc)
  {
  }

  /** `u` and `v` divide by the extents. */
  predicate Valid(rc: Rect) {
    Hi1(rc) != Lo1(rc) && Hi2(rc) != Lo2(rc)
  }

  /** The point `p` lies on the rectangle: in its plane and within both extents. */
  predicate OnRect(rc: Rect, p: Point3) {
    Coord(p, NormalAxis(rc)) == rc.k &&
    Lo1(rc) <= Coord(p, FirstAxis(rc)) <= Hi1(rc) &&
    Lo2(rc) <= Coord(p, SecondAxis(rc)) <= Hi2(rc)
  }

  /** Where the ray crosses the rectangle's plane, for a ray not parallel to it. */
  function Crossing(rc: Rect, r: Ray): real
    requires Coord(r.direction, NormalAxis(rc)) != 0.0
  {
    (rc.k - Coord(r.origin, NormalAxis(rc))) / Coord(r.direction, NormalAxis(rc))
  }

  /** The coordinate of the ray at `t` along the axis `a`, as `hit` computes `x`, `y`
      and `z`. */
  function Along(r: Ray, t: real, a: Axis): real {
    Coord(r.origin, a) + t * Coord(r.direction, a)
  }

  /** The extent test of `hit`, negated. */
  predicate WithinExtents(rc: Rect, a: real, b: real) {
    !(a < Lo1(rc) || a > Hi1(rc) || b < Lo2(rc) || b > Hi2(rc))
  }

  /** The record `hit` builds for the crossing at `t`. */
  function RecordAt(rc: Rect, r: Ray, t: real): HitRecord
    requires Valid(rc)
  {
    var a := Along(r, t, FirstAxis(rc));
    var b := Along(r, t, SecondAxis(rc));
    var u := Fraction(a, Lo1(rc), Hi1(rc));
    var v := Fraction(b, Lo2(rc), Hi2(rc));
    var normal := UnitAlong(NormalAxis(rc));
    HitRecord(t, u, v, At(r, t), FacingNormal(r, normal), FrontFace(r, normal), rc.material)
  }

  /** `hit` for any of the three rectangles. `t` is where the ray crosses the plane;
      it is rejected outside [tMin, tMax], and the crossing point outside the
      extents. A ray parallel to the plane divides by zero in IEEE arithmetic; the
      model reports no hit for it. */
  function Hit(rc: Rect, r: Ray, tMin: real, tMax: Limit): (h: Option<HitRecord>)
    requires Valid(rc)
    ensures h.Some? ==> h.value == RecordAt(rc, r, h.value.t) && h.value.material == rc.material
  {
    if Coord(r.direction, NormalAxis(rc)) == 0.0 then None
    else
      var t := Crossing(rc, r);
      if t < tMin || !Below(t, tMax) then None
      else if !WithinExtents(rc, Along(r, t, FirstAxis(rc)), Along(r, t, SecondAxis(rc))) then None
      else Some(RecordAt(rc, r, t))
  }

  /** The component of a point of the ray along an axis. */
  lemma CoordAt(r: Ray, t: real, a: Axis)
    ensures Coord(At(r, t), a) == Along(r, t, a)
  {
  }

  /** A ray crosses the plane of the rectangle at `Crossing` and nowhere else. */
  lemma CrossingUnique(rc: Rect, r: Ray, t: real)
    requires Coord(r.direction, NormalAxis(rc)) != 0.0
    ensures Along(r, t, NormalAxis(rc)) == rc.k <==> t == Crossing(rc, r)
  {
    var n := NormalAxis(rc);
    var d := Coord(r.direction, n);
    var o := Coord(r.origin, n);
    CrossingSolves(rc.k, o, d, t);
  }

  lemma CrossingSolves(k: real, o: real, d: real, t: real)
    requires d != 0.0
    ensures o + t * d == k <==> t == (k - o) / d
  {
    if t == (k - o) / d {
      assert t * d == k - o;
    }
    if o + t * d == k {
      assert t * d == k - o;
      assert t == (t * d) / d;
    }
  }

  lemma DotUnitAlong(d: Vec3, a: Axis)
    ensures Dot(d, UnitAlong(a)) == Coord(d, a)
  {
  }

  /** A hit is a point of the rectangle reached within [tMin, tMax]. */
  lemma HitOnRect(rc: Rect, r: Ray, tMin: real, tMax: Limit)
    requires Valid(rc) && Hit(rc, r, tMin, tMax).Some?
    ensures var h := Hit(rc, r, tMin, tMax).value;
      tMin <= h.t && Below(h.t, tMax) && h.p == At(r, h.t) && OnRect(rc, h.p)
  {
    var n := NormalAxis(rc);
    var h := Hit(rc, r, tMin, tMax).value;
    CoordAt(r, h.t, n);
    CoordAt(r, h.t, FirstAxis(rc));
    CoordAt(r, h.t, SecondAxis(rc));
    CrossingUnique(rc, r, h.t);
  }

  /** Conversely, every point of the rectangle the ray reaches within [tMin, tMax]
      is found: the ray crosses the plane once, so that point is the hit. */
  lemma HitComplete(rc: Rect, r: Ray, tMin: real, tMax: Limit, t': real)
    requires Valid(rc) && Coord(r.direction, NormalAxis(rc)) != 0.0
    requires tMin <= t' && Below(t', tMax) && OnRect(rc, At(r, t'))
    ensures Hit(rc, r, tMin, tMax).Some? && Hit(rc, r, tMin, tMax).value.t == t'
  {
    var p := At(r, t');
    CoordAt(r, t', NormalAxis(rc));
    CoordAt(r, t', FirstAxis(rc));
    CoordAt(r, t', SecondAxis(rc));
    CrossingUnique(rc, r, t');
    assert t' == Crossing(rc, r);
    assert WithinExtents(rc, Along(r, t', FirstAxis(rc)), Along(r, t', SecondAxis(rc)));
    assert Hit(rc, r, tMin, tMax) == Some(RecordAt(rc, r, t'));
  }

  /** A ray parallel to the rectangle's plane never hits it. */
  lemma ParallelMisses(rc: Rect, r: Ray, tMin: real, tMax: Limit)
    requires Valid(rc) && Coord(r.direction, NormalAxis(rc)) == 0.0
    ensures Hit(rc, r, tMin, tMax).None?
  {
  }

  /** The surface coordinates lie in [0, 1] and give back the hit point:
      `p = Lerp(Lo, Hi, u)` along each of the rectangle's axes. */
  lemma HitSurfaceCoordinates(rc: Rect, r: Ray, tMin: real, tMax: Limit)
    requires Valid(rc) && Hit(rc, r, tMin, tMax).Some?
    ensures var h := Hit(rc, r, tMin, tMax).value;
      0.0 <= h.u <= 1.0 && 0.0 <= h.v <= 1.0 &&
      Coord(h.p, FirstAxis(rc)) == Lerp(Lo1(rc), Hi1(rc), h.u) &&
      Coord(h.p, SecondAxis(rc)) == Lerp(Lo2(rc), Hi2(rc), h.v)
  {
    HitCrossing(rc, r, tMin, tMax);
    RecordSurface(rc, r, Hit(rc, r, tMin, tMax).value.t);
  }

  lemma RecordSurface(rc: Rect, r: Ray, t: real)
    requires Valid(rc) && WithinExtents(rc, Along(r, t, FirstAxis(rc)), Along(r, t, SecondAxis(rc)))
    ensures var h := RecordAt(rc, r, t);
      0.0 <= h.u <= 1.0 && 0.0 <= h.v <= 1.0 &&
      Coord(h.p, FirstAxis(rc)) == Lerp(Lo1(rc), Hi1(rc), h.u) &&
      Coord(h.p, SecondAxis(rc)) == Lerp(Lo2(rc), Hi2(rc), h.v)
  {
    var h := RecordAt(rc, r, t);
    RecordFields(rc, r, t);
    CoordAt(r, t, FirstAxis(rc));
    CoordAt(r, t, SecondAxis(rc));
    SurfaceCoordinate(Along(r, t, FirstAxis(rc)), Lo1(rc), Hi1(rc), h.u, Coord(h.p, FirstAxis(rc)));
    SurfaceCoordinate(Along(r, t, SecondAxis(rc)), Lo2(rc), Hi2(rc), h.v, Coord(h.p, SecondAxis(rc)));
  }

  lemma RecordFields(rc: Rect, r: Ray, t: real)
    requires Valid(rc)
    ensures RecordAt(rc, r, t).u == Fraction(Along(r, t, FirstAxis(rc)), Lo1(rc), Hi1(rc))
    ensures RecordAt(rc, r, t).v == Fraction(Along(r, t, SecondAxis(rc)), Lo2(rc), Hi2(rc))
    ensures RecordAt(rc, r, t).p == At(r, t)
  {
  }

  lemma SurfaceCoordinate(x: real, lo: real, hi: real, u: real, p: real)
    requires lo <= x <= hi && lo != hi && u == Fraction(x, lo, hi) && p == x
    ensures 0.0 <= u <= 1.0 && p == Lerp(lo, hi, u)
  {
    FractionInUnit(x, lo, hi);
  }

  /** What `Hit` checked on the way to a hit. */
  lemma HitCrossing(rc: Rect, r: Ray, tMin: real, tMax: Limit)
    requires Valid(rc) && Hit(rc, r, tMin, tMax).Some?
    ensures Coord(r.direction, NormalAxis(rc)) != 0.0
    ensures var t := Hit(rc, r, tMin, tMax).value.t;
      t == Crossing(rc, r) && tMin <= t && Below(t, tMax) &&
      WithinExtents(rc, Along(r, t, FirstAxis(rc)), Along(r, t, SecondAxis(rc))) &&
      Hit(rc, r, tMin, tMax).value == RecordAt(rc, r, t)
  {
  }

  /** How far `x` lies from `lo` towards `hi`, as `u` and `v` are computed. */
  function Fraction(x: real, lo: real, hi: real): real
    requires hi != lo
  {
    (x - lo) / (hi - lo)
  }

  /** The point a fraction `u` of the way from `lo` to `hi`; it undoes `Fraction`. */
  function Lerp(lo: real, hi: real, u: real): real {
    lo + u * (hi - lo)
  }

  lemma FractionInUnit(x: real, lo: real, hi: real)
    requires lo <= x <= hi && lo != hi
    ensures 0.0 <= Fraction(x, lo, hi) <= 1.0
    ensures x == Lerp(lo, hi, Fraction(x, lo, hi))
  {
    var w := hi - lo;
    var f := (x - lo) / w;
    assert f * w == x - lo;
    if f > 1.0 {
      assert f * w - w == (f - 1.0) * w;
      MulPositive(f - 1.0, w);
      assert false;
    }
    if f < 0.0 {
      MulPositive(-f, w);
      assert false;
    }
  }

  /** The stored normal is the unit vector of the normal axis, turned against the
      ray: the front face is hit exactly when the ray travels towards -axis. */
  lemma HitNormal(rc: Rect, r: Ray, tMin: real, tMax: Limit)
    requires Valid(rc) && Hit(rc, r, tMin, tMax).Some?
    ensures var h := Hit(rc, r, tMin, tMax).value;
      var e := UnitAlong(NormalAxis(rc));
      (h.frontFace <==> Coord(r.direction, NormalAxis(rc)) < 0.0) &&
      (h.normal == if h.frontFace then e else Neg(e)) &&
      SqLen(h.normal) == 1.0 && Dot(r.direction, h.normal) < 0.0
  {
    HitCrossing(rc, r, tMin, tMax);
    var h := Hit(rc, r, tMin, tMax).value;
    RecordNormal(rc, r, h.t);
  }

  lemma RecordNormal(rc: Rect, r: Ray, t: real)
    requires Valid(rc) && Coord(r.direction, NormalAxis(rc)) != 0.0
    ensures var h := RecordAt(rc, r, t);
      var e := UnitAlong(NormalAxis(rc));
      (h.frontFace <==> Coord(r.direction, NormalAxis(rc)) < 0.0) &&
      (h.normal == if h.frontFace then e else Neg(e)) &&
      SqLen(h.normal) == 1.0 && Dot(r.direction, h.normal) < 0.0
  {
    AxisFrontFace(r, NormalAxis(rc));
    AxisNormalUnit(r, NormalAxis(rc));
    AxisNormalOpposes(r, NormalAxis(rc));
  }

  /** The face rule against the unit vector of an axis: the front face is hit when
      the ray travels towards -axis, and the stored normal is a unit vector that
      strictly opposes the ray. */
  lemma AxisFrontFace(r: Ray, n: Axis)
    requires Coord(r.direction, n) != 0.0
    ensures FrontFace(r, UnitAlong(n)) <==> Coord(r.direction, n) < 0.0
  {
    DotUnitAlong(r.direction, n);
  }

  lemma AxisNormalUnit(r: Ray, n: Axis)
    ensures SqLen(FacingNormal(r, UnitAlong(n))) == 1.0
  {
    NegFacts(r.direction, UnitAlong(n));
  }

  lemma AxisNormalOpposes(r: Ray, n: Axis)
    requires Coord(r.direction, n) != 0.0
    ensures Dot(r.direction, FacingNormal(r, UnitAlong(n))) < 0.0
  {
    DotUnitAlong(r.direction, n);
    NegFacts(r.direction, UnitAlong(n));
  }

  lemma NegFacts(d: Vec3, e: Vec3)
    ensures Dot(d, Neg(e)) == -Dot(d, e) && SqLen(Neg(e)) == SqLen(e)
  {
  }

  /** Lowering the upper bound can only lose the hit, never change it. */
  lemma HitBoundMonotone(rc: Rect, r: Ray, tMin: real, tMax': Limit, tMax: Limit)
    requires Valid(rc) && LimitLe(tMax', tMax)
    ensures Hit(rc, r, tMin, tMax').Some? ==> Hit(rc, r, tMin, tMax) == Hit(rc, r, tMin, tMax')
    ensures Hit(rc, r, tMin, tMax).Some? && Hit(rc, r, tMin, tMax').None? ==>
              !Below(Hit(rc, r, tMin, tMax).value.t, tMax')
  {
    if Hit(rc, r, tMin, tMax').Some? {
      HitCrossing(rc, r, tMin, tMax');
      HitAt(rc, r, tMin, tMax, Hit(rc, r, tMin, tMax').value.t);
    }
    if Hit(rc, r, tMin, tMax).Some? {
      var t := Hit(rc, r, tMin, tMax).value.t;
      HitCrossing(rc, r, tMin, tMax);
      if Below(t, tMax') {
        HitAt(rc, r, tMin, tMax', t);
      }
    }
  }

  /** `Hit` succeeds with the crossing when that passes both tests. */
  lemma HitAt(rc: Rect, r: Ray, tMin: real, tMax: Limit, t: real)
    requires Valid(rc) && Coord(r.direction, NormalAxis(rc)) != 0.0 && t == Crossing(rc, r)
    requires tMin <= t && Below(t, tMax)
    requires WithinExtents(rc, Along(r, t, FirstAxis(rc)), Along(r, t, SecondAxis(rc)))
    ensures Hit(rc, r, tMin, tMax) == Some(RecordAt(rc, r, t))
  {
  }
}
