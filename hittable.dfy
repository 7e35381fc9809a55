/** What every surface reports about a ray hitting it, and the conventions shared by
    all primitives. */
module Hittables {
  import opened Vectors
  import opened Rays
  import opened Materials

  /** The upper end of a ray-parameter interval; the scene is queried up to +infinity. */
  datatype Limit = Finite(value: real) | Infinity

  /** `t <= limit` */
  predicate Below(t: real, limit: Limit) {
    limit.Infinity? || t <= limit.value
  }

  /** `t < limit` */
  predicate StrictlyBelow(t: real, limit: Limit) {
    limit.Infinity? || t < limit.value
  }

  /** `a <= b` on limits. */
  predicate LimitLe(a: Limit, b: Limit) {
    b.Infinity? || (a.Finite? && a.value <= b.value)
  }

  /** One record covering both shapes in the sources: the parameter `t`, the surface
      coordinates `u`, `v`, the point `p`, the stored normal, whether the ray hit the
      front face, and the material there. */
  datatype HitRecord = HitRecord(t: real, u: real, v: real, p: Point3, normal: Vec3,
                                 frontFace: bool, material: Material)

  /** The front-face rule: the ray hits the front when it travels against the outward
      normal. */
  predicate FrontFace(r: Ray, outward: Vec3) {
    Dot(r.direction, outward) < 0.0
  }

  /** The stored normal: the outward normal on the front face, its negation on the
      back face, so that it always opposes the ray. */
  function FacingNormal(r: Ray, outward: Vec3): (n: Vec3)
    ensures FrontFace(r, outward) ==> n == outward
    ensures !FrontFace(r, outward) ==> n == Neg(outward)
    ensures Dot(r.direction, n) <= 0.0
  {
    if FrontFace(r, outward) then outward else Neg(outward)
  }

  /** `Hit_Record` updated in place, as the out-parameter of the older `hit`. The
      getters `t()`, `p()` and `normal()` are reads of the fields of `rec`. */
  class HitRecordCell {
    var rec: HitRecord

    constructor (init: HitRecord)
      ensures rec == init
    {
      rec := init;
    }

    /** `set_p`: only `p` changes. */
    method SetP(val: Point3)
      modifies this
      ensures rec == old(rec).(p := val)
    {
      rec := rec.(p := val);
    }

    /** `set_t`: only `t` changes. */
    method SetT(val: real)
      modifies this
      ensures rec == old(rec).(t := val)
    {
      rec := rec.(t := val);
    }

    /** `set_normal`: only the normal changes. */
    method SetNormal(val: Vec3)
      modifies this
      ensures rec == old(rec).(normal := val)
    {
      rec := rec.(normal := val);
    }

    /** `set_face_normal(r, outward)`: records which face was hit and stores the
      normal that opposes the ray, by the front-face rule. */
    method SetFaceNormal(r: Ray, outward: Vec3)
      modifies this
      ensures rec == old(rec).(frontFace := FrontFace(r, outward), normal := FacingNormal(r, outward))
      ensures Dot(r.direction, rec.normal) <= 0.0
    {
      var front := Dot(r.direction, outward) < 0.0;
      rec := rec.(frontFace := front);
      SetNormal(if front then outward else Neg(outward));
    }
  }

  /** The default `Hittable::hit`: never a hit, and the record is not touched. */
  method DefaultHit(r: Ray, tMin: real, tMax: real, cell: HitRecordCell) returns (hit: bool)
    ensures !hit
  {
    hit := false;
  }
}
