/** Rays `origin + t * direction`, with the time stamp that the moving-sphere and
    camera code attach to them. */
module Rays {
  import opened Vectors

  /** The older ray has only an origin and a direction; the camera and the moving
      sphere also read a time, so the model carries all three. */
  datatype Ray = Ray(origin: Point3, direction: Vec3, time: real)

  /** `Ray::new(o, d)`: a ray without a time stamp starts at time zero. */
  function New(o: Point3, d: Vec3): (r: Ray)
    ensures r.origin == o && r.direction == d && r.time == 0.0
  {
    Ray(o, d, 0.0)
  }

  /** `Ray::new(o, d, time)` as the camera calls it. */
  function NewTimed(o: Point3, d: Vec3, time: real): (r: Ray)
    ensures r.origin == o && r.direction == d && r.time == time
  {
    Ray(o, d, time)
  }

  /** `at(t)`: the point reached after travelling `t` units of direction. */
  function At(r: Ray, t: real): Point3 {
    Add(r.origin, Scale(r.direction, t))
  }

  /** At parameter zero the ray is at its origin. */
  lemma AtZero(r: Ray)
    ensures At(r, 0.0) == r.origin
  {
  }

  /** The displacement from the origin is the direction scaled by `t`. */
  lemma AtDisplacement(r: Ray, t: real)
    ensures Sub(At(r, t), r.origin) == Scale(r.direction, t)
  {
  }

  /** With a zero direction the ray never leaves its origin. */
  lemma AtZeroDirection(r: Ray, t: real)
    requires r.direction == Zero
    ensures At(r, t) == r.origin
  {
  }

  /** Points along a ray are affine in the parameter: going `s` further from `at(t)`
      lands on `at(t + s)`. */
  lemma AtAffine(r: Ray, t: real, s: real)
    ensures Add(At(r, t), Scale(r.direction, s)) == At(r, t + s)
  {
  }
}
