/**
 * Rays `origin + t * direction` (src/ray.rs). `Ray::new`, `origin()` and
 * `direction()` are the datatype's constructor and fields, so the accessors
 * return exactly the constructor's arguments by construction.
 */
module Rays {
  import opened Vectors

  datatype Ray = Ray(origin: Point3, direction: Vec3)

  /** `at(t)`: the point reached after travelling `t` times the direction. */
  function At(r: Ray, t: real): (p: Point3)
    ensures Sub(p, r.origin) == Scale(t, r.direction)
  {
    Add(r.origin, Scale(t, r.direction))
  }

  lemma AtZero(r: Ray)
    ensures At(r, 0.0) == r.origin
  {
  }

  /** `at` is affine: two points on a ray differ by the time difference times the direction. */
  lemma AtAffine(r: Ray, t1: real, t2: real)
    ensures Sub(At(r, t1), At(r, t2)) == Scale(t1 - t2, r.direction)
  {
  }
}
