/**
 * Hit records and the face-orientation rule (src/hittable.rs), plus the
 * interval `[t_min, t_max]` every `hit` query is asked about.
 */
module Hittables {
  import opened Vectors
  import opened Rays

  /** The upper end of a query interval: a finite time or `f64::INFINITY`. */
  datatype Limit = Finite(value: real) | PositiveInfinity

  predicate AtMost(t: real, bound: Limit)
  {
    bound.PositiveInfinity? || t <= bound.value
  }

  /** Both ends are inclusive, as the comparisons in src/sphere.rs are. */
  predicate InRange(t: real, tMin: real, tMax: Limit)
  {
    tMin <= t && AtMost(t, tMax)
  }

  /** The ray arrives from outside when it runs against the outward normal. */
  predicate IsFrontFace(r: Ray, outwardNormal: Vec3)
  {
    Dot(r.direction, outwardNormal) < 0.0
  }

  /**
   * Turning the outward normal round swaps the sides: a front face becomes a
   * back face, and for a ray that is not tangent the converse holds too.
   */
  lemma FrontFaceOfReversed(r: Ray, outwardNormal: Vec3)
    ensures IsFrontFace(r, outwardNormal) ==> !IsFrontFace(r, Neg(outwardNormal))
    ensures Dot(r.direction, outwardNormal) != 0.0 ==>
              (IsFrontFace(r, outwardNormal) <==> !IsFrontFace(r, Neg(outwardNormal)))
  {
    NegLaws(r.direction, outwardNormal);
  }

  /**
   * The normal `set_face_normal` stores: the outward normal, turned round if
   * necessary so that it opposes the ray.
   */
  function FaceNormal(r: Ray, outwardNormal: Vec3): (n: Vec3)
    ensures Dot(r.direction, n) <= 0.0
    ensures Dot(r.direction, n) == Dot(r.direction, outwardNormal)
         || Dot(r.direction, n) == -Dot(r.direction, outwardNormal)
    ensures IsFrontFace(r, outwardNormal) ==> n == outwardNormal
    ensures !IsFrontFace(r, outwardNormal) ==> Add(n, outwardNormal) == Zero
    ensures LengthSquared(n) == LengthSquared(outwardNormal)
  {
    if IsFrontFace(r, outwardNormal) then outwardNormal
    else
      NegLaws(r.direction, outwardNormal);
      Neg(outwardNormal)
  }

  class HitRecord {
    var p: Point3
    var normal: Vec3
    var t: real
    var frontFace: bool

    /** `HitRecord::new`: the normal starts as the zero vector and the face as a back face. */
    constructor (p: Point3, t: real)
      ensures this.p == p && this.t == t
      ensures normal == Zero && !frontFace
    {
      this.p := p;
      this.t := t;
      normal := Zero;
      frontFace := false;
    }

    /**
     * Records whether the ray hit the outside and stores the oriented
     * normal. The new state depends only on the arguments, so a second call
     * with the same arguments leaves the record as the first call left it.
     */
    method SetFaceNormal(r: Ray, outwardNormal: Vec3)
      modifies this
      ensures frontFace == IsFrontFace(r, outwardNormal)
      ensures normal == FaceNormal(r, outwardNormal)
      ensures p == old(p) && t == old(t)
    {
      frontFace := Dot(r.direction, outwardNormal) < 0.0;
      normal := if frontFace then outwardNormal else Neg(outwardNormal);
    }
  }

  /**
   * Calling `set_face_normal` a second time with the same ray and outward
   * normal leaves the record exactly as the first call left it.
   */
  method SetFaceNormalTwice(rec: HitRecord, r: Ray, outwardNormal: Vec3)
    modifies rec
    ensures rec.frontFace == IsFrontFace(r, outwardNormal) && rec.normal == FaceNormal(r, outwardNormal)
    ensures rec.p == old(rec.p) && rec.t == old(rec.t)
  {
    rec.SetFaceNormal(r, outwardNormal);
    var p, normal, t, frontFace := rec.p, rec.normal, rec.t, rec.frontFace;
    rec.SetFaceNormal(r, outwardNormal);
    assert rec.p == p && rec.normal == normal && rec.t == t && rec.frontFace == frontFace;
  }
}
