/**
 * Materials and their scatter decisions (src/material.rs). The `Material`
 * trait objects become one datatype with a variant per implementation. The
 * random samples (`Vec3::random_unit_vector`, `Vec3::random_in_unit_sphere`)
 * are parameters, as are `near_zero` and `reflect`, which src/vec3.rs does
 * not define.
 */
module Materials {
  import opened Options
  import opened Vectors
  import opened Rays
  import opened Hittables

  datatype Material =
    | Lambertian(albedo: Color)
    | Metal(albedo: Color, fuzz: real)

  /** What `scatter` returns when the ray is not absorbed: `(attenuation, scattered)`. */
  datatype Scattered = Scattered(attenuation: Color, scattered: Ray)

  /**
   * The materials the program can build: `Metal`'s fields are private and
   * `Metal::new` is its only constructor, so its fuzz never exceeds one.
   */
  predicate WellFormed(m: Material)
  {
    m.Metal? ==> m.fuzz <= 1.0
  }

  /** `Metal::new`: the fuzz is `f.min(1.)`, the smaller of `f` and one. */
  function NewMetal(a: Color, f: real): (m: Material)
    ensures WellFormed(m)
    ensures m.Metal? && m.albedo == a
    ensures m.fuzz <= 1.0 && m.fuzz <= f
    ensures m.fuzz == f || m.fuzz == 1.0
  {
    Metal(a, if f <= 1.0 then f else 1.0)
  }

  /**
   * `Lambertian::scatter`: the direction is the normal plus a random unit
   * vector, replaced by the normal itself when that sum is nearly zero.
   * A Lambertian surface never absorbs.
   */
  method LambertianScatter(albedo: Color, rIn: Ray, rec: HitRecord, randomUnitVector: Vec3,
                           nearZero: Vec3 -> bool)
    returns (result: Option<Scattered>)
    ensures result.Some?
    ensures result.value.attenuation == albedo
    ensures result.value.scattered.origin == rec.p
    ensures nearZero(Add(rec.normal, randomUnitVector)) ==> result.value.scattered.direction == rec.normal
    ensures !nearZero(Add(rec.normal, randomUnitVector)) ==>
              result.value.scattered.direction == Add(rec.normal, randomUnitVector)
  {
    var scatterDirection := Add(rec.normal, randomUnitVector);
    if nearZero(scatterDirection) {
      scatterDirection := rec.normal;
    }
    result := Some(Scattered(albedo, Ray(rec.p, scatterDirection)));
  }

  /**
   * The sum of a unit normal and a unit sample never points below the
   * surface: its dot product with the normal is half its squared length.
   */
  lemma {:induction false} LambertianDirectionFacesOut(normal: Vec3, sample: Vec3)
    requires LengthSquared(normal) == 1.0 && LengthSquared(sample) == 1.0
    ensures Dot(Add(normal, sample), normal) == LengthSquared(Add(normal, sample)) / 2.0
    ensures 0.0 <= Dot(Add(normal, sample), normal)
  {
    DotLaws(normal, sample, normal, 1.0);
    SumLengthSquared(normal, sample);
  }

  /** The direction a metal surface scatters into: the mirror direction, blurred by the fuzz. */
  function MetalDirection(fuzz: real, rIn: Ray, normal: Vec3, randomInUnitSphere: Vec3,
                          sqrt: real -> real, reflect: (Vec3, Vec3) -> Vec3): (d: Vec3)
    requires IsSqrt(sqrt) && rIn.direction != Zero
    ensures fuzz == 0.0 ==> d == reflect(UnitVector(rIn.direction, sqrt), normal)
  {
    Add(reflect(UnitVector(rIn.direction, sqrt), normal), Scale(fuzz, randomInUnitSphere))
  }

  /**
   * `Metal::scatter`: the ray is absorbed unless the scattered direction
   * leaves the surface on the side the normal points to.
   */
  function MetalScatter(albedo: Color, fuzz: real, rIn: Ray, rec: HitRecord, randomInUnitSphere: Vec3,
                        sqrt: real -> real, reflect: (Vec3, Vec3) -> Vec3): (result: Option<Scattered>)
    requires IsSqrt(sqrt) && rIn.direction != Zero
    reads rec
    ensures result.Some? <==>
              0.0 < Dot(MetalDirection(fuzz, rIn, rec.normal, randomInUnitSphere, sqrt, reflect), rec.normal)
    ensures result.Some? ==> result.value.attenuation == albedo
    ensures result.Some? ==> result.value.scattered
                             == Ray(rec.p, MetalDirection(fuzz, rIn, rec.normal, randomInUnitSphere, sqrt, reflect))
  {
    var scattered := Ray(rec.p, MetalDirection(fuzz, rIn, rec.normal, randomInUnitSphere, sqrt, reflect));
    if 0.0 < Dot(scattered.direction, rec.normal) then
      Some(Scattered(albedo, scattered))
    else
      None
  }

  /**
   * `Material::scatter`, dispatched on the variant. Every material
   * attenuates by its albedo and scatters from the hit point. With a unit
   * normal and a unit diffuse sample, a scattered ray never points into the
   * surface it left: a metal ray strictly leaves it, a diffuse ray at worst
   * grazes it.
   */
  method Scatter(m: Material, rIn: Ray, rec: HitRecord, randomUnitVector: Vec3, randomInUnitSphere: Vec3,
                 sqrt: real -> real, nearZero: Vec3 -> bool, reflect: (Vec3, Vec3) -> Vec3)
    returns (result: Option<Scattered>)
    requires IsSqrt(sqrt) && rIn.direction != Zero
    ensures m.Lambertian? ==> result.Some?
    ensures m.Lambertian? && nearZero(Add(rec.normal, randomUnitVector)) ==>
              result.value.scattered.direction == rec.normal
    ensures m.Lambertian? && !nearZero(Add(rec.normal, randomUnitVector)) ==>
              result.value.scattered.direction == Add(rec.normal, randomUnitVector)
    ensures m.Metal? ==> result == MetalScatter(m.albedo, m.fuzz, rIn, rec, randomInUnitSphere, sqrt, reflect)
    ensures result.Some? ==> result.value.attenuation == m.albedo && result.value.scattered.origin == rec.p
    ensures m.Metal? && result.Some? ==> 0.0 < Dot(result.value.scattered.direction, rec.normal)
    ensures LengthSquared(rec.normal) == 1.0 && LengthSquared(randomUnitVector) == 1.0 && result.Some? ==>
              0.0 <= Dot(result.value.scattered.direction, rec.normal)
  {
    match m
    case Lambertian(albedo) =>
      result := LambertianScatter(albedo, rIn, rec, randomUnitVector, nearZero);
      if LengthSquared(rec.normal) == 1.0 && LengthSquared(randomUnitVector) == 1.0 {
        LambertianDirectionFacesOut(rec.normal, randomUnitVector);
      }
    case Metal(albedo, fuzz) =>
      result := MetalScatter(albedo, fuzz, rIn, rec, randomInUnitSphere, sqrt, reflect);
  }
}
