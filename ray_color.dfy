/**
 * `Ray::color` (src/ray.rs): one level of shading. A ray that hits the
 * scene is coloured by its surface normal, one that misses by a vertical
 * white-to-blue sky gradient. It lives apart from `Rays` because it asks
 * the scene, which is itself built on rays.
 */
module Shading {
  import opened Options
  import opened Vectors
  import opened Rays
  import opened Hittables
  import opened Spheres
  import opened HittableLists

  const White: Color := Vec3(1.0, 1.0, 1.0)
  const SkyBlue: Color := Vec3(0.5, 0.7, 1.0)

  /** Every component lies in [0, 1]. */
  predicate InUnitCube(c: Color)
  {
    0.0 <= c.x <= 1.0 && 0.0 <= c.y <= 1.0 && 0.0 <= c.z <= 1.0
  }

  /** `0.5 * (normal + (1, 1, 1))`; the normal can be read back from the colour. */
  function NormalColor(normal: Vec3): (c: Color)
    ensures Sub(Scale(2.0, c), White) == normal
  {
    Scale(0.5, Add(normal, White))
  }

  /** A unit normal gives a colour inside the unit cube. */
  lemma {:induction false} NormalColorInUnitCube(normal: Vec3)
    requires LengthSquared(normal) == 1.0
    ensures InUnitCube(NormalColor(normal))
  {
    UnitComponentsBounded(normal);
  }

  /** `0.5 * (unit_y + 1)`: maps [-1, 1] onto [0, 1], and is undone by `2 t - 1`. */
  function BlendFactor(unitY: real): (t: real)
    ensures -1.0 <= unitY <= 1.0 ==> 0.0 <= t <= 1.0
    ensures 2.0 * t - 1.0 == unitY
  {
    0.5 * (unitY + 1.0)
  }

  /** `(1 - t) * (1, 1, 1) + t * (0.5, 0.7, 1.0)`: the sky between white and blue. */
  function SkyColor(t: real): (c: Color)
    ensures 0.0 <= t <= 1.0 ==> InUnitCube(c)
    ensures 0.0 <= t <= 1.0 ==> SkyBlue.x <= c.x && SkyBlue.y <= c.y && c.z == 1.0
  {
    Add(Scale(1.0 - t, White), Scale(t, SkyBlue))
  }

  lemma SkyWhite()
    ensures SkyColor(0.0) == White
  {
    assert Scale(0.0, SkyBlue) == Zero;
    assert Scale(1.0, White) == White;
    assert Add(White, Zero) == White;
  }

  lemma SkyBlueEnd()
    ensures SkyColor(1.0) == SkyBlue
  {
    assert Scale(0.0, White) == Zero;
    assert Scale(1.0, SkyBlue) == SkyBlue;
    assert Add(Zero, SkyBlue) == SkyBlue;
  }

  /** Straight up the sky is blue, straight down it is white. */
  lemma SkyEnds()
    ensures SkyColor(BlendFactor(1.0)) == SkyBlue
    ensures SkyColor(BlendFactor(-1.0)) == White
  {
    assert BlendFactor(1.0) == 1.0;
    assert BlendFactor(-1.0) == 0.0;
    SkyWhite();
    SkyBlueEnd();
  }

  /**
   * The sky is a convex blend: going from white towards blue, each
   * component moves monotonically as the ray turns upwards.
   */
  lemma {:induction false} SkyMonotone(t1: real, t2: real)
    requires t1 <= t2
    ensures SkyColor(t2).x <= SkyColor(t1).x && SkyColor(t2).y <= SkyColor(t1).y
    ensures SkyColor(t2).z == SkyColor(t1).z
  {
    BlendStep(t1, t2, 0.5);
    BlendStep(t1, t2, 0.7);
  }

  lemma BlendStep(t1: real, t2: real, target: real)
    requires t1 <= t2 && target <= 1.0
    ensures (1.0 - t2) * 1.0 + t2 * target <= (1.0 - t1) * 1.0 + t1 * target
  {
    assert 0.0 <= (t2 - t1) * (1.0 - target);
  }

  /**
   * `Ray::color`: asks the scene about `[0, infinity]`. On a hit the colour
   * is that of the stored normal; on a miss it is the sky at the height of
   * the unit direction. Either way every component lies in [0, 1].
   */
  method RayColor(r: Ray, world: HittableList, sqrt: real -> real) returns (c: Color)
    requires IsSqrt(sqrt) && r.direction != Zero && world.NonDegenerate()
    ensures InUnitCube(c)
    ensures Closest(world.objects, r, 0.0, PositiveInfinity, sqrt).None? ==>
              c == SkyColor(BlendFactor(UnitVector(r.direction, sqrt).y))
    ensures Closest(world.objects, r, 0.0, PositiveInfinity, sqrt).Some? ==>
              var n := Closest(world.objects, r, 0.0, PositiveInfinity, sqrt).value;
              c == NormalColor(FaceNormal(r, OutwardNormal(world.objects[n.index], At(r, n.t))))
  {
    var hit := world.Hit(r, 0.0, PositiveInfinity, sqrt);
    if hit.Some? {
      var rec := hit.value;
      var n := Closest(world.objects, r, 0.0, PositiveInfinity, sqrt).value;
      DescribedNormal(rec, world.objects[n.index], r, n.t);
      NormalColorInUnitCube(rec.normal);
      return Scale(0.5, Add(rec.normal, Vec3(1.0, 1.0, 1.0)));
    }

    var unitDirection := UnitVector(r.direction, sqrt);
    UnitComponentsBounded(unitDirection);
    var t := 0.5 * (unitDirection.y + 1.0);
    c := Add(Scale(1.0 - t, Vec3(1.0, 1.0, 1.0)), Scale(t, Vec3(0.5, 0.7, 1.0)));
  }
}
