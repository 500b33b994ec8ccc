/**
 * Ray-sphere intersection (src/sphere.rs). `Sphere::hit` solves
 * `a t^2 + 2 half_b t + c = 0` for the ray and prefers the smaller root that
 * lies in the query interval.
 */
module Spheres {
  import opened Options
  import opened Vectors
  import opened Rays
  import opened Hittables
  import opened Materials

  /** `Sphere::new`: a centre, a radius (which may be negative) and a material. */
  datatype Sphere = Sphere(center: Point3, radius: real, mat: Material)

  /** The coefficients of `a t^2 + 2 halfB t + c`. */
  datatype Quadratic = Quadratic(a: real, halfB: real, c: real)

  /** The point at time `t` lies on the sphere's surface. */
  predicate Meets(s: Sphere, r: Ray, t: real)
  {
    LengthSquared(Sub(At(r, t), s.center)) == s.radius * s.radius
  }

  function Eval(q: Quadratic, t: real): real
  {
    q.a * t * t + 2.0 * q.halfB * t + q.c
  }

  /** The quadratic `hit` sets up from `oc = origin - center`. */
  function Coefficients(s: Sphere, r: Ray): (q: Quadratic)
    ensures q.a == LengthSquared(r.direction)
  {
    var oc := Sub(r.origin, s.center);
    Quadratic(LengthSquared(r.direction), Dot(oc, r.direction), LengthSquared(oc) - s.radius * s.radius)
  }

  /** The quadratic vanishes exactly where the ray meets the sphere. */
  lemma CoefficientsDescribeSphere(s: Sphere, r: Ray, t: real)
    ensures Eval(Coefficients(s, r), t) == LengthSquared(Sub(At(r, t), s.center)) - s.radius * s.radius
    ensures Eval(Coefficients(s, r), t) == 0.0 <==> Meets(s, r, t)
  {
    var oc, step := Sub(r.origin, s.center), Scale(t, r.direction);
    assert Sub(At(r, t), s.center) == Add(oc, step);
    SumLengthSquared(oc, step);
    DotLaws(oc, r.direction, Zero, t);
    LengthSquaredScale(t, r.direction);
    assert t * t * LengthSquared(r.direction) == LengthSquared(r.direction) * t * t;
  }

  function Discriminant(q: Quadratic): real
  {
    q.halfB * q.halfB - q.a * q.c
  }

  /**
   * The root `hit` reports, if any: none for a negative discriminant,
   * otherwise the choice `SelectRoot` makes between the two roots.
   */
  function Root(s: Sphere, r: Ray, tMin: real, tMax: Limit, sqrt: real -> real): (t: Option<real>)
    requires IsSqrt(sqrt) && r.direction != Zero
    ensures t.Some? ==> InRange(t.value, tMin, tMax)
  {
    var q := Coefficients(s, r);
    if Discriminant(q) < 0.0 then
      None
    else
      LengthSquaredZero(r.direction);
      SelectRoot(q.a, q.halfB, sqrt(Discriminant(q)), tMin, tMax)
  }

  /**
   * `(-halfB - sqrtd) / a` when it lies in `[tMin, tMax]`, else
   * `(-halfB + sqrtd) / a` when that does, else none.
   */
  function SelectRoot(a: real, halfB: real, sqrtd: real, tMin: real, tMax: Limit): (t: Option<real>)
    requires a != 0.0
    ensures t.Some? ==> InRange(t.value, tMin, tMax)
    ensures t.Some? ==> a * t.value == -halfB - sqrtd || a * t.value == -halfB + sqrtd
  {
    DivMul(-halfB - sqrtd, a);
    DivMul(-halfB + sqrtd, a);
    if InRange((-halfB - sqrtd) / a, tMin, tMax) then
      Some((-halfB - sqrtd) / a)
    else if InRange((-halfB + sqrtd) / a, tMin, tMax) then
      Some((-halfB + sqrtd) / a)
    else
      None
  }

  /**
   * Of the two roots, the smaller one wins whenever it is in range, and a
   * root is only missed when neither is in range.
   */
  lemma SelectRootIsNearest(a: real, halfB: real, sqrtd: real, tMin: real, tMax: Limit, t: real)
    requires 0.0 < a && 0.0 <= sqrtd
    requires InRange(t, tMin, tMax)
    requires a * t == -halfB - sqrtd || a * t == -halfB + sqrtd
    ensures SelectRoot(a, halfB, sqrtd, tMin, tMax).Some?
    ensures SelectRoot(a, halfB, sqrtd, tMin, tMax).value <= t
  {
    if a * t == -halfB - sqrtd {
      DivUnique(-halfB - sqrtd, a, t);
    } else {
      DivUnique(-halfB + sqrtd, a, t);
    }
    DivMonotone(-halfB - sqrtd, -halfB + sqrtd, a);
  }

  /** A root `SelectRoot` reports solves the quadratic when `sqrtd` is the root of the discriminant. */
  lemma SelectRootSolves(q: Quadratic, sqrtd: real, tMin: real, tMax: Limit)
    requires q.a != 0.0 && sqrtd * sqrtd == Discriminant(q)
    ensures SelectRoot(q.a, q.halfB, sqrtd, tMin, tMax).Some? ==>
              Eval(q, SelectRoot(q.a, q.halfB, sqrtd, tMin, tMax).value) == 0.0
  {
    var result := SelectRoot(q.a, q.halfB, sqrtd, tMin, tMax);
    if result.Some? {
      QuadraticAtRoot(q.a, q.halfB, q.c, sqrtd, result.value);
    }
  }

  /** A reported root is a point where the ray meets the sphere. */
  lemma RootMeets(s: Sphere, r: Ray, tMin: real, tMax: Limit, sqrt: real -> real)
    requires IsSqrt(sqrt) && r.direction != Zero
    ensures Root(s, r, tMin, tMax, sqrt).Some? ==> Meets(s, r, Root(s, r, tMin, tMax, sqrt).value)
  {
    var q := Coefficients(s, r);
    var result := Root(s, r, tMin, tMax, sqrt);
    if result.Some? {
      LengthSquaredZero(r.direction);
      SqrtOf(sqrt, Discriminant(q));
      SelectRootSolves(q, sqrt(Discriminant(q)), tMin, tMax);
      CoefficientsDescribeSphere(s, r, result.value);
    }
  }

  /**
   * The reported root is the nearest meeting point in the interval: if the
   * ray meets the sphere anywhere in `[tMin, tMax]`, a root is reported
   * and it is no later than that point.
   */
  lemma RootIsNearest(s: Sphere, r: Ray, tMin: real, tMax: Limit, sqrt: real -> real, t: real)
    requires IsSqrt(sqrt) && r.direction != Zero
    requires InRange(t, tMin, tMax) && Meets(s, r, t)
    ensures Root(s, r, tMin, tMax, sqrt).Some?
    ensures Root(s, r, tMin, tMax, sqrt).value <= t
  {
    var q := Coefficients(s, r);
    LengthSquaredZero(r.direction);
    CoefficientsDescribeSphere(s, r, t);
    DiscriminantOfSolution(q, t);
    SqrtOf(sqrt, Discriminant(q));
    SelectRootIsNearestSolution(q, sqrt(Discriminant(q)), tMin, tMax, t);
  }

  /** A quadratic with a real solution has a non-negative discriminant. */
  lemma DiscriminantOfSolution(q: Quadratic, t: real)
    requires Eval(q, t) == 0.0
    ensures 0.0 <= Discriminant(q)
  {
    DiscriminantOfRoot(q.a, q.halfB, q.c, t);
  }

  /** `SelectRoot` reports a root no later than any solution in the interval. */
  lemma SelectRootIsNearestSolution(q: Quadratic, sqrtd: real, tMin: real, tMax: Limit, t: real)
    requires 0.0 < q.a && 0.0 <= sqrtd && sqrtd * sqrtd == Discriminant(q)
    requires InRange(t, tMin, tMax) && Eval(q, t) == 0.0
    ensures SelectRoot(q.a, q.halfB, sqrtd, tMin, tMax).Some?
    ensures SelectRoot(q.a, q.halfB, sqrtd, tMin, tMax).value <= t
  {
    QuadraticRoots(q.a, q.halfB, q.c, sqrtd, t);
    SelectRootIsNearest(q.a, q.halfB, sqrtd, tMin, tMax, t);
  }

  /** With a negative discriminant the ray's line misses the sphere altogether. */
  lemma NegativeDiscriminantMisses(s: Sphere, r: Ray, t: real)
    requires Discriminant(Coefficients(s, r)) < 0.0
    ensures !Meets(s, r, t)
  {
    var q := Coefficients(s, r);
    CoefficientsDescribeSphere(s, r, t);
    if Meets(s, r, t) {
      DiscriminantOfRoot(q.a, q.halfB, q.c, t);
    }
  }

  /** `(p - center) / radius`: of length one on the surface, pointing out for a positive radius. */
  function OutwardNormal(s: Sphere, p: Point3): (n: Vec3)
    requires s.radius != 0.0
    ensures Scale(s.radius, n) == Sub(p, s.center)
  {
    Div(Sub(p, s.center), s.radius)
  }

  lemma OutwardNormalIsUnit(s: Sphere, r: Ray, t: real)
    requires s.radius != 0.0 && Meets(s, r, t)
    ensures LengthSquared(OutwardNormal(s, At(r, t))) == 1.0
  {
    var d := Sub(At(r, t), s.center);
    LengthSquaredScale(1.0 / s.radius, d);
    InverseSquare(s.radius, LengthSquared(d));
  }

  /** A negative radius describes the same surface, so `hit` reports the same roots. */
  lemma NegativeRadiusSameRoots(s: Sphere, r: Ray, tMin: real, tMax: Limit, sqrt: real -> real)
    requires IsSqrt(sqrt) && r.direction != Zero
    ensures Root(s.(radius := -s.radius), r, tMin, tMax, sqrt) == Root(s, r, tMin, tMax, sqrt)
  {
    SquareOfNeg(s.radius);
    assert Coefficients(s.(radius := -s.radius), r) == Coefficients(s, r);
  }

  /** A negative radius turns the outward normal inside out. */
  lemma NegativeRadiusFlipsNormal(s: Sphere, p: Point3)
    requires s.radius != 0.0
    ensures OutwardNormal(s.(radius := -s.radius), p) == Neg(OutwardNormal(s, p))
  {
    var d := Sub(p, s.center);
    NegatedDivisor(d.x, s.radius);
    NegatedDivisor(d.y, s.radius);
    NegatedDivisor(d.z, s.radius);
  }

  /** What a record built by `hit` holds for the root `t`. */
  predicate Describes(rec: HitRecord, s: Sphere, r: Ray, t: real)
    requires s.radius != 0.0
    reads rec
  {
    rec.t == t
    && rec.p == At(r, t)
    && rec.frontFace == IsFrontFace(r, OutwardNormal(s, rec.p))
    && rec.normal == FaceNormal(r, OutwardNormal(s, rec.p))
  }

  /** The normal a record stores for a reported root has length one and opposes the ray. */
  lemma DescribedNormal(rec: HitRecord, s: Sphere, r: Ray, t: real)
    requires s.radius != 0.0 && Describes(rec, s, r, t) && Meets(s, r, t)
    ensures LengthSquared(rec.normal) == 1.0
    ensures Dot(r.direction, rec.normal) <= 0.0
  {
    OutwardNormalIsUnit(s, r, t);
  }

  /**
   * `Sphere::hit`: solves the quadratic, picks the root as `Root` does and
   * builds a fresh record at that point with its face normal set.
   */
  method Hit(s: Sphere, r: Ray, tMin: real, tMax: Limit, sqrt: real -> real) returns (result: Option<HitRecord>)
    requires IsSqrt(sqrt) && r.direction != Zero && s.radius != 0.0
    ensures result.None? <==> Root(s, r, tMin, tMax, sqrt).None?
    ensures result.Some? ==> fresh(result.value) && Describes(result.value, s, r, Root(s, r, tMin, tMax, sqrt).value)
  {
    var oc := Sub(r.origin, s.center);
    var a := LengthSquared(r.direction);
    var halfB := Dot(oc, r.direction);
    var c := LengthSquared(oc) - s.radius * s.radius;

    assert Coefficients(s, r) == Quadratic(a, halfB, c);
    var discriminant := halfB * halfB - a * c;
    assert Discriminant(Coefficients(s, r)) == discriminant;
    if discriminant < 0.0 {
      return None;
    }

    LengthSquaredZero(r.direction);
    var sqrtd := sqrt(discriminant);
    assert Root(s, r, tMin, tMax, sqrt) == SelectRoot(a, halfB, sqrtd, tMin, tMax);
    var root;
    if tMin <= (-halfB - sqrtd) / a && AtMost((-halfB - sqrtd) / a, tMax) {
      root := (-halfB - sqrtd) / a;
    } else if tMin <= (-halfB + sqrtd) / a && AtMost((-halfB + sqrtd) / a, tMax) {
      root := (-halfB + sqrtd) / a;
    } else {
      return None;
    }
    assert Root(s, r, tMin, tMax, sqrt) == Some(root);

    var t := root;
    var p := At(r, t);
    var outwardNormal := Div(Sub(p, s.center), s.radius);
    var rec := new HitRecord(p, t);
    rec.SetFaceNormal(r, outwardNormal);
    return Some(rec);
  }

  // Real-number facts about the quadratic, each over plain reals.

  lemma DivUnique(x: real, a: real, t: real)
    requires a != 0.0 && a * t == x
    ensures t == x / a
  {
  }

  lemma DivMonotone(x: real, y: real, a: real)
    requires x <= y && 0.0 < a
    ensures x / a <= y / a
  {
  }

  lemma NegatedDivisor(x: real, a: real)
    requires a != 0.0
    ensures x / -a == -(x / a)
  {
  }

  /** a (a t^2 + 2 hb t + c) = (a t + hb)^2 - (hb^2 - a c). */
  lemma Expand(a: real, hb: real, c: real, t: real)
    ensures a * (a * t * t + 2.0 * hb * t + c) == (a * t + hb) * (a * t + hb) - (hb * hb - a * c)
  {
  }

  lemma SquareOfShift(u: real, hb: real, sd: real)
    requires u == -hb - sd || u == -hb + sd
    ensures (u + hb) * (u + hb) == sd * sd
  {
  }

  /** Both `(-hb - sd) / a` and `(-hb + sd) / a` solve the quadratic when `sd^2` is the discriminant. */
  lemma QuadraticAtRoot(a: real, hb: real, c: real, sd: real, t: real)
    requires a != 0.0 && sd * sd == hb * hb - a * c
    requires a * t == -hb - sd || a * t == -hb + sd
    ensures a * t * t + 2.0 * hb * t + c == 0.0
  {
    Expand(a, hb, c, t);
    SquareOfShift(a * t, hb, sd);
    ZeroProduct(a, a * t * t + 2.0 * hb * t + c);
  }

  lemma SqrtCases(x: real, s: real)
    requires 0.0 <= s && x * x == s * s
    ensures x == s || x == -s
  {
    if x != s && x != -s {
      assert (x - s) * (x + s) == x * x - s * s;
      ZeroProduct(x - s, x + s);
    }
  }

  /** A real solution makes the discriminant non-negative. */
  lemma DiscriminantOfRoot(a: real, hb: real, c: real, t: real)
    requires a * t * t + 2.0 * hb * t + c == 0.0
    ensures 0.0 <= hb * hb - a * c
  {
    Expand(a, hb, c, t);
    SquareNonNeg(a * t + hb);
  }

  /** Every solution is one of the two roots. */
  lemma QuadraticRoots(a: real, hb: real, c: real, sd: real, t: real)
    requires a != 0.0 && 0.0 <= sd && sd * sd == hb * hb - a * c
    requires a * t * t + 2.0 * hb * t + c == 0.0
    ensures a * t == -hb - sd || a * t == -hb + sd
  {
    Expand(a, hb, c, t);
    SqrtCases(a * t + hb, sd);
  }
}
