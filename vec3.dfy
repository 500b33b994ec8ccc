/**
 * Three-component vectors, used as points, directions and colours
 * (src/vec3.rs). Components are reals, so every operator identity below is
 * exact; the square root is a parameter that must satisfy `IsSqrt`.
 */
module Vectors {

  datatype Vec3 = Vec3(x: real, y: real, z: real)

  type Point3 = Vec3
  type Color = Vec3

  /** `Vec3::default()`: the zero vector. */
  const Zero: Vec3 := Vec3(0.0, 0.0, 0.0)

  /**
   * What the model requires of `f64::sqrt`: on a non-negative argument it
   * returns the non-negative number whose square is that argument.
   */
  ghost predicate IsSqrt(sqrt: real -> real)
  {
    forall x :: 0.0 <= x ==> 0.0 <= sqrt(x) && sqrt(x) * sqrt(x) == x
  }

  /** Unary minus: the additive inverse. */
  function Neg(v: Vec3): (r: Vec3)
    ensures Add(v, r) == Zero
  {
    Vec3(-v.x, -v.y, -v.z)
  }

  /** Componentwise sum; the zero vector is its unit on either side. */
  function Add(a: Vec3, b: Vec3): Vec3
  {
    Vec3(a.x + b.x, a.y + b.y, a.z + b.z)
  }

  /** Subtraction, written componentwise in the source; it is adding the negation. */
  function Sub(a: Vec3, b: Vec3): (r: Vec3)
    ensures r == Add(a, Neg(b))
    ensures Add(r, b) == a
  {
    Vec3(a.x - b.x, a.y - b.y, a.z - b.z)
  }

  /** Elementwise product (`Vec3 * Vec3`), used for attenuating colours. */
  function Mul(a: Vec3, b: Vec3): (r: Vec3)
    ensures b == Vec3(1.0, 1.0, 1.0) ==> r == a
    ensures b == Zero ==> r == Zero
  {
    Vec3(a.x * b.x, a.y * b.y, a.z * b.z)
  }

  /** Scalar on the left (`f64 * Vec3`). */
  function Scale(s: real, v: Vec3): Vec3
  {
    Vec3(s * v.x, s * v.y, s * v.z)
  }

  /** Scalar on the right (`Vec3 * f64`), which the source defines as `rhs * self`. */
  function MulScalar(v: Vec3, s: real): (r: Vec3)
    ensures r == Vec3(v.x * s, v.y * s, v.z * s)
  {
    Scale(s, v)
  }

  /** Division by a scalar, which the source computes as `(1.0 / rhs) * self`. */
  function Div(v: Vec3, s: real): (r: Vec3)
    requires s != 0.0
    ensures r == Vec3(v.x / s, v.y / s, v.z / s)
    ensures Scale(s, r) == v
  {
    Scale(1.0 / s, v)
  }

  function Dot(a: Vec3, b: Vec3): real
  {
    a.x * b.x + a.y * b.y + a.z * b.z
  }

  function LengthSquared(v: Vec3): (r: real)
    ensures r == Dot(v, v)
    ensures 0.0 <= r
  {
    SquareNonNeg(v.x); SquareNonNeg(v.y); SquareNonNeg(v.z);
    v.x * v.x + v.y * v.y + v.z * v.z
  }

  /** Only the zero vector has squared length zero. */
  lemma LengthSquaredZero(v: Vec3)
    ensures LengthSquared(v) == 0.0 <==> v == Zero
  {
    if LengthSquared(v) == 0.0 {
      SquareNonNeg(v.x); SquareNonNeg(v.y); SquareNonNeg(v.z);
      SquareZero(v.x); SquareZero(v.y); SquareZero(v.z);
    }
  }

  lemma MulPos(a: real, b: real)
    requires 0.0 < a && 0.0 < b
    ensures 0.0 < a * b
  {
  }

  lemma SquareOfNeg(a: real)
    ensures a * a == (-a) * (-a)
  {
  }

  lemma SquarePos(a: real)
    requires a != 0.0
    ensures 0.0 < a * a
  {
    if 0.0 < a {
      MulPos(a, a);
    } else {
      MulPos(-a, -a);
      SquareOfNeg(a);
    }
  }

  lemma SquareNonNeg(a: real)
    ensures 0.0 <= a * a
  {
    if a != 0.0 {
      SquarePos(a);
    }
  }

  lemma SquareZero(a: real)
    requires a * a == 0.0
    ensures a == 0.0
  {
    if a != 0.0 {
      Cancel(a, a);
    }
  }

  lemma DivMul(x: real, a: real)
    requires a != 0.0
    ensures (x / a) * a == x
  {
  }

  lemma ZeroProduct(a: real, b: real)
    requires a != 0.0 && a * b == 0.0
    ensures b == 0.0
  {
    DivMul(a * b, a);
  }

  lemma Cancel(a: real, b: real)
    requires a != 0.0
    ensures a * b / a == b
  {
  }

  /** The defining property of the square root, for one argument. */
  lemma SqrtOf(sqrt: real -> real, x: real)
    requires IsSqrt(sqrt) && 0.0 <= x
    ensures 0.0 <= sqrt(x) && sqrt(x) * sqrt(x) == x
  {
  }

  /** The square root of zero is zero. */
  lemma SqrtZero(sqrt: real -> real)
    requires IsSqrt(sqrt)
    ensures sqrt(0.0) == 0.0
  {
    SqrtOf(sqrt, 0.0);
    SquareZero(sqrt(0.0));
  }

  function Length(v: Vec3, sqrt: real -> real): (r: real)
    requires IsSqrt(sqrt)
    ensures 0.0 <= r && r * r == LengthSquared(v)
  {
    SqrtOf(sqrt, LengthSquared(v));
    sqrt(LengthSquared(v))
  }

  /** Only the zero vector has length zero. */
  lemma LengthZero(v: Vec3, sqrt: real -> real)
    requires IsSqrt(sqrt)
    ensures Length(v, sqrt) == 0.0 <==> v == Zero
  {
    if v == Zero {
      LengthOfZero(v, sqrt);
    }
    if Length(v, sqrt) == 0.0 {
      LengthZeroOnlyAtZero(v, sqrt);
    }
  }

  lemma LengthOfZero(v: Vec3, sqrt: real -> real)
    requires IsSqrt(sqrt) && v == Zero
    ensures Length(v, sqrt) == 0.0
  {
    LengthSquaredZero(v);
    SqrtZero(sqrt);
  }

  lemma LengthZeroOnlyAtZero(v: Vec3, sqrt: real -> real)
    requires IsSqrt(sqrt) && Length(v, sqrt) == 0.0
    ensures v == Zero
  {
    assert Length(v, sqrt) * Length(v, sqrt) == 0.0;
    LengthSquaredZero(v);
  }

  /** The cross product; it is orthogonal to both operands. */
  function Cross(a: Vec3, b: Vec3): (r: Vec3)
    ensures Dot(a, r) == 0.0 && Dot(b, r) == 0.0
  {
    Vec3(a.y * b.z - a.z * b.y,
         a.z * b.x - a.x * b.z,
         a.x * b.y - a.y * b.x)
  }

  /** `v / v.length()`: a vector of length one pointing the same way as `v`. */
  function UnitVector(v: Vec3, sqrt: real -> real): (r: Vec3)
    requires IsSqrt(sqrt)
    requires v != Zero
    ensures LengthSquared(r) == 1.0
    ensures Scale(Length(v, sqrt), r) == v
  {
    var len := Length(v, sqrt);
    LengthZero(v, sqrt);
    LengthSquaredScale(1.0 / len, v);
    InverseSquare(len, LengthSquared(v));
    Div(v, len)
  }

  lemma InverseSquare(len: real, sq: real)
    requires len != 0.0 && len * len == sq
    ensures (1.0 / len) * (1.0 / len) * sq == 1.0
  {
  }

  lemma LengthSquaredScale(k: real, v: Vec3)
    ensures LengthSquared(Scale(k, v)) == k * k * LengthSquared(v)
  {
  }

  /** The group laws of `+` and unary `-`. */
  lemma AddLaws(a: Vec3, b: Vec3, c: Vec3)
    ensures Add(a, b) == Add(b, a)
    ensures Add(Add(a, b), c) == Add(a, Add(b, c))
    ensures Add(a, Zero) == a
    ensures Neg(Neg(a)) == a
  {
  }

  /** Scalar multiplication is the same on either side, and distributes over `+`. */
  lemma ScaleLaws(s: real, k: real, a: Vec3, b: Vec3)
    ensures MulScalar(a, s) == Scale(s, a)
    ensures Scale(s, Add(a, b)) == Add(Scale(s, a), Scale(s, b))
    ensures Scale(s, Scale(k, a)) == Scale(s * k, a)
    ensures Scale(1.0, a) == a && Scale(-1.0, a) == Neg(a)
  {
    assert s * (k * a.x) == (s * k) * a.x;
    assert s * (k * a.y) == (s * k) * a.y;
    assert s * (k * a.z) == (s * k) * a.z;
    assert Scale(-1.0, a) == Vec3(-a.x, -a.y, -a.z);
  }

  /** Negating one operand negates the dot product; negation keeps the length. */
  lemma NegLaws(a: Vec3, b: Vec3)
    ensures Dot(a, Neg(b)) == -Dot(a, b)
    ensures LengthSquared(Neg(b)) == LengthSquared(b)
  {
  }

  /** The squared length of a sum: |a + b|^2 = |a|^2 + 2 a.b + |b|^2. */
  lemma SumLengthSquared(a: Vec3, b: Vec3)
    ensures LengthSquared(Add(a, b)) == LengthSquared(a) + 2.0 * Dot(a, b) + LengthSquared(b)
  {
  }

  /** The elementwise product is commutative and has (1,1,1) as its unit. */
  lemma MulLaws(a: Vec3, b: Vec3)
    ensures Mul(a, b) == Mul(b, a)
    ensures Mul(a, Vec3(1.0, 1.0, 1.0)) == a
  {
  }

  /** The dot product is symmetric and linear in each argument. */
  lemma DotLaws(a: Vec3, b: Vec3, c: Vec3, s: real)
    ensures Dot(a, b) == Dot(b, a)
    ensures Dot(Add(a, b), c) == Dot(a, c) + Dot(b, c)
    ensures Dot(Scale(s, a), b) == s * Dot(a, b)
    ensures Dot(a, Scale(s, b)) == s * Dot(a, b)
    ensures Dot(Neg(a), b) == -Dot(a, b)
  {
  }

  /** The cross product is anti-commutative and linear in its second argument. */
  lemma CrossLaws(a: Vec3, b: Vec3, s: real)
    ensures Cross(a, b) == Neg(Cross(b, a))
    ensures Cross(a, a) == Zero
    ensures Cross(a, Scale(s, b)) == Scale(s, Cross(a, b))
  {
    assert a.y * (s * b.z) - a.z * (s * b.y) == s * (a.y * b.z - a.z * b.y);
    assert a.z * (s * b.x) - a.x * (s * b.z) == s * (a.z * b.x - a.x * b.z);
    assert a.x * (s * b.y) - a.y * (s * b.x) == s * (a.x * b.y - a.y * b.x);
    var c, d := Cross(a, Scale(s, b)), Scale(s, Cross(a, b));
    assert c.x == d.x && c.y == d.y && c.z == d.z;
  }

  /** Lagrange's identity: |a x b|^2 = |a|^2 |b|^2 - (a . b)^2. */
  lemma CrossLengthSquared(a: Vec3, b: Vec3)
    ensures LengthSquared(Cross(a, b)) == LengthSquared(a) * LengthSquared(b) - Dot(a, b) * Dot(a, b)
  {
  }

  /** A vector of length one has every component in [-1, 1]. */
  lemma {:induction false} UnitComponentsBounded(v: Vec3)
    requires LengthSquared(v) == 1.0
    ensures -1.0 <= v.x <= 1.0 && -1.0 <= v.y <= 1.0 && -1.0 <= v.z <= 1.0
  {
    SquareAtMostOne(v.x, v.y * v.y + v.z * v.z);
    SquareAtMostOne(v.y, v.x * v.x + v.z * v.z);
    SquareAtMostOne(v.z, v.x * v.x + v.y * v.y);
  }

  lemma SquareAtMostOne(c: real, rest: real)
    requires 0.0 <= rest && c * c + rest == 1.0
    ensures -1.0 <= c <= 1.0
  {
  }

  /**
   * A mutable `Vec3` place (a `let mut` binding or a `&mut Vec3`): the
   * receiver of the compound assignments `+=`, `*=` and `/=`, which the
   * source writes componentwise and which agree with the pure operators.
   */
  class Vec3Var {
    var value: Vec3

    constructor (v: Vec3)
      ensures value == v
    {
      value := v;
    }

    method AddAssign(other: Vec3)
      modifies this
      ensures value == Add(old(value), other)
    {
      value := Vec3(value.x + other.x, value.y + other.y, value.z + other.z);
    }

    method MulAssign(s: real)
      modifies this
      ensures value == Scale(s, old(value))
    {
      value := Vec3(value.x * s, value.y * s, value.z * s);
    }

    method DivAssign(s: real)
      requires s != 0.0
      modifies this
      ensures value == Div(old(value), s)
    {
      value := Vec3(value.x / s, value.y / s, value.z / s);
    }
  }
}
