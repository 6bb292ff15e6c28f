/** The 2D vector value type of backend/src/vector2.h, over exact reals.

    `float` is modelled as `real`.  `std::sqrt` cannot be written down in
    Dafny, so a length is described by its defining property (`IsSqrt`), and
    the operations that need one (`length`, `normalize`, `distance`) take it
    as an argument together with that property. */
module Vectors {

  /** r is the non-negative square root of x: the value std::sqrt(x) stands for. */
  ghost predicate IsSqrt(r: real, x: real) {
    r >= 0.0 && r * r == x
  }

  /** A number has at most one non-negative square root, so a length or a
      distance described by `IsSqrt` is a well-defined value. */
  lemma SqrtUnique(r1: real, r2: real, x: real)
    requires IsSqrt(r1, x) && IsSqrt(r2, x)
    ensures r1 == r2
  {
    if r1 < r2 {
      SquareMonotone(r1, r2);
    } else if r2 < r1 {
      SquareMonotone(r2, r1);
    }
  }

  /** For non-negative reals, d < s exactly when d * d < s * s. */
  lemma SquareMonotone(d: real, s: real)
    requires d >= 0.0 && s >= 0.0
    ensures d < s <==> d * d < s * s
  {
    if d < s {
      assert Mul(d, d) <= Mul(d, s) < Mul(s, s);
    } else {
      assert Mul(s, s) <= Mul(s, d) <= Mul(d, d);
    }
  }

  // Real multiplication behind a function symbol: the solver chains
  // inequalities between such terms, which it does not always do between
  // bare products.  The lemmas below are the few facts of real arithmetic
  // the proofs in this project rest on.

  function Mul(a: real, b: real): real {
    a * b
  }

  lemma PositiveProduct(a: real, b: real)
    requires a > 0.0 && b > 0.0
    ensures Mul(a, b) > 0.0
  {
  }

  lemma SquareNonNegative(a: real)
    ensures Mul(a, a) >= 0.0
    ensures a != 0.0 ==> Mul(a, a) > 0.0
  {
    if a > 0.0 {
      PositiveProduct(a, a);
    } else if a < 0.0 {
      PositiveProduct(-a, -a);
      assert Mul(a, a) == Mul(-a, -a);
    }
  }

  lemma CancelFactor(a: real, b: real, c: real)
    requires c != 0.0 && Mul(a, c) == Mul(b, c)
    ensures a == b
  {
    assert a == Mul(a, c) / c;
  }

  const Zero := Vector2(0.0, 0.0)

  datatype Vector2 = Vector2(x: real, y: real) {

    /** operator+ */
    function Add(v: Vector2): Vector2 {
      Vector2(x + v.x, y + v.y)
    }

    /** operator- (SubAddCancel and SubSelf state what it undoes). */
    function Sub(v: Vector2): Vector2 {
      Vector2(x - v.x, y - v.y)
    }

    /** operator*(scalar): scaling by 0 gives the zero vector and scaling by
        1 changes nothing (ScaleLengthSquared relates the lengths). */
    function Scale(s: real): (r: Vector2)
      ensures s == 0.0 ==> r == Zero
      ensures s == 1.0 ==> r == this
    {
      Vector2(x * s, y * s)
    }

    /** operator/(scalar).  IEEE division by zero (infinities, NaN) has no
        counterpart over the reals, so a zero divisor is excluded. */
    function Div(s: real): (r: Vector2)
      requires s != 0.0
      ensures r.Scale(s) == this
    {
      Vector2(x / s, y / s)
    }

    /** lengthSquared(): never negative (LengthSquaredZero adds that it is
        the dot product of the vector with itself and zero only for the zero
        vector). */
    function LengthSquared(): (r: real)
      ensures r >= 0.0
    {
      SquareNonNegative(x);
      SquareNonNegative(y);
      x * x + y * y
    }

    /** len is what length() returns: std::sqrt(x * x + y * y). */
    ghost predicate IsLength(len: real) {
      IsSqrt(len, LengthSquared())
    }

    /** normalized(), given the length the library computes: a copy divided by
        its length when that length is positive and left as it is otherwise.
        normalize() is the same computation assigned back to the receiver. */
    function Normalized(len: real): (r: Vector2)
      requires IsLength(len)
      ensures this == Zero ==> r == this
      ensures this != Zero ==> r.LengthSquared() == 1.0 && r.Scale(len) == this
    {
      NormalizeCases(this, len);
      if len > 0.0 then Vector2(x / len, y / len) else this
    }
  }

  /** lengthSquared() is dot(v, v), and it is zero only for the zero vector. */
  lemma LengthSquaredZero(v: Vector2)
    ensures v.LengthSquared() == Dot(v, v)
    ensures v.LengthSquared() == 0.0 <==> v == Zero
  {
    SquareNonNegative(v.x);
    SquareNonNegative(v.y);
  }

  /** The length is positive exactly for a non-zero vector, and dividing by it
      leaves a vector of squared length 1 that scales back to the original. */
  lemma NormalizeCases(v: Vector2, len: real)
    requires v.IsLength(len)
    ensures len > 0.0 <==> v != Zero
    ensures len > 0.0 ==> Vector2(v.x / len, v.y / len).LengthSquared() == 1.0
    ensures len > 0.0 ==> Vector2(v.x / len, v.y / len).Scale(len) == v
  {
    var l2 := v.LengthSquared();
    LengthSquaredZero(v);
    assert Mul(len, len) == l2;
    SquareNonNegative(len);
    if len > 0.0 {
      UnitAfterDivision(v.x, v.y, len);
    }
  }

  /** Dividing both components by the length leaves a vector of squared length 1. */
  lemma UnitAfterDivision(x: real, y: real, len: real)
    requires len > 0.0 && len * len == x * x + y * y
    ensures (x / len) * (x / len) + (y / len) * (y / len) == 1.0
    ensures Vector2(x / len, y / len).Scale(len) == Vector2(x, y)
  {
    var a, b := x / len, y / len;
    assert Mul(a, len) == x && Mul(b, len) == y;
    var q := a * a + b * b;
    var l2 := len * len;
    assert Mul(q, l2) == Mul(Mul(a, len), Mul(a, len)) + Mul(Mul(b, len), Mul(b, len));
    assert Mul(q, l2) == Mul(1.0, l2);
    SquareNonNegative(len);
    CancelFactor(q, 1.0, l2);
  }

  /** Scaling by s multiplies the squared length by s * s. */
  lemma ScaleLengthSquared(v: Vector2, s: real)
    ensures v.Scale(s).LengthSquared() == s * s * v.LengthSquared()
  {
    assert Mul(Mul(v.x, s), Mul(v.x, s)) + Mul(Mul(v.y, s), Mul(v.y, s))
        == Mul(Mul(s, s), Mul(v.x, v.x) + Mul(v.y, v.y));
  }

  /** The zero vector scales to itself. */
  lemma ScaleZero(s: real)
    ensures Zero.Scale(s) == Zero
  {
  }

  /** dot(a, b) */
  function Dot(a: Vector2, b: Vector2): real {
    a.x * b.x + a.y * b.y
  }

  /** d is what distance(a, b) returns: the length of b - a. */
  ghost predicate IsDistance(d: real, a: Vector2, b: Vector2) {
    b.Sub(a).IsLength(d)
  }

  /** The squared distance, which the collision test compares instead of the distance. */
  function DistanceSquared(a: Vector2, b: Vector2): (r: real)
    ensures r >= 0.0
  {
    b.Sub(a).LengthSquared()
  }

  /** b - a and a - b have the same squared length, so the squared distance
      does not depend on the order of the points. */
  lemma DistanceSquaredSymmetric(a: Vector2, b: Vector2)
    ensures b.Sub(a).LengthSquared() == a.Sub(b).LengthSquared()
    ensures DistanceSquared(a, b) == DistanceSquared(b, a)
  {
    NegatedSquare(b.x - a.x);
    NegatedSquare(b.y - a.y);
  }

  lemma NegatedSquare(a: real)
    ensures (-a) * (-a) == a * a
  {
  }

  /** Two points are at squared distance 0 exactly when they coincide. */
  lemma DistanceSquaredZero(a: Vector2, b: Vector2)
    ensures DistanceSquared(a, b) == 0.0 <==> a == b
  {
    SubSelf(a);
    SubIsZero(a, b);
    LengthSquaredZero(b.Sub(a));
  }

  lemma SubIsZero(a: Vector2, b: Vector2)
    ensures b.Sub(a) == Zero <==> a == b
  {
  }

  /** (a + b) - b == a */
  lemma AddSubCancel(a: Vector2, b: Vector2)
    ensures a.Add(b).Sub(b) == a
  {
  }

  /** (a - b) + b == a */
  lemma SubAddCancel(a: Vector2, b: Vector2)
    ensures a.Sub(b).Add(b) == a
  {
  }

  /** a - a is the zero vector. */
  lemma SubSelf(a: Vector2)
    ensures a.Sub(a) == Zero
  {
  }

  lemma DotSymmetric(a: Vector2, b: Vector2)
    ensures Dot(a, b) == Dot(b, a)
  {
  }

  /** distance is symmetric: any d that is the distance from a to b is the
      distance from b to a, and the distance is unique. */
  lemma DistanceSymmetric(d1: real, d2: real, a: Vector2, b: Vector2)
    requires IsDistance(d1, a, b) && IsDistance(d2, b, a)
    ensures d1 == d2
  {
    DistanceSquaredSymmetric(a, b);
    SqrtUnique(d1, d2, b.Sub(a).LengthSquared());
  }

  /** distance(a, a) == 0 */
  lemma DistanceToSelf(d: real, a: Vector2)
    requires IsDistance(d, a, a)
    ensures d == 0.0
  {
    SqrtUnique(d, 0.0, 0.0);
  }

  /** The source's test `distance(a, b) < ra + rb` agrees with the squared
      test `DistanceSquared(a, b) < (ra + rb)^2` whenever ra + rb >= 0. */
  lemma DistanceBelowIffSquared(d: real, a: Vector2, b: Vector2, s: real)
    requires IsDistance(d, a, b) && s >= 0.0
    ensures d < s <==> DistanceSquared(a, b) < s * s
  {
    SquareMonotone(d, s);
  }
}
