/** Three-component vectors over the reals: points, directions and colours.
    Every operation builds a new value; nothing is updated in place. */
module Vectors {

  /** `Vec3::new(e0, e1, e2)` is the constructor; `x`, `y`, `z` are `e[0]`, `e[1]`, `e[2]`. */
  datatype Vec3 = Vec3(x: real, y: real, z: real)

  type Point3 = Vec3

  const Zero: Vec3 := Vec3(0.0, 0.0, 0.0)
  const One: Vec3 := Vec3(1.0, 1.0, 1.0)

  /** The threshold below which a component counts as zero in `near_zero` (1e-8). */
  const NearZeroBound: real := 0.00000001

  /** A square-root function on the non-negative reals: the role of `f64::sqrt`. */
  ghost predicate IsSqrt(sqrt: real -> real) {
    forall x: real {:trigger sqrt(x)} :: x >= 0.0 ==> sqrt(x) >= 0.0 && sqrt(x) * sqrt(x) == x
  }

  /** Any two square-root functions agree on the non-negative reals, so nothing in
      the model depends on which one is passed in. */
  lemma SqrtUnique(sqrt1: real -> real, sqrt2: real -> real, x: real)
    requires IsSqrt(sqrt1) && IsSqrt(sqrt2) && x >= 0.0
    ensures sqrt1(x) == sqrt2(x)
  {
    SquareInjective(sqrt1(x), sqrt2(x));
  }

  /** The square root is monotone. */
  lemma SqrtMonotone(sqrt: real -> real, x: real, y: real)
    requires IsSqrt(sqrt) && 0.0 <= x <= y
    ensures sqrt(x) <= sqrt(y)
  {
    SquareOrderReflected(sqrt(x), sqrt(y));
  }

  /** Squaring is strictly increasing on the non-negative reals. */
  lemma SquareStrictlyIncreasing(a: real, b: real)
    requires 0.0 <= a < b
    ensures a * a < b * b
  {
    assert b * b - a * a == (b - a) * (b + a);
    MulPositive(b - a, b + a);
  }

  lemma MulPositive(a: real, b: real)
    requires a > 0.0 && b > 0.0
    ensures a * b > 0.0
  {
  }

  lemma SquareNonNegative(a: real)
    ensures a * a >= 0.0
  {
    if a != 0.0 { SquarePositive(a); }
  }

  lemma SquarePositive(a: real)
    requires a != 0.0
    ensures a * a > 0.0
  {
    if a > 0.0 {
      MulPositive(a, a);
    } else {
      MulPositive(-a, -a);
      assert (-a) * (-a) == a * a;
    }
  }

  lemma SquareOrderReflected(a: real, b: real)
    requires a >= 0.0 && b >= 0.0 && a * a <= b * b
    ensures a <= b
  {
    if b < a {
      SquareStrictlyIncreasing(b, a);
      assert false;
    }
  }

  /** A non-negative root of a non-zero square is positive. */
  lemma RootOfNonZero(r: real, s: real)
    requires r >= 0.0 && r * r == s && s != 0.0
    ensures r > 0.0
  {
    if r == 0.0 { assert false; }
  }

  lemma SquareInjective(a: real, b: real)
    requires a >= 0.0 && b >= 0.0 && a * a == b * b
    ensures a == b
  {
    SquareOrderReflected(a, b);
    SquareOrderReflected(b, a);
  }

  function Abs(r: real): (a: real)
    ensures a >= 0.0 && (a == r || a == -r)
  {
    if r < 0.0 then -r else r
  }

  function SqLen(v: Vec3): (r: real)
    ensures r >= 0.0
  {
    v.x * v.x + v.y * v.y + v.z * v.z
  }

  /** `len`: the Euclidean length through the square root. */
  function Len(v: Vec3, sqrt: real -> real): (r: real)
    requires IsSqrt(sqrt)
    ensures r >= 0.0 && r * r == SqLen(v)
  {
    sqrt(SqLen(v))
  }

  /** The length vanishes exactly when the squared length does. */
  lemma LenZero(v: Vec3, sqrt: real -> real)
    requires IsSqrt(sqrt)
    ensures Len(v, sqrt) == 0.0 <==> SqLen(v) == 0.0
    ensures SqLen(v) != 0.0 ==> Len(v, sqrt) > 0.0
  {
    var r := Len(v, sqrt);
    if SqLen(v) == 0.0 {
      SquareInjective(r, 0.0);
    } else {
      RootOfNonZero(r, SqLen(v));
    }
  }

  function Dot(a: Vec3, b: Vec3): real {
    a.x * b.x + a.y * b.y + a.z * b.z
  }

  function Cross(a: Vec3, b: Vec3): Vec3 {
    Vec3(a.y * b.z - a.z * b.y,
         a.z * b.x - a.x * b.z,
         a.x * b.y - a.y * b.x)
  }

  /** `self + other` */
  function Add(a: Vec3, b: Vec3): Vec3 {
    Vec3(a.x + b.x, a.y + b.y, a.z + b.z)
  }

  /** `self - other` */
  function Sub(a: Vec3, b: Vec3): Vec3 {
    Vec3(a.x - b.x, a.y - b.y, a.z - b.z)
  }

  /** `self - k` for a scalar `k` */
  function SubScalar(v: Vec3, k: real): Vec3 {
    Vec3(v.x - k, v.y - k, v.z - k)
  }

  /** `-self` */
  function Neg(v: Vec3): Vec3 {
    Vec3(-v.x, -v.y, -v.z)
  }

  /** `self * other`: the componentwise (Hadamard) product */
  function Mul(a: Vec3, b: Vec3): Vec3 {
    Vec3(a.x * b.x, a.y * b.y, a.z * b.z)
  }

  /** `self * k` for a scalar `k` */
  function Scale(v: Vec3, k: real): Vec3 {
    Vec3(k * v.x, k * v.y, k * v.z)
  }

  /** `self / k` for a scalar `k`; IEEE division by zero is not modelled. */
  function Div(v: Vec3, k: real): Vec3
    requires k != 0.0
  {
    Vec3(v.x / k, v.y / k, v.z / k)
  }

  /** `normalize`: `self / self.len()`; for a vector of non-zero length the result has
      unit length and points the same way. */
  function Normalize(v: Vec3, sqrt: real -> real): (n: Vec3)
    requires IsSqrt(sqrt) && SqLen(v) != 0.0
    ensures SqLen(n) == 1.0
    ensures Scale(n, Len(v, sqrt)) == v
  {
    LenZero(v, sqrt);
    var l := Len(v, sqrt);
    var n := Div(v, l);
    assert n == Scale(v, 1.0 / l);
    SqLenScale(v, 1.0 / l);
    assert (1.0 / l) * (1.0 / l) * (l * l) == 1.0;
    n
  }

  /** `near_zero`: every component is below 1e-8 in absolute value. */
  predicate NearZero(v: Vec3) {
    Abs(v.x) < NearZeroBound && Abs(v.y) < NearZeroBound && Abs(v.z) < NearZeroBound
  }

  lemma SqLenScale(v: Vec3, k: real)
    ensures SqLen(Scale(v, k)) == k * k * SqLen(v)
  {
    assert (k * v.x) * (k * v.x) == k * k * (v.x * v.x);
    assert (k * v.y) * (k * v.y) == k * k * (v.y * v.y);
    assert (k * v.z) * (k * v.z) == k * k * (v.z * v.z);
  }

  lemma AddSubCancel(a: Vec3, b: Vec3)
    ensures Sub(Add(a, b), b) == a
  {
  }

  lemma DotSymmetric(a: Vec3, b: Vec3)
    ensures Dot(a, b) == Dot(b, a)
  {
  }

  lemma DotSelf(v: Vec3)
    ensures Dot(v, v) == SqLen(v)
  {
  }

  lemma CrossOrthogonal(a: Vec3, b: Vec3)
    ensures Dot(Cross(a, b), a) == 0.0
    ensures Dot(Cross(a, b), b) == 0.0
  {
  }

  /** Lagrange's identity: `|a x b|^2 = |a|^2 |b|^2 - (a . b)^2`. */
  lemma CrossLength(a: Vec3, b: Vec3)
    ensures SqLen(Cross(a, b)) == SqLen(a) * SqLen(b) - Dot(a, b) * Dot(a, b)
  {
  }

  lemma CrossScale(a: Vec3, d: Vec3, k: real)
    ensures Cross(a, Scale(d, k)) == Scale(Cross(a, d), k)
  {
    assert a.y * (k * d.z) - a.z * (k * d.y) == k * (a.y * d.z - a.z * d.y);
    assert a.z * (k * d.x) - a.x * (k * d.z) == k * (a.z * d.x - a.x * d.z);
    assert a.x * (k * d.y) - a.y * (k * d.x) == k * (a.x * d.y - a.y * d.x);
  }

  lemma NegInvolution(v: Vec3)
    ensures Neg(Neg(v)) == v
    ensures Add(v, Neg(v)) == Zero
  {
  }

  lemma ScaleDivCancel(v: Vec3, k: real)
    requires k != 0.0
    ensures Div(Scale(v, k), k) == v
  {
  }

  /** The zero vector is near zero, and a near-zero vector is short. */
  lemma NearZeroFacts(v: Vec3)
    ensures NearZero(Zero)
    ensures NearZero(v) ==> SqLen(v) < 3.0 * NearZeroBound * NearZeroBound
    ensures !NearZero(v) ==> v != Zero
  {
    if NearZero(v) {
      AbsSquare(v.x);
      AbsSquare(v.y);
      AbsSquare(v.z);
    }
  }

  lemma AbsSquare(r: real)
    requires Abs(r) < NearZeroBound
    ensures r * r < NearZeroBound * NearZeroBound
  {
    var a := Abs(r);
    assert r * r == a * a;
    SquareStrictlyIncreasing(a, NearZeroBound);
  }

  /** Subtracting a scalar is subtracting the vector with that scalar in every component. */
  lemma SubScalarIsSub(v: Vec3, k: real)
    ensures SubScalar(v, k) == Sub(v, Vec3(k, k, k))
  {
  }

  lemma MulOneIdentity(v: Vec3)
    ensures Mul(v, One) == v
    ensures Mul(One, v) == v
  {
  }
}
