/**
 * Three-component vectors over the reals (src/vec3.rs). One type serves as
 * geometric vector, point and linear colour. Arithmetic is exact: f64
 * rounding, NaN and infinities are not modelled, and the square root is a
 * parameter `sqrt: real -> real` about which only `IsSqrt` may be assumed.
 */
module Vectors {

  datatype Vec3 = Vec3(x: real, y: real, z: real)

  type Point3 = Vec3
  type Color = Vec3

  /** The components in storage order, as the source's array `e`. */
  function Components(v: Vec3): seq<real>
  {
    [v.x, v.y, v.z]
  }

  function Zero(): Vec3
  {
    Vec3(0.0, 0.0, 0.0)
  }

  /** `sqrt` behaves as the non-negative square root on non-negative reals. */
  ghost predicate IsSqrt(sqrt: real -> real)
  {
    forall x: real :: 0.0 <= x ==> 0.0 <= sqrt(x) && sqrt(x) * sqrt(x) == x
  }

  // ---------------------------------------------------------------------
  // Operators (`Add`, `Sub`, `Neg`, `Mul<f64>`, `Div<f64>`, `Mul<Vec3>`,
  // `Div<Vec3>`): each writes the three components of a by-value copy.
  // ---------------------------------------------------------------------

  function Add(a: Vec3, b: Vec3): Vec3
  {
    Vec3(a.x + b.x, a.y + b.y, a.z + b.z)
  }

  function Sub(a: Vec3, b: Vec3): Vec3
  {
    Vec3(a.x - b.x, a.y - b.y, a.z - b.z)
  }

  function Neg(a: Vec3): Vec3
  {
    Vec3(-a.x, -a.y, -a.z)
  }

  /** `Mul<f64>`: scaling by a real. */
  function Scale(a: Vec3, k: real): Vec3
  {
    Vec3(a.x * k, a.y * k, a.z * k)
  }

  /** `Div<f64>`; a zero divisor gives infinities or NaN in the source. */
  function DivScalar(a: Vec3, k: real): Vec3
    requires k != 0.0
  {
    Vec3(a.x / k, a.y / k, a.z / k)
  }

  /** `Mul<Vec3>`: the componentwise (Hadamard) product, used on colours. */
  function Mul(a: Vec3, b: Vec3): Vec3
  {
    Vec3(a.x * b.x, a.y * b.y, a.z * b.z)
  }

  /** `Div<Vec3>`: componentwise quotient. */
  function Div(a: Vec3, b: Vec3): Vec3
    requires b.x != 0.0 && b.y != 0.0 && b.z != 0.0
  {
    Vec3(a.x / b.x, a.y / b.y, a.z / b.z)
  }

  function Dot(a: Vec3, b: Vec3): real
  {
    a.x * b.x + a.y * b.y + a.z * b.z
  }

  function Cross(a: Vec3, b: Vec3): Vec3
  {
    Vec3(a.y * b.z - a.z * b.y,
         a.z * b.x - a.x * b.z,
         a.x * b.y - a.y * b.x)
  }

  // ---------------------------------------------------------------------
  // Length, degeneracy and reflection
  // ---------------------------------------------------------------------

  /** Sum of the squares of a sequence, added left to right from 0. */
  function SumOfSquares(s: seq<real>): (r: real)
    ensures 0.0 <= r
  {
    if s == [] then 0.0 else SumOfSquares(s[..|s| - 1]) + s[|s| - 1] * s[|s| - 1]
  }

  /** `length_squared`: the squares of the components, summed. */
  function LengthSquared(v: Vec3): (r: real)
    ensures r == Dot(v, v)
    ensures 0.0 <= r
  {
    SumOfSquaresOfThree(v.x, v.y, v.z);
    SumOfSquares(Components(v))
  }

  lemma SumOfSquaresOfThree(a: real, b: real, c: real)
    ensures SumOfSquares([a, b, c]) == a * a + b * b + c * c
  {
    assert [a, b, c][..2] == [a, b];
    assert [a, b][..1] == [a];
    assert [a][..0] == [];
    assert SumOfSquares([a]) == a * a;
    assert SumOfSquares([a, b]) == a * a + b * b;
  }

  function Length(v: Vec3, sqrt: real -> real): real
  {
    sqrt(LengthSquared(v))
  }

  function Abs(x: real): real
  {
    if x < 0.0 then -x else x
  }

  const NearZeroEpsilon: real := 0.00000001

  /** True when every element of `s` has absolute value below `eps`. */
  predicate AllBelow(s: seq<real>, eps: real)
  {
    forall i | 0 <= i < |s| :: Abs(s[i]) < eps
  }

  /** `near_zero`: every component is below 1e-8 in absolute value. */
  predicate NearZero(v: Vec3)
    ensures NearZero(v) <==>
              Abs(v.x) < NearZeroEpsilon && Abs(v.y) < NearZeroEpsilon && Abs(v.z) < NearZeroEpsilon
  {
    var s := Components(v);
    assert s[0] == v.x && s[1] == v.y && s[2] == v.z;
    AllBelow(s, NearZeroEpsilon)
  }

  /** `reflect`: mirror `v` about the plane whose normal is `n`. */
  function Reflect(v: Vec3, n: Vec3): Vec3
  {
    Sub(v, Scale(n, Dot(v, n) * 2.0))
  }

  /**
   * `normalize`: divide by the length. A vector whose length is zero makes
   * the source divide by zero (NaN components); here it is returned as is.
   */
  function Normalize(v: Vec3, sqrt: real -> real): Vec3
  {
    var l := Length(v, sqrt);
    if l == 0.0 then v else DivScalar(v, l)
  }

  /**
   * `refract`: the source normalises `v` first, then splits the refracted
   * direction into the parts perpendicular and parallel to `n`.
   */
  function Refract(v: Vec3, n: Vec3, etaiOverEtat: real, sqrt: real -> real): Vec3
  {
    var unit := Normalize(v, sqrt);
    var cosTheta := -Dot(unit, n);
    var perp := Scale(Add(unit, Scale(n, cosTheta)), etaiOverEtat);
    var parallel := Scale(Neg(n), sqrt(1.0 - LengthSquared(perp)));
    Add(perp, parallel)
  }

  // ---------------------------------------------------------------------
  // Random constructors, with the draws of `random::<f64>()` as inputs
  // ---------------------------------------------------------------------

  /** `linearmap`: send a draw in [0,1) to [min,max). */
  function LinearMap(val: real, min: real, max: real): (r: real)
    ensures 0.0 <= val < 1.0 && min < max ==> min <= r < max
  {
    if 0.0 <= val < 1.0 && min < max then
      DrawMapsAbove(val, min, max);
      DrawMapsBelow(val, min, max);
      val * (max - min) + min
    else
      val * (max - min) + min
  }

  lemma DrawMapsBelow(val: real, lo: real, hi: real)
    requires 0.0 <= val < 1.0 && lo < hi
    ensures val * (hi - lo) + lo < hi
  {
    calc {
      hi - (val * (hi - lo) + lo);
      (1.0 - val) * (hi - lo);
    > { PositiveProduct(1.0 - val, hi - lo); }
      0.0;
    }
  }

  lemma DrawMapsAbove(val: real, lo: real, hi: real)
    requires 0.0 <= val < 1.0 && lo < hi
    ensures lo <= val * (hi - lo) + lo
  {
    NonNegativeProduct(val, hi - lo);
  }

  lemma NonNegativeProduct(a: real, b: real)
    requires 0.0 <= a && 0.0 <= b
    ensures 0.0 <= a * b
  {
  }

  lemma PositiveProduct(a: real, b: real)
    requires 0.0 < a && 0.0 < b
    ensures 0.0 < a * b
  {
  }

  /** Products of non-negative reals grow with their factors. */
  lemma ProductMonotone(a: real, b: real, p: real, q: real)
    requires 0.0 <= a <= b && 0.0 <= p <= q
    ensures a * p <= b * q
  {
    NonNegativeProduct(b, q - p);
    NonNegativeProduct(p, b - a);
    assert b * q - a * p == b * (q - p) + p * (b - a);
  }

  /**
   * `Vec3::random`: the three draws, in order, as the components; the same
   * vector `random_in_range(0, 1)` gives for those draws.
   */
  function RandomVec(d0: real, d1: real, d2: real): (v: Vec3)
    ensures v == RandomInRange(d0, d1, d2, 0.0, 1.0)
    ensures 0.0 <= d0 < 1.0 && 0.0 <= d1 < 1.0 && 0.0 <= d2 < 1.0 ==> InUnitCube(v) && v.x < 1.0 && v.y < 1.0 && v.z < 1.0
  {
    Vec3(d0, d1, d2)
  }

  /** `Vec3::random_in_range`: each draw mapped to [min,max). */
  function RandomInRange(d0: real, d1: real, d2: real, min: real, max: real): (v: Vec3)
    ensures 0.0 <= d0 < 1.0 && 0.0 <= d1 < 1.0 && 0.0 <= d2 < 1.0 && min < max ==>
              min <= v.x < max && min <= v.y < max && min <= v.z < max
  {
    Vec3(LinearMap(d0, min, max), LinearMap(d1, min, max), LinearMap(d2, min, max))
  }

  // ---------------------------------------------------------------------
  // `Sum`: a left fold of `Add` starting from the zero vector
  // ---------------------------------------------------------------------

  function Sum(vs: seq<Vec3>): Vec3
  {
    if vs == [] then Zero() else Add(Sum(vs[..|vs| - 1]), vs[|vs| - 1])
  }

  // ---------------------------------------------------------------------
  // `AddAssign` / `MulAssign`: in-place updates of a mutable place
  // ---------------------------------------------------------------------

  /** A mutable `Vec3` place, the target of `+=` and `*=`. */
  class Vec3Place {
    var value: Vec3

    constructor (v: Vec3)
      ensures value == v
    {
      value := v;
    }

    method AddAssign(other: Vec3)
      modifies this
      ensures value == Add(old(value), other)
    {
      value := Vec3(value.x + other.x, value.y + other.y, value.z + other.z);
    }

    method MulAssign(k: real)
      modifies this
      ensures value == Scale(old(value), k)
    {
      value := Vec3(value.x * k, value.y * k, value.z * k);
    }
  }

  // ---------------------------------------------------------------------
  // Algebraic identities
  // ---------------------------------------------------------------------

  lemma SubIsAddNeg(a: Vec3, b: Vec3)
    ensures Sub(a, b) == Add(a, Neg(b))
  {
  }

  lemma NegInvolutive(a: Vec3)
    ensures Neg(Neg(a)) == a
  {
  }

  lemma AddCommutesAndAssociates(a: Vec3, b: Vec3, c: Vec3)
    ensures Add(a, b) == Add(b, a)
    ensures Add(Add(a, b), c) == Add(a, Add(b, c))
    ensures Add(a, Zero()) == a && Add(Zero(), a) == a
  {
  }

  lemma DivUndoesMul(a: Vec3, b: Vec3)
    requires b.x != 0.0 && b.y != 0.0 && b.z != 0.0
    ensures Div(Mul(a, b), b) == a
    ensures Mul(Div(a, b), b) == a
  {
  }

  lemma DivScalarUndoesScale(a: Vec3, k: real)
    requires k != 0.0
    ensures DivScalar(Scale(a, k), k) == a
    ensures DivScalar(a, k) == Scale(a, 1.0 / k)
  {
  }

  /** Dividing by k undoes scaling by k. */
  lemma DivScalarExact(v: Vec3, k: real, w: Vec3)
    requires k != 0.0 && Scale(w, k) == v
    ensures DivScalar(v, k) == w
  {
    DivScalarUndoesScale(w, k);
  }

  lemma DotSymmetric(a: Vec3, b: Vec3)
    ensures Dot(a, b) == Dot(b, a)
  {
  }

  /** Dot is linear in its first argument. */
  lemma DotLinear(a: Vec3, b: Vec3, c: Vec3, k: real)
    ensures Dot(Add(a, b), c) == Dot(a, c) + Dot(b, c)
    ensures Dot(Sub(a, b), c) == Dot(a, c) - Dot(b, c)
    ensures Dot(Scale(a, k), c) == k * Dot(a, c)
    ensures Dot(Neg(a), c) == -Dot(a, c)
  {
  }

  lemma CrossOrthogonal(a: Vec3, b: Vec3)
    ensures Dot(Cross(a, b), a) == 0.0
    ensures Dot(Cross(a, b), b) == 0.0
  {
  }

  lemma CrossAntiCommutative(a: Vec3, b: Vec3)
    ensures Cross(b, a) == Neg(Cross(a, b))
  {
  }

  /** Lagrange's identity: |a x b|^2 = |a|^2 |b|^2 - (a.b)^2. */
  lemma CrossLengthSquared(a: Vec3, b: Vec3)
    ensures LengthSquared(Cross(a, b)) == LengthSquared(a) * LengthSquared(b) - Dot(a, b) * Dot(a, b)
  {
    var c := Cross(a, b);
    assert c.x * c.x == a.y * a.y * b.z * b.z - 2.0 * a.y * b.z * a.z * b.y + a.z * a.z * b.y * b.y;
    assert c.y * c.y == a.z * a.z * b.x * b.x - 2.0 * a.z * b.x * a.x * b.z + a.x * a.x * b.z * b.z;
    assert c.z * c.z == a.x * a.x * b.y * b.y - 2.0 * a.x * b.y * a.y * b.x + a.y * a.y * b.x * b.x;
    var d := Dot(a, b);
    assert d * d == a.x * b.x * a.x * b.x + a.y * b.y * a.y * b.y + a.z * b.z * a.z * b.z
                    + 2.0 * a.x * b.x * a.y * b.y + 2.0 * a.x * b.x * a.z * b.z + 2.0 * a.y * b.y * a.z * b.z;
    var lb := LengthSquared(b);
    Distribute(a.x * a.x, a.y * a.y, a.z * a.z, lb);
    Distribute(b.x * b.x, b.y * b.y, b.z * b.z, a.x * a.x);
    Distribute(b.x * b.x, b.y * b.y, b.z * b.z, a.y * a.y);
    Distribute(b.x * b.x, b.y * b.y, b.z * b.z, a.z * a.z);
    assert LengthSquared(a) * LengthSquared(b)
        == a.x * a.x * b.x * b.x + a.x * a.x * b.y * b.y + a.x * a.x * b.z * b.z
         + a.y * a.y * b.x * b.x + a.y * a.y * b.y * b.y + a.y * a.y * b.z * b.z
         + a.z * a.z * b.x * b.x + a.z * a.z * b.y * b.y + a.z * a.z * b.z * b.z;
  }

  lemma Distribute(p: real, q: real, r: real, k: real)
    ensures (p + q + r) * k == p * k + q * k + r * k
    ensures k * (p + q + r) == k * p + k * q + k * r
  {
  }

  lemma LengthSquaredOfScale(v: Vec3, k: real)
    ensures LengthSquared(Scale(v, k)) == k * k * LengthSquared(v)
  {
    calc {
      LengthSquared(Scale(v, k));
      (v.x * k) * (v.x * k) + (v.y * k) * (v.y * k) + (v.z * k) * (v.z * k);
      k * k * (v.x * v.x + v.y * v.y + v.z * v.z);
    }
  }

  lemma LengthSquaredPositive(v: Vec3)
    requires v != Zero()
    ensures 0.0 < LengthSquared(v)
  {
    calc {
      LengthSquared(v);
      v.x * v.x + v.y * v.y + v.z * v.z;
    > { SquaresPositive(v.x, v.y, v.z); }
      0.0;
    }
  }

  lemma SquaresPositive(a: real, b: real, c: real)
    requires a != 0.0 || b != 0.0 || c != 0.0
    ensures 0.0 < a * a + b * b + c * c
  {
    SquareNonNegative(a);
    SquareNonNegative(b);
    SquareNonNegative(c);
    if a != 0.0 {
      SquarePositive(a);
    } else if b != 0.0 {
      SquarePositive(b);
    } else {
      SquarePositive(c);
    }
  }

  lemma SquarePositive(a: real)
    requires a != 0.0
    ensures 0.0 < a * a
  {
    if a < 0.0 {
      PositiveProduct(-a, -a);
    }
  }

  lemma SquareNonNegative(a: real)
    ensures 0.0 <= a * a
  {
    if a < 0.0 {
      NonNegativeProduct(-a, -a);
    } else {
      NonNegativeProduct(a, a);
    }
  }

  /** A near-zero vector has squared length below 3e-16. */
  lemma NearZeroIsShort(v: Vec3)
    requires NearZero(v)
    ensures LengthSquared(v) < 3.0 * NearZeroEpsilon * NearZeroEpsilon
  {
    SquareBelow(v.x, NearZeroEpsilon);
    SquareBelow(v.y, NearZeroEpsilon);
    SquareBelow(v.z, NearZeroEpsilon);
  }

  lemma SquareBelow(a: real, eps: real)
    requires Abs(a) < eps
    ensures a * a < eps * eps
  {
    var b := Abs(a);
    calc {
      a * a;
      b * b;
    <= { NonNegativeProduct(b, eps - b); }
      b * eps;
    < { PositiveProduct(eps - b, eps); }
      eps * eps;
    }
  }

  /** With a unit normal, reflection negates the normal component. */
  lemma ReflectFlipsNormalComponent(v: Vec3, n: Vec3)
    requires Dot(n, n) == 1.0
    ensures Dot(Reflect(v, n), n) == -Dot(v, n)
  {
    var d := Dot(v, n);
    DotLinear(v, Scale(n, d * 2.0), n, d * 2.0);
    DotLinear(n, n, n, d * 2.0);
    assert Dot(Scale(n, d * 2.0), n) == d * 2.0 * Dot(n, n);
  }

  /** With a unit normal, reflecting twice gives back the original vector. */
  lemma ReflectInvolutive(v: Vec3, n: Vec3)
    requires Dot(n, n) == 1.0
    ensures Reflect(Reflect(v, n), n) == v
  {
    ReflectFlipsNormalComponent(v, n);
  }

  /** With a unit normal, reflection preserves length. */
  lemma ReflectPreservesLength(v: Vec3, n: Vec3)
    requires Dot(n, n) == 1.0
    ensures LengthSquared(Reflect(v, n)) == LengthSquared(v)
  {
    var d := Dot(v, n);
    var w := Scale(n, d * 2.0);
    assert Dot(w, w) == 4.0 * d * d * Dot(n, n) by {
      LengthSquaredOfScale(n, d * 2.0);
    }
    assert Dot(v, w) == 2.0 * d * d;
    calc {
      LengthSquared(Reflect(v, n));
      Dot(Sub(v, w), Sub(v, w));
      Dot(v, v) - 2.0 * Dot(v, w) + Dot(w, w);
      Dot(v, v);
    }
  }

  /** Given a true square root, normalising a non-zero vector gives a unit vector. */
  lemma NormalizeIsUnit(v: Vec3, sqrt: real -> real)
    requires IsSqrt(sqrt)
    requires v != Zero()
    ensures LengthSquared(Normalize(v, sqrt)) == 1.0
  {
    var ls := LengthSquared(v);
    LengthSquaredPositive(v);
    var l := sqrt(ls);
    assert l * l == ls && l >= 0.0;
    assert l != 0.0;
    assert Normalize(v, sqrt) == Scale(v, 1.0 / l);
    LengthSquaredOfScale(v, 1.0 / l);
    assert (1.0 / l) * (1.0 / l) * ls == (l * l) / (l * l);
  }

  /** Given a true square root, every component of a normalised vector lies in [-1,1]. */
  lemma NormalizeComponentsBounded(v: Vec3, sqrt: real -> real)
    requires IsSqrt(sqrt)
    ensures var u := Normalize(v, sqrt);
      -1.0 <= u.x <= 1.0 && -1.0 <= u.y <= 1.0 && -1.0 <= u.z <= 1.0
  {
    var u := Normalize(v, sqrt);
    if v == Zero() {
      NormalizeZero(sqrt);
    } else {
      NormalizeIsUnit(v, sqrt);
      UnitComponentsBounded(u);
    }
  }

  lemma NormalizeZero(sqrt: real -> real)
    ensures Normalize(Zero(), sqrt) == Zero()
  {
    var l := Length(Zero(), sqrt);
    if l != 0.0 {
      assert 0.0 / l == 0.0;
    }
  }

  lemma UnitComponentsBounded(u: Vec3)
    requires LengthSquared(u) == 1.0
    ensures -1.0 <= u.x <= 1.0 && -1.0 <= u.y <= 1.0 && -1.0 <= u.z <= 1.0
  {
    SquareNonNegative(u.x);
    SquareNonNegative(u.y);
    SquareNonNegative(u.z);
    PartsOfOne(u.x * u.x, u.y * u.y, u.z * u.z);
    SquareAtMostOne(u.x);
    SquareAtMostOne(u.y);
    SquareAtMostOne(u.z);
  }

  /** Every component lies in [0,1], as colours and attenuations do. */
  predicate InUnitCube(c: Vec3)
  {
    0.0 <= c.x <= 1.0 && 0.0 <= c.y <= 1.0 && 0.0 <= c.z <= 1.0
  }

  /** The componentwise product of two colours in the unit cube stays in it. */
  lemma MulInUnitCube(a: Vec3, b: Vec3)
    requires InUnitCube(a) && InUnitCube(b)
    ensures InUnitCube(Mul(a, b))
  {
    ProductMonotone(a.x, 1.0, b.x, 1.0);
    ProductMonotone(a.y, 1.0, b.y, 1.0);
    ProductMonotone(a.z, 1.0, b.z, 1.0);
    NonNegativeProduct(a.x, b.x);
    NonNegativeProduct(a.y, b.y);
    NonNegativeProduct(a.z, b.z);
  }

  /** Cauchy-Schwarz for unit vectors: their dot product lies in [-1,1]. */
  lemma UnitDotBounded(a: Vec3, b: Vec3)
    requires Dot(a, a) == 1.0 && Dot(b, b) == 1.0
    ensures -1.0 <= Dot(a, b) <= 1.0
  {
    var sum := Add(a, b);
    var diff := Sub(a, b);
    assert 0.0 <= LengthSquared(sum) && 0.0 <= LengthSquared(diff);
    assert Dot(sum, sum) == Dot(a, a) + 2.0 * Dot(a, b) + Dot(b, b);
    assert Dot(diff, diff) == Dot(a, a) - 2.0 * Dot(a, b) + Dot(b, b);
  }

  lemma PartsOfOne(p: real, q: real, r: real)
    requires 0.0 <= p && 0.0 <= q && 0.0 <= r && p + q + r == 1.0
    ensures p <= 1.0 && q <= 1.0 && r <= 1.0
  {
  }

  lemma SquareAtMostOne(a: real)
    requires a * a <= 1.0
    ensures -1.0 <= a <= 1.0
  {
  }

  /** `Sum` of nothing is the zero vector; one more element adds it on the right. */
  lemma SumBase(vs: seq<Vec3>, v: Vec3)
    ensures Sum([]) == Zero()
    ensures Sum(vs + [v]) == Add(Sum(vs), v)
  {
    assert (vs + [v])[..|vs|] == vs;
  }

  /** `Sum` splits over concatenation, so partial sums may be combined in any grouping. */
  lemma {:induction false} SumConcat(a: seq<Vec3>, b: seq<Vec3>)
    ensures Sum(a + b) == Add(Sum(a), Sum(b))
    decreases |b|
  {
    if b == [] {
      assert a + b == a;
    } else {
      var b' := b[..|b| - 1];
      var last := b[|b| - 1];
      assert a + b == (a + b') + [last];
      SumBase(a + b', last);
      SumBase(b', last);
      assert b == b' + [last];
      SumConcat(a, b');
    }
  }

  /** Summing two blocks of samples in either order gives the same total. */
  lemma SumCommutes(a: seq<Vec3>, b: seq<Vec3>)
    ensures Sum(a + b) == Sum(b + a)
  {
    SumConcat(a, b);
    SumConcat(b, a);
  }

  /** `Sum` acts on each component independently. */
  lemma {:induction false} SumComponents(vs: seq<Vec3>)
    ensures Sum(vs).x == SumX(vs) && Sum(vs).y == SumY(vs) && Sum(vs).z == SumZ(vs)
  {
    if vs != [] {
      SumComponents(vs[..|vs| - 1]);
    }
  }

  function SumX(vs: seq<Vec3>): real
  {
    if vs == [] then 0.0 else SumX(vs[..|vs| - 1]) + vs[|vs| - 1].x
  }

  function SumY(vs: seq<Vec3>): real
  {
    if vs == [] then 0.0 else SumY(vs[..|vs| - 1]) + vs[|vs| - 1].y
  }

  function SumZ(vs: seq<Vec3>): real
  {
    if vs == [] then 0.0 else SumZ(vs[..|vs| - 1]) + vs[|vs| - 1].z
  }
}
