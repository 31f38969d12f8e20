/** Three-component vectors and the operators the renderer builds on
    (src/raytracer/vector.rs). Every operation works on copied values. */
module Vectors {
  import opened Numerics

  datatype Vec3 = Vec3(x: real, y: real, z: real)

  function Zero(): Vec3 {
    Vec3(0.0, 0.0, 0.0)
  }

  /** Component-wise product. */
  function Hadamard(a: Vec3, b: Vec3): Vec3 {
    Vec3(a.x * b.x, a.y * b.y, a.z * b.z)
  }

  function Dot(a: Vec3, b: Vec3): real {
    a.x * b.x + a.y * b.y + a.z * b.z
  }

  function Cross(a: Vec3, b: Vec3): Vec3 {
    Vec3(a.y * b.z - a.z * b.y,
         a.z * b.x - a.x * b.z,
         a.x * b.y - a.y * b.x)
  }

  /** The squared length is the vector's dot product with itself, and is
      never negative. */
  function LengthSquared(v: Vec3): (r: real)
    ensures r >= 0.0
  {
    SquareSign(v.x);
    SquareSign(v.y);
    SquareSign(v.z);
    Dot(v, v)
  }

  function Length(m: MathLib, v: Vec3): real {
    m.sqrt(LengthSquared(v))
  }

  /** The input itself when its length is exactly zero, otherwise the input
      divided by its length. */
  function Normalize(m: MathLib, v: Vec3): (r: Vec3)
    ensures v == Zero() ==> r == Zero()
  {
    var len := Length(m, v);
    if len == 0.0 then v else Div(v, len)
  }

  /** `v - n * 2.0 * v.dot(n)`: mirror `v` about the plane with normal `n`. */
  function Reflect(v: Vec3, n: Vec3): Vec3 {
    Sub(v, Scale(Scale(n, 2.0), Dot(v, n)))
  }

  function Add(a: Vec3, b: Vec3): Vec3 {
    Vec3(a.x + b.x, a.y + b.y, a.z + b.z)
  }

  function Sub(a: Vec3, b: Vec3): Vec3 {
    Vec3(a.x - b.x, a.y - b.y, a.z - b.z)
  }

  function Neg(a: Vec3): Vec3 {
    Vec3(-a.x, -a.y, -a.z)
  }

  /** `Vec3 * Float`. */
  function Scale(a: Vec3, s: real): Vec3 {
    Vec3(a.x * s, a.y * s, a.z * s)
  }

  /** `Float * Vec3`, which the source defines as `rhs * self`. */
  function ScaleLeft(s: real, a: Vec3): Vec3 {
    Scale(a, s)
  }

  /** `Vec3 / Float`. A zero divisor gives infinities in `f32`, which reals
      do not have; every caller in the renderer divides by a non-zero value. */
  function Div(a: Vec3, s: real): Vec3
    requires s != 0.0
  {
    Vec3(a.x / s, a.y / s, a.z / s)
  }

  /** `v[i]`; any index other than 0, 1, 2 panics in the source. */
  function Component(v: Vec3, i: nat): real
    requires i < 3
  {
    match i
    case 0 => v.x
    case 1 => v.y
    case 2 => v.z
  }

  /** `v[i] = value` through `IndexMut`, as a functional update. */
  function WithComponent(v: Vec3, i: nat, value: real): (r: Vec3)
    requires i < 3
    ensures Component(r, i) == value
    ensures forall j: nat :: j < 3 && j != i ==> Component(r, j) == Component(v, j)
  {
    match i
    case 0 => v.(x := value)
    case 1 => v.(y := value)
    case 2 => v.(z := value)
  }

  /** `From<[Float; 3]> for Vec3`. */
  function FromArray(a: seq<real>): Vec3
    requires |a| == 3
  {
    Vec3(a[0], a[1], a[2])
  }

  /** `From<Vec3> for [Float; 3]`. */
  function ToArray(v: Vec3): (a: seq<real>)
    ensures |a| == 3
  {
    [v.x, v.y, v.z]
  }

  // ---------------------------------------------------------------------
  // Algebraic facts

  /** Only the zero vector has squared length zero. */
  lemma LengthSquaredZero(v: Vec3)
    ensures LengthSquared(v) == 0.0 <==> v == Zero()
  {
    SquareSign(v.x);
    SquareSign(v.y);
    SquareSign(v.z);
  }

  lemma DotSymmetric(a: Vec3, b: Vec3)
    ensures Dot(a, b) == Dot(b, a)
    ensures LengthSquared(a) == Dot(a, a)
  {
  }

  /** The component-wise product multiplies matching components, is
      symmetric, has the all-ones vector as identity and the zero vector
      as absorbing element, and its components sum to the dot product. */
  lemma HadamardLaws(a: Vec3, b: Vec3)
    ensures forall i: nat :: i < 3 ==> Component(Hadamard(a, b), i) == Component(a, i) * Component(b, i)
    ensures Hadamard(a, b) == Hadamard(b, a)
    ensures Hadamard(a, Vec3(1.0, 1.0, 1.0)) == a
    ensures Hadamard(a, Zero()) == Zero()
    ensures var h := Hadamard(a, b); h.x + h.y + h.z == Dot(a, b)
  {
  }

  lemma SubIsAddNeg(v: Vec3, w: Vec3)
    ensures Sub(v, w) == Add(v, Neg(w))
    ensures ScaleLeft(2.0, v) == Scale(v, 2.0)
  {
  }

  /** The cross product is orthogonal to both factors. */
  lemma CrossOrthogonal(a: Vec3, b: Vec3)
    ensures Dot(a, Cross(a, b)) == 0.0
    ensures Dot(b, Cross(a, b)) == 0.0
  {
  }

  /** Scaling commutes with the dot product in either argument. */
  lemma DotScale(a: Vec3, b: Vec3, s: real)
    ensures Dot(Scale(a, s), b) == s * Dot(a, b)
    ensures Dot(a, Scale(b, s)) == s * Dot(a, b)
  {
  }

  lemma DotAdd(a: Vec3, b: Vec3, c: Vec3)
    ensures Dot(Add(a, b), c) == Dot(a, c) + Dot(b, c)
    ensures Dot(Sub(a, b), c) == Dot(a, c) - Dot(b, c)
  {
  }

  /** Under the library laws, the length is the non-negative square root of
      the squared length, and is zero only for the zero vector. */
  lemma LengthLaws(m: MathLib, v: Vec3)
    requires Lawful(m)
    ensures Length(m, v) >= 0.0
    ensures Length(m, v) * Length(m, v) == LengthSquared(v)
    ensures Length(m, v) == 0.0 <==> v == Zero()
  {
    var ls := LengthSquared(v);
    SqrtLaws(m, ls);
    assert Length(m, v) == m.sqrt(ls);
    LengthSquaredZero(v);
    assert ls == 0.0 <==> v == Zero();
  }

  /** A non-zero vector normalizes to a positive multiple of itself. */
  lemma NormalizeIsPositiveMultiple(m: MathLib, v: Vec3)
    requires Lawful(m)
    requires v != Zero()
    ensures Length(m, v) > 0.0
    ensures Normalize(m, v) == Scale(v, 1.0 / Length(m, v))
  {
    LengthLaws(m, v);
    var len := Length(m, v);
    var k := 1.0 / len;
    assert v.x / len == v.x * k;
    assert v.y / len == v.y * k;
    assert v.z / len == v.z * k;
  }

  /** Scaling by k scales the squared length by k*k. */
  lemma LengthSquaredScale(v: Vec3, k: real)
    ensures LengthSquared(Scale(v, k)) == (k * k) * LengthSquared(v)
  {
    ScaledSquare(v.x, k);
    ScaledSquare(v.y, k);
    ScaledSquare(v.z, k);
    assert LengthSquared(Scale(v, k)) == (v.x * k) * (v.x * k) + (v.y * k) * (v.y * k) + (v.z * k) * (v.z * k);
    assert LengthSquared(v) == v.x * v.x + v.y * v.y + v.z * v.z;
  }

  lemma ScaledSquare(x: real, k: real)
    ensures (x * k) * (x * k) == (k * k) * (x * x)
  {
  }

  lemma InverseSquare(len: real, ls: real)
    requires len > 0.0 && len * len == ls
    ensures ((1.0 / len) * (1.0 / len)) * ls == 1.0
  {
    var k := 1.0 / len;
    assert k * len == 1.0;
    assert (k * k) * (len * len) == (k * len) * (k * len);
  }

  /** A non-zero vector normalizes to unit length. */
  lemma NormalizeUnit(m: MathLib, v: Vec3)
    requires Lawful(m)
    requires v != Zero()
    ensures LengthSquared(Normalize(m, v)) == 1.0
    ensures Length(m, Normalize(m, v)) == 1.0
  {
    NormalizeIsPositiveMultiple(m, v);
    LengthLaws(m, v);
    var len := Length(m, v);
    var k := 1.0 / len;
    var ls := LengthSquared(v);
    LengthSquaredScale(v, k);
    InverseSquare(len, ls);
    assert LengthSquared(Normalize(m, v)) == 1.0;
    SqrtOfSquare(m, 1.0);
  }

  /** A vector of unit length normalizes to itself. */
  lemma NormalizeUnitVector(m: MathLib, v: Vec3)
    requires Lawful(m)
    requires LengthSquared(v) == 1.0
    ensures Normalize(m, v) == v
  {
    SqrtOfSquare(m, 1.0);
    assert Length(m, v) == 1.0;
  }

  /** Reflecting about a unit normal negates the component along it. */
  lemma ReflectDot(v: Vec3, n: Vec3)
    requires LengthSquared(n) == 1.0
    ensures Dot(Reflect(v, n), n) == -Dot(v, n)
  {
    var d := Dot(v, n);
    var w := Scale(Scale(n, 2.0), d);
    DotScale(Scale(n, 2.0), n, d);
    DotScale(n, n, 2.0);
    assert Dot(w, n) == d * (2.0 * 1.0);
    DotAdd(v, w, n);
  }

  /** Reflecting twice about the same unit normal gives back the vector. */
  lemma ReflectTwice(v: Vec3, n: Vec3)
    requires LengthSquared(n) == 1.0
    ensures Reflect(Reflect(v, n), n) == v
  {
    var r := Reflect(v, n);
    ReflectDot(v, n);
    var d := Dot(v, n);
    assert Dot(r, n) == -d;
    assert Reflect(r, n) == Sub(r, Scale(Scale(n, 2.0), -d));
    assert Sub(r, Scale(Scale(n, 2.0), -d)) == Add(r, Scale(Scale(n, 2.0), d));
  }

  lemma ComponentsRoundTrip(v: Vec3, a: seq<real>)
    requires |a| == 3
    ensures FromArray(ToArray(v)) == v
    ensures ToArray(FromArray(a)) == a
    ensures Component(v, 0) == v.x && Component(v, 1) == v.y && Component(v, 2) == v.z
  {
  }

  /** The values the source's unit test checks for the operators. */
  lemma OperatorExamples(m: MathLib)
    requires Lawful(m)
    ensures Add(Vec3(1.0, 2.0, 3.0), Vec3(4.0, 5.0, 6.0)) == Vec3(5.0, 7.0, 9.0)
    ensures Sub(Vec3(4.0, 5.0, 6.0), Vec3(1.0, 2.0, 3.0)) == Vec3(3.0, 3.0, 3.0)
    ensures Neg(Vec3(1.0, 2.0, 3.0)) == Vec3(-1.0, -2.0, -3.0)
    ensures ScaleLeft(2.0, Vec3(1.0, 2.0, 3.0)) == Vec3(2.0, 4.0, 6.0)
    ensures Div(Vec3(4.0, 5.0, 6.0), 2.0) == Vec3(2.0, 2.5, 3.0)
    ensures Dot(Vec3(1.0, 2.0, 3.0), Vec3(4.0, 5.0, 6.0)) == 32.0
    ensures Cross(Vec3(1.0, 2.0, 3.0), Vec3(4.0, 5.0, 6.0)) == Vec3(-3.0, 6.0, -3.0)
    ensures LengthSquared(Vec3(1.0, 2.0, 3.0)) == 14.0
    ensures Length(m, Normalize(m, Vec3(1.0, 2.0, 3.0))) == 1.0
  {
    NormalizeUnit(m, Vec3(1.0, 2.0, 3.0));
  }
}
