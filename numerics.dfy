/** Real-number stand-ins for the renderer's `f32` arithmetic.

    The renderer calls the platform's `sqrt`, `exp`, `powf`, `tan` and the
    constant `PI`. Their exact values are not modelled: they are the fields of
    a `MathLib` value that every operation needing them takes as a parameter,
    and `Lawful` collects the few laws that the proofs rely on. */
module Numerics {

  datatype Option<T> = None | Some(value: T)

  /** The floating-point library routines the renderer uses. */
  datatype MathLib = MathLib(
    sqrt: real -> real,
    exp: real -> real,
    powf: (real, real) -> real,
    tan: real -> real,
    pi: real)

  /** The laws assumed of the library: an exact square root on non-negative
      arguments and a positive exponential with exp(0) == 1. */
  ghost predicate Lawful(m: MathLib) {
    && (forall x :: x >= 0.0 ==> m.sqrt(x) >= 0.0 && m.sqrt(x) * m.sqrt(x) == x)
    && (forall x :: m.exp(x) > 0.0)
    && m.exp(0.0) == 1.0
  }

  /** `f32::max` on non-NaN values. */
  function Max(a: real, b: real): (r: real)
    ensures r >= a && r >= b && (r == a || r == b)
  {
    if a >= b then a else b
  }

  /** `f32::min` on non-NaN values. */
  function Min(a: real, b: real): (r: real)
    ensures r <= a && r <= b && (r == a || r == b)
  {
    if a <= b then a else b
  }

  function Abs(a: real): (r: real)
    ensures r >= 0.0 && (r == a || r == -a)
  {
    if a < 0.0 then -a else a
  }

  /** `x.max(lo).min(hi)`, the clamp the source writes out by hand. */
  function Clamp(x: real, lo: real, hi: real): (r: real)
    requires lo <= hi
    ensures lo <= r <= hi
    ensures lo <= x <= hi ==> r == x
    ensures x < lo ==> r == lo
    ensures x > hi ==> r == hi
  {
    Min(Max(x, lo), hi)
  }

  /** `x.max(0.0).min(1.0)`. */
  function Clamp01(x: real): (r: real)
    ensures 0.0 <= r <= 1.0
    ensures 0.0 <= x <= 1.0 ==> r == x
    ensures x < 0.0 ==> r == 0.0
    ensures x > 1.0 ==> r == 1.0
  {
    Clamp(x, 0.0, 1.0)
  }

  lemma SquareStrict(a: real, b: real)
    requires 0.0 <= a < b
    ensures a * a < b * b
  {
    var aa, ab, bb := a * a, a * b, b * b;
    assert aa <= ab;
    assert ab < bb;
  }

  /** A square is never negative, and is zero only for zero. */
  lemma SquareSign(a: real)
    ensures a * a >= 0.0
    ensures a * a == 0.0 <==> a == 0.0
  {
    if a > 0.0 {
      SquareStrict(0.0, a);
    } else if a < 0.0 {
      SquareStrict(0.0, -a);
      assert (-a) * (-a) == a * a;
    }
  }

  /** Two non-negative reals with equal squares are equal. */
  lemma SquareInjective(s: real, r: real)
    requires s >= 0.0 && r >= 0.0 && s * s == r * r
    ensures s == r
  {
    if s < r {
      SquareStrict(s, r);
    } else if r < s {
      SquareStrict(r, s);
    }
  }

  /** Under the laws, sqrt(s*s) is s for every non-negative s. */
  lemma SqrtOfSquare(m: MathLib, s: real)
    requires Lawful(m)
    requires s >= 0.0
    ensures m.sqrt(s * s) == s
  {
    var q := s * s;
    assert q >= 0.0;
    SquareInjective(m.sqrt(q), s);
  }

  /** Under the laws, sqrt(x) of a non-negative x is a non-negative
      square root of x, and is 0 exactly when x is 0. */
  lemma SqrtLaws(m: MathLib, x: real)
    requires Lawful(m)
    requires x >= 0.0
    ensures m.sqrt(x) >= 0.0 && m.sqrt(x) * m.sqrt(x) == x
    ensures m.sqrt(x) == 0.0 <==> x == 0.0
  {
    var s := m.sqrt(x);
    assert s >= 0.0 && s * s == x;
    if x == 0.0 {
      SquareSign(s);
    }
  }

  /** The number of cells in h rows of width w. */
  function GridSize(h: nat, w: nat): nat {
    h * w
  }

  /** The position of cell x of row y when rows of width w are laid out
      one after another (row-major order). */
  function RowMajor(y: nat, w: nat, x: nat): nat {
    y * w + x
  }

  /** One more row of width w adds w cells. */
  lemma GridSizeStep(h: nat, w: nat)
    ensures GridSize(h + 1, w) == GridSize(h, w) + w
  {
  }

  /** One more row adds w positions; a cell of one of the first h rows
      lies before position h * w, and cell x of row h lies x past it. */
  lemma RowMajorLayout(y: nat, x: nat, h: nat, w: nat)
    requires x < w
    ensures GridSize(h + 1, w) == GridSize(h, w) + w
    ensures y < h ==> RowMajor(y, w, x) < GridSize(h, w)
    ensures RowMajor(h, w, x) == GridSize(h, w) + x
  {
    if y < h {
      assert (y + 1) * w <= h * w;
    }
  }
}
