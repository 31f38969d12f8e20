/** The HDR image buffer and its conversion to 8-bit RGB through a tone
    mapper (src/raytracer/image.rs). */
module Images {
  import opened Numerics
  import opened Materials

  // ---------------------------------------------------------------------
  // Tone mapping

  /** The three tone mappers behind the `ToneMapping` trait. */
  datatype ToneMapper =
    | Reinhard(exposure: real)
    | Exposure(exposure: real, gamma: real)
    | ACESFilmic

  /** `Reinhard::new`: exposure 1. */
  function DefaultReinhard(): ToneMapper { Reinhard(1.0) }

  /** `Exposure::new` and `Exposure::with_exposure`: gamma 2.2. */
  function DefaultExposure(): ToneMapper { Exposure(1.0, 2.2) }
  function ExposureWith(exposure: real): ToneMapper { Exposure(exposure, 2.2) }

  /** A mapper is defined on a colour when no division by zero occurs:
      Reinhard divides by 1 + x for each adjusted channel x, Exposure by
      gamma; the ACES denominator never vanishes. */
  predicate MapDefined(mapper: ToneMapper, c: Color) {
    match mapper
    case Reinhard(e) =>
      var adjusted := ScaleColor(c, e);
      adjusted.r != -1.0 && adjusted.g != -1.0 && adjusted.b != -1.0
    case Exposure(_, gamma) => gamma != 0.0
    case ACESFilmic => true
  }

  /** The Reinhard curve x / (1 + x). */
  function ReinhardCurve(x: real): real
    requires x != -1.0
  {
    x / (1.0 + x)
  }

  /** Every non-negative input lands in [0, 1), 1 lands on one half, and
      larger inputs land closer to 1. */
  lemma ReinhardRange(x: real)
    requires x >= 0.0
    ensures 0.0 <= ReinhardCurve(x) < 1.0
    ensures x == 1.0 ==> ReinhardCurve(x) == 0.5
    ensures forall y :: x < y ==> ReinhardCurve(x) < ReinhardCurve(y)
  {
    ReinhardAsReciprocal(x);
    forall y | x < y
      ensures ReinhardCurve(x) < ReinhardCurve(y)
    {
      ReinhardAsReciprocal(y);
      ReciprocalDecreasing(1.0 + x, 1.0 + y);
    }
  }

  /** x / (1 + x) == 1 - 1 / (1 + x), with 1 / (1 + x) in (0, 1]. */
  lemma ReinhardAsReciprocal(x: real)
    requires x >= 0.0
    ensures ReinhardCurve(x) == 1.0 - 1.0 / (1.0 + x)
    ensures 0.0 < 1.0 / (1.0 + x) <= 1.0
  {
    var d := 1.0 + x;
    assert x / d == (d - 1.0) / d == d / d - 1.0 / d;
    if 1.0 / d > 1.0 {
      ReciprocalDecreasing(1.0, d);
    }
  }

  /** 1 / b < 1 / a for 0 < a < b. */
  lemma ReciprocalDecreasing(a: real, b: real)
    requires 0.0 < a < b
    ensures 1.0 / b < 1.0 / a
  {
    var ia, ib := 1.0 / a, 1.0 / b;
    assert ia > 0.0 && ib > 0.0;
    var p := ia * ib;
    assert p * b == ia && p * a == ib;
    assert ia - ib == p * (b - a);
    ProductNonNegative(p, b - a);
    assert p * (b - a) != 0.0;
  }

  /** The ACES fitting constants of the source. */
  const AcesA: real := 2.51
  const AcesB: real := 0.03
  const AcesC: real := 2.43
  const AcesD: real := 0.59
  const AcesE: real := 0.14

  /** The ACES denominator x*(C*x + D) + E has no real root. */
  lemma AcesDenominatorPositive(x: real)
    ensures x * (AcesC * x + AcesD) + AcesE > 0.0
  {
    var y := x + AcesD / (2.0 * AcesC);
    SquareSign(y);
    assert x * (AcesC * x + AcesD) + AcesE
        == AcesC * (y * y) + (AcesE - AcesD * AcesD / (4.0 * AcesC));
  }

  /** `aces_tone_map`: the rational fit, clamped to [0, 1]. */
  function AcesCurve(x: real): (r: real)
    ensures 0.0 <= r <= 1.0
    ensures x == 0.0 ==> r == 0.0
  {
    AcesDenominatorPositive(x);
    Clamp01((x * (AcesA * x + AcesB)) / (x * (AcesC * x + AcesD) + AcesE))
  }

  /** `ToneMapping::map` for each mapper. Exposure raises the clamped
      channel to 1/gamma with the library's `powf`. */
  function Map(m: MathLib, mapper: ToneMapper, c: Color): Color
    requires MapDefined(mapper, c)
  {
    match mapper
    case Reinhard(e) =>
      var adjusted := ScaleColor(c, e);
      Color(ReinhardCurve(adjusted.r), ReinhardCurve(adjusted.g), ReinhardCurve(adjusted.b))
    case Exposure(e, gamma) =>
      var adjusted := ScaleColor(c, e);
      var invGamma := 1.0 / gamma;
      Color(m.powf(Clamp01(adjusted.r), invGamma),
            m.powf(Clamp01(adjusted.g), invGamma),
            m.powf(Clamp01(adjusted.b), invGamma))
    case ACESFilmic =>
      Color(AcesCurve(c.r), AcesCurve(c.g), AcesCurve(c.b))
  }

  /** Every channel lies in [lo, hi]. */
  predicate Within(c: Color, lo: real, hi: real) {
    lo <= c.r <= hi && lo <= c.g <= hi && lo <= c.b <= hi
  }

  /** Reinhard maps a non-negative colour under a non-negative exposure
      into [0, 1) per channel, each channel to x / (1 + x) of its adjusted
      value. */
  lemma ReinhardMapRange(m: MathLib, e: real, c: Color)
    requires NonNegative(c) && e >= 0.0
    ensures MapDefined(Reinhard(e), c)
    ensures var r := Map(m, Reinhard(e), c);
      && 0.0 <= r.r < 1.0 && 0.0 <= r.g < 1.0 && 0.0 <= r.b < 1.0
      && r.r == ReinhardCurve(ScaleColor(c, e).r)
  {
    var adjusted := ScaleColor(c, e);
    NonNegativeClosed(c, Black(), e);
    ReinhardRange(adjusted.r);
    ReinhardRange(adjusted.g);
    ReinhardRange(adjusted.b);
  }

  /** `powf` keeps [0, 1] inside [0, 1] for a positive exponent. */
  ghost predicate PowfKeepsUnit(m: MathLib) {
    forall x, y :: 0.0 <= x <= 1.0 && y > 0.0 ==> 0.0 <= m.powf(x, y) <= 1.0
  }

  /** Exposure hands `powf` a channel already clamped to [0, 1], so with a
      positive gamma every output channel is at most 1. */
  lemma ExposureMapRange(m: MathLib, e: real, gamma: real, c: Color)
    requires PowfKeepsUnit(m) && gamma > 0.0
    ensures MapDefined(Exposure(e, gamma), c)
    ensures Within(Map(m, Exposure(e, gamma), c), 0.0, 1.0)
    ensures Map(m, Exposure(e, gamma), c).r == m.powf(Clamp01(ScaleColor(c, e).r), 1.0 / gamma)
  {
    var invGamma := 1.0 / gamma;
    assert invGamma > 0.0;
  }

  /** ACES maps every colour into [0, 1] per channel and black to black. */
  lemma AcesMapRange(m: MathLib, c: Color)
    ensures MapDefined(ACESFilmic, c)
    ensures Within(Map(m, ACESFilmic, c), 0.0, 1.0)
    ensures c == Black() ==> Map(m, ACESFilmic, c) == Black()
  {
  }

  /** The unit-tested values: Reinhard sends white to one half, and under
      exposure 2 to two thirds; bright channels 10, 20 and 100 land above
      0.9, 0.95 and 0.99; ACES sends white strictly above 0. */
  lemma ToneMapExamples(m: MathLib)
    ensures Map(m, Reinhard(1.0), White()) == Color(0.5, 0.5, 0.5)
    ensures Map(m, Reinhard(2.0), White()) == Color(2.0 / 3.0, 2.0 / 3.0, 2.0 / 3.0)
    ensures var r := Map(m, Reinhard(1.0), Color(10.0, 20.0, 100.0));
      r.r > 0.9 && r.g > 0.95 && r.b > 0.99
    ensures Map(m, ACESFilmic, White()).r > 0.0
  {
    assert ReinhardCurve(10.0) == 10.0 / 11.0;
    assert ReinhardCurve(20.0) == 20.0 / 21.0;
    assert ReinhardCurve(100.0) == 100.0 / 101.0;
    assert AcesCurve(1.0) == 2.54 / 3.16;
  }

  // ---------------------------------------------------------------------
  // 8-bit conversion

  /** A `u8`. */
  newtype Byte = x: int | 0 <= x < 256

  /** `(v * 255.0).clamp(0.0, 255.0) as u8`: clamping then truncation,
      which for a non-negative value is the floor. */
  function ToByte(v: real): (b: Byte)
    ensures v <= 0.0 ==> b == 0
    ensures v >= 1.0 ==> b == 255
    ensures 0.0 <= v <= 1.0 ==> b as int == (v * 255.0).Floor
  {
    var clamped := Clamp(v * 255.0, 0.0, 255.0);
    assert 0 <= clamped.Floor <= 255;
    clamped.Floor as Byte
  }

  /** A tone-mapped colour as an 8-bit triple. */
  function ToRgb8(c: Color): (Byte, Byte, Byte) {
    (ToByte(c.r), ToByte(c.g), ToByte(c.b))
  }

  // ---------------------------------------------------------------------
  // Pixel buffers as values

  /** Every row holds exactly w pixels. */
  predicate Rectangular(rows: seq<seq<Color>>, w: nat) {
    forall y :: 0 <= y < |rows| ==> |rows[y]| == w
  }

  /** The width `from_pixels` records: the length of row 0, or 0. */
  function WidthOf(rows: seq<seq<Color>>): nat {
    if |rows| > 0 then |rows[0]| else 0
  }

  /** Every pixel of a row scaled by the exposure factor. */
  function ExposedRow(row: seq<Color>, exposure: real): (r: seq<Color>)
    ensures |r| == |row|
  {
    seq(|row|, x requires 0 <= x < |row| => ScaleColor(row[x], exposure))
  }

  /** Every pixel scaled by the exposure factor. */
  function Exposed(rows: seq<seq<Color>>, exposure: real): (r: seq<seq<Color>>)
    ensures |r| == |rows|
    ensures forall y :: 0 <= y < |rows| ==> |r[y]| == |rows[y]|
  {
    seq(|rows|, y requires 0 <= y < |rows| => ExposedRow(rows[y], exposure))
  }

  /** Exposure changes no dimension, composes by multiplication and is
      the identity at 1. */
  lemma ExposedLaws(rows: seq<seq<Color>>, a: real, b: real)
    ensures forall w: nat :: Rectangular(rows, w) ==> Rectangular(Exposed(rows, a), w)
    ensures Exposed(Exposed(rows, a), b) == Exposed(rows, a * b)
    ensures Exposed(rows, 1.0) == rows
  {
    var twice := Exposed(Exposed(rows, a), b);
    var once := Exposed(rows, a * b);
    forall y | 0 <= y < |rows|
      ensures twice[y] == once[y]
      ensures Exposed(rows, 1.0)[y] == rows[y]
    {
      forall x | 0 <= x < |rows[y]|
        ensures twice[y][x] == once[y][x]
      {
        var c := rows[y][x];
        assert c.r * a * b == c.r * (a * b);
        assert c.g * a * b == c.g * (a * b);
        assert c.b * a * b == c.b * (a * b);
      }
    }
  }

  /** The luminance weights of the source: 0.299 R + 0.587 G + 0.114 B. */
  function Luminance(c: Color): real {
    0.299 * c.r + 0.587 * c.g + 0.114 * c.b
  }

  /** The luminance summed over a row. */
  function RowLuminance(row: seq<Color>): real
    decreases |row|
  {
    if |row| == 0 then 0.0 else RowLuminance(row[..|row| - 1]) + Luminance(row[|row| - 1])
  }

  /** The luminance summed over every row. */
  function TotalLuminance(rows: seq<seq<Color>>): real
    decreases |rows|
  {
    if |rows| == 0 then 0.0 else TotalLuminance(rows[..|rows| - 1]) + RowLuminance(rows[|rows| - 1])
  }

  /** The number of pixels, row by row. */
  function PixelCount(rows: seq<seq<Color>>): nat
    decreases |rows|
  {
    if |rows| == 0 then 0 else PixelCount(rows[..|rows| - 1]) + |rows[|rows| - 1]|
  }

  /** The mean luminance, or 0 for an image without pixels. */
  function AverageLuminanceOf(rows: seq<seq<Color>>): real {
    if PixelCount(rows) > 0 then TotalLuminance(rows) / PixelCount(rows) as real else 0.0
  }

  /** A rectangular image of h rows of w pixels has h * w pixels. */
  lemma {:induction false} PixelCountRectangular(rows: seq<seq<Color>>, w: nat)
    requires Rectangular(rows, w)
    ensures PixelCount(rows) == |rows| * w
    decreases |rows|
  {
    if |rows| > 0 {
      PixelCountRectangular(rows[..|rows| - 1], w);
    }
  }

  /** A luminance sum multiplied by an exposure factor. */
  function Scaled(e: real, sum: real): real {
    e * sum
  }

  /** Scaling distributes over a sum. */
  lemma ScaledSum(e: real, a: real, b: real)
    ensures Scaled(e, a + b) == Scaled(e, a) + Scaled(e, b)
  {
    assert e * (a + b) == e * a + e * b;
  }

  /** Scaling a row scales its luminance. */
  lemma {:induction false} RowLuminanceScales(row: seq<Color>, e: real)
    ensures RowLuminance(ExposedRow(row, e)) == Scaled(e, RowLuminance(row))
    decreases |row|
  {
    if |row| == 0 {
      assert RowLuminance(ExposedRow(row, e)) == 0.0 == Scaled(e, RowLuminance(row));
    } else {
      var pre, c := row[..|row| - 1], row[|row| - 1];
      RowLuminanceScales(pre, e);
      assert ExposedRow(row, e)[..|row| - 1] == ExposedRow(pre, e);
      assert ExposedRow(row, e)[|row| - 1] == ScaleColor(c, e);
      assert Luminance(ScaleColor(c, e)) == Scaled(e, Luminance(c));
      ScaledSum(e, RowLuminance(pre), Luminance(c));
    }
  }

  /** Scaling the image keeps its pixel count. */
  lemma {:induction false} PixelCountExposed(rows: seq<seq<Color>>, e: real)
    ensures PixelCount(Exposed(rows, e)) == PixelCount(rows)
    decreases |rows|
  {
    if |rows| > 0 {
      var n := |rows| - 1;
      PixelCountExposed(rows[..n], e);
      assert Exposed(rows, e)[..n] == Exposed(rows[..n], e);
    }
  }

  /** Scaling the image scales its total luminance. */
  lemma {:induction false} TotalLuminanceScales(rows: seq<seq<Color>>, e: real)
    ensures TotalLuminance(Exposed(rows, e)) == Scaled(e, TotalLuminance(rows))
    decreases |rows|
  {
    if |rows| == 0 {
      assert TotalLuminance(Exposed(rows, e)) == 0.0 == Scaled(e, TotalLuminance(rows));
    } else {
      var pre, last := rows[..|rows| - 1], rows[|rows| - 1];
      TotalLuminanceScales(pre, e);
      RowLuminanceScales(last, e);
      assert Exposed(rows, e)[..|rows| - 1] == Exposed(pre, e);
      assert Exposed(rows, e)[|rows| - 1] == ExposedRow(last, e);
      ScaledSum(e, TotalLuminance(pre), RowLuminance(last));
    }
  }

  /** A scaled total has the scaled mean. */
  lemma ScaledMean(e: real, total: real, scaledTotal: real, n: real)
    requires n > 0.0 && scaledTotal == Scaled(e, total)
    ensures scaledTotal / n == e * (total / n)
  {
    var q := total / n;
    assert q * n == total;
    assert (e * q) * n == scaledTotal;
  }

  /** Applying an exposure factor multiplies the average luminance by it. */
  lemma AverageLuminanceScales(rows: seq<seq<Color>>, e: real)
    ensures AverageLuminanceOf(Exposed(rows, e)) == e * AverageLuminanceOf(rows)
  {
    TotalLuminanceScales(rows, e);
    PixelCountExposed(rows, e);
    var n := PixelCount(rows);
    if n > 0 {
      var scaled := Exposed(rows, e);
      ScaledMean(e, TotalLuminance(rows), TotalLuminance(scaled), n as real);
    }
  }

  /** Every pixel's luminance in a row lies in [lo, hi]. */
  predicate RowWithin(row: seq<Color>, lo: real, hi: real) {
    forall x :: 0 <= x < |row| ==> lo <= Luminance(row[x]) <= hi
  }

  /** Every pixel's luminance lies in [lo, hi]. */
  predicate LuminanceWithin(rows: seq<seq<Color>>, lo: real, hi: real) {
    forall y :: 0 <= y < |rows| ==> RowWithin(rows[y], lo, hi)
  }

  /** k * n: the luminance of n pixels that each have luminance k. */
  function Bound(k: real, n: nat): real {
    k * n as real
  }

  /** Bounds on two parts add up to bounds on the whole. */
  lemma AddBounds(lo: real, hi: real, a: nat, b: nat, s: real, t: real)
    requires Bound(lo, a) <= s <= Bound(hi, a) && Bound(lo, b) <= t <= Bound(hi, b)
    ensures Bound(lo, a + b) <= s + t <= Bound(hi, a + b)
  {
    assert (a + b) as real == a as real + b as real;
    assert lo * (a as real + b as real) == lo * a as real + lo * b as real;
    assert hi * (a as real + b as real) == hi * a as real + hi * b as real;
  }

  /** A row's luminance sum lies between lo and hi times its length. */
  lemma {:induction false} RowLuminanceBounds(row: seq<Color>, lo: real, hi: real)
    requires RowWithin(row, lo, hi)
    ensures Bound(lo, |row|) <= RowLuminance(row) <= Bound(hi, |row|)
    decreases |row|
  {
    if |row| > 0 {
      var n := |row| - 1;
      assert RowWithin(row[..n], lo, hi);
      RowLuminanceBounds(row[..n], lo, hi);
      var c := row[n];
      assert Bound(lo, 1) <= Luminance(c) <= Bound(hi, 1);
      AddBounds(lo, hi, n, 1, RowLuminance(row[..n]), Luminance(c));
    }
  }

  /** The bound holds of every prefix of the rows. */
  lemma WithinPrefix(rows: seq<seq<Color>>, n: nat, lo: real, hi: real)
    requires LuminanceWithin(rows, lo, hi) && n <= |rows|
    ensures LuminanceWithin(rows[..n], lo, hi)
  {
    assert forall y :: 0 <= y < n ==> rows[..n][y] == rows[y];
  }

  /** The total luminance lies between lo and hi times the pixel count. */
  lemma {:induction false} TotalLuminanceBounds(rows: seq<seq<Color>>, lo: real, hi: real)
    requires LuminanceWithin(rows, lo, hi)
    ensures Bound(lo, PixelCount(rows)) <= TotalLuminance(rows) <= Bound(hi, PixelCount(rows))
    decreases |rows|
  {
    if |rows| > 0 {
      var n := |rows| - 1;
      var pre := rows[..n];
      WithinPrefix(rows, n, lo, hi);
      TotalLuminanceBounds(pre, lo, hi);
      RowLuminanceBounds(rows[n], lo, hi);
      AddBounds(lo, hi, PixelCount(pre), |rows[n]|, TotalLuminance(pre), RowLuminance(rows[n]));
    }
  }

  /** A sum between lo * n and hi * n averages to between lo and hi. */
  lemma MeanBounds(total: real, n: nat, lo: real, hi: real)
    requires n > 0 && Bound(lo, n) <= total <= Bound(hi, n)
    ensures lo <= total / n as real <= hi
  {
    var d := n as real;
    var q := total / d;
    assert q * d == total;
    assert (q - lo) * d == total - lo * d;
    assert (hi - q) * d == hi * d - total;
    ProductSign(q - lo, d);
    ProductSign(hi - q, d);
  }

  /** A product with a positive factor is negative only when the other
      factor is. */
  lemma ProductSign(x: real, n: real)
    requires n > 0.0 && x * n >= 0.0
    ensures x >= 0.0
  {
    if x < 0.0 {
      ProductNonNegative(-x, n);
    }
  }

  /** The average of an image with pixels lies between the least and the
      greatest pixel luminance. */
  lemma AverageLuminanceBounds(rows: seq<seq<Color>>, lo: real, hi: real)
    requires LuminanceWithin(rows, lo, hi) && PixelCount(rows) > 0
    ensures lo <= AverageLuminanceOf(rows) <= hi
  {
    TotalLuminanceBounds(rows, lo, hi);
    MeanBounds(TotalLuminance(rows), PixelCount(rows), lo, hi);
  }

  /** The unit-tested value: a white and a black pixel average to 0.5. */
  lemma AverageLuminanceExample()
    ensures AverageLuminanceOf([[White(), Black()]]) == 0.5
  {
    var rows := [[White(), Black()]];
    var row := rows[0];
    assert rows[..0] == [];
    assert row[..1][..0] == [];
    assert row[..1] == [White()];
    assert RowLuminance(row[..1]) == 1.0;
    assert RowLuminance(row) == 1.0;
    assert PixelCount(rows) == 2;
    assert TotalLuminance(rows) == 1.0;
  }

  /** Every pixel of the image can be tone mapped. */
  predicate AllDefined(mapper: ToneMapper, rows: seq<seq<Color>>) {
    forall y, x :: 0 <= y < |rows| && 0 <= x < |rows[y]| ==> MapDefined(mapper, rows[y][x])
  }

  /** One row's 8-bit triples, in order. */
  function ConvertedRow(m: MathLib, mapper: ToneMapper, row: seq<Color>): seq<(Byte, Byte, Byte)>
    requires forall x :: 0 <= x < |row| ==> MapDefined(mapper, row[x])
  {
    seq(|row|, x requires 0 <= x < |row| => ToRgb8(Map(m, mapper, row[x])))
  }

  /** The whole image's 8-bit triples, row after row. */
  function Converted(m: MathLib, mapper: ToneMapper, rows: seq<seq<Color>>): seq<(Byte, Byte, Byte)>
    requires AllDefined(mapper, rows)
    decreases |rows|
  {
    if |rows| == 0 then []
    else
      var n := |rows| - 1;
      assert AllDefined(mapper, rows[..n]) by {
        forall y, x | 0 <= y < n && 0 <= x < |rows[..n][y]|
          ensures MapDefined(mapper, rows[..n][y][x])
        {
          assert rows[..n][y] == rows[y];
        }
      }
      Converted(m, mapper, rows[..n]) + ConvertedRow(m, mapper, rows[n])
  }

  /** Converting one more pixel of a row appends its triple. */
  lemma ConvertedRowStep(m: MathLib, mapper: ToneMapper, row: seq<Color>, x: nat)
    requires x < |row| && forall i :: 0 <= i < |row| ==> MapDefined(mapper, row[i])
    ensures ConvertedRow(m, mapper, row[..x + 1]) ==
      ConvertedRow(m, mapper, row[..x]) + [ToRgb8(Map(m, mapper, row[x]))]
  {
  }

  /** Converting one more row appends that row's triples. */
  lemma ConvertedStep(m: MathLib, mapper: ToneMapper, rows: seq<seq<Color>>, y: nat)
    requires y < |rows| && AllDefined(mapper, rows)
    ensures AllDefined(mapper, rows[..y + 1])
    ensures Converted(m, mapper, rows[..y + 1]) ==
      Converted(m, mapper, rows[..y]) + ConvertedRow(m, mapper, rows[y][..|rows[y]|])
  {
    assert forall i :: 0 <= i <= y ==> rows[..y + 1][i] == rows[i];
    assert rows[..y + 1][..y] == rows[..y];
    assert rows[y][..|rows[y]|] == rows[y];
  }

  /** The first n rows keep every row property of the whole image. */
  lemma ConvertPrefix(mapper: ToneMapper, rows: seq<seq<Color>>, w: nat, n: nat)
    requires AllDefined(mapper, rows) && Rectangular(rows, w) && n <= |rows|
    ensures AllDefined(mapper, rows[..n]) && Rectangular(rows[..n], w)
  {
    assert forall y :: 0 <= y < n ==> rows[..n][y] == rows[y];
  }

  /** `convert` of a rectangular image holds h * w triples in row-major
      order: triple y * w + x is pixel (x, y) tone mapped and truncated. */
  lemma {:induction false} ConvertedRowMajor(m: MathLib, mapper: ToneMapper, rows: seq<seq<Color>>, w: nat)
    requires AllDefined(mapper, rows) && Rectangular(rows, w)
    ensures |Converted(m, mapper, rows)| == GridSize(|rows|, w)
    ensures forall y, x :: 0 <= y < |rows| && 0 <= x < w ==>
      RowMajor(y, w, x) < |Converted(m, mapper, rows)| &&
      Converted(m, mapper, rows)[RowMajor(y, w, x)] == ToRgb8(Map(m, mapper, rows[y][x]))
    decreases |rows|
  {
    if |rows| > 0 {
      var n := |rows| - 1;
      var pre := rows[..n];
      ConvertPrefix(mapper, rows, w, n);
      ConvertedRowMajor(m, mapper, pre, w);
      var front := Converted(m, mapper, pre);
      var last := ConvertedRow(m, mapper, rows[n]);
      var out := Converted(m, mapper, rows);
      assert out == front + last;
      if w > 0 {
        RowMajorLayout(0, 0, n, w);
      } else {
        assert GridSize(n + 1, w) == 0 == GridSize(n, w);
      }
      forall y, x | 0 <= y < |rows| && 0 <= x < w
        ensures RowMajor(y, w, x) < |out| && out[RowMajor(y, w, x)] == ToRgb8(Map(m, mapper, rows[y][x]))
      {
        RowMajorLayout(y, x, n, w);
        if y < n {
          assert out[RowMajor(y, w, x)] == front[RowMajor(y, w, x)];
          assert pre[y] == rows[y];
        } else {
          assert out[RowMajor(y, w, x)] == last[x];
        }
      }
    }
  }

  /** The unit-tested value: Reinhard turns (2, 4, 0.5) into 2/3, 4/5 and
      1/3, which become the bytes 170, 204 and 85. */
  lemma ConvertExample(m: MathLib)
    ensures AllDefined(Reinhard(1.0), [[Color(2.0, 4.0, 0.5)]])
    ensures Converted(m, Reinhard(1.0), [[Color(2.0, 4.0, 0.5)]]) == [(170, 204, 85)]
  {
    var rows := [[Color(2.0, 4.0, 0.5)]];
    assert rows[..0] == [];
    var mapped := Map(m, Reinhard(1.0), Color(2.0, 4.0, 0.5));
    assert mapped == Color(2.0 / 3.0, 0.8, 1.0 / 3.0);
    assert (2.0 / 3.0 * 255.0).Floor == 170;
    assert (0.8 * 255.0).Floor == 204;
    assert (1.0 / 3.0 * 255.0).Floor == 85;
  }

  // ---------------------------------------------------------------------
  // The image buffer

  /** `Image`: a row-major grid of HDR colours with its recorded width and
      height. */
  class Image {
    var width: nat
    var height: nat
    var pixels: seq<seq<Color>>

    /** The recorded dimensions describe the buffer. */
    ghost predicate Valid()
      reads this
    {
      |pixels| == height && Rectangular(pixels, width)
    }

    /** `Image::from_pixels`: the height is the number of rows and the
        width the length of row 0 (0 without rows); a rectangular buffer
        gives a valid image. */
    constructor FromPixels(rows: seq<seq<Color>>)
      ensures pixels == rows
      ensures height == |rows| && width == WidthOf(rows)
      ensures Rectangular(rows, WidthOf(rows)) ==> Valid()
    {
      width := WidthOf(rows);
      height := |rows|;
      pixels := rows;
    }

    /** `get_pixel`: the pixel exactly when both coordinates are in range. */
    function GetPixel(x: nat, y: nat): (r: Option<Color>)
      reads this
      requires Valid()
      ensures r.Some? <==> y < height && x < width
      ensures r.Some? ==> r.value == pixels[y][x]
    {
      if y < height && x < width then Some(pixels[y][x]) else None
    }

    /** `get_pixel_mut` followed by a write through the reference: an
        in-range pixel is replaced and nothing else changes; out of range
        nothing changes. */
    method SetPixel(x: nat, y: nat, c: Color) returns (found: bool)
      requires Valid()
      modifies this
      ensures width == old(width) && height == old(height) && Valid()
      ensures found <==> y < height && x < width
      ensures found ==> pixels == old(pixels)[y := old(pixels)[y][x := c]]
      ensures !found ==> pixels == old(pixels)
    {
      found := y < height && x < width;
      if found {
        pixels := pixels[y := pixels[y][x := c]];
      }
    }

    /** `apply_exposure`: every pixel multiplied by the factor, in place. */
    method ApplyExposure(exposure: real)
      modifies this
      ensures pixels == Exposed(old(pixels), exposure)
      ensures width == old(width) && height == old(height)
      ensures old(Valid()) ==> Valid()
    {
      ghost var original := pixels;
      var y := 0;
      while y < |pixels|
        invariant 0 <= y <= |pixels| == |original|
        invariant width == old(width) && height == old(height)
        invariant forall i :: 0 <= i < y ==> pixels[i] == Exposed(original, exposure)[i]
        invariant forall i :: y <= i < |pixels| ==> pixels[i] == original[i]
      {
        var x := 0;
        while x < |pixels[y]|
          invariant y < |pixels| == |original|
          invariant 0 <= x <= |pixels[y]| == |original[y]|
          invariant width == old(width) && height == old(height)
          invariant forall i :: 0 <= i < |pixels| && i != y ==>
            pixels[i] == if i < y then Exposed(original, exposure)[i] else original[i]
          invariant forall j :: 0 <= j < x ==> pixels[y][j] == ScaleColor(original[y][j], exposure)
          invariant forall j :: x <= j < |pixels[y]| ==> pixels[y][j] == original[y][j]
        {
          pixels := pixels[y := pixels[y][x := ScaleColor(pixels[y][x], exposure)]];
          x := x + 1;
        }
        assert pixels[y] == Exposed(original, exposure)[y];
        y := y + 1;
      }
      assert pixels == Exposed(original, exposure);
      ExposedLaws(original, exposure, 1.0);
    }

    /** `average_luminance`: the running total and count over every pixel,
        divided at the end. */
    method AverageLuminance() returns (avg: real)
      ensures avg == AverageLuminanceOf(pixels)
    {
      var total := 0.0;
      var count := 0;
      var y := 0;
      while y < |pixels|
        invariant 0 <= y <= |pixels|
        invariant total == TotalLuminance(pixels[..y]) && count == PixelCount(pixels[..y])
      {
        var row := pixels[y];
        var x := 0;
        while x < |row|
          invariant 0 <= x <= |row|
          invariant total == TotalLuminance(pixels[..y]) + RowLuminance(row[..x])
          invariant count == PixelCount(pixels[..y]) + x
        {
          assert row[..x + 1][..x] == row[..x];
          total := total + Luminance(row[x]);
          count := count + 1;
          x := x + 1;
        }
        assert row[..x] == row;
        assert pixels[..y + 1][..y] == pixels[..y];
        y := y + 1;
      }
      assert pixels[..y] == pixels;
      if count > 0 {
        avg := total / count as real;
      } else {
        avg := 0.0;
      }
    }

    /** `convert`: every pixel tone mapped and truncated to bytes, pushed
        row after row. */
    method Convert(m: MathLib, mapper: ToneMapper) returns (result: seq<(Byte, Byte, Byte)>)
      requires AllDefined(mapper, pixels)
      ensures result == Converted(m, mapper, pixels)
    {
      result := [];
      var y := 0;
      while y < |pixels|
        invariant 0 <= y <= |pixels|
        invariant AllDefined(mapper, pixels[..y])
        invariant result == Converted(m, mapper, pixels[..y])
      {
        var row := pixels[y];
        var x := 0;
        while x < |row|
          invariant 0 <= x <= |row|
          invariant result == Converted(m, mapper, pixels[..y]) + ConvertedRow(m, mapper, row[..x])
        {
          ConvertedRowStep(m, mapper, row, x);
          result := result + [ToRgb8(Map(m, mapper, row[x]))];
          x := x + 1;
        }
        ConvertedStep(m, mapper, pixels, y);
        y := y + 1;
      }
      assert pixels[..y] == pixels;
    }
  }
}
