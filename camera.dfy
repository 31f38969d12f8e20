/** The pinhole camera and the grid of primary rays it shoots
    (src/raytracer/camera.rs). */
module Cameras {
  import opened Numerics
  import opened Vectors
  import opened Rays

  /** `Camera`. The pixel and subdivision counts are `u32` in the renderer;
      here they are `nat`. */
  datatype Camera = Camera(
    position: Vec3,
    direction: Vec3,
    up: Vec3,
    fovDegrees: real,
    width: nat,
    height: nat,
    subdivisions: nat)

  /** `Camera::new`: the direction and the up vector are stored normalized,
      every other argument verbatim. */
  function NewCamera(m: MathLib, position: Vec3, direction: Vec3, up: Vec3,
                     fovDegrees: real, width: nat, height: nat, subdivisions: nat): (c: Camera)
    ensures c.position == position && c.fovDegrees == fovDegrees
    ensures c.width == width && c.height == height && c.subdivisions == subdivisions
    ensures c.direction == Normalize(m, direction) && c.up == Normalize(m, up)
  {
    Camera(position, Normalize(m, direction), Normalize(m, up), fovDegrees, width, height, subdivisions)
  }

  /** A camera built from non-zero vectors looks along a unit direction with
      a unit up vector, and building it again from its own fields changes
      nothing. */
  lemma NewCameraUnit(m: MathLib, position: Vec3, direction: Vec3, up: Vec3,
                      fovDegrees: real, width: nat, height: nat, subdivisions: nat)
    requires Lawful(m)
    requires direction != Zero() && up != Zero()
    ensures var c := NewCamera(m, position, direction, up, fovDegrees, width, height, subdivisions);
      && LengthSquared(c.direction) == 1.0
      && LengthSquared(c.up) == 1.0
      && NewCamera(m, c.position, c.direction, c.up, c.fovDegrees, c.width, c.height, c.subdivisions) == c
  {
    var c := NewCamera(m, position, direction, up, fovDegrees, width, height, subdivisions);
    NormalizeUnit(m, direction);
    NormalizeUnit(m, up);
    NormalizeUnitVector(m, c.direction);
    NormalizeUnitVector(m, c.up);
  }

  // ---------------------------------------------------------------------
  // The camera basis

  /** The camera's right, corrected up and forward vectors. */
  datatype Basis = Basis(right: Vec3, up: Vec3, forward: Vec3)

  /** `build_basis`: forward is the view direction, right the normalized
      forward × up, and the corrected up the normalized right × forward. */
  function BuildBasis(m: MathLib, c: Camera): (b: Basis)
    ensures b.forward == c.direction
  {
    var forward := c.direction;
    var right := Normalize(m, Cross(forward, c.up));
    var up := Normalize(m, Cross(right, forward));
    Basis(right, up, forward)
  }

  /** Normalizing a vector keeps it orthogonal to whatever it was orthogonal
      to. */
  lemma NormalizeKeepsOrthogonal(m: MathLib, a: Vec3, v: Vec3)
    requires Lawful(m) && Dot(a, v) == 0.0
    ensures Dot(a, Normalize(m, v)) == 0.0
  {
    if v != Zero() {
      NormalizeIsPositiveMultiple(m, v);
      DotScale(a, v, 1.0 / Length(m, v));
    }
  }

  /** The three basis vectors are pairwise orthogonal, whatever the camera's
      vectors (a degenerate up vector gives zero vectors, which are
      orthogonal to everything). */
  lemma BasisOrthogonal(m: MathLib, c: Camera)
    requires Lawful(m)
    ensures Dot(BuildBasis(m, c).right, BuildBasis(m, c).forward) == 0.0
    ensures Dot(BuildBasis(m, c).up, BuildBasis(m, c).forward) == 0.0
    ensures Dot(BuildBasis(m, c).up, BuildBasis(m, c).right) == 0.0
  {
    var f := c.direction;
    CrossOrthogonal(f, c.up);
    NormalizeKeepsOrthogonal(m, f, Cross(f, c.up));
    var r := Normalize(m, Cross(f, c.up));
    DotSymmetric(f, r);
    CrossOrthogonal(r, f);
    NormalizeKeepsOrthogonal(m, f, Cross(r, f));
    NormalizeKeepsOrthogonal(m, r, Cross(r, f));
    var u := Normalize(m, Cross(r, f));
    DotSymmetric(f, u);
    DotSymmetric(r, u);
  }

  // ---------------------------------------------------------------------
  // The view plane and the sample positions

  /** The view plane at distance 1 from the camera. */
  datatype ViewPlane = ViewPlane(width: real, height: real)

  /** The view plane's height is 2·tan(fov / 2) with the field of view in
      radians, and its width follows the image's aspect ratio. With no rows
      the renderer's quotient is not finite, but no ray is generated then;
      the model puts 0 there. */
  function View(m: MathLib, c: Camera): (v: ViewPlane)
    ensures c.height > 0 ==> v.width * (c.height as real) == v.height * (c.width as real)
  {
    var fovRad := c.fovDegrees * m.pi / 180.0;
    var viewHeight := 2.0 * m.tan(fovRad / 2.0);
    var viewWidth := if c.height == 0 then 0.0 else viewHeight * (c.width as real) / (c.height as real);
    ViewPlane(viewWidth, viewHeight)
  }

  /** `1.0 / sub`, the side of one sample cell in pixel units. With no
      subdivisions no sample is generated, so 0 stands in for the infinite
      quotient. */
  function SampleSize(n: nat): (r: real)
    ensures n > 0 ==> r * (n as real) == 1.0
  {
    if n == 0 then 0.0 else 1.0 / (n as real)
  }

  /** `(s + 0.5) * sample_size`: the centre of sample cell s inside its
      pixel. */
  function Offset(s: nat, n: nat): real {
    (s as real + 0.5) * SampleSize(n)
  }

  /** Every sample centre lies strictly inside its pixel. */
  lemma OffsetInside(s: nat, n: nat)
    requires s < n
    ensures 0.0 < Offset(s, n) < 1.0
  {
    var k := SampleSize(n);
    var centre := s as real + 0.5;
    var count := n as real;
    assert k * count == 1.0;
    assert k > 0.0;
    ProductBelow(centre, count, k);
  }

  /** Multiplying by a positive factor keeps a positive value below a
      larger one. */
  lemma ProductBelow(a: real, b: real, k: real)
    requires 0.0 < a < b && k > 0.0
    ensures 0.0 < a * k < b * k
  {
  }

  /** `(p + offset) / size - 0.5`: a pixel position mapped onto the view
      plane. */
  function ScreenCoordinate(p: nat, offset: real, size: nat): real
    requires size > 0
  {
    (p as real + offset) / (size as real) - 0.5
  }

  /** A sample of a pixel inside the image lands strictly inside
      (-0.5, 0.5). */
  lemma ScreenCoordinateInside(p: nat, s: nat, n: nat, size: nat)
    requires p < size && s < n
    ensures -0.5 < ScreenCoordinate(p, Offset(s, n), size) < 0.5
  {
    OffsetInside(s, n);
    FractionInside(p as real + Offset(s, n), size as real);
  }

  /** A quotient a / b with 0 < a < b lies strictly inside (0, 1). */
  lemma FractionInside(a: real, b: real)
    requires 0.0 < a < b
    ensures 0.0 < a / b < 1.0
  {
    var q := a / b;
    assert q * b == a;
    PositiveFactor(q, b);
    PositiveFactor(1.0 - q, b);
  }

  /** A product with a positive factor is positive only when the other
      factor is. */
  lemma PositiveFactor(x: real, b: real)
    requires b > 0.0 && x * b > 0.0
    ensures x > 0.0
  {
  }

  /** `forward + right * (u * view_width) - up * (v * view_height)`. */
  function SampleDirection(b: Basis, view: ViewPlane, u: real, v: real): Vec3 {
    Sub(Add(b.forward, Scale(b.right, u * view.width)), Scale(b.up, v * view.height))
  }

  /** A sample direction keeps the forward vector's full component: right
      and up are orthogonal to forward. */
  lemma SampleDirectionForward(b: Basis, view: ViewPlane, u: real, v: real)
    requires Dot(b.right, b.forward) == 0.0 && Dot(b.up, b.forward) == 0.0
    ensures Dot(SampleDirection(b, view, u, v), b.forward) == LengthSquared(b.forward)
  {
    var side := Scale(b.right, u * view.width);
    var lift := Scale(b.up, v * view.height);
    DotAdd(Add(b.forward, side), lift, b.forward);
    DotAdd(b.forward, side, b.forward);
    DotScale(b.right, b.forward, u * view.width);
    DotScale(b.up, b.forward, v * view.height);
  }

  /** The ray through sample (sx, sy) of pixel (x, y). */
  function SampleRay(m: MathLib, c: Camera, b: Basis, view: ViewPlane,
                     x: nat, y: nat, sx: nat, sy: nat): Ray
    requires x < c.width && y < c.height
  {
    var n := c.subdivisions;
    var u := ScreenCoordinate(x, Offset(sx, n), c.width);
    var v := ScreenCoordinate(y, Offset(sy, n), c.height);
    NewRay(m, c.position, SampleDirection(b, view, u, v))
  }

  /** Every sample ray starts at the camera, and has a unit direction once
      the camera looks along a unit vector. */
  lemma SampleRayLaws(m: MathLib, c: Camera, x: nat, y: nat, sx: nat, sy: nat)
    requires x < c.width && y < c.height
    ensures SampleRay(m, c, BuildBasis(m, c), View(m, c), x, y, sx, sy).origin == c.position
    ensures Lawful(m) && LengthSquared(c.direction) == 1.0 ==>
      LengthSquared(SampleRay(m, c, BuildBasis(m, c), View(m, c), x, y, sx, sy).direction) == 1.0
  {
    if Lawful(m) && LengthSquared(c.direction) == 1.0 {
      var b := BuildBasis(m, c);
      var n := c.subdivisions;
      var u := ScreenCoordinate(x, Offset(sx, n), c.width);
      var v := ScreenCoordinate(y, Offset(sy, n), c.height);
      var d := SampleDirection(b, View(m, c), u, v);
      BasisOrthogonal(m, c);
      SampleDirectionForward(b, View(m, c), u, v);
      assert d != Zero() by {
        assert Dot(d, b.forward) == 1.0;
      }
      NewRayUnit(m, c.position, d);
    }
  }

  // ---------------------------------------------------------------------
  // The ray grid

  /** One line of samples of a pixel: sample row sy, sx from 0 upwards. */
  function SampleLine(m: MathLib, c: Camera, b: Basis, view: ViewPlane,
                      x: nat, y: nat, sy: nat): (r: seq<Ray>)
    requires x < c.width && y < c.height
    ensures |r| == c.subdivisions
  {
    seq(c.subdivisions, sx requires 0 <= sx < c.subdivisions => SampleRay(m, c, b, view, x, y, sx, sy))
  }

  /** The first k lines of a pixel's samples, sample row after sample row. */
  function PixelSamples(m: MathLib, c: Camera, b: Basis, view: ViewPlane,
                        x: nat, y: nat, k: nat): seq<Ray>
    requires x < c.width && y < c.height
    decreases k
  {
    if k == 0 then [] else PixelSamples(m, c, b, view, x, y, k - 1) + SampleLine(m, c, b, view, x, y, k - 1)
  }

  /** The pixels of image row y. */
  function RowRays(m: MathLib, c: Camera, b: Basis, view: ViewPlane, y: nat): (r: seq<seq<Ray>>)
    requires y < c.height
    ensures |r| == c.width
  {
    seq(c.width, x requires 0 <= x < c.width => PixelSamples(m, c, b, view, x, y, c.subdivisions))
  }

  /** The value of `generate_rays`: rows (y), then pixels (x), then
      samples. */
  function CameraRays(m: MathLib, c: Camera): (r: seq<seq<seq<Ray>>>)
    ensures |r| == c.height
  {
    var b := BuildBasis(m, c);
    var view := View(m, c);
    seq(c.height, y requires 0 <= y < c.height => RowRays(m, c, b, view, y))
  }

  /** `generate_rays`, its four nested loops: rows, pixels, sample rows,
      samples. */
  method GenerateRays(m: MathLib, c: Camera) returns (rays: seq<seq<seq<Ray>>>)
    ensures rays == CameraRays(m, c)
  {
    var b := BuildBasis(m, c);
    var view := View(m, c);
    var n := c.subdivisions;
    rays := [];
    var y := 0;
    while y < c.height
      invariant y <= c.height
      invariant rays == CameraRays(m, c)[..y]
    {
      var row := [];
      var x := 0;
      while x < c.width
        invariant x <= c.width
        invariant row == RowRays(m, c, b, view, y)[..x]
      {
        var samples := [];
        var sy := 0;
        while sy < n
          invariant sy <= n
          invariant samples == PixelSamples(m, c, b, view, x, y, sy)
        {
          var sx := 0;
          while sx < n
            invariant sx <= n
            invariant samples == PixelSamples(m, c, b, view, x, y, sy) + SampleLine(m, c, b, view, x, y, sy)[..sx]
          {
            var offsetX := Offset(sx, n);
            var offsetY := Offset(sy, n);
            var u := ScreenCoordinate(x, offsetX, c.width);
            var v := ScreenCoordinate(y, offsetY, c.height);
            var ray := NewRay(m, c.position, SampleDirection(b, view, u, v));
            assert ray == SampleLine(m, c, b, view, x, y, sy)[sx];
            assert SampleLine(m, c, b, view, x, y, sy)[..sx + 1] == SampleLine(m, c, b, view, x, y, sy)[..sx] + [ray];
            samples := samples + [ray];
            sx := sx + 1;
          }
          assert SampleLine(m, c, b, view, x, y, sy)[..sx] == SampleLine(m, c, b, view, x, y, sy);
          sy := sy + 1;
        }
        assert RowRays(m, c, b, view, y)[..x + 1] == RowRays(m, c, b, view, y)[..x] + [samples];
        row := row + [samples];
        x := x + 1;
      }
      assert row == RowRays(m, c, b, view, y);
      assert CameraRays(m, c)[..y + 1] == CameraRays(m, c)[..y] + [row];
      rays := rays + [row];
      y := y + 1;
    }
  }

  // ---------------------------------------------------------------------
  // Properties of the grid

  /** A pixel holds subdivisions² samples, and the sample of cell (sx, sy)
      sits at position sy * subdivisions + sx: sample rows outer, samples
      inner. */
  lemma {:induction false} PixelSamplesLayout(m: MathLib, c: Camera, b: Basis, view: ViewPlane,
                                              x: nat, y: nat, k: nat)
    requires x < c.width && y < c.height
    ensures |PixelSamples(m, c, b, view, x, y, k)| == GridSize(k, c.subdivisions)
    ensures forall sy, sx :: 0 <= sy < k && 0 <= sx < c.subdivisions ==>
      RowMajor(sy, c.subdivisions, sx) < |PixelSamples(m, c, b, view, x, y, k)| &&
      PixelSamples(m, c, b, view, x, y, k)[RowMajor(sy, c.subdivisions, sx)] == SampleRay(m, c, b, view, x, y, sx, sy)
    decreases k
  {
    var n := c.subdivisions;
    if k > 0 {
      PixelSamplesLayout(m, c, b, view, x, y, k - 1);
      var front := PixelSamples(m, c, b, view, x, y, k - 1);
      var line := SampleLine(m, c, b, view, x, y, k - 1);
      var all := PixelSamples(m, c, b, view, x, y, k);
      assert all == front + line;
      GridSizeStep(k - 1, n);
      forall sy, sx | 0 <= sy < k && 0 <= sx < n
        ensures RowMajor(sy, n, sx) < |all| && all[RowMajor(sy, n, sx)] == SampleRay(m, c, b, view, x, y, sx, sy)
      {
        RowMajorLayout(sy, sx, k - 1, n);
        if sy < k - 1 {
          assert all[RowMajor(sy, n, sx)] == front[RowMajor(sy, n, sx)];
        } else {
          assert all[RowMajor(sy, n, sx)] == line[sx];
        }
      }
    }
  }

  /** The grid has `height` rows of `width` pixels of subdivisions²
      samples, and the sample of cell (sx, sy) of pixel (x, y) is the ray
      through that cell's centre. */
  lemma GenerateRaysLayout(m: MathLib, c: Camera)
    ensures |CameraRays(m, c)| == c.height
    ensures forall y :: 0 <= y < c.height ==> |CameraRays(m, c)[y]| == c.width
    ensures forall y, x :: 0 <= y < c.height && 0 <= x < c.width ==>
      |CameraRays(m, c)[y][x]| == GridSize(c.subdivisions, c.subdivisions)
    ensures forall y, x, sy, sx ::
      0 <= y < c.height && 0 <= x < c.width && 0 <= sy < c.subdivisions && 0 <= sx < c.subdivisions ==>
      RowMajor(sy, c.subdivisions, sx) < |CameraRays(m, c)[y][x]| &&
      CameraRays(m, c)[y][x][RowMajor(sy, c.subdivisions, sx)] ==
        SampleRay(m, c, BuildBasis(m, c), View(m, c), x, y, sx, sy)
  {
    var b := BuildBasis(m, c);
    var view := View(m, c);
    forall y, x | 0 <= y < c.height && 0 <= x < c.width
      ensures CameraRays(m, c)[y][x] == PixelSamples(m, c, b, view, x, y, c.subdivisions)
      ensures |CameraRays(m, c)[y][x]| == GridSize(c.subdivisions, c.subdivisions)
    {
      PixelSamplesLayout(m, c, b, view, x, y, c.subdivisions);
    }
    forall y, x, sy, sx | 0 <= y < c.height && 0 <= x < c.width &&
      0 <= sy < c.subdivisions && 0 <= sx < c.subdivisions
      ensures RowMajor(sy, c.subdivisions, sx) < |CameraRays(m, c)[y][x]|
      ensures CameraRays(m, c)[y][x][RowMajor(sy, c.subdivisions, sx)] == SampleRay(m, c, b, view, x, y, sx, sy)
    {
      PixelSamplesLayout(m, c, b, view, x, y, c.subdivisions);
    }
  }

  /** Every sample of a pixel starts at the camera position, and has a
      unit direction when the camera looks along a unit vector. */
  lemma {:induction false} PixelSamplesLaws(m: MathLib, c: Camera, x: nat, y: nat, k: nat)
    requires x < c.width && y < c.height
    ensures forall i :: 0 <= i < |PixelSamples(m, c, BuildBasis(m, c), View(m, c), x, y, k)| ==>
      PixelSamples(m, c, BuildBasis(m, c), View(m, c), x, y, k)[i].origin == c.position
    ensures Lawful(m) && LengthSquared(c.direction) == 1.0 ==>
      forall i :: 0 <= i < |PixelSamples(m, c, BuildBasis(m, c), View(m, c), x, y, k)| ==>
        LengthSquared(PixelSamples(m, c, BuildBasis(m, c), View(m, c), x, y, k)[i].direction) == 1.0
    decreases k
  {
    if k > 0 {
      var b := BuildBasis(m, c);
      var view := View(m, c);
      PixelSamplesLaws(m, c, x, y, k - 1);
      var front := PixelSamples(m, c, b, view, x, y, k - 1);
      var line := SampleLine(m, c, b, view, x, y, k - 1);
      var all := PixelSamples(m, c, b, view, x, y, k);
      assert all == front + line;
      forall i | 0 <= i < |all|
        ensures all[i].origin == c.position
        ensures Lawful(m) && LengthSquared(c.direction) == 1.0 ==> LengthSquared(all[i].direction) == 1.0
      {
        if i < |front| {
          assert all[i] == front[i];
        } else {
          var sx := i - |front|;
          assert all[i] == line[sx] == SampleRay(m, c, b, view, x, y, sx, k - 1);
          SampleRayLaws(m, c, x, y, sx, k - 1);
        }
      }
    }
  }

  /** Every generated ray starts at the camera position; when the camera
      looks along a unit vector (as `Camera::new` arranges for a non-zero
      direction) every ray direction is a unit vector. */
  lemma GenerateRaysFromCamera(m: MathLib, c: Camera)
    ensures forall y, x, i :: 0 <= y < c.height && 0 <= x < c.width && 0 <= i < |CameraRays(m, c)[y][x]| ==>
      CameraRays(m, c)[y][x][i].origin == c.position
    ensures Lawful(m) && LengthSquared(c.direction) == 1.0 ==>
      forall y, x, i :: 0 <= y < c.height && 0 <= x < c.width && 0 <= i < |CameraRays(m, c)[y][x]| ==>
        LengthSquared(CameraRays(m, c)[y][x][i].direction) == 1.0
  {
    forall y, x | 0 <= y < c.height && 0 <= x < c.width
      ensures forall i :: 0 <= i < |CameraRays(m, c)[y][x]| ==> CameraRays(m, c)[y][x][i].origin == c.position
      ensures Lawful(m) && LengthSquared(c.direction) == 1.0 ==>
        forall i :: 0 <= i < |CameraRays(m, c)[y][x]| ==> LengthSquared(CameraRays(m, c)[y][x][i].direction) == 1.0
    {
      assert CameraRays(m, c)[y][x] == PixelSamples(m, c, BuildBasis(m, c), View(m, c), x, y, c.subdivisions);
      PixelSamplesLaws(m, c, x, y, c.subdivisions);
    }
  }

  /** The unit-tested camera: 90 degrees, 10 by 5 pixels, one sample per
      pixel, looking down +z from the origin. */
  lemma GenerateRaysExample(m: MathLib)
    requires Lawful(m)
    ensures var c := NewCamera(m, Zero(), Vec3(0.0, 0.0, 1.0), Vec3(0.0, 1.0, 0.0), 90.0, 10, 5, 1);
      && c.width == 10 && c.height == 5 && c.fovDegrees == 90.0 && c.subdivisions == 1
      && |CameraRays(m, c)| == 5 && |CameraRays(m, c)[0]| == 10 && |CameraRays(m, c)[0][0]| == 1
      && (forall y, x, i :: 0 <= y < 5 && 0 <= x < 10 && 0 <= i < |CameraRays(m, c)[y][x]| ==>
            CameraRays(m, c)[y][x][i].origin == Zero() && LengthSquared(CameraRays(m, c)[y][x][i].direction) == 1.0)
  {
    var c := NewCamera(m, Zero(), Vec3(0.0, 0.0, 1.0), Vec3(0.0, 1.0, 0.0), 90.0, 10, 5, 1);
    NewCameraUnit(m, Zero(), Vec3(0.0, 0.0, 1.0), Vec3(0.0, 1.0, 0.0), 90.0, 10, 5, 1);
    GenerateRaysLayout(m, c);
    GenerateRaysFromCamera(m, c);
    assert GridSize(1, 1) == 1;
  }
}
