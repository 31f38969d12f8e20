/** Colours and surface materials (src/raytracer/material.rs). */
module Materials {
  import opened Numerics

  /** Linear light energy per channel; values above 1.0 are allowed (HDR). */
  datatype Color = Color(r: real, g: real, b: real)

  function Black(): Color { Color(0.0, 0.0, 0.0) }
  function White(): Color { Color(1.0, 1.0, 1.0) }
  function Red(): Color { Color(1.0, 0.0, 0.0) }
  function Green(): Color { Color(0.0, 1.0, 0.0) }
  function Blue(): Color { Color(0.0, 0.0, 1.0) }

  /** `Color + Color`. */
  function AddColors(a: Color, b: Color): Color {
    Color(a.r + b.r, a.g + b.g, a.b + b.b)
  }

  /** `Color * Float`. */
  function ScaleColor(c: Color, s: real): Color {
    Color(c.r * s, c.g * s, c.b * s)
  }

  /** `Float * Color`, which the source defines as `rhs * self`. */
  function ScaleColorLeft(s: real, c: Color): Color {
    ScaleColor(c, s)
  }

  /** `Color * Color`, channel by channel. */
  function MulColors(a: Color, b: Color): Color {
    Color(a.r * b.r, a.g * b.g, a.b * b.b)
  }

  /** Every channel is at least zero. */
  predicate NonNegative(c: Color) {
    c.r >= 0.0 && c.g >= 0.0 && c.b >= 0.0
  }

  /** How a surface scatters, reflects, transmits and absorbs light. */
  datatype Material = Material(
    albedo: Color,
    diffuseRate: real,
    specularRate: real,
    transmissionRate: real,
    refractiveIndex: real,
    absorption: Color)

  /** The three rates lie in [0, 1]; they need not sum to 1. */
  predicate RatesInRange(m: Material) {
    && 0.0 <= m.diffuseRate <= 1.0
    && 0.0 <= m.specularRate <= 1.0
    && 0.0 <= m.transmissionRate <= 1.0
  }

  /** `Material::new`: the three rates are clamped into [0, 1] (a rate already
      in range is kept, one below is raised to 0, one above is lowered to 1);
      albedo, refractive index and absorption are stored as given. */
  function NewMaterial(albedo: Color, diffuseRate: real, specularRate: real,
                       transmissionRate: real, refractiveIndex: real,
                       absorption: Color): (r: Material)
    ensures RatesInRange(r)
    ensures r.diffuseRate == Clamp01(diffuseRate)
    ensures r.specularRate == Clamp01(specularRate)
    ensures r.transmissionRate == Clamp01(transmissionRate)
    ensures r.albedo == albedo && r.refractiveIndex == refractiveIndex && r.absorption == absorption
  {
    Material(albedo,
             Min(Max(diffuseRate, 0.0), 1.0),
             Min(Max(specularRate, 0.0), 1.0),
             Min(Max(transmissionRate, 0.0), 1.0),
             refractiveIndex,
             absorption)
  }

  /** A purely diffuse material. */
  function Matte(albedo: Color, diffuseRate: real): (r: Material)
    ensures r.specularRate == 0.0 && r.transmissionRate == 0.0
    ensures r.refractiveIndex == 1.0 && r.absorption == Black()
    ensures r.diffuseRate == Clamp01(diffuseRate) && r.albedo == albedo
  {
    NewMaterial(albedo, diffuseRate, 0.0, 0.0, 1.0, Black())
  }

  /** A purely specular material. */
  function Mirror(albedo: Color, specularRate: real): (r: Material)
    ensures r.diffuseRate == 0.0 && r.transmissionRate == 0.0
    ensures r.refractiveIndex == 1.0 && r.absorption == Black()
    ensures r.specularRate == Clamp01(specularRate) && r.albedo == albedo
  {
    NewMaterial(albedo, 0.0, specularRate, 0.0, 1.0, Black())
  }

  /** A purely transmissive (dielectric) material. */
  function Transparent(albedo: Color, transmissionRate: real, refractiveIndex: real): (r: Material)
    ensures r.diffuseRate == 0.0 && r.specularRate == 0.0
    ensures r.transmissionRate == Clamp01(transmissionRate)
    ensures r.refractiveIndex == refractiveIndex && r.absorption == Black() && r.albedo == albedo
  {
    NewMaterial(albedo, 0.0, 0.0, transmissionRate, refractiveIndex, Black())
  }

  /** White Lambertian surface with diffuse rate 0.8. */
  function DiffuseSurface(): (r: Material)
    ensures r == Matte(White(), 0.8)
    ensures r.diffuseRate == 0.8 && r.specularRate == 0.0 && r.transmissionRate == 0.0
  {
    Matte(White(), 0.8)
  }

  function PerfectMirror(): (r: Material)
    ensures r.specularRate == 1.0 && r.diffuseRate == 0.0 && r.transmissionRate == 0.0
  {
    Mirror(White(), 1.0)
  }

  /** Glass: no diffuse part, specular 0.1, refractive index 1.5, white
      albedo, no absorption, and the given transmission rate clamped. */
  function Glass(transmissionRate: real): (r: Material)
    ensures r.diffuseRate == 0.0 && r.specularRate == 0.1
    ensures r.transmissionRate == Clamp01(transmissionRate)
    ensures r.refractiveIndex == 1.5 && r.albedo == White() && r.absorption == Black()
  {
    NewMaterial(White(), 0.0, 0.1, transmissionRate, 1.5, Black())
  }

  /** Metals are opaque: no transmission. */
  function Metal(albedo: Color, specularRate: real, diffuseRate: real): (r: Material)
    ensures r.transmissionRate == 0.0
    ensures r.specularRate == Clamp01(specularRate) && r.diffuseRate == Clamp01(diffuseRate)
    ensures r.refractiveIndex == 1.0 && r.absorption == Black() && r.albedo == albedo
  {
    NewMaterial(albedo, diffuseRate, specularRate, 0.0, 1.0, Black())
  }

  function PerfectMetal(): (r: Material)
    ensures r.specularRate == 1.0 && r.diffuseRate == 0.0 && r.transmissionRate == 0.0
  {
    Metal(White(), 1.0, 0.0)
  }

  // ---------------------------------------------------------------------
  // Colour algebra

  /** Black is the identity of `+` and absorbs under colour product; white
      is the identity of colour product; scalar product commutes. */
  lemma ColorIdentities(c: Color, s: real)
    ensures AddColors(c, Black()) == c && AddColors(Black(), c) == c
    ensures MulColors(c, Black()) == Black() && MulColors(Black(), c) == Black()
    ensures MulColors(c, White()) == c && MulColors(White(), c) == c
    ensures ScaleColorLeft(s, c) == ScaleColor(c, s)
  {
  }

  /** The values the source's unit tests check. */
  lemma ColorExamples()
    ensures AddColors(Color(0.3, 0.4, 0.5), Color(0.1, 0.2, 0.3)) == Color(0.4, 0.6, 0.8)
    ensures ScaleColor(Color(0.5, 0.6, 0.7), 2.0) == Color(1.0, 1.2, 1.4)
    ensures MulColors(Color(0.5, 0.6, 0.8), Color(0.2, 0.5, 0.5)) == Color(0.1, 0.3, 0.4)
  {
  }

  /** Products and sums of non-negative colours stay non-negative. */
  lemma NonNegativeClosed(a: Color, b: Color, s: real)
    requires NonNegative(a) && NonNegative(b) && s >= 0.0
    ensures NonNegative(AddColors(a, b))
    ensures NonNegative(MulColors(a, b))
    ensures NonNegative(ScaleColor(a, s))
  {
    ProductNonNegative(a.r, b.r);
    ProductNonNegative(a.g, b.g);
    ProductNonNegative(a.b, b.b);
    assert MulColors(a, b) == Color(a.r * b.r, a.g * b.g, a.b * b.b);
    ProductNonNegative(a.r, s);
    ProductNonNegative(a.g, s);
    ProductNonNegative(a.b, s);
    assert ScaleColor(a, s) == Color(a.r * s, a.g * s, a.b * s);
  }

  lemma ProductNonNegative(x: real, y: real)
    requires x >= 0.0 && y >= 0.0
    ensures x * y >= 0.0
  {
  }
}
