/** Spherical light sources (src/raytracer/light.rs). A light is hit with
    the same root selection as a sphere and reports a placeholder material. */
module Lights {
  import opened Numerics
  import opened Vectors
  import opened Materials
  import opened Rays
  import opened Spheres

  datatype Light = Light(center: Vec3, radius: real, emission: Color)

  /** `Light::new` stores its arguments. */
  function NewLight(center: Vec3, radius: real, emission: Color): (l: Light)
    ensures l.center == center && l.radius == radius && l.emission == emission
  {
    Light(center, radius, emission)
  }

  /** The material reported for a light hit: black albedo, all rates zero,
      refractive index 1, black absorption. */
  function DummyMaterial(): (mat: Material)
    ensures mat.albedo == Black() && mat.absorption == Black()
    ensures mat.diffuseRate == 0.0 && mat.specularRate == 0.0 && mat.transmissionRate == 0.0
    ensures mat.refractiveIndex == 1.0
  {
    NewMaterial(Black(), 0.0, 0.0, 0.0, 1.0, Black())
  }

  function LightNormalAt(m: MathLib, l: Light, point: Vec3): Vec3 {
    Normalize(m, Sub(point, l.center))
  }

  predicate LightContainsPoint(l: Light, point: Vec3) {
    LengthSquared(Sub(point, l.center)) <= l.radius * l.radius
  }

  function LightSurfaceArea(m: MathLib, l: Light): real {
    4.0 * m.pi * l.radius * l.radius
  }

  /** Mean emission channel times surface area. */
  function LuminousFlux(m: MathLib, l: Light): real {
    (l.emission.r + l.emission.g + l.emission.b) / 3.0 * LightSurfaceArea(m, l)
  }

  /** `Light::intersect`: the sphere root selection, with the light's
      outward normal and the placeholder material. */
  function LightIntersect(m: MathLib, l: Light, ray: Ray): (r: Option<Intersection>)
    ensures r.Some? ==> r.value.t > 0.0
    ensures r.Some? ==> r.value.point == At(ray, r.value.t)
    ensures r.Some? ==> r.value.normal == LightNormalAt(m, l, r.value.point)
    ensures r.Some? ==> r.value.material == DummyMaterial()
    ensures Discriminant(RayQuadratic(ray, l.center, l.radius)) < 0.0 ==> r.None?
  {
    match NearestPositiveRoot(m, RayQuadratic(ray, l.center, l.radius))
    case None => None
    case Some(t) =>
      var point := At(ray, t);
      Some(NewIntersection(t, point, LightNormalAt(m, l, point), DummyMaterial()))
  }

  /** A light is hit exactly where a sphere of the same centre and radius
      would be, with the same parameter, point and normal; only the
      material differs. */
  lemma LightMatchesSphere(m: MathLib, l: Light, ray: Ray, mat: Material)
    ensures var lh := LightIntersect(m, l, ray);
            var sh := SphereIntersect(m, Sphere(l.center, l.radius, mat), ray);
            && (lh.Some? <==> sh.Some?)
            && (lh.Some? ==> lh.value == sh.value.(material := DummyMaterial()))
  {
  }

  /** Under exact arithmetic the light is hit at the ray's nearest positive
      meeting with its surface, and missed when there is none. */
  lemma LightIntersectSpec(m: MathLib, l: Light, ray: Ray)
    requires Lawful(m)
    requires ray.direction != Zero()
    ensures LightIntersect(m, l, ray).None? <==>
              forall u :: OnSphere(l.center, l.radius, ray, u) ==> u <= 0.0
    ensures LightIntersect(m, l, ray).Some? ==>
              var t := LightIntersect(m, l, ray).value.t;
              && OnSphere(l.center, l.radius, ray, t)
              && forall u :: OnSphere(l.center, l.radius, ray, u) && u > 0.0 ==> t <= u
  {
    BallHitSpec(m, ray, l.center, l.radius);
  }

  /** The tests' light at (0,0,5) with radius 1 is hit at t = 4 by the ray
      along +z and missed by the ray along +x. */
  lemma LightIntersectExamples(m: MathLib, l: Light)
    requires Lawful(m)
    requires l.center == Vec3(0.0, 0.0, 5.0) && l.radius == 1.0
    ensures LightIntersect(m, l, NewRay(m, Zero(), Vec3(0.0, 0.0, 1.0))).Some?
    ensures LightIntersect(m, l, NewRay(m, Zero(), Vec3(0.0, 0.0, 1.0))).value.t == 4.0
    ensures LightIntersect(m, l, NewRay(m, Zero(), Vec3(1.0, 0.0, 0.0))).None?
  {
    var s := Sphere(l.center, l.radius, DummyMaterial());
    IntersectExamples(m, s);
    LightMatchesSphere(m, l, NewRay(m, Zero(), Vec3(0.0, 0.0, 1.0)), DummyMaterial());
    LightMatchesSphere(m, l, NewRay(m, Zero(), Vec3(1.0, 0.0, 0.0)), DummyMaterial());
  }

  /** A light's area is that of the sphere with its centre and radius, so
      the unit light's area is 4 pi. A non-negative emission with a
      non-negative pi gives a non-negative flux, and a white light's flux
      is its surface area. */
  lemma LuminousFluxLaws(m: MathLib, l: Light)
    ensures LightSurfaceArea(m, l) == SurfaceArea(m, Sphere(l.center, l.radius, DummyMaterial()))
    ensures l.radius == 1.0 ==> LightSurfaceArea(m, l) == 4.0 * m.pi
    ensures m.pi >= 0.0 && NonNegative(l.emission) ==> LuminousFlux(m, l) >= 0.0
    ensures l.emission == White() ==> LuminousFlux(m, l) == LightSurfaceArea(m, l)
  {
    var area := LightSurfaceArea(m, l);
    SphereMeasures(m, Sphere(l.center, l.radius, DummyMaterial()));
    var mean := (l.emission.r + l.emission.g + l.emission.b) / 3.0;
    if m.pi >= 0.0 && NonNegative(l.emission) {
      var rr := l.radius * l.radius;
      SquareSign(l.radius);
      assert area == (4.0 * m.pi) * rr;
      ProductNonNegative(4.0 * m.pi, rr);
      ProductNonNegative(mean, area);
    }
  }

  /** The tests' containment cases for the unit light at the origin. */
  lemma LightContainsPointExamples(l: Light)
    requires l.center == Zero() && l.radius == 1.0
    ensures LightContainsPoint(l, Vec3(0.0, 0.0, 0.0))
    ensures LightContainsPoint(l, Vec3(0.5, 0.0, 0.0))
    ensures !LightContainsPoint(l, Vec3(2.0, 0.0, 0.0))
  {
    assert LengthSquared(Vec3(0.5, 0.0, 0.0)) == 0.25;
    assert LengthSquared(Vec3(2.0, 0.0, 0.0)) == 4.0;
  }
}
