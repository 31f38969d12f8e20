/** Rays and the records that intersections and branching produce
    (src/raytracer/mod.rs). */
module Rays {
  import opened Numerics
  import opened Vectors
  import opened Materials

  /** A half-line; `NewRay` normalizes the direction. */
  datatype Ray = Ray(origin: Vec3, direction: Vec3)

  /** What a ray-surface intersection reports. */
  datatype Intersection = Intersection(t: real, point: Vec3, normal: Vec3, material: Material)

  /** One continuation ray with its weight and the material it travels in. */
  datatype BranchedRay = BranchedRay(ray: Ray, weight: real, passingMaterial: Material)

  /** `Ray::new`: the origin is kept and the direction normalized. */
  function NewRay(m: MathLib, origin: Vec3, direction: Vec3): (r: Ray)
    ensures r.origin == origin
    ensures r.direction == Normalize(m, direction)
    ensures direction == Zero() ==> r.direction == Zero()
  {
    Ray(origin, Normalize(m, direction))
  }

  /** `Ray::at`: origin + direction * t. */
  function At(ray: Ray, t: real): (p: Vec3)
    ensures t == 0.0 ==> p == ray.origin
    ensures Sub(p, ray.origin) == Scale(ray.direction, t)
  {
    Add(ray.origin, Scale(ray.direction, t))
  }

  /** `Intersection::new` stores its four arguments. */
  function NewIntersection(t: real, point: Vec3, normal: Vec3, material: Material): (r: Intersection)
    ensures r.t == t && r.point == point && r.normal == normal && r.material == material
  {
    Intersection(t, point, normal, material)
  }

  /** A ray built from a non-zero direction has a unit direction. */
  lemma NewRayUnit(m: MathLib, origin: Vec3, direction: Vec3)
    requires Lawful(m)
    requires direction != Zero()
    ensures LengthSquared(NewRay(m, origin, direction).direction) == 1.0
  {
    NormalizeUnit(m, direction);
  }

  /** Along a unit direction, the point at parameter t lies at distance t
      (squared) from the origin. */
  lemma AtDistance(ray: Ray, t: real)
    requires LengthSquared(ray.direction) == 1.0
    ensures LengthSquared(Sub(At(ray, t), ray.origin)) == t * t
  {
    var d := ray.direction;
    DotScale(d, Scale(d, t), t);
    DotScale(d, d, t);
  }
}
