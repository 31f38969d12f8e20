/** The closed family of renderable surfaces (the `Surface` trait of
    src/raytracer/mod.rs and its implementations in sphere.rs and mesh.rs).
    The renderer only ever intersects spheres and triangles, so the trait
    becomes a sum type and each trait method a dispatch on it. */
module Surfaces {
  import opened Numerics
  import opened Vectors
  import opened Materials
  import opened Rays
  import opened Spheres
  import opened Meshes

  datatype Surface =
    | SphereSurface(sphere: Sphere)
    | TriangleSurface(triangle: Triangle)

  /** `Surface::material`: the material the surface was built with. */
  function SurfaceMaterial(s: Surface): (mat: Material)
    ensures s.SphereSurface? ==> mat == s.sphere.material
    ensures s.TriangleSurface? ==> mat == s.triangle.material
  {
    match s
    case SphereSurface(sp) => SphereMaterial(sp)
    case TriangleSurface(tri) => TriangleMaterial(tri)
  }

  /** `Surface::intersect`: every reported hit lies in front of the ray
      origin, on the ray, and carries the surface's own material. */
  function Intersect(m: MathLib, s: Surface, ray: Ray): (r: Option<Intersection>)
    ensures r.Some? ==> r.value.t > 0.0
    ensures r.Some? ==> r.value.point == At(ray, r.value.t)
    ensures r.Some? ==> r.value.material == SurfaceMaterial(s)
  {
    match s
    case SphereSurface(sp) => SphereIntersect(m, sp, ray)
    case TriangleSurface(tri) => TriangleIntersect(m, tri, ray)
  }

  /** The outward normal a surface reports at a hit: the sphere's radial
      direction at the hit point, or the triangle's fixed face normal. */
  lemma IntersectNormal(m: MathLib, s: Surface, ray: Ray)
    requires Intersect(m, s, ray).Some?
    ensures s.SphereSurface? ==>
      Intersect(m, s, ray).value.normal == NormalAt(m, s.sphere, Intersect(m, s, ray).value.point)
    ensures s.TriangleSurface? ==> Intersect(m, s, ray).value.normal == Normal(m, s.triangle)
  {
  }
}
