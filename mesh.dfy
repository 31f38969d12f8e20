/** Triangles, the face primitive of meshes (src/raytracer/mesh.rs), and
    the Möller–Trumbore ray-triangle intersection. */
module Meshes {
  import opened Numerics
  import opened Vectors
  import opened Materials
  import opened Rays

  /** Determinants smaller than this in magnitude count as a ray parallel
      to the triangle's plane. */
  const ParallelEpsilon: real := 0.00000001

  datatype Triangle = Triangle(v0: Vec3, v1: Vec3, v2: Vec3, material: Material)

  /** `Triangle::new` stores its arguments. */
  function NewTriangle(v0: Vec3, v1: Vec3, v2: Vec3, material: Material): (tri: Triangle)
    ensures tri.v0 == v0 && tri.v1 == v1 && tri.v2 == v2 && tri.material == material
  {
    Triangle(v0, v1, v2, material)
  }

  function Edge1(tri: Triangle): Vec3 { Sub(tri.v1, tri.v0) }
  function Edge2(tri: Triangle): Vec3 { Sub(tri.v2, tri.v0) }

  /** (v1 - v0) x (v2 - v0), orthogonal to both edges. */
  function NormalUnnormalized(tri: Triangle): (n: Vec3)
    ensures Dot(Edge1(tri), n) == 0.0 && Dot(Edge2(tri), n) == 0.0
  {
    CrossOrthogonal(Edge1(tri), Edge2(tri));
    Cross(Edge1(tri), Edge2(tri))
  }

  /** The normalized face normal; it depends on the vertices only, never
      on a ray, and is never flipped. */
  function Normal(m: MathLib, tri: Triangle): Vec3 {
    Normalize(m, NormalUnnormalized(tri))
  }

  /** Half the length of the edge cross product. */
  function Area(m: MathLib, tri: Triangle): real {
    Length(m, NormalUnnormalized(tri)) * 0.5
  }

  /** The vertex mean, (v0 + v1 + v2) * (1/3). */
  function Centroid(tri: Triangle): (c: Vec3)
    ensures Scale(c, 3.0) == Add(Add(tri.v0, tri.v1), tri.v2)
  {
    Scale(Add(Add(tri.v0, tri.v1), tri.v2), 1.0 / 3.0)
  }

  /** The three edge tests of `contains_point`: each is the edge's cross
      product with the offset to the point, projected on the normal. */
  function EdgeTests(m: MathLib, tri: Triangle, point: Vec3): (real, real, real) {
    var n := Normal(m, tri);
    (Dot(Cross(Sub(tri.v1, tri.v0), Sub(point, tri.v0)), n),
     Dot(Cross(Sub(tri.v2, tri.v1), Sub(point, tri.v1)), n),
     Dot(Cross(Sub(tri.v0, tri.v2), Sub(point, tri.v2)), n))
  }

  /** `contains_point`: the three edge tests are all >= 0 or all <= 0. */
  predicate ContainsPoint(m: MathLib, tri: Triangle, point: Vec3) {
    var (d0, d1, d2) := EdgeTests(m, tri, point);
    (d0 >= 0.0 && d1 >= 0.0 && d2 >= 0.0) || (d0 <= 0.0 && d1 <= 0.0 && d2 <= 0.0)
  }

  /** The smaller or larger of three reals, as chained `min`/`max`. */
  function Min3(a: real, b: real, c: real): (r: real)
    ensures r <= a && r <= b && r <= c
    ensures r == a || r == b || r == c
  {
    Min(Min(a, b), c)
  }

  function Max3(a: real, b: real, c: real): (r: real)
    ensures r >= a && r >= b && r >= c
    ensures r == a || r == b || r == c
  {
    Max(Max(a, b), c)
  }

  /** `lo` is at most `v` and `hi` at least `v`, component by component. */
  predicate Between(lo: Vec3, v: Vec3, hi: Vec3) {
    lo.x <= v.x <= hi.x && lo.y <= v.y <= hi.y && lo.z <= v.z <= hi.z
  }

  /** The axis-aligned bounding box (min corner, max corner): it encloses
      all three vertices, and each bound is attained by some vertex. */
  function Bounds(tri: Triangle): (r: (Vec3, Vec3))
    ensures Between(r.0, tri.v0, r.1) && Between(r.0, tri.v1, r.1) && Between(r.0, tri.v2, r.1)
    ensures r.0.x in {tri.v0.x, tri.v1.x, tri.v2.x} && r.1.x in {tri.v0.x, tri.v1.x, tri.v2.x}
    ensures r.0.y in {tri.v0.y, tri.v1.y, tri.v2.y} && r.1.y in {tri.v0.y, tri.v1.y, tri.v2.y}
    ensures r.0.z in {tri.v0.z, tri.v1.z, tri.v2.z} && r.1.z in {tri.v0.z, tri.v1.z, tri.v2.z}
  {
    (Vec3(Min3(tri.v0.x, tri.v1.x, tri.v2.x),
          Min3(tri.v0.y, tri.v1.y, tri.v2.y),
          Min3(tri.v0.z, tri.v1.z, tri.v2.z)),
     Vec3(Max3(tri.v0.x, tri.v1.x, tri.v2.x),
          Max3(tri.v0.y, tri.v1.y, tri.v2.y),
          Max3(tri.v0.z, tri.v1.z, tri.v2.z)))
  }

  function TriangleMaterial(tri: Triangle): (mat: Material)
    ensures mat == tri.material
  {
    tri.material
  }

  // ---------------------------------------------------------------------
  // Möller–Trumbore

  /** edge1 . (direction x edge2). */
  function Det(tri: Triangle, ray: Ray): real {
    Dot(Edge1(tri), Cross(ray.direction, Edge2(tri)))
  }

  /** inv_det, the reciprocal of the determinant. */
  function InverseDeterminant(tri: Triangle, ray: Ray): real
    requires Det(tri, ray) != 0.0
  {
    1.0 / Det(tri, ray)
  }

  /** The triple products s . (d x edge2), d . (s x edge1) and
      edge2 . (s x edge1), with s = origin - v0. */
  function Triples(tri: Triangle, ray: Ray): Vec3 {
    var s := Sub(ray.origin, tri.v0);
    Vec3(Dot(s, Cross(ray.direction, Edge2(tri))), Dot(ray.direction, Cross(s, Edge1(tri))),
         Dot(Edge2(tri), Cross(s, Edge1(tri))))
  }

  /** (u, v, t): the triple products scaled by inv_det. */
  function Coordinates(tri: Triangle, ray: Ray): Vec3
    requires Det(tri, ray) != 0.0
  {
    Scale(Triples(tri, ray), InverseDeterminant(tri, ray))
  }

  /** u = inv_det * (s . (d x edge2)), the weight of edge1. */
  function BaryU(tri: Triangle, ray: Ray): real
    requires Det(tri, ray) != 0.0
  {
    Coordinates(tri, ray).x
  }

  /** v = inv_det * (d . (s x edge1)), the weight of edge2. */
  function BaryV(tri: Triangle, ray: Ray): real
    requires Det(tri, ray) != 0.0
  {
    Coordinates(tri, ray).y
  }

  /** t = inv_det * (edge2 . (s x edge1)), the ray parameter. */
  function HitT(tri: Triangle, ray: Ray): real
    requires Det(tri, ray) != 0.0
  {
    Coordinates(tri, ray).z
  }

  /** `Triangle::intersect`: none for a near-parallel ray, a first
      coordinate outside [0, 1], a negative second coordinate, a coordinate
      sum above 1, or a parameter that is not positive; otherwise the hit at
      that parameter with the triangle's fixed normal and material. */
  function TriangleIntersect(m: MathLib, tri: Triangle, ray: Ray): (r: Option<Intersection>)
    ensures r.Some? ==> r.value.t > 0.0
    ensures r.Some? ==> r.value.point == At(ray, r.value.t)
    ensures r.Some? ==> r.value.normal == Normal(m, tri)
    ensures r.Some? ==> r.value.material == tri.material
  {
    var det := Det(tri, ray);
    if Abs(det) < ParallelEpsilon then None
    else
      var u := BaryU(tri, ray);
      if u < 0.0 || u > 1.0 then None
      else
        var v := BaryV(tri, ray);
        if v < 0.0 || u + v > 1.0 then None
        else
          var t := HitT(tri, ray);
          if t > 0.0 then Some(NewIntersection(t, At(ray, t), Normal(m, tri), tri.material))
          else None
  }

  /** The point with barycentric coordinates (u, v): v0 + u*edge1 + v*edge2. */
  function BarycentricPoint(tri: Triangle, u: real, v: real): Vec3 {
    Add(Add(tri.v0, Scale(Edge1(tri), u)), Scale(Edge2(tri), v))
  }

  /** The point lies in the closed triangle: coordinates u, v >= 0 with
      u + v <= 1. */
  predicate InTriangle(tri: Triangle, p: Vec3, u: real, v: real) {
    u >= 0.0 && v >= 0.0 && u + v <= 1.0 && p == BarycentricPoint(tri, u, v)
  }

  /** Cramer's rule in coordinates: with p = d x b, q = s x a,
      det = a . p, U = s . p, V = d . q and T = b . q, each component
      satisfies U a + V b - T d == det s. */
  lemma CramerScalar(d1: real, d2: real, d3: real, a1: real, a2: real, a3: real,
                     b1: real, b2: real, b3: real, s1: real, s2: real, s3: real)
    ensures
      var p1, p2, p3 := d2 * b3 - d3 * b2, d3 * b1 - d1 * b3, d1 * b2 - d2 * b1;
      var q1, q2, q3 := s2 * a3 - s3 * a2, s3 * a1 - s1 * a3, s1 * a2 - s2 * a1;
      var det := a1 * p1 + a2 * p2 + a3 * p3;
      var uu := s1 * p1 + s2 * p2 + s3 * p3;
      var vv := d1 * q1 + d2 * q2 + d3 * q3;
      var tt := b1 * q1 + b2 * q2 + b3 * q3;
      && a1 * uu + b1 * vv - d1 * tt == s1 * det
      && a2 * uu + b2 * vv - d2 * tt == s2 * det
      && a3 * uu + b3 * vv - d3 * tt == s3 * det
  {
  }

  /** Cramer's rule for the Möller–Trumbore system: the unnormalized
      coordinates (U, V, T) satisfy U*edge1 + V*edge2 - T*d == det*s. */
  lemma Cramer(d: Vec3, a: Vec3, b: Vec3, s: Vec3)
    ensures var det := Dot(a, Cross(d, b));
            var uu := Dot(s, Cross(d, b));
            var vv := Dot(d, Cross(s, a));
            var tt := Dot(b, Cross(s, a));
            Sub(Add(Scale(a, uu), Scale(b, vv)), Scale(d, tt)) == Scale(s, det)
  {
    CombinationComponents(a, b, d, Dot(s, Cross(d, b)), Dot(d, Cross(s, a)), Dot(b, Cross(s, a)));
    ScaleComponents(s, Dot(a, Cross(d, b)));
    CramerDots(d, a, b, s);
  }

  lemma ScaleComponents(a: Vec3, k: real)
    ensures Scale(a, k) == Vec3(a.x * k, a.y * k, a.z * k)
  {
  }

  /** Cramer's rule component by component, over the triple products. */
  lemma CramerDots(d: Vec3, a: Vec3, b: Vec3, s: Vec3)
    ensures var det := Dot(a, Cross(d, b));
            var uu := Dot(s, Cross(d, b));
            var vv := Dot(d, Cross(s, a));
            var tt := Dot(b, Cross(s, a));
            && a.x * uu + b.x * vv - d.x * tt == s.x * det
            && a.y * uu + b.y * vv - d.y * tt == s.y * det
            && a.z * uu + b.z * vv - d.z * tt == s.z * det
  {
    TripleExpanded(a, d, b);
    TripleExpanded(s, d, b);
    TripleExpanded(d, s, a);
    TripleExpanded(b, s, a);
    CramerSolved(d.x, d.y, d.z, a.x, a.y, a.z, b.x, b.y, b.z, s.x, s.y, s.z,
                 Dot(a, Cross(d, b)), Dot(s, Cross(d, b)), Dot(d, Cross(s, a)), Dot(b, Cross(s, a)));
  }

  /** The triple product x . (y x z) written out in coordinates. */
  lemma TripleExpanded(x: Vec3, y: Vec3, z: Vec3)
    ensures Dot(x, Cross(y, z))
         == x.x * (y.y * z.z - y.z * z.y) + x.y * (y.z * z.x - y.x * z.z) + x.z * (y.x * z.y - y.y * z.x)
  {
  }

  /** u*a + v*b - t*d, component by component. */
  lemma CombinationComponents(a: Vec3, b: Vec3, d: Vec3, u: real, v: real, t: real)
    ensures Sub(Add(Scale(a, u), Scale(b, v)), Scale(d, t))
         == Vec3(a.x * u + b.x * v - d.x * t, a.y * u + b.y * v - d.y * t, a.z * u + b.z * v - d.z * t)
  {
  }

  /** CramerScalar for coordinates given by their expanded triple
      products. */
  lemma CramerSolved(d1: real, d2: real, d3: real, a1: real, a2: real, a3: real,
                     b1: real, b2: real, b3: real, s1: real, s2: real, s3: real,
                     det: real, uu: real, vv: real, tt: real)
    requires det == a1 * (d2 * b3 - d3 * b2) + a2 * (d3 * b1 - d1 * b3) + a3 * (d1 * b2 - d2 * b1)
    requires uu == s1 * (d2 * b3 - d3 * b2) + s2 * (d3 * b1 - d1 * b3) + s3 * (d1 * b2 - d2 * b1)
    requires vv == d1 * (s2 * a3 - s3 * a2) + d2 * (s3 * a1 - s1 * a3) + d3 * (s1 * a2 - s2 * a1)
    requires tt == b1 * (s2 * a3 - s3 * a2) + b2 * (s3 * a1 - s1 * a3) + b3 * (s1 * a2 - s2 * a1)
    ensures a1 * uu + b1 * vv - d1 * tt == s1 * det
    ensures a2 * uu + b2 * vv - d2 * tt == s2 * det
    ensures a3 * uu + b3 * vv - d3 * tt == s3 * det
  {
    CramerSolvedX(d1, d2, d3, a1, a2, a3, b1, b2, b3, s1, s2, s3, det, uu, vv, tt);
    CramerSolvedY(d1, d2, d3, a1, a2, a3, b1, b2, b3, s1, s2, s3, det, uu, vv, tt);
    CramerSolvedZ(d1, d2, d3, a1, a2, a3, b1, b2, b3, s1, s2, s3, det, uu, vv, tt);
  }

  lemma CramerSolvedX(d1: real, d2: real, d3: real, a1: real, a2: real, a3: real,
                     b1: real, b2: real, b3: real, s1: real, s2: real, s3: real,
                     det: real, uu: real, vv: real, tt: real)
    requires det == a1 * (d2 * b3 - d3 * b2) + a2 * (d3 * b1 - d1 * b3) + a3 * (d1 * b2 - d2 * b1)
    requires uu == s1 * (d2 * b3 - d3 * b2) + s2 * (d3 * b1 - d1 * b3) + s3 * (d1 * b2 - d2 * b1)
    requires vv == d1 * (s2 * a3 - s3 * a2) + d2 * (s3 * a1 - s1 * a3) + d3 * (s1 * a2 - s2 * a1)
    requires tt == b1 * (s2 * a3 - s3 * a2) + b2 * (s3 * a1 - s1 * a3) + b3 * (s1 * a2 - s2 * a1)
    ensures a1 * uu + b1 * vv - d1 * tt == s1 * det
  {
    CramerScalar(d1, d2, d3, a1, a2, a3, b1, b2, b3, s1, s2, s3);
  }

  lemma CramerSolvedY(d1: real, d2: real, d3: real, a1: real, a2: real, a3: real,
                     b1: real, b2: real, b3: real, s1: real, s2: real, s3: real,
                     det: real, uu: real, vv: real, tt: real)
    requires det == a1 * (d2 * b3 - d3 * b2) + a2 * (d3 * b1 - d1 * b3) + a3 * (d1 * b2 - d2 * b1)
    requires uu == s1 * (d2 * b3 - d3 * b2) + s2 * (d3 * b1 - d1 * b3) + s3 * (d1 * b2 - d2 * b1)
    requires vv == d1 * (s2 * a3 - s3 * a2) + d2 * (s3 * a1 - s1 * a3) + d3 * (s1 * a2 - s2 * a1)
    requires tt == b1 * (s2 * a3 - s3 * a2) + b2 * (s3 * a1 - s1 * a3) + b3 * (s1 * a2 - s2 * a1)
    ensures a2 * uu + b2 * vv - d2 * tt == s2 * det
  {
    CramerScalar(d1, d2, d3, a1, a2, a3, b1, b2, b3, s1, s2, s3);
  }

  lemma CramerSolvedZ(d1: real, d2: real, d3: real, a1: real, a2: real, a3: real,
                     b1: real, b2: real, b3: real, s1: real, s2: real, s3: real,
                     det: real, uu: real, vv: real, tt: real)
    requires det == a1 * (d2 * b3 - d3 * b2) + a2 * (d3 * b1 - d1 * b3) + a3 * (d1 * b2 - d2 * b1)
    requires uu == s1 * (d2 * b3 - d3 * b2) + s2 * (d3 * b1 - d1 * b3) + s3 * (d1 * b2 - d2 * b1)
    requires vv == d1 * (s2 * a3 - s3 * a2) + d2 * (s3 * a1 - s1 * a3) + d3 * (s1 * a2 - s2 * a1)
    requires tt == b1 * (s2 * a3 - s3 * a2) + b2 * (s3 * a1 - s1 * a3) + b3 * (s1 * a2 - s2 * a1)
    ensures a3 * uu + b3 * vv - d3 * tt == s3 * det
  {
    CramerScalar(d1, d2, d3, a1, a2, a3, b1, b2, b3, s1, s2, s3);
  }

  /** The reported hit point is the point of the triangle with the
      computed barycentric coordinates: a hit is always on the triangle. */
  lemma TriangleHitOnTriangle(m: MathLib, tri: Triangle, ray: Ray)
    requires TriangleIntersect(m, tri, ray).Some?
    ensures Det(tri, ray) != 0.0
    ensures TriangleIntersect(m, tri, ray).value.t == HitT(tri, ray)
    ensures InTriangle(tri, TriangleIntersect(m, tri, ray).value.point, BaryU(tri, ray), BaryV(tri, ray))
  {
    HitPointOnPlane(tri, ray);
  }

  /** For a non-parallel ray, the point at the computed parameter is the
      barycentric point with the computed coordinates. */
  lemma HitPointOnPlane(tri: Triangle, ray: Ray)
    requires Det(tri, ray) != 0.0
    ensures At(ray, HitT(tri, ray)) == BarycentricPoint(tri, BaryU(tri, ray), BaryV(tri, ray))
  {
    PlaneCramer(tri, ray);
    AtBarycentric(ray, tri, BaryU(tri, ray), BaryV(tri, ray), HitT(tri, ray));
  }

  /** The computed coordinates solve u*edge1 + v*edge2 - t*d == origin - v0. */
  lemma PlaneCramer(tri: Triangle, ray: Ray)
    requires Det(tri, ray) != 0.0
    ensures Sub(Add(Scale(Edge1(tri), BaryU(tri, ray)), Scale(Edge2(tri), BaryV(tri, ray))),
                Scale(ray.direction, HitT(tri, ray)))
         == Sub(ray.origin, tri.v0)
  {
    Cramer(ray.direction, Edge1(tri), Edge2(tri), Sub(ray.origin, tri.v0));
    InverseProduct(tri, ray);
    ScaledCramer(ray.direction, Edge1(tri), Edge2(tri), Sub(ray.origin, tri.v0),
                 Triples(tri, ray), Det(tri, ray), InverseDeterminant(tri, ray));
  }

  lemma InverseProduct(tri: Triangle, ray: Ray)
    requires Det(tri, ray) != 0.0
    ensures InverseDeterminant(tri, ray) * Det(tri, ray) == 1.0
  {
  }

  /** A solution of u*edge1 + v*edge2 - t*d == origin - v0 puts the ray's
      point at t on the barycentric point (u, v). */
  lemma AtBarycentric(ray: Ray, tri: Triangle, u: real, v: real, t: real)
    requires Sub(Add(Scale(Edge1(tri), u), Scale(Edge2(tri), v)), Scale(ray.direction, t))
          == Sub(ray.origin, tri.v0)
    ensures At(ray, t) == BarycentricPoint(tri, u, v)
  {
    CombinationComponents(Edge1(tri), Edge2(tri), ray.direction, u, v, t);
    SubComponents(ray.origin, tri.v0);
    AtComponents(ray, t);
    BarycentricComponents(tri, u, v);
  }

  /** The converse of AtBarycentric. */
  lemma BarycentricOffset(ray: Ray, tri: Triangle, u: real, v: real, t: real)
    requires At(ray, t) == BarycentricPoint(tri, u, v)
    ensures Sub(ray.origin, tri.v0)
         == Sub(Add(Scale(Edge1(tri), u), Scale(Edge2(tri), v)), Scale(ray.direction, t))
  {
    CombinationComponents(Edge1(tri), Edge2(tri), ray.direction, u, v, t);
    SubComponents(ray.origin, tri.v0);
    AtComponents(ray, t);
    BarycentricComponents(tri, u, v);
  }

  lemma SubComponents(a: Vec3, b: Vec3)
    ensures Sub(a, b) == Vec3(a.x - b.x, a.y - b.y, a.z - b.z)
  {
  }

  lemma AtComponents(ray: Ray, t: real)
    ensures At(ray, t) == Vec3(ray.origin.x + ray.direction.x * t,
                               ray.origin.y + ray.direction.y * t,
                               ray.origin.z + ray.direction.z * t)
  {
  }

  lemma BarycentricComponents(tri: Triangle, u: real, v: real)
    ensures var a, b := Edge1(tri), Edge2(tri);
            (BarycentricPoint(tri, u, v)
             == Vec3(tri.v0.x + a.x * u + b.x * v, tri.v0.y + a.y * u + b.y * v, tri.v0.z + a.z * u + b.z * v))
  {
    var a, b := Edge1(tri), Edge2(tri);
    ScaleComponents(a, u);
    ScaleComponents(b, v);
  }

  /** Dividing the Cramer identity through by the determinant. */
  lemma ScaledCramer(d: Vec3, a: Vec3, b: Vec3, s: Vec3, w: Vec3, det: real, k: real)
    requires Sub(Add(Scale(a, w.x), Scale(b, w.y)), Scale(d, w.z)) == Scale(s, det)
    requires k * det == 1.0
    ensures Sub(Add(Scale(a, Scale(w, k).x), Scale(b, Scale(w, k).y)), Scale(d, Scale(w, k).z)) == s
  {
    ScaledCramerX(d, a, b, s, w, det, k);
    ScaledCramerY(d, a, b, s, w, det, k);
    ScaledCramerZ(d, a, b, s, w, det, k);
  }

  lemma ScaledCramerX(d: Vec3, a: Vec3, b: Vec3, s: Vec3, w: Vec3, det: real, k: real)
    requires Sub(Add(Scale(a, w.x), Scale(b, w.y)), Scale(d, w.z)) == Scale(s, det)
    requires k * det == 1.0
    ensures Sub(Add(Scale(a, Scale(w, k).x), Scale(b, Scale(w, k).y)), Scale(d, Scale(w, k).z)).x == s.x
  {
    CombinationComponents(a, b, d, w.x, w.y, w.z);
    ScaleComponents(s, det);
    ScaleComponents(w, k);
    CombinationComponents(a, b, d, Scale(w, k).x, Scale(w, k).y, Scale(w, k).z);
    ScaledComponent(a.x, b.x, d.x, s.x, w.x, w.y, w.z, det, k, Scale(w, k).x, Scale(w, k).y, Scale(w, k).z);
  }

  lemma ScaledCramerY(d: Vec3, a: Vec3, b: Vec3, s: Vec3, w: Vec3, det: real, k: real)
    requires Sub(Add(Scale(a, w.x), Scale(b, w.y)), Scale(d, w.z)) == Scale(s, det)
    requires k * det == 1.0
    ensures Sub(Add(Scale(a, Scale(w, k).x), Scale(b, Scale(w, k).y)), Scale(d, Scale(w, k).z)).y == s.y
  {
    CombinationComponents(a, b, d, w.x, w.y, w.z);
    ScaleComponents(s, det);
    ScaleComponents(w, k);
    CombinationComponents(a, b, d, Scale(w, k).x, Scale(w, k).y, Scale(w, k).z);
    ScaledComponent(a.y, b.y, d.y, s.y, w.x, w.y, w.z, det, k, Scale(w, k).x, Scale(w, k).y, Scale(w, k).z);
  }

  lemma ScaledCramerZ(d: Vec3, a: Vec3, b: Vec3, s: Vec3, w: Vec3, det: real, k: real)
    requires Sub(Add(Scale(a, w.x), Scale(b, w.y)), Scale(d, w.z)) == Scale(s, det)
    requires k * det == 1.0
    ensures Sub(Add(Scale(a, Scale(w, k).x), Scale(b, Scale(w, k).y)), Scale(d, Scale(w, k).z)).z == s.z
  {
    CombinationComponents(a, b, d, w.x, w.y, w.z);
    ScaleComponents(s, det);
    ScaleComponents(w, k);
    CombinationComponents(a, b, d, Scale(w, k).x, Scale(w, k).y, Scale(w, k).z);
    ScaledComponent(a.z, b.z, d.z, s.z, w.x, w.y, w.z, det, k, Scale(w, k).x, Scale(w, k).y, Scale(w, k).z);
  }

  /** Scaling by det and then by its reciprocal changes nothing. */
  lemma ScaleInverse(s: Vec3, det: real, k: real)
    requires k * det == 1.0
    ensures Scale(Scale(s, det), k) == s
  {
  }

  lemma ScaledComponent(a: real, b: real, d: real, s: real, uu: real, vv: real, tt: real,
                        det: real, k: real, u: real, v: real, t: real)
    requires a * uu + b * vv - d * tt == s * det
    requires k * det == 1.0
    requires u == uu * k && v == vv * k && t == tt * k
    ensures a * u + b * v - d * t == s
  {
    assert a * u + b * v - d * t == k * (a * uu + b * vv - d * tt);
    assert k * (s * det) == s * (k * det);
  }

  /** The triple products recover the coordinates, in components. */
  lemma RecoverScalar(d1: real, d2: real, d3: real, a1: real, a2: real, a3: real,
                      b1: real, b2: real, b3: real, t: real, u: real, v: real)
    ensures
      var s1, s2, s3 := a1 * u + b1 * v - d1 * t, a2 * u + b2 * v - d2 * t, a3 * u + b3 * v - d3 * t;
      var p1, p2, p3 := d2 * b3 - d3 * b2, d3 * b1 - d1 * b3, d1 * b2 - d2 * b1;
      var q1, q2, q3 := s2 * a3 - s3 * a2, s3 * a1 - s1 * a3, s1 * a2 - s2 * a1;
      var det := a1 * p1 + a2 * p2 + a3 * p3;
      && s1 * p1 + s2 * p2 + s3 * p3 == u * det
      && d1 * q1 + d2 * q2 + d3 * q3 == v * det
      && b1 * q1 + b2 * q2 + b3 * q3 == t * det
  {
  }

  /** RecoverScalar for a point and triple products given by name. */
  lemma RecoverSolved(d1: real, d2: real, d3: real, a1: real, a2: real, a3: real,
                      b1: real, b2: real, b3: real, s1: real, s2: real, s3: real,
                      t: real, u: real, v: real, det: real, su: real, sv: real, st: real)
    requires s1 == a1 * u + b1 * v - d1 * t
    requires s2 == a2 * u + b2 * v - d2 * t
    requires s3 == a3 * u + b3 * v - d3 * t
    requires det == a1 * (d2 * b3 - d3 * b2) + a2 * (d3 * b1 - d1 * b3) + a3 * (d1 * b2 - d2 * b1)
    requires su == s1 * (d2 * b3 - d3 * b2) + s2 * (d3 * b1 - d1 * b3) + s3 * (d1 * b2 - d2 * b1)
    requires sv == d1 * (s2 * a3 - s3 * a2) + d2 * (s3 * a1 - s1 * a3) + d3 * (s1 * a2 - s2 * a1)
    requires st == b1 * (s2 * a3 - s3 * a2) + b2 * (s3 * a1 - s1 * a3) + b3 * (s1 * a2 - s2 * a1)
    ensures su == u * det && sv == v * det && st == t * det
  {
    RecoverScalar(d1, d2, d3, a1, a2, a3, b1, b2, b3, t, u, v);
  }

  /** The coordinates of a point written as u*a + v*b - t*d are recovered
      by the three triple products. */
  lemma RecoverComponents(d: Vec3, a: Vec3, b: Vec3, s: Vec3, t: real, u: real, v: real, det: real)
    requires s == Sub(Add(Scale(a, u), Scale(b, v)), Scale(d, t))
    requires det == Dot(a, Cross(d, b))
    ensures Vec3(Dot(s, Cross(d, b)), Dot(d, Cross(s, a)), Dot(b, Cross(s, a))) == Scale(Vec3(u, v, t), det)
  {
    RecoverDots(d, a, b, s, t, u, v, det);
    ScaleComponents(Vec3(u, v, t), det);
  }

  lemma RecoverDots(d: Vec3, a: Vec3, b: Vec3, s: Vec3, t: real, u: real, v: real, det: real)
    requires s == Sub(Add(Scale(a, u), Scale(b, v)), Scale(d, t))
    requires det == Dot(a, Cross(d, b))
    ensures Dot(s, Cross(d, b)) == u * det
    ensures Dot(d, Cross(s, a)) == v * det
    ensures Dot(b, Cross(s, a)) == t * det
  {
    CombinationComponents(a, b, d, u, v, t);
    TripleExpanded(a, d, b);
    TripleExpanded(s, d, b);
    TripleExpanded(d, s, a);
    TripleExpanded(b, s, a);
    RecoverSolved(d.x, d.y, d.z, a.x, a.y, a.z, b.x, b.y, b.z, s.x, s.y, s.z, t, u, v,
                  det, Dot(s, Cross(d, b)), Dot(d, Cross(s, a)), Dot(b, Cross(s, a)));
  }

  /** Conversely, when the ray is not near-parallel and meets the closed
      triangle at a positive parameter t, the intersection reports a hit
      at exactly that t. */
  lemma TriangleHitComplete(m: MathLib, tri: Triangle, ray: Ray, t: real, u: real, v: real)
    requires Abs(Det(tri, ray)) >= ParallelEpsilon
    requires t > 0.0
    requires InTriangle(tri, At(ray, t), u, v)
    ensures TriangleIntersect(m, tri, ray).Some?
    ensures TriangleIntersect(m, tri, ray).value.t == t
  {
    CoordinatesRecovered(tri, ray, t, u, v);
  }

  /** The computed coordinates of a ray that meets the plane at the
      barycentric point (u, v) at parameter t are exactly u, v and t. */
  lemma CoordinatesRecovered(tri: Triangle, ray: Ray, t: real, u: real, v: real)
    requires Det(tri, ray) != 0.0
    requires At(ray, t) == BarycentricPoint(tri, u, v)
    ensures Coordinates(tri, ray) == Vec3(u, v, t)
  {
    BarycentricOffset(ray, tri, u, v, t);
    RecoverComponents(ray.direction, Edge1(tri), Edge2(tri), Sub(ray.origin, tri.v0), t, u, v, Det(tri, ray));
    InverseProduct(tri, ray);
    ScaleInverse(Vec3(u, v, t), Det(tri, ray), InverseDeterminant(tri, ray));
  }

  /** The decision table of the source, one rejection rule at a time. */
  lemma TriangleRejections(m: MathLib, tri: Triangle, ray: Ray)
    ensures Abs(Det(tri, ray)) < ParallelEpsilon ==> TriangleIntersect(m, tri, ray).None?
    ensures Abs(Det(tri, ray)) >= ParallelEpsilon ==>
              var u, v := BaryU(tri, ray), BaryV(tri, ray);
              && (u < 0.0 || u > 1.0 ==> TriangleIntersect(m, tri, ray).None?)
              && (v < 0.0 || u + v > 1.0 ==> TriangleIntersect(m, tri, ray).None?)
              && (HitT(tri, ray) <= 0.0 ==> TriangleIntersect(m, tri, ray).None?)
  {
  }

  /** Every vertex passes `contains_point`: at a vertex two of the edge
      tests vanish, so all three share a sign. */
  lemma VerticesContained(m: MathLib, tri: Triangle)
    ensures ContainsPoint(m, tri, tri.v0)
    ensures ContainsPoint(m, tri, tri.v1)
    ensures ContainsPoint(m, tri, tri.v2)
  {
    CrossSelf(Sub(tri.v1, tri.v0));
    CrossSelf(Sub(tri.v2, tri.v1));
    CrossSelf(Sub(tri.v0, tri.v2));
  }

  lemma CrossSelf(a: Vec3)
    ensures Cross(a, a) == Zero()
    ensures Cross(a, Zero()) == Zero()
  {
  }

  /** Under the library laws the area is never negative, and is zero
      exactly for a degenerate triangle (parallel edges). */
  lemma AreaLaws(m: MathLib, tri: Triangle)
    requires Lawful(m)
    ensures Area(m, tri) >= 0.0
    ensures Area(m, tri) == 0.0 <==> NormalUnnormalized(tri) == Zero()
  {
    LengthLaws(m, NormalUnnormalized(tri));
  }

  /** The tests' triangles: the unit right triangle in the z = 0 plane has
      normal (0,0,1); legs of length 2 give area 2; legs of length 3 give
      centroid (1,1,0). */
  lemma ShapeExamples(m: MathLib, mat: Material, t1: Triangle, t2: Triangle, t3: Triangle)
    requires Lawful(m)
    requires t1 == Triangle(Zero(), Vec3(1.0, 0.0, 0.0), Vec3(0.0, 1.0, 0.0), mat)
    requires t2 == Triangle(Zero(), Vec3(2.0, 0.0, 0.0), Vec3(0.0, 2.0, 0.0), mat)
    requires t3 == Triangle(Zero(), Vec3(3.0, 0.0, 0.0), Vec3(0.0, 3.0, 0.0), mat)
    ensures Normal(m, t1) == Vec3(0.0, 0.0, 1.0)
    ensures Area(m, t2) == 2.0
    ensures Centroid(t3) == Vec3(1.0, 1.0, 0.0)
  {
    RightTriangleNormal(m, t1, 1.0);
    RightTriangleArea(m, t2, 2.0);
    RightTriangleCentroid(t3, 3.0);
  }

  /** A right triangle with legs of length k > 0 along the x and y axes:
      the unnormalized normal is k^2 along z. */
  lemma RightTriangleCross(tri: Triangle, k: real)
    requires tri == Triangle(Zero(), Vec3(k, 0.0, 0.0), Vec3(0.0, k, 0.0), tri.material)
    ensures NormalUnnormalized(tri) == Vec3(0.0, 0.0, k * k)
  {
  }

  lemma RightTriangleNormal(m: MathLib, tri: Triangle, k: real)
    requires Lawful(m)
    requires k > 0.0
    requires tri == Triangle(Zero(), Vec3(k, 0.0, 0.0), Vec3(0.0, k, 0.0), tri.material)
    ensures Normal(m, tri) == Vec3(0.0, 0.0, 1.0)
  {
    RightTriangleCross(tri, k);
    AxisLength(m, k * k);
    assert Div(Vec3(0.0, 0.0, k * k), k * k) == Vec3(0.0, 0.0, 1.0);
  }

  lemma RightTriangleArea(m: MathLib, tri: Triangle, k: real)
    requires Lawful(m)
    requires k > 0.0
    requires tri == Triangle(Zero(), Vec3(k, 0.0, 0.0), Vec3(0.0, k, 0.0), tri.material)
    ensures Area(m, tri) == k * k * 0.5
  {
    RightTriangleCross(tri, k);
    AxisLength(m, k * k);
  }

  /** The vector (0, 0, h) for h > 0 has length h. */
  lemma AxisLength(m: MathLib, h: real)
    requires Lawful(m)
    requires h > 0.0
    ensures Length(m, Vec3(0.0, 0.0, h)) == h
  {
    assert LengthSquared(Vec3(0.0, 0.0, h)) == h * h;
    SqrtOfSquare(m, h);
  }

  lemma RightTriangleCentroid(tri: Triangle, k: real)
    requires tri == Triangle(Zero(), Vec3(k, 0.0, 0.0), Vec3(0.0, k, 0.0), tri.material)
    ensures Centroid(tri) == Vec3(k / 3.0, k / 3.0, 0.0)
  {
  }

  /** A ray from the origin with direction (0, 0, d), d not below the
      parallel threshold, meets the triangle (0,0,h), (1,0,h), (0,1,h) at
      its first vertex, at t = h / d, for every h > 0. */
  lemma AxisRayHits(m: MathLib, tri: Triangle, ray: Ray, h: real, d: real)
    requires h > 0.0 && d >= ParallelEpsilon
    requires tri == Triangle(Vec3(0.0, 0.0, h), Vec3(1.0, 0.0, h), Vec3(0.0, 1.0, h), tri.material)
    requires ray == Ray(Zero(), Vec3(0.0, 0.0, d))
    ensures TriangleIntersect(m, tri, ray).Some?
    ensures TriangleIntersect(m, tri, ray).value.t == h / d
  {
    AxisRayDet(tri, ray, h, d);
    AxisRayTriples(tri, ray, h, d);
    AxisRayCoordinates(tri, ray, h, d);
    AxisRayIntersect(m, tri, ray, h, d);
  }

  lemma AxisRayDet(tri: Triangle, ray: Ray, h: real, d: real)
    requires tri == Triangle(Vec3(0.0, 0.0, h), Vec3(1.0, 0.0, h), Vec3(0.0, 1.0, h), tri.material)
    requires ray == Ray(Zero(), Vec3(0.0, 0.0, d))
    ensures Det(tri, ray) == -d
  {
  }

  lemma AxisRayTriples(tri: Triangle, ray: Ray, h: real, d: real)
    requires tri == Triangle(Vec3(0.0, 0.0, h), Vec3(1.0, 0.0, h), Vec3(0.0, 1.0, h), tri.material)
    requires ray == Ray(Zero(), Vec3(0.0, 0.0, d))
    ensures Triples(tri, ray) == Vec3(0.0, 0.0, -h)
  {
  }

  lemma AxisRayCoordinates(tri: Triangle, ray: Ray, h: real, d: real)
    requires d != 0.0
    requires Det(tri, ray) == -d
    requires Triples(tri, ray) == Vec3(0.0, 0.0, -h)
    ensures Coordinates(tri, ray) == Vec3(0.0, 0.0, h / d)
  {
    AxisScale(h, d);
    InverseProduct(tri, ray);
    ScaleInverse(Vec3(0.0, 0.0, h / d), Det(tri, ray), InverseDeterminant(tri, ray));
  }

  lemma AxisRayIntersect(m: MathLib, tri: Triangle, ray: Ray, h: real, d: real)
    requires h > 0.0 && d >= ParallelEpsilon
    requires Det(tri, ray) == -d
    requires Coordinates(tri, ray) == Vec3(0.0, 0.0, h / d)
    ensures TriangleIntersect(m, tri, ray).Some?
    ensures TriangleIntersect(m, tri, ray).value.t == h / d
  {
  }

  lemma AxisScale(h: real, d: real)
    requires d != 0.0
    ensures Scale(Vec3(0.0, 0.0, h / d), -d) == Vec3(0.0, 0.0, -h)
  {
  }

  /** A ray along the x axis is parallel to the plane z = h of that
      triangle and misses it. */
  lemma AxisRayParallel(m: MathLib, tri: Triangle, ray: Ray, h: real, d: real)
    requires tri == Triangle(Vec3(0.0, 0.0, h), Vec3(1.0, 0.0, h), Vec3(0.0, 1.0, h), tri.material)
    requires ray == Ray(Zero(), Vec3(d, 0.0, 0.0))
    ensures Det(tri, ray) == 0.0
    ensures TriangleIntersect(m, tri, ray).None?
  {
    assert Det(tri, ray) == 0.0;
    ParallelMiss(m, tri, ray);
  }

  /** A ray exactly parallel to the plane is rejected. */
  lemma ParallelMiss(m: MathLib, tri: Triangle, ray: Ray)
    requires Det(tri, ray) == 0.0
    ensures TriangleIntersect(m, tri, ray).None?
  {
  }
}
