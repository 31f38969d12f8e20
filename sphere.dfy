/** Spheres and the quadratic root selection that spheres and spherical
    lights share (src/raytracer/sphere.rs). */
module Spheres {
  import opened Numerics
  import opened Vectors
  import opened Materials
  import opened Rays

  datatype Sphere = Sphere(center: Vec3, radius: real, material: Material)

  /** `Sphere::new` stores its arguments. */
  function NewSphere(center: Vec3, radius: real, material: Material): (s: Sphere)
    ensures s.center == center && s.radius == radius && s.material == material
  {
    Sphere(center, radius, material)
  }

  // ---------------------------------------------------------------------
  // The quadratic |O + tD - C|^2 = r^2

  /** Coefficients of a*t^2 + b*t + c. */
  datatype Quadratic = Quadratic(a: real, b: real, c: real)

  /** The quadratic whose roots are the ray parameters at which the ray
      meets the sphere around `center` with radius `radius`. */
  function RayQuadratic(ray: Ray, center: Vec3, radius: real): (q: Quadratic)
    ensures q.a >= 0.0
  {
    var oc := Sub(ray.origin, center);
    var d := ray.direction;
    Quadratic(LengthSquared(d), 2.0 * Dot(oc, d), Dot(oc, oc) - radius * radius)
  }

  function Discriminant(q: Quadratic): real {
    q.b * q.b - 4.0 * q.a * q.c
  }

  /** The value a*u^2 + b*u + c. */
  function Eval(q: Quadratic, u: real): real {
    q.a * u * u + q.b * u + q.c
  }

  predicate IsRoot(q: Quadratic, u: real) {
    q.a * u * u + q.b * u + q.c == 0.0
  }

  /** The two candidate roots (-b -/+ sqrt(disc)) / 2a. */
  function SmallRoot(m: MathLib, q: Quadratic): real
    requires q.a != 0.0
  {
    (-q.b - m.sqrt(Discriminant(q))) / (2.0 * q.a)
  }

  function LargeRoot(m: MathLib, q: Quadratic): real
    requires q.a != 0.0
  {
    (-q.b + m.sqrt(Discriminant(q))) / (2.0 * q.a)
  }

  /** The parameter the intersection code picks: none for a negative
      discriminant, else t1 when it is positive, else t2 when it is
      positive, else none. With a == 0 (a zero direction) the `f32` roots
      are 0/0, NaN, which fails both tests, so the result is none. */
  function NearestPositiveRoot(m: MathLib, q: Quadratic): (r: Option<real>)
    ensures r.Some? ==> r.value > 0.0
    ensures Discriminant(q) < 0.0 ==> r.None?
    ensures q.a == 0.0 ==> r.None?
  {
    if Discriminant(q) < 0.0 || q.a == 0.0 then None
    else if SmallRoot(m, q) > 0.0 then Some(SmallRoot(m, q))
    else if LargeRoot(m, q) > 0.0 then Some(LargeRoot(m, q))
    else None
  }

  lemma ProductZero(x: real, y: real)
    requires x * y == 0.0
    ensures x == 0.0 || y == 0.0
  {
  }

  /** 4a(a u^2 + b u + c) == (2au + b)^2 - disc. */
  lemma CompleteSquare(q: Quadratic, u: real)
    ensures 4.0 * q.a * (q.a * u * u + q.b * u + q.c)
         == (2.0 * q.a * u + q.b) * (2.0 * q.a * u + q.b) - Discriminant(q)
  {
  }

  /** Any u with 2au == -b + s, where s*s is the discriminant, is a root. */
  lemma RootFromSquare(q: Quadratic, s: real, u: real)
    requires q.a != 0.0
    requires s * s == Discriminant(q)
    requires u * (2.0 * q.a) == -q.b + s
    ensures IsRoot(q, u)
  {
    CompleteSquare(q, u);
    var w := 2.0 * q.a * u + q.b;
    assert w == s;
    assert 4.0 * q.a * (q.a * u * u + q.b * u + q.c) == 0.0;
    ProductZero(4.0 * q.a, q.a * u * u + q.b * u + q.c);
  }

  /** Under the library laws, with a != 0 and a non-negative discriminant,
      both candidates are roots, and every root is one of them. */
  lemma CandidatesAreTheRoots(m: MathLib, q: Quadratic, u: real)
    requires Lawful(m)
    requires q.a != 0.0 && Discriminant(q) >= 0.0
    ensures IsRoot(q, SmallRoot(m, q)) && IsRoot(q, LargeRoot(m, q))
    ensures IsRoot(q, u) ==> u == SmallRoot(m, q) || u == LargeRoot(m, q)
  {
    var s := m.sqrt(Discriminant(q));
    SqrtLaws(m, Discriminant(q));
    CandidateRoots(q, s, SmallRoot(m, q), LargeRoot(m, q), u);
  }

  /** With s*s the discriminant, (-b - s)/2a and (-b + s)/2a are roots and
      there are no others. */
  lemma CandidateRoots(q: Quadratic, s: real, lo: real, hi: real, u: real)
    requires q.a != 0.0 && s * s == Discriminant(q)
    requires lo == (-q.b - s) / (2.0 * q.a) && hi == (-q.b + s) / (2.0 * q.a)
    ensures IsRoot(q, lo) && IsRoot(q, hi)
    ensures IsRoot(q, u) ==> u == lo || u == hi
  {
    var den := 2.0 * q.a;
    DivideBack(-q.b - s, den);
    DivideBack(-q.b + s, den);
    RootFromSquare(q, -s, lo);
    RootFromSquare(q, s, hi);
    if IsRoot(q, u) {
      RootIsCandidate(q, s, u);
      if u * den == -q.b + s {
        DivideOut(u, den, -q.b + s);
      } else {
        DivideOut(u, den, -q.b - s);
      }
    }
  }

  lemma DivideBack(x: real, den: real)
    requires den != 0.0
    ensures (x / den) * den == x
  {
  }

  lemma DivideOut(u: real, den: real, x: real)
    requires den != 0.0 && u * den == x
    ensures u == x / den
  {
  }

  /** A root u satisfies 2au == -b + s or 2au == -b - s, where s*s is the
      discriminant. */
  lemma RootIsCandidate(q: Quadratic, s: real, u: real)
    requires q.a != 0.0
    requires s * s == Discriminant(q)
    requires IsRoot(q, u)
    ensures u * (2.0 * q.a) == -q.b + s || u * (2.0 * q.a) == -q.b - s
  {
    CompleteSquare(q, u);
    var w := 2.0 * q.a * u + q.b;
    assert q.a * u * u + q.b * u + q.c == 0.0;
    assert w * w - s * s == 0.0;
    assert (w - s) * (w + s) == w * w - s * s;
    ProductZero(w - s, w + s);
  }

  /** A quadratic with a root has a non-negative discriminant. */
  lemma RootNeedsDiscriminant(q: Quadratic, u: real)
    requires q.a != 0.0
    ensures IsRoot(q, u) ==> Discriminant(q) >= 0.0
  {
    CompleteSquare(q, u);
    var w := 2.0 * q.a * u + q.b;
    SquareSign(w);
  }

  /** For a > 0 the candidate t1 never exceeds t2. */
  lemma RootOrder(m: MathLib, q: Quadratic)
    requires Lawful(m)
    requires q.a > 0.0 && Discriminant(q) >= 0.0
    ensures SmallRoot(m, q) <= LargeRoot(m, q)
  {
    var s := m.sqrt(Discriminant(q));
    var den := 2.0 * q.a;
    assert -q.b - s <= -q.b + s;
    assert (-q.b - s) / den <= (-q.b + s) / den;
  }

  /** The root selection returns exactly the least positive root of the
      quadratic, and nothing when it has no positive root. */
  lemma NearestPositiveRootSpec(m: MathLib, q: Quadratic)
    requires Lawful(m)
    requires q.a > 0.0
    ensures NearestPositiveRoot(m, q).None? <==> (forall u :: IsRoot(q, u) ==> u <= 0.0)
    ensures NearestPositiveRoot(m, q).Some? ==>
              var t := NearestPositiveRoot(m, q).value;
              IsRoot(q, t) && t > 0.0 && (forall u :: IsRoot(q, u) && u > 0.0 ==> t <= u)
  {
    if Discriminant(q) < 0.0 {
      forall u ensures !IsRoot(q, u) {
        RootNeedsDiscriminant(q, u);
      }
    } else {
      RootOrder(m, q);
      CandidatesAreTheRoots(m, q, 0.0);
      forall u | IsRoot(q, u)
        ensures u == SmallRoot(m, q) || u == LargeRoot(m, q)
      {
        CandidatesAreTheRoots(m, q, u);
      }
    }
  }

  /** The ray meets the sphere at parameter u exactly when u is a root of
      the ray's quadratic. */
  lemma RayQuadraticMeaning(ray: Ray, center: Vec3, radius: real, u: real)
    ensures LengthSquared(Sub(At(ray, u), center)) - radius * radius
         == Eval(RayQuadratic(ray, center, radius), u)
    ensures IsRoot(RayQuadratic(ray, center, radius), u)
        <==> LengthSquared(Sub(At(ray, u), center)) == radius * radius
  {
    var oc := Sub(ray.origin, center);
    var d := ray.direction;
    OffsetComponents(ray, center, u);
    OffsetSquare(oc, d, u, radius);
  }

  lemma OffsetComponents(ray: Ray, center: Vec3, u: real)
    ensures var oc := Sub(ray.origin, center);
            var d := ray.direction;
            Sub(At(ray, u), center) == Vec3(oc.x + d.x * u, oc.y + d.y * u, oc.z + d.z * u)
  {
  }

  /** |o + d u|^2 - r^2, expanded as a polynomial in u. */
  lemma OffsetSquare(o: Vec3, d: Vec3, u: real, r: real)
    ensures LengthSquared(Vec3(o.x + d.x * u, o.y + d.y * u, o.z + d.z * u)) - r * r
         == Eval(Quadratic(LengthSquared(d), 2.0 * Dot(o, d), Dot(o, o) - r * r), u)
  {
    var px := o.x + d.x * u;
    var py := o.y + d.y * u;
    var pz := o.z + d.z * u;
    assert LengthSquared(Vec3(px, py, pz)) == px * px + py * py + pz * pz;
    ExpandSum(o.x, o.y, o.z, d.x, d.y, d.z, u, r, px, py, pz);
  }

  lemma ExpandSum(ox: real, oy: real, oz: real, dx: real, dy: real, dz: real, u: real, r: real,
                  px: real, py: real, pz: real)
    requires px == ox + dx * u && py == oy + dy * u && pz == oz + dz * u
    ensures px * px + py * py + pz * pz - r * r
         == (dx * dx + dy * dy + dz * dz) * u * u
          + (2.0 * (ox * dx + oy * dy + oz * dz)) * u
          + ((ox * ox + oy * oy + oz * oz) - r * r)
  {
    SquareExpand(ox, dx, u);
    SquareExpand(oy, dy, u);
    SquareExpand(oz, dz, u);
  }

  lemma SquareExpand(o: real, d: real, u: real)
    ensures (o + d * u) * (o + d * u) == o * o + 2.0 * (o * d) * u + (d * d) * u * u
  {
  }

  // ---------------------------------------------------------------------
  // Sphere operations

  /** `normal_at`: the normalized offset from the centre; outward, never
      flipped toward the ray. */
  function NormalAt(m: MathLib, s: Sphere, point: Vec3): Vec3 {
    Normalize(m, Sub(point, s.center))
  }

  /** Off the centre the normal is a unit vector pointing away from the
      centre, towards the point: it is never turned towards a ray. */
  lemma NormalOutward(m: MathLib, s: Sphere, point: Vec3)
    requires Lawful(m)
    requires point != s.center
    ensures LengthSquared(NormalAt(m, s, point)) == 1.0
    ensures Dot(NormalAt(m, s, point), Sub(point, s.center)) > 0.0
  {
    var v := Sub(point, s.center);
    assert v != Zero();
    NormalizeUnit(m, v);
    NormalizeIsPositiveMultiple(m, v);
    var k := 1.0 / Length(m, v);
    assert k > 0.0;
    DotScale(v, v, k);
    LengthSquaredZero(v);
    DotSymmetric(v, v);
    assert Dot(Scale(v, k), v) == k * LengthSquared(v);
  }

  /** Squared distance to the centre at most radius squared. */
  predicate ContainsPoint(s: Sphere, point: Vec3) {
    LengthSquared(Sub(point, s.center)) <= s.radius * s.radius
  }

  function SurfaceArea(m: MathLib, s: Sphere): real {
    4.0 * m.pi * s.radius * s.radius
  }

  function Volume(m: MathLib, s: Sphere): real {
    4.0 / 3.0 * m.pi * s.radius * s.radius * s.radius
  }

  /** The closed forms 4 pi r^2 and 4/3 pi r^3: the unit sphere's area is
      4 pi and its volume 4/3 pi, the volume is a third of area times
      radius, and both are non-negative when pi is (the volume for a
      non-negative radius). */
  lemma SphereMeasures(m: MathLib, s: Sphere)
    ensures s.radius == 1.0 ==> SurfaceArea(m, s) == 4.0 * m.pi && Volume(m, s) == 4.0 / 3.0 * m.pi
    ensures 3.0 * Volume(m, s) == SurfaceArea(m, s) * s.radius
    ensures m.pi >= 0.0 ==> SurfaceArea(m, s) >= 0.0
    ensures m.pi >= 0.0 && s.radius >= 0.0 ==> Volume(m, s) >= 0.0
  {
    var rr := s.radius * s.radius;
    assert SurfaceArea(m, s) == (4.0 * m.pi) * rr;
    assert Volume(m, s) == (4.0 / 3.0 * m.pi) * rr * s.radius;
    if m.pi >= 0.0 {
      SquareSign(s.radius);
      ProductNonNegative(4.0 * m.pi, rr);
      if s.radius >= 0.0 {
        ProductNonNegative(4.0 / 3.0 * m.pi, rr);
        ProductNonNegative((4.0 / 3.0 * m.pi) * rr, s.radius);
      }
    }
  }

  function SphereMaterial(s: Sphere): (mat: Material)
    ensures mat == s.material
  {
    s.material
  }

  /** `Sphere::intersect`: the hit at the selected root, with the point on
      the ray, the outward normal and the sphere's own material. */
  function SphereIntersect(m: MathLib, s: Sphere, ray: Ray): (r: Option<Intersection>)
    ensures r.Some? ==> r.value.t > 0.0
    ensures r.Some? ==> r.value.point == At(ray, r.value.t)
    ensures r.Some? ==> r.value.normal == NormalAt(m, s, r.value.point)
    ensures r.Some? ==> r.value.material == s.material
    ensures r.Some? <==> NearestPositiveRoot(m, RayQuadratic(ray, s.center, s.radius)).Some?
    ensures Discriminant(RayQuadratic(ray, s.center, s.radius)) < 0.0 ==> r.None?
  {
    match NearestPositiveRoot(m, RayQuadratic(ray, s.center, s.radius))
    case None => None
    case Some(t) =>
      var point := At(ray, t);
      Some(NewIntersection(t, point, NormalAt(m, s, point), s.material))
  }

  /** A point on the ray lies on the sphere's surface. */
  predicate OnSphere(center: Vec3, radius: real, ray: Ray, u: real) {
    LengthSquared(Sub(At(ray, u), center)) == radius * radius
  }

  /** Under exact arithmetic a ray with a non-zero direction misses the
      ball exactly when no positive parameter reaches its surface, and
      otherwise the reported parameter is the nearest positive one. */
  lemma BallHitSpec(m: MathLib, ray: Ray, center: Vec3, radius: real)
    requires Lawful(m)
    requires ray.direction != Zero()
    ensures var r := NearestPositiveRoot(m, RayQuadratic(ray, center, radius));
            && (r.None? <==> forall u :: OnSphere(center, radius, ray, u) ==> u <= 0.0)
            && (r.Some? ==> OnSphere(center, radius, ray, r.value))
            && (r.Some? ==> forall u :: OnSphere(center, radius, ray, u) && u > 0.0 ==> r.value <= u)
  {
    var q := RayQuadratic(ray, center, radius);
    LengthSquaredZero(ray.direction);
    NearestPositiveRootSpec(m, q);
    forall u ensures OnSphere(center, radius, ray, u) <==> IsRoot(q, u) {
      RayQuadraticMeaning(ray, center, radius, u);
    }
  }

  /** The sphere's hit is the ray's nearest positive meeting with its
      surface; there is none exactly when the ray never reaches it ahead. */
  lemma SphereIntersectSpec(m: MathLib, s: Sphere, ray: Ray)
    requires Lawful(m)
    requires ray.direction != Zero()
    ensures SphereIntersect(m, s, ray).None? <==>
              forall u :: OnSphere(s.center, s.radius, ray, u) ==> u <= 0.0
    ensures SphereIntersect(m, s, ray).Some? ==>
              var t := SphereIntersect(m, s, ray).value.t;
              && LengthSquared(Sub(SphereIntersect(m, s, ray).value.point, s.center)) == s.radius * s.radius
              && forall u :: OnSphere(s.center, s.radius, ray, u) && u > 0.0 ==> t <= u
  {
    BallHitSpec(m, ray, s.center, s.radius);
  }

  /** Containment examples of the source's tests, for the unit sphere at
      the origin. */
  lemma ContainsPointExamples(mat: Material)
    ensures LengthSquared(Vec3(0.5, 0.0, 0.0)) == 0.25
    ensures ContainsPoint(Sphere(Zero(), 1.0, mat), Vec3(0.0, 0.0, 0.0))
    ensures ContainsPoint(Sphere(Zero(), 1.0, mat), Vec3(0.5, 0.0, 0.0))
    ensures !ContainsPoint(Sphere(Zero(), 1.0, mat), Vec3(2.0, 0.0, 0.0))
  {
  }

  /** The normal at (1,0,0) of the unit sphere at the origin is (1,0,0). */
  lemma NormalExample(m: MathLib, mat: Material)
    requires Lawful(m)
    ensures NormalAt(m, Sphere(Zero(), 1.0, mat), Vec3(1.0, 0.0, 0.0)) == Vec3(1.0, 0.0, 0.0)
  {
    SqrtOfSquare(m, 1.0);
  }

  /** Rays from the origin along the +z and +x axes, as the tests build them. */
  lemma ZAxisRay(m: MathLib)
    requires Lawful(m)
    ensures NewRay(m, Zero(), Vec3(0.0, 0.0, 1.0)) == Ray(Zero(), Vec3(0.0, 0.0, 1.0))
  {
    NormalizeUnitVector(m, Vec3(0.0, 0.0, 1.0));
  }

  lemma XAxisRay(m: MathLib)
    requires Lawful(m)
    ensures NewRay(m, Zero(), Vec3(1.0, 0.0, 0.0)) == Ray(Zero(), Vec3(1.0, 0.0, 0.0))
  {
    NormalizeUnitVector(m, Vec3(1.0, 0.0, 0.0));
  }

  /** t^2 - 10t + 24 has the roots 4 and 6; the nearer is picked. */
  lemma ExampleRoot(m: MathLib, q: Quadratic)
    requires m.sqrt(4.0) == 2.0
    requires q == Quadratic(1.0, -10.0, 24.0)
    ensures NearestPositiveRoot(m, q) == Some(4.0)
  {
    assert Discriminant(q) == 4.0;
    assert SmallRoot(m, q) == 4.0;
  }

  /** Under the library laws the square root of 4 is 2. */
  lemma SqrtFour(m: MathLib)
    requires Lawful(m)
    ensures m.sqrt(4.0) == 2.0
  {
    SqrtOfSquare(m, 2.0);
  }

  /** The quadratic of the ray along +z against the unit sphere at
      (0,0,5), and the point it reaches at t = 4. */
  lemma ExampleQuadraticZ(center: Vec3, radius: real, zRay: Ray)
    requires center == Vec3(0.0, 0.0, 5.0) && radius == 1.0
    requires zRay == Ray(Zero(), Vec3(0.0, 0.0, 1.0))
    ensures RayQuadratic(zRay, center, radius) == Quadratic(1.0, -10.0, 24.0)
    ensures At(zRay, 4.0) == Vec3(0.0, 0.0, 4.0)
  {
    assert Scale(zRay.direction, 4.0) == Vec3(0.0, 0.0, 4.0);
  }

  /** The quadratic of the ray along +x against the same sphere. */
  lemma ExampleQuadraticX(center: Vec3, radius: real, xRay: Ray)
    requires center == Vec3(0.0, 0.0, 5.0) && radius == 1.0
    requires xRay == Ray(Zero(), Vec3(1.0, 0.0, 0.0))
    ensures RayQuadratic(xRay, center, radius) == Quadratic(1.0, 0.0, 24.0)
  {
  }

  /** A ray whose quadratic against a sphere is t^2 - 10t + 24 hits it at
      t = 4; one whose quadratic is t^2 + 24 misses it. */
  lemma ExampleHits(m: MathLib, s: Sphere, zRay: Ray, xRay: Ray)
    requires m.sqrt(4.0) == 2.0
    requires RayQuadratic(zRay, s.center, s.radius) == Quadratic(1.0, -10.0, 24.0)
    requires RayQuadratic(xRay, s.center, s.radius) == Quadratic(1.0, 0.0, 24.0)
    ensures SphereIntersect(m, s, zRay).Some? && SphereIntersect(m, s, zRay).value.t == 4.0
    ensures SphereIntersect(m, s, xRay).None?
  {
    ExampleRoot(m, RayQuadratic(zRay, s.center, s.radius));
    assert Discriminant(RayQuadratic(xRay, s.center, s.radius)) < 0.0;
  }

  /** The tests' rays from the origin along +z and +x against the unit
      sphere centred at (0,0,5): the first hits at t = 4, point (0,0,4),
      the second misses. */
  lemma IntersectExamples(m: MathLib, s: Sphere)
    requires Lawful(m)
    requires s.center == Vec3(0.0, 0.0, 5.0) && s.radius == 1.0
    ensures SphereIntersect(m, s, NewRay(m, Zero(), Vec3(0.0, 0.0, 1.0))).Some?
    ensures SphereIntersect(m, s, NewRay(m, Zero(), Vec3(0.0, 0.0, 1.0))).value.t == 4.0
    ensures SphereIntersect(m, s, NewRay(m, Zero(), Vec3(0.0, 0.0, 1.0))).value.point == Vec3(0.0, 0.0, 4.0)
    ensures SphereIntersect(m, s, NewRay(m, Zero(), Vec3(1.0, 0.0, 0.0))).None?
  {
    ZAxisRay(m);
    XAxisRay(m);
    SqrtFour(m);
    var zRay := Ray(Zero(), Vec3(0.0, 0.0, 1.0));
    var xRay := Ray(Zero(), Vec3(1.0, 0.0, 0.0));
    ExampleQuadraticZ(s.center, s.radius, zRay);
    ExampleQuadraticX(s.center, s.radius, xRay);
    ExampleHits(m, s, zRay, xRay);
  }
}
