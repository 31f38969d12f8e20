# A verified model of a small Rust ray tracer

This project models the deterministic core of a Whitted-style ray tracer in Dafny and proves
properties of that model. The ray tracer's source lives under `src/raytracer/`. The model covers:

- the vector and colour algebra;
- rays, intersection records and branched rays;
- the two surface primitives, spheres and triangles, and the spherical lights;
- material construction;
- the recursive light-transport step `trace_ray_recursive`;
- the HDR image buffer with its tone mappers and 8-bit conversion;
- the camera's grid of primary rays.

`f32` values are modelled as `real`, and the analysis is exact.
The library routines `sqrt`, `exp`, `powf`, `tan` and `PI` are the fields of a `MathLib` value, which every operation that needs them takes as a parameter.
The predicate `Lawful(m)` collects the only laws assumed of them:
- `sqrt` of a non-negative number is a non-negative square root;
- `exp` is positive;
- `exp(0) == 1`.

A lemma takes `Lawful(m)` as a precondition only where it needs these laws.

Modules follow the source files:

| module | file | source |
|---|---|---|
| `Numerics` | numerics.dfy | `Option`, `MathLib`, `min`/`max`/clamp, square-root facts, row-major index arithmetic |
| `Vectors` | vector.dfy | `src/raytracer/vector.rs` |
| `Materials` | material.dfy | `src/raytracer/material.rs` |
| `Rays` | ray.dfy | `Ray`, `Intersection`, `BranchedRay` of `src/raytracer/mod.rs` |
| `Spheres` | sphere.dfy | `src/raytracer/sphere.rs`, and the root selection that lights share |
| `Lights` | light.dfy | `src/raytracer/light.rs` |
| `Meshes` | mesh.dfy | `src/raytracer/mesh.rs` (Möller–Trumbore) |
| `Surfaces` | surface.dfy | the `Surface` trait of `src/raytracer/mod.rs` as a closed sum type |
| `Tracing` | raytracer.dfy | `src/raytracer/raytracer.rs` |
| `Images` | image.dfy | `src/raytracer/image.rs` |
| `Cameras` | camera.dfy | `src/raytracer/camera.rs` |

The source files are pure in places and imperative in others, and the model takes the same form:

- Straight-line code is written as functions: the vector algebra, the primitives' intersection code, the material constructors and the tone curves.
- Each loop of the source is a method with a `while` loop, proved equal to a function that states the same computation without mutation. The loops are:
  - the closest-hit scan, the light scan and the shadow scan;
  - the direct-light and branch sums;
  - the image loops;
  - the four nested loops of `generate_rays`.
- `branch_rays`' conditional pushes are a method, `Tracing.BranchRays`, proved equal to the function `Tracing.Branches`.
- The properties the renderer relies on are then proved as lemmas about those functions.
- `Image` is a class whose pixel buffer is a field that `apply_exposure` and the write through `get_pixel_mut` update in place.

The recursion of `trace_ray_recursive` is the mutually recursive family `Trace`/`Shade`/`IndirectSum`/`BranchColor`. It terminates on the measure `max_depth - depth`, which Dafny checks.

## Model

| member | source | states |
|---|---|---|
| Numerics.Clamp01 | src/raytracer/material.rs:147-149 | `x.max(0.0).min(1.0)` lies in [0, 1], keeps a value already in [0, 1], and sends values below 0 to 0 and above 1 to 1 |
| Numerics.Clamp | src/raytracer/material.rs:147-149 | the general clamp into [lo, hi] with the same three cases |
| Numerics.Max | src/raytracer/mesh.rs:90-92 | `max` is an upper bound of both arguments and equals one of them |
| Numerics.Min | src/raytracer/mesh.rs:86-88 | `min` is a lower bound of both arguments and equals one of them |
| Vectors.LengthSquared | src/raytracer/vector.rs:44-46 | the squared length is never negative |
| Vectors.LengthSquaredZero | src/raytracer/vector.rs:44-46 | the squared length is zero exactly for the zero vector |
| Vectors.HadamardLaws | src/raytracer/vector.rs:25-27 | component i of `hadamard(a, b)` is `a[i] * b[i]`; the product is symmetric, keeps `a` against (1, 1, 1), gives zero against zero, and its components sum to `dot(a, b)` |
| Vectors.DotSymmetric | src/raytracer/vector.rs:30-46 | `dot` is symmetric and `length_squared(v) == dot(v, v)` |
| Vectors.CrossOrthogonal | src/raytracer/vector.rs:35-41 | `a × b` is orthogonal to `a` and to `b` |
| Vectors.SubIsAddNeg | src/raytracer/vector.rs:68-101 | `v - w == v + (-w)` and `2.0 * v == v * 2.0` |
| Vectors.LengthLaws | src/raytracer/vector.rs:49-51 | under the laws, `length` is non-negative, squares to `length_squared`, and is zero exactly for the zero vector |
| Vectors.Normalize | src/raytracer/vector.rs:54-57 | the zero vector is returned unchanged |
| Vectors.NormalizeIsPositiveMultiple | src/raytracer/vector.rs:54-57 | a non-zero vector has positive length and normalizes to itself times `1 / length` |
| Vectors.NormalizeUnit | src/raytracer/vector.rs:54-57 | a non-zero vector normalizes to unit length |
| Vectors.NormalizeUnitVector | src/raytracer/vector.rs:54-57 | a unit vector normalizes to itself |
| Vectors.ReflectDot | src/raytracer/vector.rs:60-62 | reflecting about a unit normal negates the component along the normal |
| Vectors.ReflectTwice | src/raytracer/vector.rs:60-62 | reflecting twice about the same unit normal gives back the vector |
| Vectors.WithComponent | src/raytracer/vector.rs:123-132 | writing component `i < 3` sets that component and leaves the other two unchanged; any other index is excluded, because it panics |
| Vectors.ToArray | src/raytracer/vector.rs:141-145 | the array has three elements |
| Vectors.ComponentsRoundTrip | src/raytracer/vector.rs:111-145 | array → vector → array and vector → array → vector are identities, and indices 0, 1, 2 read x, y, z |
| Vectors.OperatorExamples | src/raytracer/vector.rs:150-167 | the unit test's sums, difference, negation, scalings, quotient, dot, cross, squared length and unit normalization |
| Materials.NewMaterial | src/raytracer/material.rs:137-153 | the three rates are clamped into [0, 1], and albedo, refractive index and absorption are stored unclamped |
| Materials.Matte | src/raytracer/material.rs:156-158 | no specular part, no transmission, index 1, black absorption, diffuse rate clamped |
| Materials.Mirror | src/raytracer/material.rs:161-163 | no diffuse part, no transmission, index 1, black absorption, specular rate clamped |
| Materials.Transparent | src/raytracer/material.rs:166-175 | no diffuse or specular part; transmission clamped; the index is kept |
| Materials.DiffuseSurface | src/raytracer/material.rs:178-180 | a white matte with diffuse rate 0.8 |
| Materials.PerfectMirror | src/raytracer/material.rs:183-185 | specular rate 1 and nothing else |
| Materials.Glass | src/raytracer/material.rs:188-197 | no diffuse part, specular 0.1, index 1.5, white albedo, black absorption, transmission clamped |
| Materials.Metal | src/raytracer/material.rs:200-209 | no transmission; specular and diffuse rates clamped |
| Materials.PerfectMetal | src/raytracer/material.rs:212-214 | specular rate 1, no diffuse part, no transmission |
| Materials.ColorIdentities | src/raytracer/material.rs:72-98 | black is the identity of `+` and absorbs under the colour product; white is the identity of the colour product; `s * c == c * s` |
| Materials.NonNegativeClosed | src/raytracer/material.rs:72-98 | sums, products and non-negative scalings of non-negative colours are non-negative |
| Materials.ColorExamples | src/raytracer/material.rs:236-257 | the unit tests' sum, scaling and product values |
| Rays.NewRay | src/raytracer/mod.rs:26-31 | the origin is kept, the direction is normalized, and a zero direction stays zero |
| Rays.NewRayUnit | src/raytracer/mod.rs:26-31 | a ray built from a non-zero direction has a unit direction |
| Rays.At | src/raytracer/mod.rs:35-37 | `at(0)` is the origin, and `at(t) - origin == direction * t` |
| Rays.AtDistance | src/raytracer/mod.rs:35-37 | along a unit direction, `at(t)` lies at squared distance `t²` from the origin |
| Rays.NewIntersection | src/raytracer/mod.rs:55-62 | `t`, point, normal and material are stored as given |
| Spheres.NewSphere | src/raytracer/sphere.rs:20-26 | centre, radius and material are stored as given |
| Spheres.RayQuadratic | src/raytracer/sphere.rs:58-60 | the leading coefficient `a = d·d` is never negative |
| Spheres.RayQuadraticMeaning | src/raytracer/sphere.rs:58-60 | `u` is a root of the ray's quadratic exactly when `at(u)` lies on the sphere |
| Spheres.NearestPositiveRoot | src/raytracer/sphere.rs:63-82 | a selected root is positive; a negative discriminant or `a == 0` selects nothing |
| Spheres.CandidatesAreTheRoots | src/raytracer/sphere.rs:71-73 | with `a != 0` and a non-negative discriminant, `t1` and `t2` are roots and there are no other roots |
| Spheres.RootOrder | src/raytracer/sphere.rs:71-73 | `t1 <= t2` when `a > 0` |
| Spheres.NearestPositiveRootSpec | src/raytracer/sphere.rs:76-82 | the selection is the least positive root, and nothing exactly when no root is positive |
| Spheres.SphereIntersect | src/raytracer/sphere.rs:53-88 | a hit has `t > 0`, point `at(t)`, the outward normal and the sphere's material; a negative discriminant misses |
| Spheres.BallHitSpec | src/raytracer/sphere.rs:53-88 | for a non-zero direction, the hit is the ray's nearest positive meeting with the sphere's surface, and there is none exactly when no positive parameter reaches it |
| Spheres.SphereIntersectSpec | src/raytracer/sphere.rs:53-88 | the reported point satisfies `|point - centre|² == r²`, and no positive meeting is nearer |
| Spheres.NormalOutward | src/raytracer/sphere.rs:29-31 | away from the centre the normal is a unit vector with positive component along `point - centre`: it is never flipped towards a ray |
| Spheres.SphereMaterial | src/raytracer/sphere.rs:91-93 | `material()` returns the material the sphere was built with |
| Spheres.SphereMeasures | src/raytracer/sphere.rs:39-46 | the unit sphere has area 4π and volume 4π/3; the volume is area × radius / 3; both are non-negative when π is (the volume for a non-negative radius) |
| Spheres.ContainsPointExamples | src/raytracer/sphere.rs:143-150 | the unit sphere contains its centre and (0.5,0,0) but not (2,0,0) |
| Spheres.NormalExample | src/raytracer/sphere.rs:133-140 | the unit sphere's normal at (1,0,0) is (1,0,0) |
| Spheres.IntersectExamples | src/raytracer/sphere.rs:110-130 | the ray along +z hits the unit sphere at (0,0,5) at t = 4, point (0,0,4); the ray along +x misses |
| Lights.NewLight | src/raytracer/light.rs:21-27 | centre, radius and emission are stored as given |
| Lights.DummyMaterial | src/raytracer/light.rs:89-96 | black albedo, all three rates 0, refractive index 1, black absorption |
| Lights.LightIntersect | src/raytracer/light.rs:54-98 | a hit has `t > 0`, point `at(t)`, the normalized outward normal and the dummy material; a negative discriminant misses |
| Lights.LightMatchesSphere | src/raytracer/light.rs:63-87 | a light is hit exactly where a sphere of the same centre and radius is hit, with the same `t`, point and normal; only the material differs |
| Lights.LightIntersectSpec | src/raytracer/light.rs:54-98 | for a non-zero direction, the hit is the nearest positive meeting with the light's surface, and there is none exactly when no positive parameter reaches it |
| Lights.LightIntersectExamples | src/raytracer/light.rs:106-131 | the light at (0,0,5) of radius 1 is hit at t = 4 along +z and missed along +x |
| Lights.LuminousFluxLaws | src/raytracer/light.rs:40-49 | the light's area is its sphere's area, so the unit light's area is 4π; the flux is non-negative for a non-negative emission and π; a white light's flux is its area |
| Lights.LightContainsPointExamples | src/raytracer/light.rs:143-149 | the unit light contains its centre and (0.5,0,0) but not (2,0,0) |
| Meshes.NewTriangle | src/raytracer/mesh.rs:25-32 | the vertices and material are stored as given |
| Meshes.NormalUnnormalized | src/raytracer/mesh.rs:35-39 | the unnormalized normal is orthogonal to both edges |
| Meshes.AreaLaws | src/raytracer/mesh.rs:49-51 | under the laws the area is non-negative, and zero exactly when the edges are parallel |
| Meshes.Centroid | src/raytracer/mesh.rs:54-56 | three times the centroid is `v0 + v1 + v2` |
| Meshes.VerticesContained | src/raytracer/mesh.rs:60-81 | every vertex passes `contains_point` |
| Meshes.Min3 | src/raytracer/mesh.rs:86-88 | the chained `min` is a lower bound of all three values and equals one of them |
| Meshes.Max3 | src/raytracer/mesh.rs:90-92 | the chained `max` is an upper bound of all three values and equals one of them |
| Meshes.Bounds | src/raytracer/mesh.rs:85-98 | the box encloses all three vertices, and each bound is some vertex's coordinate |
| Meshes.TriangleMaterial | src/raytracer/mesh.rs:144-146 | `material()` returns the material the triangle was built with |
| Meshes.TriangleIntersect | src/raytracer/mesh.rs:104-141 | a hit has `t > 0`, point `at(t)`, the triangle's fixed face normal and the triangle's material |
| Meshes.TriangleRejections | src/raytracer/mesh.rs:108-140 | misses when `|det| < 1e-8`, when `u < 0` or `u > 1`, when `v < 0` or `u + v > 1`, and when `t <= 0` |
| Meshes.TriangleHitOnTriangle | src/raytracer/mesh.rs:115-140 | a reported hit is the point of the closed triangle with the computed barycentric coordinates, at the computed `t` |
| Meshes.HitPointOnPlane | src/raytracer/mesh.rs:115-132 | for a non-parallel ray, `at(t)` is the barycentric point `(u, v)` |
| Meshes.PlaneCramer | src/raytracer/mesh.rs:115-132 | the computed `(u, v, t)` solve `u·edge1 + v·edge2 - t·d == origin - v0` (Cramer's rule) |
| Meshes.CoordinatesRecovered | src/raytracer/mesh.rs:115-132 | when the ray meets the plane at the barycentric point `(u, v)` at parameter `t`, the computed coordinates are exactly `u`, `v`, `t` |
| Meshes.TriangleHitComplete | src/raytracer/mesh.rs:104-141 | a ray that is not near-parallel and meets the closed triangle at `t > 0` is reported hit at exactly that `t` |
| Meshes.ParallelMiss | src/raytracer/mesh.rs:108-113 | a ray exactly parallel to the plane misses |
| Meshes.ShapeExamples | src/raytracer/mesh.rs:167-202 | the tests' normal (0,0,1), area 2 and centroid (1,1,0) |
| Meshes.RightTriangleNormal | src/raytracer/mesh.rs:43-45 | the right triangle with legs k > 0 along x and y has normal (0,0,1) |
| Meshes.RightTriangleArea | src/raytracer/mesh.rs:49-51 | that triangle's area is k²/2 |
| Meshes.RightTriangleCentroid | src/raytracer/mesh.rs:54-56 | that triangle's centroid is (k/3, k/3, 0) |
| Meshes.AxisRayHits | src/raytracer/mesh.rs:204-220 | the ray from the origin along (0,0,d) meets the triangle (0,0,h), (1,0,h), (0,1,h) at t = h/d |
| Meshes.AxisRayParallel | src/raytracer/mesh.rs:222-234 | the ray along +x has determinant 0 against that triangle, so it misses |
| Surfaces.SurfaceMaterial | src/raytracer/mod.rs:79-97 | `material()` through the trait is the underlying sphere's or triangle's material |
| Surfaces.Intersect | src/raytracer/mod.rs:79-97 | every hit through the trait has `t > 0`, lies at `at(t)` and carries the surface's material |
| Surfaces.IntersectNormal | src/raytracer/mod.rs:89-92 | the forwarded hit has the sphere's radial normal or the triangle's face normal |
| Tracing.NewRayTracer | src/raytracer/raytracer.rs:25-37 | the four settings are stored as given |
| Tracing.Nearest | src/raytracer/raytracer.rs:205-217 | a kept index is in range and its hit is beyond the 1e-5 epsilon |
| Tracing.NearestNone | src/raytracer/raytracer.rs:205-219 | the scan keeps nothing exactly when no hit is beyond the epsilon |
| Tracing.NearestLeast | src/raytracer/raytracer.rs:205-219 | the kept hit is no farther than any qualifying hit, and strictly nearer than every qualifying hit before it, so on a tie the first wins |
| Tracing.ClosestIntersectionSpec | src/raytracer/raytracer.rs:200-220 | `find_closest_intersection` is none exactly when no surface hits beyond the epsilon; otherwise it is some surface's hit, nearest, with ties going to the earliest surface |
| Tracing.ClosestMaterial | src/raytracer/raytracer.rs:161-162 | the closest hit carries the material of some surface of the scene |
| Tracing.FindClosestIntersection | src/raytracer/raytracer.rs:200-220 | the loop returns the closest intersection specified above |
| Tracing.ClosestLight | src/raytracer/raytracer.rs:112-121 | a kept light index is in range |
| Tracing.ClosestLightSpec | src/raytracer/raytracer.rs:112-121 | the light scan is none exactly when no light hits beyond the epsilon; otherwise it is light k's own hit, beyond the epsilon and nearest |
| Tracing.FindClosestLight | src/raytracer/raytracer.rs:111-121 | the loop returns the closest light hit and its index |
| Tracing.AttenuationLaws | src/raytracer/raytracer.rs:152-159 | under the laws Beer's-law attenuation is positive per channel, and exactly 1 over zero distance or through a non-absorbing medium |
| Tracing.ComputeDirectLight | src/raytracer/raytracer.rs:224-263 | the shadow loop returns the direct light: black when facing away or blocked, the Lambertian term otherwise |
| Tracing.DirectLightLaws | src/raytracer/raytracer.rs:232-262 | direct light is non-negative for a non-negative albedo, emission and diffuse rate; a lit point in a scene without surfaces gets `albedo × emission × (cos θ · diffuse_rate)` |
| Tracing.OccluderDarkens | src/raytracer/raytracer.rs:248-257 | any surface that hits the shadow ray before the light (less 1e-5) makes the light's contribution exactly black |
| Tracing.DirectLighting | src/raytracer/raytracer.rs:164-170 | the loop over the lights sums their direct contributions |
| Tracing.DirectSumNonNegative | src/raytracer/raytracer.rs:166-170 | that sum is non-negative for non-negative emissions |
| Tracing.FacingNormal | src/raytracer/raytracer.rs:291-298 | the effective normal is the normal or its negation, and `ray.direction · normal <= 0` |
| Tracing.FacingUnit | src/raytracer/raytracer.rs:294-298 | the effective normal of a unit normal is a unit vector |
| Tracing.CosIncident | src/raytracer/raytracer.rs:333 | `cos_i = -(d · n)` is never negative |
| Tracing.BranchRays | src/raytracer/raytracer.rs:277-379 | the pushes produce the branch list: diffuse, then transmitted, then specular |
| Tracing.BranchesShape | src/raytracer/raytracer.rs:300-376 | at most 3 branches, each weighted above 1e-5; a diffuse branch exactly when `diffuse_rate > 1e-5`; a refracted branch exactly when the surface transmits without total internal reflection; a reflected branch exactly when the specular weight exceeds 1e-5 |
| Tracing.TotalInternalReflectionFolds | src/raytracer/raytracer.rs:337-340 | under total internal reflection there is no refracted branch, and the reflected weight is `specular_rate + transmission_rate`, unclamped |
| Tracing.BranchMaterials | src/raytracer/raytracer.rs:309-375 | diffuse and reflected branches keep the incoming material; the refracted branch passes into the surface material when entering and into the vacuum when leaving |
| Tracing.BranchDirections | src/raytracer/raytracer.rs:300-376 | with a unit normal, diffuse and reflected rays leave on the incoming side and the refracted ray goes through the surface |
| Tracing.RefractedSide | src/raytracer/raytracer.rs:342-344 | the refracted vector's component along the unit effective normal is `-cos_t` |
| Tracing.TraceRayRecursive | src/raytracer/raytracer.rs:94-196 | the method returns the traced colour: guard, both scans, the light race, then shading |
| Tracing.ShadeHit | src/raytracer/raytracer.rs:152-195 | a surface hit is shaded as `(direct + indirect) × attenuation` |
| Tracing.IndirectLighting | src/raytracer/raytracer.rs:172-189 | the branch loop sums the branch contributions in order |
| Tracing.TraceBranch | src/raytracer/raytracer.rs:177-189 | one branch is traced at `depth + 1` with weight `weight × branch.weight`, modulated by the albedo and scaled by the branch weight |
| Tracing.TraceStops | src/raytracer/raytracer.rs:103-106 | at the depth limit or below the minimum weight the background is returned, whatever the scene |
| Tracing.TraceMissesEverything | src/raytracer/raytracer.rs:144-150 | a ray that hits no surface and no light beyond the epsilon returns the background |
| Tracing.TraceRayEmptyScene | src/raytracer/raytracer.rs:420-430 | `trace_ray` in an empty scene returns the background colour |
| Tracing.TraceSeesLight | src/raytracer/raytracer.rs:123-142 | when the closest light is strictly nearer than every surface hit, the result is `emission × exp(-absorption·t) × weight`, with no shading |
| Tracing.TraceShadesSurface | src/raytracer/raytracer.rs:123-150 | when the closest surface hit is no farther than every light hit (ties go to the surface), the result is that hit's shading |
| Tracing.TraceNonNegative | src/raytracer/raytracer.rs:94-196 | in a scene whose colours are non-negative, every traced colour is non-negative for any non-negative weight |
| Tracing.ShadeNonNegative | src/raytracer/raytracer.rs:152-195 | the shading of a hit on a non-negative material is non-negative |
| Tracing.IndirectSumNonNegative | src/raytracer/raytracer.rs:176-189 | the sum of branch contributions is non-negative |
| Tracing.BranchColorNonNegative | src/raytracer/raytracer.rs:177-188 | one branch's contribution is non-negative |
| Images.ReinhardRange | src/raytracer/image.rs:62-71 | `x / (1 + x)` maps a non-negative `x` into [0, 1), maps 1 to 0.5, and is strictly increasing |
| Images.ReinhardMapRange | src/raytracer/image.rs:62-71 | Reinhard maps a non-negative colour under a non-negative exposure into [0, 1) per channel, as `x / (1 + x)` of the exposed channel |
| Images.ExposureMapRange | src/raytracer/image.rs:116-127 | Exposure hands `powf` the exposed channel clamped to [0, 1], so with a positive gamma every channel stays in [0, 1] |
| Images.AcesDenominatorPositive | src/raytracer/image.rs:148-158 | the ACES denominator `x(2.43x + 0.59) + 0.14` is positive for every `x` |
| Images.AcesCurve | src/raytracer/image.rs:148-158 | the ACES curve lies in [0, 1] and maps 0 to 0 |
| Images.AcesMapRange | src/raytracer/image.rs:167-175 | ACES maps every colour into [0, 1] per channel and black to black |
| Images.ToneMapExamples | src/raytracer/image.rs:328-392 | the unit-tested tone-mapping values: one half, two thirds, the bright channels' lower bounds and a positive ACES channel |
| Images.ToByte | src/raytracer/image.rs:262-264 | values ≤ 0 give 0 and values ≥ 1 give 255; in between the byte is `floor(255·v)` |
| Images.ExposedLaws | src/raytracer/image.rs:240-246 | exposure keeps every row length, composes by multiplication and is the identity at 1 |
| Images.PixelCountRectangular | src/raytracer/image.rs:218-226 | h rows of w pixels count h·w pixels |
| Images.AverageLuminanceScales | src/raytracer/image.rs:217-246 | applying exposure `e` multiplies the average luminance by `e` |
| Images.AverageLuminanceBounds | src/raytracer/image.rs:217-233 | the average of an image with pixels lies between the least and the greatest pixel luminance |
| Images.AverageLuminanceExample | src/raytracer/image.rs:305-314 | a white and a black pixel average to 0.5 |
| Images.ConvertedRowMajor | src/raytracer/image.rs:255-270 | a rectangular image converts to h·w triples in row-major order: triple `y·w + x` is pixel (x, y) tone mapped and truncated |
| Images.ConvertExample | src/raytracer/image.rs:405-420 | Reinhard converts (2, 4, 0.5) to the bytes (170, 204, 85) |
| Images.Image.FromPixels | src/raytracer/image.rs:185-194 | the buffer is kept, the height is the number of rows, and the width is the length of row 0 (0 without rows) |
| Images.Image.GetPixel | src/raytracer/image.rs:198-204 | `Some(pixels[y][x])` exactly when `y < height && x < width`, else none |
| Images.Image.SetPixel | src/raytracer/image.rs:207-213 | writing through `get_pixel_mut` replaces exactly pixel (x, y) when it is in range; otherwise nothing changes; dimensions are kept |
| Images.Image.ApplyExposure | src/raytracer/image.rs:240-246 | every pixel is multiplied by the factor in place, with the dimensions kept |
| Images.Image.AverageLuminance | src/raytracer/image.rs:217-233 | the loop returns the mean luminance, or 0 without pixels |
| Images.Image.Convert | src/raytracer/image.rs:255-270 | the loop returns every pixel's tone-mapped bytes, row after row |
| Cameras.NewCamera | src/raytracer/camera.rs:36-54 | direction and up are stored normalized, and every other field as given |
| Cameras.NewCameraUnit | src/raytracer/camera.rs:45-53 | non-zero direction and up vectors become unit vectors, and rebuilding a camera from its own fields changes nothing |
| Cameras.BuildBasis | src/raytracer/camera.rs:57-62 | forward is the view direction |
| Cameras.BasisOrthogonal | src/raytracer/camera.rs:57-62 | under the laws right, up and forward are pairwise orthogonal |
| Cameras.View | src/raytracer/camera.rs:74-78 | the view plane has the image's aspect ratio |
| Cameras.SampleSize | src/raytracer/camera.rs:81-82 | `sample_size · subdivisions == 1` |
| Cameras.OffsetInside | src/raytracer/camera.rs:93-94 | each sub-pixel offset `(s + 0.5) / subdivisions` lies strictly inside (0, 1) |
| Cameras.ScreenCoordinateInside | src/raytracer/camera.rs:97-98 | each sample of a pixel inside the image maps strictly inside (-0.5, 0.5) |
| Cameras.SampleDirectionForward | src/raytracer/camera.rs:101 | a sample direction keeps forward's full component, since right and up are orthogonal to it |
| Cameras.SampleRayLaws | src/raytracer/camera.rs:93-103 | a sample ray starts at the camera position, and its direction is a unit vector when the camera looks along one |
| Cameras.SampleLine | src/raytracer/camera.rs:91-105 | the inner loop produces `subdivisions` rays |
| Cameras.RowRays | src/raytracer/camera.rs:86-109 | a row has `width` pixels |
| Cameras.CameraRays | src/raytracer/camera.rs:84-111 | the grid has `height` rows |
| Cameras.GenerateRays | src/raytracer/camera.rs:70-114 | the four nested loops produce the ray grid |
| Cameras.PixelSamplesLayout | src/raytracer/camera.rs:90-106 | a pixel holds subdivisions² samples, and sample (sx, sy) sits at `sy·subdivisions + sx` (sy outer, sx inner) |
| Cameras.GenerateRaysLayout | src/raytracer/camera.rs:84-111 | `height` rows of `width` pixels of subdivisions² samples, each being the ray through its cell's centre |
| Cameras.PixelSamplesLaws | src/raytracer/camera.rs:103-104 | every sample of a pixel starts at the camera and, for a unit view direction, has a unit direction |
| Cameras.GenerateRaysFromCamera | src/raytracer/camera.rs:84-111 | every generated ray starts at the camera position; for a unit view direction, every direction is a unit vector |
| Cameras.GenerateRaysExample | src/raytracer/camera.rs:146-173 | the tested 90° camera of 10 × 5 pixels with one sample has 5 rows of 10 pixels of 1 sample, all from the origin with unit directions |

## Left out

- `src/main.rs` is not part of this model. It holds the scene literals, the console output and PNG encoding through an external crate, which are I/O and a foreign library.
- `RayTracer::render` (raytracer.rs:49-68) is not modelled. It only maps `trace_ray` over the camera grid and divides each pixel's sum by its sample count.
- `f32` rounding, NaN and infinities are not modelled. Values are exact reals, so the tests' `1e-5` tolerances become equalities.
  - The `Float::INFINITY` starting distances of the two scans become "no hit kept yet" (`Option`).
  - `u32` and `usize` counts are unbounded `nat`s.
- `sqrt`, `exp`, `powf`, `tan` and `PI` are parameters and carry only the laws of `Lawful`. No property depends on their exact values.
  - `Images.ExposureMapRange`: states only that Exposure's output stays in [0, 1]. It assumes that `powf` keeps [0, 1] inside [0, 1] for a positive exponent. The gamma-corrected values themselves are not modelled.
- `Tracing.BranchDirections`: only states on which side of the surface each branch ray goes. The refracted direction formula (raytracer.rs:343-344) is otherwise not verified; its closeness to the incident direction is a numeric-accuracy claim.
- A zero refractive index that `branch_rays` divides by is excluded by the `IndicesDefined`/`IndicesNonZero` preconditions, because it would make the refraction ratio an `f32` infinity. These preconditions constrain only a transmitting surface (transmission rate above `1e-5`, raytracer.rs:323-330): its own index, which is divided by on entering, and the vacuum's, which is divided by on leaving. Indices of non-transmitting surfaces and of the incoming medium are unconstrained, since they are never divisors.
- `Images.Map`: Reinhard with an exposed channel of exactly -1, and Exposure with gamma 0, are excluded by `MapDefined`. Both divide by zero, giving `f32` infinities.
- `Cameras.View` and `Cameras.SampleSize` put 0 where `f32` would give an infinity or NaN. This happens with zero height or zero subdivisions, and then no ray is generated anyway.
- `Vectors.Div` requires a non-zero divisor. Every caller divides by a non-zero value.
- `Images.Image.GetPixel` and `Images.Image.SetPixel` require a rectangular buffer (`Valid`), because `from_pixels` does not check for ragged rows. A ragged buffer can still be built: `FromPixels` is valid only for rectangular input.
- `get_pixel_mut` hands out a reference. It is modelled as `SetPixel`, the lookup followed by a write through that reference.
- `IndexMut` is modelled as `WithComponent`, a functional update of one component.
- The `Surface` and `ToneMapping` traits become closed sum types (`Surfaces.Surface`, `Images.ToneMapper`). The `&dyn Surface` forwarding impl is the dispatch on them.
- The test-only `MockSurface` (raytracer.rs:388-401) is left out. An empty surface list plays its part in `Tracing.TraceRayEmptyScene`.
- The tests' `Color::new` and `Vec3::new` constructors are the datatype constructors.
- Several unit tests are proved in a generalized form:
  - the triangle tests hold for any leg length `k > 0`;
  - the ray-triangle test holds for any height `h > 0` and direction length `d`.
- The second half of `trace_ray_recursive` is split into the methods `ShadeHit`, `DirectLighting`, `IndirectLighting` and `TraceBranch`. Each is proved equal to its part of the specification.
- The four loops of `generate_rays` stay in one method.

Two behaviours of the code that the model keeps as written:

- A zero ray direction makes `a == 0`. Both roots are then `0/0` (NaN) and fail `> 0.0`, so sphere and light intersection report no hit (sphere.rs:71-82, light.rs:73-74). `Spheres.NearestPositiveRoot` returns `None` for `a == 0`.
- `branch_rays` pushes diffuse, then transmitted, then specular (raytracer.rs:300-376), and `Tracing.Branches` keeps that order.
