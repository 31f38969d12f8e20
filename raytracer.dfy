/** The transport step of the renderer (src/raytracer/raytracer.rs): the
    closest-hit scan, the race between lights and surfaces, direct lighting
    with binary shadows, ray branching, and the depth- and weight-bounded
    recursion that combines them.

    Each loop of the source is a method proved equal to a function that
    states the same computation without mutation; the properties the
    renderer relies on are lemmas about those functions. */
module Tracing {
  import opened Numerics
  import opened Vectors
  import opened Materials
  import opened Rays
  import opened Lights
  import opened Surfaces

  /** Hits at parameters not above this are ignored (self-intersection). */
  const HitEpsilon: real := 0.00001
  /** A rate or weight not above this produces no branch. */
  const RateEpsilon: real := 0.00001
  /** Secondary ray origins are moved this far off the surface. */
  const OffsetEpsilon: real := 0.0001

  /** The renderer's settings. */
  datatype RayTracer = RayTracer(
    backgroundColor: Color,
    maxDepth: nat,
    minWeight: real,
    vacuumMaterial: Material)

  /** `RayTracer::new` stores its arguments. */
  function NewRayTracer(backgroundColor: Color, maxDepth: nat, minWeight: real,
                        vacuumMaterial: Material): (t: RayTracer)
    ensures t.backgroundColor == backgroundColor && t.maxDepth == maxDepth
    ensures t.minWeight == minWeight && t.vacuumMaterial == vacuumMaterial
  {
    RayTracer(backgroundColor, maxDepth, minWeight, vacuumMaterial)
  }

  // ---------------------------------------------------------------------
  // Closest-hit selection

  /** A hit that the scans accept: present and beyond the epsilon. */
  predicate Qualifies(h: Option<Intersection>) {
    h.Some? && h.value.t > HitEpsilon
  }

  /** The left-to-right scan shared by `find_closest_intersection` and the
      light loop: the index of the hit kept after looking at `hits`, where a
      qualifying hit replaces the kept one only when strictly closer. "No
      hit kept yet" stands for the source's infinite initial distance. */
  function Nearest(hits: seq<Option<Intersection>>): (k: Option<nat>)
    ensures k.Some? ==> k.value < |hits| && Qualifies(hits[k.value])
    decreases |hits|
  {
    if |hits| == 0 then None
    else
      var best := Nearest(hits[..|hits| - 1]);
      var h := hits[|hits| - 1];
      if Qualifies(h) && (best.None? || h.value.t < hits[best.value].value.t) then Some(|hits| - 1)
      else best
  }

  /** The scan keeps nothing exactly when no hit qualifies. */
  lemma {:induction false} NearestNone(hits: seq<Option<Intersection>>)
    ensures Nearest(hits).None? <==> forall i :: 0 <= i < |hits| ==> !Qualifies(hits[i])
    decreases |hits|
  {
    if |hits| > 0 {
      var pre := hits[..|hits| - 1];
      NearestNone(pre);
      assert forall i :: 0 <= i < |pre| ==> pre[i] == hits[i];
    }
  }

  /** The kept hit is a closest one: no qualifying hit is closer, and every
      qualifying hit before it is strictly farther, so of equally close hits
      the first wins. */
  lemma {:induction false} NearestLeast(hits: seq<Option<Intersection>>)
    requires Nearest(hits).Some?
    ensures forall j :: 0 <= j < |hits| && Qualifies(hits[j]) ==>
      hits[Nearest(hits).value].value.t <= hits[j].value.t
    ensures forall j :: 0 <= j < Nearest(hits).value && Qualifies(hits[j]) ==>
      hits[Nearest(hits).value].value.t < hits[j].value.t
    decreases |hits|
  {
    var n := |hits|;
    var pre := hits[..n - 1];
    assert forall i :: 0 <= i < |pre| ==> pre[i] == hits[i];
    var best := Nearest(pre);
    if best.Some? {
      NearestLeast(pre);
    } else {
      NearestNone(pre);
    }
  }

  /** One more step of the scan: the next hit is kept exactly when it
      qualifies and is strictly closer than the hit kept so far. */
  lemma NearestStep(hits: seq<Option<Intersection>>, i: nat)
    requires i < |hits|
    ensures Nearest(hits[..i + 1]) ==
      (var best := Nearest(hits[..i]);
       if Qualifies(hits[i]) && (best.None? || hits[i].value.t < hits[best.value].value.t) then Some(i)
       else best)
  {
    assert hits[..i + 1][..i] == hits[..i];
  }

  /** Every surface's answer for the ray, in scene order. */
  function SurfaceHits(m: MathLib, surfaces: seq<Surface>, ray: Ray): seq<Option<Intersection>> {
    seq(|surfaces|, i requires 0 <= i < |surfaces| => Intersect(m, surfaces[i], ray))
  }

  /** Every light's answer for the ray, in scene order. */
  function LightHits(m: MathLib, lights: seq<Light>, ray: Ray): seq<Option<Intersection>> {
    seq(|lights|, i requires 0 <= i < |lights| => LightIntersect(m, lights[i], ray))
  }

  /** The closest surface hit, as `find_closest_intersection` computes it. */
  function ClosestIntersection(m: MathLib, surfaces: seq<Surface>, ray: Ray): Option<Intersection> {
    var hits := SurfaceHits(m, surfaces, ray);
    match Nearest(hits)
    case None => None
    case Some(k) => hits[k]
  }

  /** The closest light hit together with the light's index, as the light
      loop of `trace_ray_recursive` computes it. */
  function ClosestLight(m: MathLib, lights: seq<Light>, ray: Ray): (r: Option<(Intersection, nat)>)
    ensures r.Some? ==> r.value.1 < |lights|
  {
    var hits := LightHits(m, lights, ray);
    match Nearest(hits)
    case None => None
    case Some(k) => Some((hits[k].value, k))
  }

  /** `find_closest_intersection`: none exactly when no surface reports a
      hit beyond the epsilon; otherwise the hit of some surface k, beyond
      the epsilon, no farther than any qualifying hit, and strictly closer
      than every qualifying hit of the surfaces before k. */
  lemma ClosestIntersectionSpec(m: MathLib, surfaces: seq<Surface>, ray: Ray)
    ensures ClosestIntersection(m, surfaces, ray).None? <==>
      forall i :: 0 <= i < |surfaces| ==> !Qualifies(Intersect(m, surfaces[i], ray))
    ensures ClosestIntersection(m, surfaces, ray).Some? ==>
      exists k :: 0 <= k < |surfaces| && ClosestFrom(m, surfaces, ray, k)
  {
    var hits := SurfaceHits(m, surfaces, ray);
    assert forall i :: 0 <= i < |surfaces| ==> hits[i] == Intersect(m, surfaces[i], ray);
    NearestNone(hits);
    if Nearest(hits).Some? {
      NearestLeast(hits);
      assert ClosestFrom(m, surfaces, ray, Nearest(hits).value);
    }
  }

  /** Surface k's hit is the closest one in the sense of the scan. */
  predicate ClosestFrom(m: MathLib, surfaces: seq<Surface>, ray: Ray, k: nat)
    requires k < |surfaces|
  {
    var c := Intersect(m, surfaces[k], ray);
    && ClosestIntersection(m, surfaces, ray) == c
    && Qualifies(c)
    && (forall j :: 0 <= j < |surfaces| && Qualifies(Intersect(m, surfaces[j], ray)) ==>
          c.value.t <= Intersect(m, surfaces[j], ray).value.t)
    && (forall j :: 0 <= j < k && Qualifies(Intersect(m, surfaces[j], ray)) ==>
          c.value.t < Intersect(m, surfaces[j], ray).value.t)
  }

  /** The light loop: none exactly when no light reports a hit beyond the
      epsilon; otherwise the kept hit is light k's own, beyond the epsilon
      and no farther than any qualifying light hit. */
  lemma ClosestLightSpec(m: MathLib, lights: seq<Light>, ray: Ray)
    ensures ClosestLight(m, lights, ray).None? <==>
      forall i :: 0 <= i < |lights| ==> !Qualifies(LightIntersect(m, lights[i], ray))
    ensures ClosestLight(m, lights, ray).Some? ==>
      var (h, k) := ClosestLight(m, lights, ray).value;
      && LightIntersect(m, lights[k], ray) == Some(h)
      && h.t > HitEpsilon
      && forall j :: 0 <= j < |lights| && Qualifies(LightIntersect(m, lights[j], ray)) ==>
           h.t <= LightIntersect(m, lights[j], ray).value.t
  {
    var hits := LightHits(m, lights, ray);
    assert forall i :: 0 <= i < |lights| ==> hits[i] == LightIntersect(m, lights[i], ray);
    NearestNone(hits);
    if Nearest(hits).Some? {
      NearestLeast(hits);
    }
  }

  /** The closest surface hit belongs to some surface of the scene and
      carries that surface's material. */
  lemma ClosestMaterial(m: MathLib, surfaces: seq<Surface>, ray: Ray)
    requires ClosestIntersection(m, surfaces, ray).Some?
    ensures exists k :: (0 <= k < |surfaces| &&
      ClosestIntersection(m, surfaces, ray).value.material == SurfaceMaterial(surfaces[k]))
  {
    var k := Nearest(SurfaceHits(m, surfaces, ray)).value;
    assert ClosestIntersection(m, surfaces, ray) == Intersect(m, surfaces[k], ray);
  }

  /** `find_closest_intersection`. */
  method FindClosestIntersection(m: MathLib, ray: Ray, surfaces: seq<Surface>)
    returns (closest: Option<Intersection>)
    ensures closest == ClosestIntersection(m, surfaces, ray)
  {
    ghost var hits := SurfaceHits(m, surfaces, ray);
    ghost var kept: Option<nat> := None;
    closest := None;
    var i := 0;
    while i < |surfaces|
      invariant 0 <= i <= |surfaces|
      invariant kept == Nearest(hits[..i])
      invariant closest == (if kept.None? then None else hits[kept.value])
    {
      var hit := Intersect(m, surfaces[i], ray);
      assert hit == hits[i];
      NearestStep(hits, i);
      if hit.Some? && hit.value.t > HitEpsilon && (closest.None? || hit.value.t < closest.value.t) {
        closest := hit;
        kept := Some(i);
      }
      i := i + 1;
    }
    assert hits[..|surfaces|] == hits;
  }

  /** The light loop of `trace_ray_recursive`: the closest light hit beyond
      the epsilon, with the index of its light. */
  method FindClosestLight(m: MathLib, ray: Ray, lights: seq<Light>)
    returns (closest: Option<(Intersection, nat)>)
    ensures closest == ClosestLight(m, lights, ray)
  {
    ghost var hits := LightHits(m, lights, ray);
    closest := None;
    var i := 0;
    while i < |lights|
      invariant 0 <= i <= |lights|
      invariant closest == (match Nearest(hits[..i])
                            case None => None
                            case Some(k) => Some((hits[k].value, k)))
    {
      var hit := LightIntersect(m, lights[i], ray);
      assert hit == hits[i];
      NearestStep(hits, i);
      if hit.Some? && hit.value.t > HitEpsilon && (closest.None? || hit.value.t < closest.value.0.t) {
        closest := Some((hit.value, i));
      }
      i := i + 1;
    }
    assert hits[..|lights|] == hits;
  }

  // ---------------------------------------------------------------------
  // Absorption and the light race

  /** Beer's law: exp(-absorption * distance) per channel. */
  function Attenuation(m: MathLib, passing: Material, distance: real): Color {
    Color(m.exp(-passing.absorption.r * distance),
          m.exp(-passing.absorption.g * distance),
          m.exp(-passing.absorption.b * distance))
  }

  /** A light is seen directly when it is hit and either no surface is hit
      or the light is strictly closer; on a tie the surface wins. */
  predicate LightFirst(light: Option<(Intersection, nat)>, closest: Option<Intersection>) {
    light.Some? && (closest.None? || light.value.0.t < closest.value.t)
  }

  /** What a ray that reaches a light carries: emission * attenuation * weight. */
  function LightColor(m: MathLib, light: Light, distance: real, weight: real, passing: Material): Color {
    ScaleColor(MulColors(light.emission, Attenuation(m, passing, distance)), weight)
  }

  /** Attenuation never amplifies: each factor is positive, and it is 1
      over zero distance or through a non-absorbing material. */
  lemma AttenuationLaws(m: MathLib, passing: Material, distance: real)
    requires Lawful(m)
    ensures var a := Attenuation(m, passing, distance);
      a.r > 0.0 && a.g > 0.0 && a.b > 0.0
    ensures distance == 0.0 || passing.absorption == Black() ==>
      Attenuation(m, passing, distance) == White()
  {
    if distance == 0.0 || passing.absorption == Black() {
      assert -passing.absorption.r * distance == 0.0;
      assert -passing.absorption.g * distance == 0.0;
      assert -passing.absorption.b * distance == 0.0;
    }
  }

  // ---------------------------------------------------------------------
  // Direct lighting

  /** The unit direction from the hit point towards the light's centre. */
  function ToLight(m: MathLib, light: Light, point: Vec3): Vec3 {
    Normalize(m, Sub(light.center, point))
  }

  /** The shadow ray leaves slightly off the surface, towards the light. */
  function ShadowRay(m: MathLib, point: Vec3, toLight: Vec3): Ray {
    NewRay(m, Add(point, Scale(toLight, OffsetEpsilon)), toLight)
  }

  /** A shadow-ray hit blocks the light when it is nearer than the light's
      centre, less the epsilon. */
  predicate Blocks(hit: Option<Intersection>, distance: real) {
    hit.Some? && hit.value.t < distance - HitEpsilon
  }

  /** Some surface blocks the shadow ray before the light. */
  predicate Shadowed(m: MathLib, surfaces: seq<Surface>, shadow: Ray, distance: real) {
    exists i :: 0 <= i < |surfaces| && Blocks(Intersect(m, surfaces[i], shadow), distance)
  }

  /** `compute_direct_light` as a value: black when the surface faces away
      from the light or any surface blocks the shadow ray; otherwise the
      Lambertian term albedo * emission * (cos * diffuse_rate). */
  function DirectLight(m: MathLib, isect: Intersection, light: Light, material: Material,
                       surfaces: seq<Surface>): Color
  {
    var toLight := ToLight(m, light, isect.point);
    var cosTheta := Dot(toLight, isect.normal);
    if cosTheta <= 0.0 then Black()
    else if Shadowed(m, surfaces, ShadowRay(m, isect.point, toLight),
                     Length(m, Sub(light.center, isect.point))) then Black()
    else ScaleColor(MulColors(material.albedo, light.emission), cosTheta * material.diffuseRate)
  }

  /** `compute_direct_light`: the scan over the surfaces returns black at the
      first blocking hit. */
  method ComputeDirectLight(m: MathLib, isect: Intersection, light: Light, material: Material,
                            surfaces: seq<Surface>) returns (c: Color)
    ensures c == DirectLight(m, isect, light, material, surfaces)
  {
    var toLight := Normalize(m, Sub(light.center, isect.point));
    var cosTheta := Dot(toLight, isect.normal);
    if cosTheta <= 0.0 {
      return Black();
    }
    var shadowOrigin := Add(isect.point, Scale(toLight, OffsetEpsilon));
    var shadow := NewRay(m, shadowOrigin, toLight);
    ghost var distance := Length(m, Sub(light.center, isect.point));
    var i := 0;
    while i < |surfaces|
      invariant 0 <= i <= |surfaces|
      invariant forall j :: 0 <= j < i ==> !Blocks(Intersect(m, surfaces[j], shadow), distance)
    {
      var shadowHit := Intersect(m, surfaces[i], shadow);
      if shadowHit.Some? {
        var distToLight := Length(m, Sub(light.center, isect.point));
        if shadowHit.value.t < distToLight - HitEpsilon {
          return Black();
        }
      }
      i := i + 1;
    }
    c := ScaleColor(MulColors(material.albedo, light.emission), cosTheta * material.diffuseRate);
  }

  /** The sum of every light's direct contribution, in scene order. */
  function DirectSum(m: MathLib, isect: Intersection, material: Material, surfaces: seq<Surface>,
                     lights: seq<Light>): Color
    decreases |lights|
  {
    if |lights| == 0 then Black()
    else AddColors(DirectSum(m, isect, material, surfaces, lights[..|lights| - 1]),
                   DirectLight(m, isect, lights[|lights| - 1], material, surfaces))
  }

  /** Direct light is never negative for a non-negative albedo, emission and
      diffuse rate, and a lit point with no surface in the scene gets the
      whole Lambertian term. */
  lemma DirectLightLaws(m: MathLib, isect: Intersection, light: Light, material: Material,
                        surfaces: seq<Surface>)
    requires NonNegative(material.albedo) && NonNegative(light.emission)
    requires material.diffuseRate >= 0.0
    ensures NonNegative(DirectLight(m, isect, light, material, surfaces))
    ensures surfaces == [] && Dot(ToLight(m, light, isect.point), isect.normal) > 0.0 ==>
      DirectLight(m, isect, light, material, surfaces) ==
        ScaleColor(MulColors(material.albedo, light.emission),
                   Dot(ToLight(m, light, isect.point), isect.normal) * material.diffuseRate)
  {
    var cosTheta := Dot(ToLight(m, light, isect.point), isect.normal);
    if cosTheta > 0.0 {
      ProductNonNegative(cosTheta, material.diffuseRate);
      NonNegativeClosed(material.albedo, light.emission, cosTheta * material.diffuseRate);
      NonNegativeClosed(MulColors(material.albedo, light.emission), Black(), cosTheta * material.diffuseRate);
    }
  }

  /** A blocking surface anywhere in the scene darkens the point, whatever
      the surfaces around it. */
  lemma OccluderDarkens(m: MathLib, isect: Intersection, light: Light, material: Material,
                        surfaces: seq<Surface>, k: nat)
    requires k < |surfaces|
    requires Blocks(Intersect(m, surfaces[k], ShadowRay(m, isect.point, ToLight(m, light, isect.point))),
                    Length(m, Sub(light.center, isect.point)))
    ensures DirectLight(m, isect, light, material, surfaces) == Black()
  {
    var shadow := ShadowRay(m, isect.point, ToLight(m, light, isect.point));
    assert Shadowed(m, surfaces, shadow, Length(m, Sub(light.center, isect.point)));
  }

  /** Direct light summed over several lights stays non-negative. */
  lemma {:induction false} DirectSumNonNegative(m: MathLib, isect: Intersection, material: Material,
                                                surfaces: seq<Surface>, lights: seq<Light>)
    requires NonNegative(material.albedo) && material.diffuseRate >= 0.0
    requires forall i :: 0 <= i < |lights| ==> NonNegative(lights[i].emission)
    ensures NonNegative(DirectSum(m, isect, material, surfaces, lights))
    decreases |lights|
  {
    if |lights| > 0 {
      var pre := lights[..|lights| - 1];
      DirectSumNonNegative(m, isect, material, surfaces, pre);
      DirectLightLaws(m, isect, lights[|lights| - 1], material, surfaces);
      NonNegativeClosed(DirectSum(m, isect, material, surfaces, pre),
                        DirectLight(m, isect, lights[|lights| - 1], material, surfaces), 0.0);
    }
  }

  // ---------------------------------------------------------------------
  // Branching

  /** The ray arrives from the side the reported normal points to. */
  predicate Entering(ray: Ray, isect: Intersection) {
    Dot(ray.direction, isect.normal) < 0.0
  }

  /** The normal turned to face the incoming ray. */
  function FacingNormal(ray: Ray, isect: Intersection): (n: Vec3)
    ensures Dot(ray.direction, n) <= 0.0
    ensures n == isect.normal || n == Neg(isect.normal)
  {
    if Entering(ray, isect) then isect.normal else Neg(isect.normal)
  }

  /** The refractive index a crossing divides by: the surface's when
      entering, the vacuum's when leaving. */
  function RefractionDivisor(t: RayTracer, ray: Ray, isect: Intersection): real {
    if Entering(ray, isect) then isect.material.refractiveIndex else t.vacuumMaterial.refractiveIndex
  }

  /** A transmitting surface divides by a non-zero index (a zero divisor
      gives an infinite `f32` ratio, which is not modelled); a surface that
      does not transmit divides by nothing. */
  predicate IndicesDefined(t: RayTracer, ray: Ray, isect: Intersection) {
    isect.material.transmissionRate > RateEpsilon ==> RefractionDivisor(t, ray, isect) != 0.0
  }

  /** The surface transmits, so `branch_rays` forms the refraction ratio. */
  predicate Refracts(t: RayTracer, ray: Ray, isect: Intersection) {
    isect.material.transmissionRate > RateEpsilon && IndicesDefined(t, ray, isect)
  }

  /** n1 / n2 for the crossing: incoming over surface when entering,
      surface over vacuum when leaving. */
  function RefractionRatio(t: RayTracer, ray: Ray, isect: Intersection, incoming: Material): real
    requires Refracts(t, ray, isect)
  {
    if Entering(ray, isect) then incoming.refractiveIndex / isect.material.refractiveIndex
    else isect.material.refractiveIndex / t.vacuumMaterial.refractiveIndex
  }

  /** cos of the angle of incidence, -(d . n) for the facing normal n. */
  function CosIncident(ray: Ray, isect: Intersection): (c: real)
    ensures c >= 0.0
  {
    -Dot(ray.direction, FacingNormal(ray, isect))
  }

  /** Snell's law for sin^2 of the refraction angle: ratio^2 * (1 - cos_i^2). */
  function SnellSinSquared(ratio: real, cosI: real): real {
    ratio * ratio * (1.0 - cosI * cosI)
  }

  /** The refracted vector ratio*d + n*(ratio*cos_i - cos_t). */
  function RefractedVector(d: Vec3, n: Vec3, ratio: real, cosI: real, cosT: real): Vec3 {
    Add(ScaleLeft(ratio, d), Scale(n, ratio * cosI - cosT))
  }

  /** sin^2 of the refraction angle for this crossing. */
  function SinTransmittedSquared(t: RayTracer, ray: Ray, isect: Intersection, incoming: Material): real
    requires Refracts(t, ray, isect)
  {
    SnellSinSquared(RefractionRatio(t, ray, isect, incoming), CosIncident(ray, isect))
  }

  /** cos of the refraction angle, sqrt(1 - sin^2). */
  function CosTransmitted(t: RayTracer, m: MathLib, ray: Ray, isect: Intersection, incoming: Material): real
    requires Refracts(t, ray, isect)
  {
    m.sqrt(1.0 - SinTransmittedSquared(t, ray, isect, incoming))
  }

  /** The surface transmits and the crossing is beyond the critical angle. */
  predicate TotalInternalReflection(t: RayTracer, ray: Ray, isect: Intersection, incoming: Material)
    requires IndicesDefined(t, ray, isect)
  {
    isect.material.transmissionRate > RateEpsilon && SinTransmittedSquared(t, ray, isect, incoming) > 1.0
  }

  /** The weight of the reflected ray: the specular rate, plus the
      transmission rate when it is totally internally reflected. */
  function SpecularWeight(t: RayTracer, ray: Ray, isect: Intersection, incoming: Material): real
    requires IndicesDefined(t, ray, isect)
  {
    if TotalInternalReflection(t, ray, isect, incoming)
    then isect.material.specularRate + isect.material.transmissionRate
    else isect.material.specularRate
  }

  /** The diffuse branch: along the facing normal, from just outside. */
  function DiffuseBranches(m: MathLib, ray: Ray, isect: Intersection, incoming: Material): seq<BranchedRay> {
    var n := FacingNormal(ray, isect);
    if isect.material.diffuseRate > RateEpsilon
    then [BranchedRay(NewRay(m, Add(isect.point, Scale(n, OffsetEpsilon)), n),
                      isect.material.diffuseRate, incoming)]
    else []
  }

  /** Snell's refracted direction: ratio*d + n*(ratio*cos_i - cos_t), with
      n the facing normal and cos_i = -(d . n). */
  function RefractedDirection(t: RayTracer, m: MathLib, ray: Ray, isect: Intersection,
                              incoming: Material): Vec3
    requires Refracts(t, ray, isect)
  {
    RefractedVector(ray.direction, FacingNormal(ray, isect), RefractionRatio(t, ray, isect, incoming),
                    CosIncident(ray, isect), CosTransmitted(t, m, ray, isect, incoming))
  }

  /** The refracted branch: from just inside, into the surface's material
      when entering and into the vacuum when leaving. */
  function TransmittedBranches(t: RayTracer, m: MathLib, ray: Ray, isect: Intersection,
                               incoming: Material): seq<BranchedRay>
    requires IndicesDefined(t, ray, isect)
  {
    if isect.material.transmissionRate > RateEpsilon && !TotalInternalReflection(t, ray, isect, incoming)
    then
      var origin := Sub(isect.point, Scale(FacingNormal(ray, isect), OffsetEpsilon));
      var next := if Entering(ray, isect) then isect.material else t.vacuumMaterial;
      [BranchedRay(NewRay(m, origin, RefractedDirection(t, m, ray, isect, incoming)),
                   isect.material.transmissionRate, next)]
    else []
  }

  /** The mirror branch: the direction reflected about the facing normal,
      from just outside. */
  function SpecularBranches(t: RayTracer, m: MathLib, ray: Ray, isect: Intersection,
                            incoming: Material): seq<BranchedRay>
    requires IndicesDefined(t, ray, isect)
  {
    var n := FacingNormal(ray, isect);
    var w := SpecularWeight(t, ray, isect, incoming);
    if w > RateEpsilon
    then [BranchedRay(NewRay(m, Add(isect.point, Scale(n, OffsetEpsilon)), Reflect(ray.direction, n)),
                      w, incoming)]
    else []
  }

  /** `branch_rays` as a value: diffuse, transmitted, specular, in that order. */
  function Branches(t: RayTracer, m: MathLib, ray: Ray, isect: Intersection,
                    incoming: Material): seq<BranchedRay>
    requires IndicesDefined(t, ray, isect)
  {
    DiffuseBranches(m, ray, isect, incoming)
      + TransmittedBranches(t, m, ray, isect, incoming)
      + SpecularBranches(t, m, ray, isect, incoming)
  }

  /** `branch_rays`: pushes the diffuse branch, then either folds the
      transmission into the specular weight or pushes the refracted branch,
      then pushes the specular branch. */
  method BranchRays(t: RayTracer, m: MathLib, ray: Ray, isect: Intersection, incoming: Material)
    returns (branched: seq<BranchedRay>)
    requires IndicesDefined(t, ray, isect)
    ensures branched == Branches(t, m, ray, isect, incoming)
  {
    var surface := isect.material;
    branched := [];
    var entering := Dot(ray.direction, isect.normal) < 0.0;
    var normal := if entering then isect.normal else Neg(isect.normal);
    assert normal == FacingNormal(ray, isect);
    if surface.diffuseRate > RateEpsilon {
      var origin := Add(isect.point, Scale(normal, OffsetEpsilon));
      branched := branched + [BranchedRay(NewRay(m, origin, normal), surface.diffuseRate, incoming)];
    }
    assert branched == DiffuseBranches(m, ray, isect, incoming);
    var specularWeight := surface.specularRate;
    if surface.transmissionRate > RateEpsilon {
      var ratio := if entering then incoming.refractiveIndex / surface.refractiveIndex
                   else surface.refractiveIndex / t.vacuumMaterial.refractiveIndex;
      assert ratio == RefractionRatio(t, ray, isect, incoming);
      var cosI := -Dot(ray.direction, normal);
      assert cosI == CosIncident(ray, isect);
      var sinTSq := SnellSinSquared(ratio, cosI);
      if sinTSq > 1.0 {
        specularWeight := specularWeight + surface.transmissionRate;
      } else {
        var cosT := m.sqrt(1.0 - sinTSq);
        var refracted := RefractedVector(ray.direction, normal, ratio, cosI, cosT);
        var origin := Sub(isect.point, Scale(normal, OffsetEpsilon));
        var next := if entering then surface else t.vacuumMaterial;
        branched := branched + [BranchedRay(NewRay(m, origin, refracted), surface.transmissionRate, next)];
      }
    }
    assert branched == DiffuseBranches(m, ray, isect, incoming) + TransmittedBranches(t, m, ray, isect, incoming);
    assert specularWeight == SpecularWeight(t, ray, isect, incoming);
    if specularWeight > RateEpsilon {
      var reflected := Reflect(ray.direction, normal);
      var origin := Add(isect.point, Scale(normal, OffsetEpsilon));
      branched := branched + [BranchedRay(NewRay(m, origin, reflected), specularWeight, incoming)];
    }
  }

  /** At most three branches, each weighted above the epsilon: one diffuse
      branch exactly when the diffuse rate exceeds the epsilon, one
      refracted branch exactly when the surface transmits without total
      internal reflection, and one reflected branch exactly when the
      specular weight exceeds the epsilon. */
  lemma BranchesShape(t: RayTracer, m: MathLib, ray: Ray, isect: Intersection, incoming: Material)
    requires IndicesDefined(t, ray, isect)
    ensures var bs := Branches(t, m, ray, isect, incoming);
      && |bs| <= 3
      && (forall i :: 0 <= i < |bs| ==> bs[i].weight > RateEpsilon)
    ensures |DiffuseBranches(m, ray, isect, incoming)| == 1 <==> isect.material.diffuseRate > RateEpsilon
    ensures |TransmittedBranches(t, m, ray, isect, incoming)| == 1 <==>
      isect.material.transmissionRate > RateEpsilon && !TotalInternalReflection(t, ray, isect, incoming)
    ensures |SpecularBranches(t, m, ray, isect, incoming)| == 1 <==>
      SpecularWeight(t, ray, isect, incoming) > RateEpsilon
  {
    var d := DiffuseBranches(m, ray, isect, incoming);
    var tr := TransmittedBranches(t, m, ray, isect, incoming);
    var sp := SpecularBranches(t, m, ray, isect, incoming);
    var bs := Branches(t, m, ray, isect, incoming);
    assert bs == d + tr + sp;
    assert forall i :: 0 <= i < |bs| ==> bs[i] in d || bs[i] in tr || bs[i] in sp;
  }

  /** Under total internal reflection no refracted ray is sent and the
      transmission rate is added, unclamped, to the reflected ray's weight. */
  lemma TotalInternalReflectionFolds(t: RayTracer, m: MathLib, ray: Ray, isect: Intersection,
                                     incoming: Material)
    requires IndicesDefined(t, ray, isect)
    requires TotalInternalReflection(t, ray, isect, incoming)
    ensures Branches(t, m, ray, isect, incoming) ==
      DiffuseBranches(m, ray, isect, incoming) + SpecularBranches(t, m, ray, isect, incoming)
    ensures SpecularWeight(t, ray, isect, incoming) ==
      isect.material.specularRate + isect.material.transmissionRate
  {
    assert TransmittedBranches(t, m, ray, isect, incoming) == [];
  }

  /** The reflected and diffuse branches keep the incoming material; the
      refracted branch passes into the surface's material when entering and
      into the vacuum when leaving. So every branch travels through the
      incoming, the surface's or the vacuum material. */
  lemma BranchMaterials(t: RayTracer, m: MathLib, ray: Ray, isect: Intersection, incoming: Material)
    requires IndicesDefined(t, ray, isect)
    ensures forall b :: b in DiffuseBranches(m, ray, isect, incoming) ==> b.passingMaterial == incoming
    ensures forall b :: b in SpecularBranches(t, m, ray, isect, incoming) ==> b.passingMaterial == incoming
    ensures forall b :: b in TransmittedBranches(t, m, ray, isect, incoming) ==>
      b.passingMaterial == (if Entering(ray, isect) then isect.material else t.vacuumMaterial)
    ensures forall b :: b in Branches(t, m, ray, isect, incoming) ==>
      b.passingMaterial in {incoming, isect.material, t.vacuumMaterial}
  {
  }

  /** With a unit normal, the diffuse and reflected branches head away
      from the surface (towards the side the ray came from) and the
      refracted branch heads through it; the refracted direction's
      component along the facing normal is exactly -cos_t. */
  lemma BranchDirections(t: RayTracer, m: MathLib, ray: Ray, isect: Intersection, incoming: Material)
    requires Lawful(m)
    requires IndicesDefined(t, ray, isect)
    requires LengthSquared(isect.normal) == 1.0
    ensures forall b :: b in DiffuseBranches(m, ray, isect, incoming) + SpecularBranches(t, m, ray, isect, incoming) ==>
      Dot(b.ray.direction, FacingNormal(ray, isect)) >= 0.0
    ensures forall b :: b in TransmittedBranches(t, m, ray, isect, incoming) ==>
      Dot(b.ray.direction, FacingNormal(ray, isect)) <= 0.0
  {
    var n := FacingNormal(ray, isect);
    FacingUnit(ray, isect);
    NormalizeKeepsSide(m, n, n);
    ReflectDot(ray.direction, n);
    NormalizeKeepsSide(m, Reflect(ray.direction, n), n);
    if TransmittedBranches(t, m, ray, isect, incoming) != [] {
      var ratio := RefractionRatio(t, ray, isect, incoming);
      var cosT := CosTransmitted(t, m, ray, isect, incoming);
      RefractedSide(ray.direction, n, ratio, CosIncident(ray, isect), cosT);
      assert cosT >= 0.0;
      NormalizeKeepsSide(m, RefractedDirection(t, m, ray, isect, incoming), n);
    }
  }

  /** The facing normal has the reported normal's length. */
  lemma FacingUnit(ray: Ray, isect: Intersection)
    requires LengthSquared(isect.normal) == 1.0
    ensures LengthSquared(FacingNormal(ray, isect)) == 1.0
  {
    var n := isect.normal;
    assert LengthSquared(Neg(n)) == LengthSquared(n);
  }

  /** With a unit n and cos_i = -(d . n), the refracted vector's component
      along n is -cos_t: the ratio*d terms cancel. */
  lemma RefractedSide(d: Vec3, n: Vec3, ratio: real, cosI: real, cosT: real)
    requires LengthSquared(n) == 1.0
    requires cosI == -Dot(d, n)
    ensures Dot(RefractedVector(d, n, ratio, cosI, cosT), n) == -cosT
  {
    var c := ratio * cosI - cosT;
    DotAdd(ScaleLeft(ratio, d), Scale(n, c), n);
    DotScale(d, n, ratio);
    DotScale(n, n, c);
  }

  /** Normalizing does not move a vector to the other side of a plane. */
  lemma NormalizeKeepsSide(m: MathLib, v: Vec3, n: Vec3)
    requires Lawful(m)
    ensures Dot(v, n) >= 0.0 ==> Dot(Normalize(m, v), n) >= 0.0
    ensures Dot(v, n) <= 0.0 ==> Dot(Normalize(m, v), n) <= 0.0
  {
    if v != Zero() {
      NormalizeIsPositiveMultiple(m, v);
      var k := 1.0 / Length(m, v);
      DotScale(v, n, k);
      assert k > 0.0;
    }
  }

  // ---------------------------------------------------------------------
  // The recursive transport step

  /** Every refractive index a crossing can divide by is non-zero: each
      transmitting surface's own index (divided by when entering it) and
      the vacuum's (divided by when leaving it). */
  predicate IndicesNonZero(t: RayTracer, surfaces: seq<Surface>) {
    forall i :: 0 <= i < |surfaces| && SurfaceMaterial(surfaces[i]).transmissionRate > RateEpsilon ==>
      SurfaceMaterial(surfaces[i]).refractiveIndex != 0.0 && t.vacuumMaterial.refractiveIndex != 0.0
  }

  /** Tracing stops when the depth limit is reached or the weight has
      fallen below the minimum. */
  predicate Stops(t: RayTracer, depth: nat, weight: real) {
    depth >= t.maxDepth || weight < t.minWeight
  }

  /** `trace_ray_recursive` as a value: the background once tracing stops;
      the attenuated emission of the closest light when it is seen before
      any surface; the background when nothing is hit; otherwise the
      shading of the closest surface hit. */
  function Trace(t: RayTracer, m: MathLib, surfaces: seq<Surface>, lights: seq<Light>, ray: Ray,
                 depth: nat, weight: real, passing: Material): Color
    requires IndicesNonZero(t, surfaces)
    decreases t.maxDepth - depth, 3, 0
  {
    if Stops(t, depth, weight) then t.backgroundColor
    else
      var closest := ClosestIntersection(m, surfaces, ray);
      var light := ClosestLight(m, lights, ray);
      if LightFirst(light, closest) then LightColor(m, lights[light.value.1], light.value.0.t, weight, passing)
      else if closest.None? then t.backgroundColor
      else
        ClosestMaterial(m, surfaces, ray);
        Shade(t, m, surfaces, lights, ray, closest.value, depth, weight, passing)
  }

  /** The colour at a surface hit: the direct light of every light plus
      the albedo-weighted colours of the branches, attenuated over the
      distance travelled. */
  function Shade(t: RayTracer, m: MathLib, surfaces: seq<Surface>, lights: seq<Light>, ray: Ray,
                 isect: Intersection, depth: nat, weight: real, passing: Material): Color
    requires depth < t.maxDepth
    requires IndicesNonZero(t, surfaces) && IndicesDefined(t, ray, isect)
    decreases t.maxDepth - depth, 2, 0
  {
    var branches := Branches(t, m, ray, isect, passing);
    MulColors(AddColors(DirectSum(m, isect, isect.material, surfaces, lights),
                        IndirectSum(t, m, surfaces, lights, isect.material.albedo, branches, |branches|,
                                    depth, weight)),
              Attenuation(m, passing, isect.t))
  }

  /** The first n branches' contributions, summed in order. */
  function IndirectSum(t: RayTracer, m: MathLib, surfaces: seq<Surface>, lights: seq<Light>,
                       albedo: Color, branches: seq<BranchedRay>, n: nat, depth: nat, weight: real): Color
    requires n <= |branches| && depth < t.maxDepth
    requires IndicesNonZero(t, surfaces)
    decreases t.maxDepth - depth, 1, n
  {
    if n == 0 then Black()
    else AddColors(IndirectSum(t, m, surfaces, lights, albedo, branches, n - 1, depth, weight),
                   BranchColor(t, m, surfaces, lights, albedo, branches[n - 1], depth,
                               NextWeight(weight, branches[n - 1])))
  }

  /** The weight a branch carries one level deeper: the current weight
      times the branch's own weight. */
  function NextWeight(weight: real, b: BranchedRay): real {
    weight * b.weight
  }

  /** One branch's contribution: the branch traced one level deeper with
      the weight it carries there (the current weight times the branch
      weight), modulated by the albedo and scaled by the branch weight. */
  function BranchColor(t: RayTracer, m: MathLib, surfaces: seq<Surface>, lights: seq<Light>,
                       albedo: Color, b: BranchedRay, depth: nat, nextWeight: real): Color
    requires depth < t.maxDepth
    requires IndicesNonZero(t, surfaces)
    decreases t.maxDepth - depth, 0, 0
  {
    ScaleColor(MulColors(albedo, Trace(t, m, surfaces, lights, b.ray, depth + 1, nextWeight,
                                       b.passingMaterial)),
               b.weight)
  }

  /** `trace_ray`: depth 0, full weight, starting in the vacuum. */
  function TraceRay(t: RayTracer, m: MathLib, ray: Ray, surfaces: seq<Surface>, lights: seq<Light>): Color
    requires IndicesNonZero(t, surfaces)
  {
    Trace(t, m, surfaces, lights, ray, 0, 1.0, t.vacuumMaterial)
  }

  /** `trace_ray_recursive`: the guard, the two scans and the race; the
      shading of a surface hit is `ShadeHit`. */
  method TraceRayRecursive(t: RayTracer, m: MathLib, ray: Ray, surfaces: seq<Surface>, lights: seq<Light>,
                           depth: nat, weight: real, passing: Material) returns (c: Color)
    requires IndicesNonZero(t, surfaces)
    ensures c == Trace(t, m, surfaces, lights, ray, depth, weight, passing)
    decreases t.maxDepth - depth, 3, 0
  {
    if depth >= t.maxDepth || weight < t.minWeight {
      return t.backgroundColor;
    }
    var closest := FindClosestIntersection(m, ray, surfaces);
    var closestLight := FindClosestLight(m, ray, lights);
    if closestLight.Some? {
      var (lightHit, lightIndex) := closestLight.value;
      if closest.None? || lightHit.t < closest.value.t {
        var light := lights[lightIndex];
        var attenuation := Attenuation(m, passing, lightHit.t);
        return ScaleColor(MulColors(light.emission, attenuation), weight);
      }
    }
    if closest.None? {
      return t.backgroundColor;
    }
    ClosestMaterial(m, surfaces, ray);
    c := ShadeHit(t, m, ray, surfaces, lights, closest.value, depth, weight, passing);
  }

  /** The second half of `trace_ray_recursive`: direct light, branching,
      indirect light, and the attenuation of their sum. */
  method ShadeHit(t: RayTracer, m: MathLib, ray: Ray, surfaces: seq<Surface>, lights: seq<Light>,
                  isect: Intersection, depth: nat, weight: real, passing: Material) returns (c: Color)
    requires depth < t.maxDepth
    requires IndicesNonZero(t, surfaces) && IndicesDefined(t, ray, isect)
    ensures c == Shade(t, m, surfaces, lights, ray, isect, depth, weight, passing)
    decreases t.maxDepth - depth, 2, 0
  {
    var attenuation := Attenuation(m, passing, isect.t);
    var material := isect.material;
    var direct := DirectLighting(m, isect, material, surfaces, lights);
    var branched := BranchRays(t, m, ray, isect, passing);
    var indirect := IndirectLighting(t, m, surfaces, lights, material.albedo, branched, depth, weight);
    c := MulColors(AddColors(direct, indirect), attenuation);
  }

  /** The direct-light loop of `trace_ray_recursive`. */
  method DirectLighting(m: MathLib, isect: Intersection, material: Material, surfaces: seq<Surface>,
                        lights: seq<Light>) returns (direct: Color)
    ensures direct == DirectSum(m, isect, material, surfaces, lights)
  {
    direct := Black();
    var i := 0;
    while i < |lights|
      invariant 0 <= i <= |lights|
      invariant direct == DirectSum(m, isect, material, surfaces, lights[..i])
    {
      var contribution := ComputeDirectLight(m, isect, lights[i], material, surfaces);
      assert lights[..i + 1][..i] == lights[..i];
      direct := AddColors(direct, contribution);
      i := i + 1;
    }
    assert lights[..|lights|] == lights;
  }

  /** The loop over the branches of `trace_ray_recursive`. */
  method IndirectLighting(t: RayTracer, m: MathLib, surfaces: seq<Surface>, lights: seq<Light>,
                          albedo: Color, branched: seq<BranchedRay>, depth: nat, weight: real)
    returns (indirect: Color)
    requires depth < t.maxDepth
    requires IndicesNonZero(t, surfaces)
    ensures indirect == IndirectSum(t, m, surfaces, lights, albedo, branched, |branched|, depth, weight)
    decreases t.maxDepth - depth, 1, 0
  {
    indirect := Black();
    var j := 0;
    while j < |branched|
      invariant 0 <= j <= |branched|
      invariant indirect == IndirectSum(t, m, surfaces, lights, albedo, branched, j, depth, weight)
    {
      var contribution := TraceBranch(t, m, surfaces, lights, albedo, branched[j], depth,
                                      NextWeight(weight, branched[j]));
      assert IndirectSum(t, m, surfaces, lights, albedo, branched, j + 1, depth, weight) ==
        AddColors(indirect, contribution);
      indirect := AddColors(indirect, contribution);
      j := j + 1;
    }
  }

  /** One iteration of the branch loop: the branch traced one level deeper,
      modulated by the albedo and scaled by the branch weight. */
  method TraceBranch(t: RayTracer, m: MathLib, surfaces: seq<Surface>, lights: seq<Light>,
                     albedo: Color, b: BranchedRay, depth: nat, nextWeight: real) returns (c: Color)
    requires depth < t.maxDepth
    requires IndicesNonZero(t, surfaces)
    ensures c == BranchColor(t, m, surfaces, lights, albedo, b, depth, nextWeight)
    decreases t.maxDepth - depth, 0, 0
  {
    var contribution := TraceRayRecursive(t, m, b.ray, surfaces, lights, depth + 1,
                                          nextWeight, b.passingMaterial);
    c := ScaleColor(MulColors(albedo, contribution), b.weight);
  }

  // ---------------------------------------------------------------------
  // Properties of the transport

  /** A ray that hits no surface and no light beyond the epsilon returns
      the background colour. */
  lemma TraceMissesEverything(t: RayTracer, m: MathLib, surfaces: seq<Surface>, lights: seq<Light>,
                              ray: Ray, depth: nat, weight: real, passing: Material)
    requires IndicesNonZero(t, surfaces)
    requires forall i :: 0 <= i < |surfaces| ==> !Qualifies(Intersect(m, surfaces[i], ray))
    requires forall i :: 0 <= i < |lights| ==> !Qualifies(LightIntersect(m, lights[i], ray))
    ensures Trace(t, m, surfaces, lights, ray, depth, weight, passing) == t.backgroundColor
  {
    ClosestIntersectionSpec(m, surfaces, ray);
    ClosestLightSpec(m, lights, ray);
  }

  /** `trace_ray` in an empty scene returns the background colour, whatever
      the depth limit. */
  lemma TraceRayEmptyScene(t: RayTracer, m: MathLib, ray: Ray)
    ensures TraceRay(t, m, ray, [], []) == t.backgroundColor
  {
    TraceMissesEverything(t, m, [], [], ray, 0, 1.0, t.vacuumMaterial);
  }

  /** The guard comes first: at the depth limit or below the minimum
      weight the background is returned, whatever the scene and the ray,
      and a zero depth limit makes `trace_ray` return it outright. */
  lemma TraceStops(t: RayTracer, m: MathLib, surfaces: seq<Surface>, lights: seq<Light>,
                   ray: Ray, depth: nat, weight: real, passing: Material)
    requires IndicesNonZero(t, surfaces)
    ensures Stops(t, depth, weight) ==>
      Trace(t, m, surfaces, lights, ray, depth, weight, passing) == t.backgroundColor
    ensures t.maxDepth == 0 ==>
      TraceRay(t, m, ray, surfaces, lights) == t.backgroundColor
  {
  }

  /** When the closest light hit is strictly nearer than every qualifying
      surface hit, the ray returns that light's emission, attenuated over
      the light's distance and scaled by the ray's weight. */
  lemma TraceSeesLight(t: RayTracer, m: MathLib, surfaces: seq<Surface>, lights: seq<Light>,
                       ray: Ray, depth: nat, weight: real, passing: Material, h: Intersection, k: nat)
    requires IndicesNonZero(t, surfaces)
    requires !Stops(t, depth, weight)
    requires ClosestLight(m, lights, ray) == Some((h, k))
    requires forall i :: 0 <= i < |surfaces| && Qualifies(Intersect(m, surfaces[i], ray)) ==>
      h.t < Intersect(m, surfaces[i], ray).value.t
    ensures k < |lights|
    ensures Trace(t, m, surfaces, lights, ray, depth, weight, passing) ==
      LightColor(m, lights[k], h.t, weight, passing)
  {
    ClosestIntersectionSpec(m, surfaces, ray);
  }

  /** When the closest surface hit is no farther than every qualifying
      light hit (a tie goes to the surface), the ray shades that hit. */
  lemma TraceShadesSurface(t: RayTracer, m: MathLib, surfaces: seq<Surface>, lights: seq<Light>,
                           ray: Ray, depth: nat, weight: real, passing: Material, isect: Intersection)
    requires IndicesNonZero(t, surfaces)
    requires !Stops(t, depth, weight)
    requires ClosestIntersection(m, surfaces, ray) == Some(isect)
    requires forall i :: 0 <= i < |lights| && Qualifies(LightIntersect(m, lights[i], ray)) ==>
      isect.t <= LightIntersect(m, lights[i], ray).value.t
    ensures IndicesDefined(t, ray, isect)
    ensures Trace(t, m, surfaces, lights, ray, depth, weight, passing) ==
      Shade(t, m, surfaces, lights, ray, isect, depth, weight, passing)
  {
    ClosestLightSpec(m, lights, ray);
    ClosestMaterial(m, surfaces, ray);
  }

  /** Every colour the scene can contribute is non-negative: the
      background, each light's emission, and each surface material's
      albedo and diffuse rate. */
  predicate SceneNonNegative(t: RayTracer, surfaces: seq<Surface>, lights: seq<Light>) {
    && NonNegative(t.backgroundColor)
    && (forall i :: 0 <= i < |lights| ==> NonNegative(lights[i].emission))
    && (forall i :: 0 <= i < |surfaces| ==>
          NonNegative(SurfaceMaterial(surfaces[i]).albedo) && SurfaceMaterial(surfaces[i]).diffuseRate >= 0.0)
  }

  /** A traced colour is never negative in a scene whose colours are not,
      for any non-negative weight. */
  lemma {:induction false} TraceNonNegative(t: RayTracer, m: MathLib, surfaces: seq<Surface>,
                                            lights: seq<Light>, ray: Ray, depth: nat, weight: real,
                                            passing: Material)
    requires Lawful(m) && SceneNonNegative(t, surfaces, lights) && weight >= 0.0
    requires IndicesNonZero(t, surfaces)
    ensures NonNegative(Trace(t, m, surfaces, lights, ray, depth, weight, passing))
    decreases t.maxDepth - depth, 3, 0
  {
    if !Stops(t, depth, weight) {
      var closest := ClosestIntersection(m, surfaces, ray);
      var light := ClosestLight(m, lights, ray);
      if LightFirst(light, closest) {
        var (h, k) := light.value;
        AttenuationLaws(m, passing, h.t);
        NonNegativeClosed(lights[k].emission, Attenuation(m, passing, h.t), weight);
        NonNegativeClosed(MulColors(lights[k].emission, Attenuation(m, passing, h.t)), Black(), weight);
      } else if closest.Some? {
        ClosestMaterial(m, surfaces, ray);
        ShadeNonNegative(t, m, surfaces, lights, ray, closest.value, depth, weight, passing);
      }
    }
  }

  /** The shading of a hit on a non-negative material is non-negative. */
  lemma {:induction false} ShadeNonNegative(t: RayTracer, m: MathLib, surfaces: seq<Surface>,
                                            lights: seq<Light>, ray: Ray, isect: Intersection,
                                            depth: nat, weight: real, passing: Material)
    requires Lawful(m) && SceneNonNegative(t, surfaces, lights) && weight >= 0.0
    requires depth < t.maxDepth
    requires IndicesNonZero(t, surfaces) && IndicesDefined(t, ray, isect)
    requires NonNegative(isect.material.albedo) && isect.material.diffuseRate >= 0.0
    ensures NonNegative(Shade(t, m, surfaces, lights, ray, isect, depth, weight, passing))
    decreases t.maxDepth - depth, 2, 0
  {
    BranchesShape(t, m, ray, isect, passing);
    var branches := Branches(t, m, ray, isect, passing);
    var direct := DirectSum(m, isect, isect.material, surfaces, lights);
    var indirect := IndirectSum(t, m, surfaces, lights, isect.material.albedo, branches, |branches|,
                                depth, weight);
    DirectSumNonNegative(m, isect, isect.material, surfaces, lights);
    IndirectSumNonNegative(t, m, surfaces, lights, isect.material.albedo, branches, |branches|,
                           depth, weight);
    AttenuationLaws(m, passing, isect.t);
    NonNegativeClosed(direct, indirect, 0.0);
    NonNegativeClosed(AddColors(direct, indirect), Attenuation(m, passing, isect.t), 0.0);
  }

  /** The sum of the first n branch contributions is non-negative. */
  lemma {:induction false} IndirectSumNonNegative(t: RayTracer, m: MathLib, surfaces: seq<Surface>,
                                                  lights: seq<Light>, albedo: Color,
                                                  branches: seq<BranchedRay>, n: nat, depth: nat,
                                                  weight: real)
    requires Lawful(m) && SceneNonNegative(t, surfaces, lights) && weight >= 0.0
    requires n <= |branches| && depth < t.maxDepth
    requires IndicesNonZero(t, surfaces)
    requires forall i :: 0 <= i < |branches| ==> branches[i].weight >= 0.0
    requires NonNegative(albedo)
    ensures NonNegative(IndirectSum(t, m, surfaces, lights, albedo, branches, n, depth, weight))
    decreases t.maxDepth - depth, 1, n
  {
    if n > 0 {
      var b := branches[n - 1];
      IndirectSumNonNegative(t, m, surfaces, lights, albedo, branches, n - 1, depth, weight);
      ProductNonNegative(weight, b.weight);
      BranchColorNonNegative(t, m, surfaces, lights, albedo, b, depth, NextWeight(weight, b));
      NonNegativeClosed(IndirectSum(t, m, surfaces, lights, albedo, branches, n - 1, depth, weight),
                        BranchColor(t, m, surfaces, lights, albedo, b, depth, NextWeight(weight, b)), 0.0);
    }
  }

  /** One branch's contribution is non-negative. */
  lemma {:induction false} BranchColorNonNegative(t: RayTracer, m: MathLib, surfaces: seq<Surface>,
                                                  lights: seq<Light>, albedo: Color, b: BranchedRay,
                                                  depth: nat, nextWeight: real)
    requires Lawful(m) && SceneNonNegative(t, surfaces, lights)
    requires depth < t.maxDepth
    requires IndicesNonZero(t, surfaces)
    requires NonNegative(albedo) && nextWeight >= 0.0 && b.weight >= 0.0
    ensures NonNegative(BranchColor(t, m, surfaces, lights, albedo, b, depth, nextWeight))
    decreases t.maxDepth - depth, 0, 0
  {
    var c := Trace(t, m, surfaces, lights, b.ray, depth + 1, nextWeight, b.passingMaterial);
    TraceNonNegative(t, m, surfaces, lights, b.ray, depth + 1, nextWeight, b.passingMaterial);
    NonNegativeClosed(albedo, c, b.weight);
    NonNegativeClosed(MulColors(albedo, c), Black(), b.weight);
  }
}
