/** The `scatter` methods of CppPathTracing/src/material.h. Each writes an
    attenuation and a scattered ray through reference out-parameters and
    returns whether the ray scatters. Unlike the Python materials they do not
    normalise the scattered direction, and Metal reflects the unit incoming
    direction. */
module CppMaterial {
  import opened RealMath
  import opened Vector
  import opened Rays
  import opened MaterialKind
  import Objects
  import Py = Scatter
  import CppVec3
  import CppHittable

  /** What a `scatter` call leaves behind: its result and both out-parameters. */
  datatype Outcome = Outcome(scatters: bool, attenuation: Vec3, scattered: Ray)

  /** `random_unit_vector()` for the accepted ball draw; `unit_vector` has no zero guard. */
  function RandomUnitVector(ball: Vec3, sqrt: RealFn): Vec3
    requires Length(ball, sqrt) != 0.0
  {
    CppVec3.UnitVector(ball, sqrt)
  }

  /** `Lambertian::scatter`. */
  function Lambertian(albedo: Vec3, rec: Objects.HitRecord, ball: Vec3, sqrt: RealFn): (o: Outcome)
    requires Length(ball, sqrt) != 0.0
    ensures o.scatters && o.attenuation == albedo && o.scattered.origin == rec.point
    ensures NearZero(Add(rec.normal, RandomUnitVector(ball, sqrt))) ==> o.scattered.direction == rec.normal
    ensures !NearZero(Add(rec.normal, RandomUnitVector(ball, sqrt))) ==>
              o.scattered.direction == Add(rec.normal, RandomUnitVector(ball, sqrt))
  {
    var scatterDirection := Add(rec.normal, RandomUnitVector(ball, sqrt));
    var direction := if NearZero(scatterDirection) then rec.normal else scatterDirection;
    Outcome(true, albedo, Ray(rec.point, direction))
  }

  /** `Metal::scatter`: both out-parameters are written whether or not it scatters. */
  function Metal(albedo: Vec3, fuzz: real, rIn: Ray, rec: Objects.HitRecord, ball: Vec3, sqrt: RealFn)
    : (o: Outcome)
    requires Length(rIn.direction, sqrt) != 0.0
    ensures o.attenuation == albedo && o.scattered.origin == rec.point
    ensures o.scatters <==> Dot(o.scattered.direction, rec.normal) > 0.0
    ensures o.scattered.direction == Add(Reflect(CppVec3.UnitVector(rIn.direction, sqrt), rec.normal), Scale(fuzz, ball))
  {
    var reflected := Reflect(CppVec3.UnitVector(rIn.direction, sqrt), rec.normal);
    var scattered := Ray(rec.point, Add(reflected, Scale(fuzz, ball)));
    Outcome(Dot(scattered.direction, rec.normal) > 0.0, albedo, scattered)
  }

  /** `cos_theta` of `Dielectric::scatter`, on `unit_vector` of the incoming direction. */
  function CosThetaCpp(rIn: Ray, rec: Objects.HitRecord, sqrt: RealFn): real
    requires Length(rIn.direction, sqrt) != 0.0
  {
    Min(-Dot(CppVec3.UnitVector(rIn.direction, sqrt), rec.normal), 1.0)
  }

  /** `cannot_refract || reflectance(cos_theta, refraction_ratio) > random_double()`. */
  predicate ReflectsCpp(refractiveIndex: real, rIn: Ray, rec: Objects.HitRecord, u: real, sqrt: RealFn)
    requires Length(rIn.direction, sqrt) != 0.0
    requires (rec.frontFace ==> refractiveIndex != 0.0) && refractiveIndex != -1.0
  {
    var eta := Py.EtaRatio(refractiveIndex, rec.frontFace);
    Py.BeyondCritical(eta, CosThetaCpp(rIn, rec, sqrt), sqrt) || Py.Reflectance(CosThetaCpp(rIn, rec, sqrt), eta) > u
  }

  /** `Dielectric::scatter`: the Python algorithm on `unit_vector` of the
      incoming direction; always scatters, white attenuation. */
  function Dielectric(refractiveIndex: real, rIn: Ray, rec: Objects.HitRecord, u: real, sqrt: RealFn)
    : (o: Outcome)
    requires Length(rIn.direction, sqrt) != 0.0
    requires (rec.frontFace ==> refractiveIndex != 0.0) && refractiveIndex != -1.0
    requires -1.0 <= Min(-Dot(CppVec3.UnitVector(rIn.direction, sqrt), rec.normal), 1.0)
    ensures o.scatters && o.attenuation == Py.White && o.scattered.origin == rec.point
    ensures ReflectsCpp(refractiveIndex, rIn, rec, u, sqrt) ==>
              o.scattered.direction == Reflect(CppVec3.UnitVector(rIn.direction, sqrt), rec.normal)
    ensures !ReflectsCpp(refractiveIndex, rIn, rec, u, sqrt) ==>
              o.scattered.direction == Refract(CppVec3.UnitVector(rIn.direction, sqrt), rec.normal,
                                               Py.EtaRatio(refractiveIndex, rec.frontFace), sqrt)
  {
    var refractionRatio := Py.EtaRatio(refractiveIndex, rec.frontFace);
    var unitDirection := CppVec3.UnitVector(rIn.direction, sqrt);
    var direction :=
      if ReflectsCpp(refractiveIndex, rIn, rec, u, sqrt) then Reflect(unitDirection, rec.normal)
      else Refract(unitDirection, rec.normal, refractionRatio, sqrt);
    Outcome(true, Py.White, Ray(rec.point, direction))
  }

  /** What `rec.material->scatter(...)` needs to be defined: a non-zero ball
      draw for Lambertian, a non-zero incoming direction for Metal and
      Dielectric, and a Dielectric index the Python model also accepts. */
  predicate ScatterDefined(m: Material, rIn: Ray, rec: Objects.HitRecord, d: Py.Sample, sqrt: RealFn) {
    match m
    case Lambertian(_) => Length(d.ball, sqrt) != 0.0
    case Metal(_, _) => Length(rIn.direction, sqrt) != 0.0
    case Dielectric(ri) =>
      Length(rIn.direction, sqrt) != 0.0 && (rec.frontFace ==> ri != 0.0) && ri != -1.0 &&
      -1.0 <= Min(-Dot(CppVec3.UnitVector(rIn.direction, sqrt), rec.normal), 1.0)
  }

  /** The virtual call `rec.material->scatter(r, rec, attenuation, scattered)`. */
  function Scatter(m: Material, rIn: Ray, rec: Objects.HitRecord, d: Py.Sample, sqrt: RealFn): (o: Outcome)
    requires ScatterDefined(m, rIn, rec, d, sqrt)
    ensures !m.Metal? ==> o.scatters
    ensures o.scattered.origin == rec.point
    ensures o.attenuation == if m.Dielectric? then Py.White else m.albedo
  {
    match m
    case Lambertian(albedo) => Lambertian(albedo, rec, d.ball, sqrt)
    case Metal(albedo, fuzz) => Metal(albedo, fuzz, rIn, rec, d.ball, sqrt)
    case Dielectric(ri) => Dielectric(ri, rIn, rec, d.u, sqrt)
  }

  // ---------------------------------------------------------------------
  // The methods, writing through out-parameters.

  method LambertianScatter(albedo: Vec3, rIn: Ray, rec: CppHittable.HitRecord, ball: Vec3, sqrt: RealFn)
    returns (scatters: bool, attenuation: Vec3, scattered: Ray)
    requires Length(ball, sqrt) != 0.0
    ensures Outcome(scatters, attenuation, scattered) == Lambertian(albedo, rec.Value(), ball, sqrt)
    ensures scatters && attenuation == albedo && scattered.origin == rec.point
  {
    var scatterDirection := Add(rec.normal, CppVec3.UnitVector(ball, sqrt));
    if NearZero(scatterDirection) {
      scatterDirection := rec.normal;
    }
    scattered := Ray(rec.point, scatterDirection);
    attenuation := albedo;
    return true, attenuation, scattered;
  }

  method MetalScatter(albedo: Vec3, fuzz: real, rIn: Ray, rec: CppHittable.HitRecord, ball: Vec3, sqrt: RealFn)
    returns (scatters: bool, attenuation: Vec3, scattered: Ray)
    requires Length(rIn.direction, sqrt) != 0.0
    ensures Outcome(scatters, attenuation, scattered) == Metal(albedo, fuzz, rIn, rec.Value(), ball, sqrt)
    ensures scatters <==> Dot(scattered.direction, rec.normal) > 0.0
  {
    var reflected := Reflect(CppVec3.UnitVector(rIn.direction, sqrt), rec.normal);
    scattered := Ray(rec.point, Add(reflected, Scale(fuzz, ball)));
    attenuation := albedo;
    scatters := Dot(scattered.direction, rec.normal) > 0.0;
  }

  method DielectricScatter(refractiveIndex: real, rIn: Ray, rec: CppHittable.HitRecord, u: real, sqrt: RealFn)
    returns (scatters: bool, attenuation: Vec3, scattered: Ray)
    requires Length(rIn.direction, sqrt) != 0.0
    requires (rec.frontFace ==> refractiveIndex != 0.0) && refractiveIndex != -1.0
    requires -1.0 <= Min(-Dot(CppVec3.UnitVector(rIn.direction, sqrt), rec.normal), 1.0)
    ensures Outcome(scatters, attenuation, scattered) == Dielectric(refractiveIndex, rIn, rec.Value(), u, sqrt)
    ensures scatters && attenuation == Py.White
  {
    attenuation := Py.White;
    var refractionRatio := Py.EtaRatio(refractiveIndex, rec.frontFace);
    var unitDirection := CppVec3.UnitVector(rIn.direction, sqrt);
    var cosTheta := Min(-Dot(unitDirection, rec.normal), 1.0);
    var cannotRefract := Py.BeyondCritical(refractionRatio, cosTheta, sqrt);
    var direction;
    if cannotRefract || Py.Reflectance(cosTheta, refractionRatio) > u {
      direction := Reflect(unitDirection, rec.normal);
    } else {
      direction := Refract(unitDirection, rec.normal, refractionRatio, sqrt);
    }
    scattered := Ray(rec.point, direction);
    return true, attenuation, scattered;
  }

  // ---------------------------------------------------------------------
  // Agreement with the Python materials.

  /** For a non-zero ball draw the Python Lambertian direction is the
      normalised C++ one. */
  lemma LambertianAgrees(albedo: Vec3, rec: Objects.HitRecord, ball: Vec3, sqrt: RealFn)
    requires IsSqrt(sqrt) && ball != Zero
    ensures Length(ball, sqrt) != 0.0
    ensures Py.LambertianScatter(albedo, rec, ball, sqrt) ==
              (var o := Lambertian(albedo, rec, ball, sqrt); (Ray(o.scattered.origin, Normalize(o.scattered.direction, sqrt)), o.attenuation))
  {
    CppVec3.UnitVectorIsNormalize(ball, sqrt);
  }

  /** For a unit incoming direction the Metal materials scatter in the same
      cases, and the Python direction is the normalised C++ one. */
  lemma MetalAgrees(albedo: Vec3, fuzz: real, rIn: Ray, rec: Objects.HitRecord, ball: Vec3, sqrt: RealFn)
    requires IsSqrt(sqrt) && IsUnit(rIn.direction)
    ensures Length(rIn.direction, sqrt) != 0.0
    ensures var o := Metal(albedo, fuzz, rIn, rec, ball, sqrt);
      (Py.MetalScatter(albedo, fuzz, rIn, rec, ball, sqrt).Some? <==> o.scatters) &&
      (o.scatters ==> Py.MetalScatter(albedo, fuzz, rIn, rec, ball, sqrt).value ==
                        (Ray(rec.point, Normalize(o.scattered.direction, sqrt)), albedo))
  {
    NearZeroIsShort(rIn.direction);
    CppVec3.UnitVectorIsNormalize(rIn.direction, sqrt);
    NormalizeUnit(rIn.direction, sqrt);
    var o := Metal(albedo, fuzz, rIn, rec, ball, sqrt);
    var w := o.scattered.direction;
    assert w == Add(Reflect(rIn.direction, rec.normal), Scale(fuzz, ball));
    if w != Zero {
      NormalizeNonZero(w, sqrt);
      var l := Length(w, sqrt);
      DotScaleLeft(1.0 / l, w, rec.normal);
      if Dot(w, rec.normal) > 0.0 {
        PositiveProduct(1.0 / l, Dot(w, rec.normal));
      } else {
        NonPositiveScaled(1.0 / l, Dot(w, rec.normal));
      }
    }
  }

  lemma NonPositiveScaled(k: real, x: real)
    requires 0.0 < k && x <= 0.0
    ensures k * x <= 0.0
  {
    if x < 0.0 {
      PositiveProduct(k, -x);
    }
  }

  /** For every non-zero incoming direction C++ Metal reflects the normalised
      direction, adds the fuzz and leaves the sum unnormalised; Python
      reflects the raw direction and normalises afterwards. */
  lemma MetalReflectsUnit(albedo: Vec3, fuzz: real, rIn: Ray, rec: Objects.HitRecord, ball: Vec3, sqrt: RealFn)
    requires IsSqrt(sqrt) && rIn.direction != Zero
    ensures Length(rIn.direction, sqrt) != 0.0
    ensures Metal(albedo, fuzz, rIn, rec, ball, sqrt).scattered.direction ==
              Add(Reflect(Normalize(rIn.direction, sqrt), rec.normal), Scale(fuzz, ball))
  {
    CppVec3.UnitVectorIsNormalize(rIn.direction, sqrt);
  }

  lemma SqrtOfFour(sqrt: RealFn)
    requires IsSqrt(sqrt)
    ensures sqrt(4.0) == 2.0
  {
    SqrtOfSquare(sqrt, 2.0);
  }

  /** Positive multiples of (0.25,0,2) and (0.25,0,1) never coincide. */
  lemma NotParallel(a: real, b: real)
    requires 0.0 < a && 0.0 < b
    ensures Scale(a, Vec3(0.25, 0.0, 2.0)) != Scale(b, Vec3(0.25, 0.0, 1.0))
  {
    assert a != b ==> a * 0.25 != b * 0.25;
    assert a == b ==> a * 2.0 != b * 1.0;
  }

  /** The incoming ray, hit record and ball draw of `MetalDiverges`. */
  function SlantRay(): Ray {
    Ray(Zero, Vec3(0.0, 0.0, -2.0))
  }

  function FlatHit(albedo: Vec3): Objects.HitRecord {
    Objects.HitRecord(Zero, Vec3(0.0, 0.0, 1.0), 1.0, true, Material.Lambertian(albedo))
  }

  const SideDraw := Vec3(0.5, 0.0, 0.0)

  lemma UnitSlant(sqrt: RealFn)
    requires sqrt(4.0) == 2.0
    ensures Length(SlantRay().direction, sqrt) == 2.0
    ensures CppVec3.UnitVector(SlantRay().direction, sqrt) == Vec3(0.0, 0.0, -1.0)
  {
    assert LengthSquared(Vec3(0.0, 0.0, -2.0)) == 4.0;
  }

  lemma CppSlantMetal(albedo: Vec3, sqrt: RealFn)
    requires sqrt(4.0) == 2.0
    ensures Length(SlantRay().direction, sqrt) != 0.0
    ensures Metal(albedo, 0.5, SlantRay(), FlatHit(albedo), SideDraw, sqrt).scattered.direction == Vec3(0.25, 0.0, 1.0)
  {
    UnitSlant(sqrt);
    MetalUp(albedo, 0.5, SlantRay(), FlatHit(albedo), SideDraw, sqrt, Vec3(0.0, 0.0, -1.0));
  }

  /** C++ Metal at the normal (0,0,1), given the unit incoming direction `u`. */
  lemma MetalUp(albedo: Vec3, fuzz: real, rIn: Ray, rec: Objects.HitRecord, ball: Vec3, sqrt: RealFn, u: Vec3)
    requires Length(rIn.direction, sqrt) != 0.0 && CppVec3.UnitVector(rIn.direction, sqrt) == u
    requires rec.normal == Vec3(0.0, 0.0, 1.0)
    ensures Metal(albedo, fuzz, rIn, rec, ball, sqrt).scattered.direction ==
              Vec3(u.x + fuzz * ball.x, u.y + fuzz * ball.y, -u.z + fuzz * ball.z)
  {
    FuzzedUp(u, fuzz, ball);
  }

  /** The fuzzed reflection about the normal (0,0,1), component by component. */
  lemma FuzzedUp(v: Vec3, k: real, b: Vec3)
    ensures Add(Reflect(v, Vec3(0.0, 0.0, 1.0)), Scale(k, b)) == Vec3(v.x + k * b.x, v.y + k * b.y, -v.z + k * b.z)
  {
    ReflectUp(v);
    assert Scale(k, b) == Vec3(k * b.x, k * b.y, k * b.z);
  }

  /** Reflection about the normal (0,0,1) negates the z component. */
  lemma ReflectUp(v: Vec3)
    ensures Reflect(v, Vec3(0.0, 0.0, 1.0)) == Vec3(v.x, v.y, -v.z)
  {
    var n := Vec3(0.0, 0.0, 1.0);
    assert Dot(v, n) == v.z;
    assert Scale(2.0 * v.z, n) == Vec3(0.0, 0.0, 2.0 * v.z);
  }

  lemma PySlantMetal(albedo: Vec3, sqrt: RealFn)
    ensures Py.MetalDirection(0.5, SlantRay(), FlatHit(albedo), SideDraw, sqrt) == Normalize(Vec3(0.25, 0.0, 2.0), sqrt)
  {
    FuzzedUp(Vec3(0.0, 0.0, -2.0), 0.5, SideDraw);
    assert Add(Vec3(0.0, 0.0, 2.0), Vec3(0.25, 0.0, 0.0)) == Vec3(0.25, 0.0, 2.0);
  }

  /** The two metals really differ on a non-unit incoming direction: arriving
      along (0,0,-2) at the normal (0,0,1) with fuzz 0.5 and ball draw
      (0.5,0,0), C++ leaves along (0.25,0,1), a direction Python's
      normalised (0.25,0,2) does not point along. */
  lemma MetalDiverges(albedo: Vec3, sqrt: RealFn)
    requires IsSqrt(sqrt)
    ensures Length(SlantRay().direction, sqrt) != 0.0
    ensures Metal(albedo, 0.5, SlantRay(), FlatHit(albedo), SideDraw, sqrt).scattered.direction == Vec3(0.25, 0.0, 1.0)
    ensures Py.MetalDirection(0.5, SlantRay(), FlatHit(albedo), SideDraw, sqrt) != Normalize(Vec3(0.25, 0.0, 1.0), sqrt)
  {
    SqrtOfFour(sqrt);
    CppSlantMetal(albedo, sqrt);
    PySlantMetal(albedo, sqrt);
    NormalsDiffer(sqrt);
  }

  lemma NormalsDiffer(sqrt: RealFn)
    requires IsSqrt(sqrt)
    ensures Normalize(Vec3(0.25, 0.0, 2.0), sqrt) != Normalize(Vec3(0.25, 0.0, 1.0), sqrt)
  {
    var p := Vec3(0.25, 0.0, 2.0);
    var c := Vec3(0.25, 0.0, 1.0);
    NormalizeNonZero(p, sqrt);
    NormalizeNonZero(c, sqrt);
    NotParallel(1.0 / Length(p, sqrt), 1.0 / Length(c, sqrt));
  }

  /** For a non-zero incoming direction the Dielectric materials agree exactly. */
  lemma DielectricAgrees(refractiveIndex: real, rIn: Ray, rec: Objects.HitRecord, u: real, sqrt: RealFn)
    requires IsSqrt(sqrt) && rIn.direction != Zero
    requires Py.DielectricDefined(refractiveIndex, rIn, rec, sqrt)
    ensures Length(rIn.direction, sqrt) != 0.0
    ensures -1.0 <= Min(-Dot(CppVec3.UnitVector(rIn.direction, sqrt), rec.normal), 1.0)
    ensures var o := Dielectric(refractiveIndex, rIn, rec, u, sqrt);
      Py.DielectricScatter(refractiveIndex, rIn, rec, u, sqrt) == (o.scattered, o.attenuation)
  {
    CppVec3.UnitVectorIsNormalize(rIn.direction, sqrt);
    assert Py.CosTheta(rIn, rec, sqrt) == Min(-Dot(CppVec3.UnitVector(rIn.direction, sqrt), rec.normal), 1.0);
  }

  /** Scattering off a unit normal never produces a zero direction when the
      C++ call is defined, so the next bounce can be traced. */
  lemma ScatterDirectionNonZero(m: Material, rIn: Ray, rec: Objects.HitRecord, d: Py.Sample, sqrt: RealFn)
    requires IsSqrt(sqrt) && IsUnit(rec.normal) && ScatterDefined(m, rIn, rec, d, sqrt)
    ensures Scatter(m, rIn, rec, d, sqrt).scatters ==> Scatter(m, rIn, rec, d, sqrt).scattered.direction != Zero
  {
    match m
    case Lambertian(albedo) =>
      var sd := Add(rec.normal, RandomUnitVector(d.ball, sqrt));
      NearZeroIsShort(sd);
      NearZeroIsShort(rec.normal);
    case Metal(_, _) =>
    case Dielectric(ri) =>
      CppVec3.UnitVectorIsNormalize(rIn.direction, sqrt);
      DielectricAgrees(ri, rIn, rec, d.u, sqrt);
      Py.DielectricDirection(ri, rIn, rec, d.u, sqrt);
  }
}
