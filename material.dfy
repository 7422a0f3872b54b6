/** `Material.scatter` of PathTracing/src/material.py. Each material returns
    a fresh (scattered ray, attenuation) pair or None; random draws are inputs. */
module Scatter {
  import opened RealMath
  import opened Vector
  import opened Wrappers
  import opened Rays
  import opened MaterialKind
  import opened Objects

  /** The random draws one `scatter` call consumes: the point that
      `random_in_unit_sphere` accepted, and one `random.random()`. */
  datatype Sample = Sample(ball: Vec3, u: real)

  predicate ValidSample(d: Sample) {
    InUnitBall(d.ball) && 0.0 <= d.u < 1.0
  }

  const White := Vec3(1.0, 1.0, 1.0)

  function Pow5(x: real): real {
    x * x * x * x * x
  }

  /** `_reflectance`: Schlick's approximation; `1 + ref_idx` must not be zero. */
  function Reflectance(cosine: real, refIdx: real): real
    requires refIdx != -1.0
  {
    var r0 := (1.0 - refIdx) / (1.0 + refIdx);
    var r0sq := r0 * r0;
    r0sq + (1.0 - r0sq) * Pow5(1.0 - cosine)
  }

  lemma UnitProduct(a: real, b: real)
    requires 0.0 <= a <= 1.0 && 0.0 <= b <= 1.0
    ensures 0.0 <= a * b <= 1.0
  {
    var p := a * b;
    if a == 0.0 || b == 0.0 {
      assert p == 0.0;
    } else if a == 1.0 {
      assert p == b;
    } else {
      PositiveProduct(a, b);
      PositiveProduct(1.0 - a, b);
      assert (1.0 - a) * b == b - p;
      assert p < b;
    }
  }

  /** The reflectance is a probability for a cosine in [0,1] and a positive
      index ratio; it is 1 at grazing incidence. */
  lemma ReflectanceBounds(cosine: real, refIdx: real)
    requires 0.0 <= cosine <= 1.0 && 0.0 < refIdx
    ensures 0.0 <= Reflectance(cosine, refIdx) <= 1.0
    ensures cosine == 0.0 ==> Reflectance(cosine, refIdx) == 1.0
  {
    var r0 := (1.0 - refIdx) / (1.0 + refIdx);
    assert -1.0 < r0 < 1.0 by {
      assert r0 * (1.0 + refIdx) == 1.0 - refIdx;
    }
    var r0sq := r0 * r0;
    assert 0.0 <= r0sq < 1.0 by {
      SquareNonNegative(r0);
      if 0.0 <= r0 {
        assert r0 * r0 <= r0 * 1.0;
      } else {
        assert r0 * r0 <= (-r0) * 1.0;
      }
    }
    var x := 1.0 - cosine;
    UnitProduct(x, x);
    UnitProduct(x * x, x);
    UnitProduct(x * x * x, x);
    UnitProduct(x * x * x * x, x);
    var p := Pow5(x);
    UnitProduct(1.0 - r0sq, p);
    assert (1.0 - r0sq) * p <= 1.0 - r0sq by {
      assert (1.0 - r0sq) * p <= (1.0 - r0sq) * 1.0;
    }
  }

  // ---------------------------------------------------------------------
  // Lambertian

  /** `Lambertian.scatter`: normal plus a random unit vector, falling back to
      the normal when that sum is near zero, normalised; always scatters. */
  function LambertianScatter(albedo: Vec3, rec: HitRecord, ball: Vec3, sqrt: RealFn): (res: (Ray, Vec3))
    ensures res.0.origin == rec.point && res.1 == albedo
    ensures NearZero(Add(rec.normal, Normalize(ball, sqrt))) ==> res.0.direction == Normalize(rec.normal, sqrt)
    ensures !NearZero(Add(rec.normal, Normalize(ball, sqrt))) ==>
              res.0.direction == Normalize(Add(rec.normal, Normalize(ball, sqrt)), sqrt)
  {
    var scatterDirection := Add(rec.normal, Normalize(ball, sqrt));
    var direction := if NearZero(scatterDirection) then rec.normal else scatterDirection;
    (Ray(rec.point, Normalize(direction, sqrt)), albedo)
  }

  /** With a non-zero normal the Lambertian direction is a unit vector. */
  lemma LambertianUnit(albedo: Vec3, rec: HitRecord, ball: Vec3, sqrt: RealFn)
    requires IsSqrt(sqrt) && rec.normal != Zero
    ensures IsUnit(LambertianScatter(albedo, rec, ball, sqrt).0.direction)
  {
    var scatterDirection := Add(rec.normal, Normalize(ball, sqrt));
    NearZeroIsShort(scatterDirection);
    if NearZero(scatterDirection) {
      NormalizeNonZero(rec.normal, sqrt);
    } else {
      NormalizeNonZero(scatterDirection, sqrt);
    }
  }

  // ---------------------------------------------------------------------
  // Metal

  /** The Metal direction: the mirror reflection plus `fuzz` times the ball draw, normalised. */
  function MetalDirection(fuzz: real, rIn: Ray, rec: HitRecord, ball: Vec3, sqrt: RealFn): Vec3 {
    Normalize(Add(Reflect(rIn.direction, rec.normal), Scale(fuzz, ball)), sqrt)
  }

  /** `Metal.scatter`: None unless the scattered direction leaves the surface. */
  function MetalScatter(albedo: Vec3, fuzz: real, rIn: Ray, rec: HitRecord, ball: Vec3, sqrt: RealFn)
    : (res: Option<(Ray, Vec3)>)
    ensures res.Some? <==> Dot(MetalDirection(fuzz, rIn, rec, ball, sqrt), rec.normal) > 0.0
    ensures res.Some? ==> res.value.0.origin == rec.point && res.value.1 == albedo
    ensures res.Some? ==> res.value.0.direction == MetalDirection(fuzz, rIn, rec, ball, sqrt)
  {
    var scattered := Ray(rec.point, MetalDirection(fuzz, rIn, rec, ball, sqrt));
    if Dot(scattered.direction, rec.normal) > 0.0 then Some((scattered, albedo)) else None
  }

  /** A Metal bounce leaves along a unit vector on the normal's side. */
  lemma MetalUnit(albedo: Vec3, fuzz: real, rIn: Ray, rec: HitRecord, ball: Vec3, sqrt: RealFn)
    requires IsSqrt(sqrt)
    ensures var res := MetalScatter(albedo, fuzz, rIn, rec, ball, sqrt);
      res.Some? ==> IsUnit(res.value.0.direction) && Dot(res.value.0.direction, rec.normal) > 0.0
  {
    var sum := Add(Reflect(rIn.direction, rec.normal), Scale(fuzz, ball));
    assert MetalDirection(fuzz, rIn, rec, ball, sqrt) == Normalize(sum, sqrt);
    if sum != Zero {
      NormalizeNonZero(sum, sqrt);
    } else {
      assert Normalize(sum, sqrt) == Zero;
    }
  }

  /** A perfect mirror (fuzz 0) hit by a unit ray about a unit normal reflects
      it exactly, and scatters exactly when the ray arrives against the normal. */
  lemma MetalMirror(albedo: Vec3, rIn: Ray, rec: HitRecord, ball: Vec3, sqrt: RealFn)
    requires IsSqrt(sqrt) && IsUnit(rIn.direction) && IsUnit(rec.normal)
    ensures MetalDirection(0.0, rIn, rec, ball, sqrt) == Reflect(rIn.direction, rec.normal)
    ensures MetalScatter(albedo, 0.0, rIn, rec, ball, sqrt).Some? <==> Dot(rIn.direction, rec.normal) < 0.0
  {
    var reflected := Reflect(rIn.direction, rec.normal);
    assert Add(reflected, Scale(0.0, ball)) == reflected;
    ReflectPreservesLength(rIn.direction, rec.normal);
    NormalizeUnit(reflected, sqrt);
    ReflectNormalComponent(rIn.direction, rec.normal);
  }

  // ---------------------------------------------------------------------
  // Dielectric

  /** `etai_over_etat`: `1/refractive_index` entering through the front face,
      `refractive_index` leaving through the back. */
  function EtaRatio(refractiveIndex: real, frontFace: bool): (eta: real)
    requires frontFace ==> refractiveIndex != 0.0
    ensures frontFace ==> eta * refractiveIndex == 1.0
    ensures !frontFace ==> eta == refractiveIndex
  {
    if frontFace then 1.0 / refractiveIndex else refractiveIndex
  }

  /** `cos_theta`: the cosine between the reversed unit direction and the normal, capped at 1. */
  function CosTheta(rIn: Ray, rec: HitRecord, sqrt: RealFn): (c: real)
    ensures c <= 1.0
  {
    Min(-Dot(Normalize(rIn.direction, sqrt), rec.normal), 1.0)
  }

  /** When `Dielectric.scatter` runs to completion: `1/refractive_index`,
      the reflectance's `1/(1 + ref_idx)` and the real `** 0.5` of `sin_theta`
      must all be defined. */
  predicate DielectricDefined(refractiveIndex: real, rIn: Ray, rec: HitRecord, sqrt: RealFn) {
    (rec.frontFace ==> refractiveIndex != 0.0) && refractiveIndex != -1.0 &&
    -1.0 <= CosTheta(rIn, rec, sqrt)
  }

  /** `sin_theta = (1 - cos_theta^2) ** 0.5`: the sine from the cosine. */
  function SinOf(cosTheta: real, sqrt: RealFn): real {
    sqrt(1.0 - cosTheta * cosTheta)
  }

  /** Snell's law has no solution: `eta * sin_theta > 1`. */
  predicate BeyondCritical(eta: real, cosTheta: real, sqrt: RealFn) {
    eta * SinOf(cosTheta, sqrt) > 1.0
  }

  /** `cannot_refract`: total internal reflection. */
  predicate CannotRefract(refractiveIndex: real, rIn: Ray, rec: HitRecord, sqrt: RealFn)
    requires rec.frontFace ==> refractiveIndex != 0.0
  {
    BeyondCritical(EtaRatio(refractiveIndex, rec.frontFace), CosTheta(rIn, rec, sqrt), sqrt)
  }

  /** `Dielectric.scatter`: reflect when refraction is impossible or when the
      reflectance beats the draw `u`, refract otherwise; glass absorbs nothing. */
  function DielectricScatter(refractiveIndex: real, rIn: Ray, rec: HitRecord, u: real, sqrt: RealFn)
    : (res: (Ray, Vec3))
    requires DielectricDefined(refractiveIndex, rIn, rec, sqrt)
    ensures res.0.origin == rec.point && res.1 == White
    ensures CannotRefract(refractiveIndex, rIn, rec, sqrt) ==>
              res.0.direction == Reflect(Normalize(rIn.direction, sqrt), rec.normal)
    ensures Reflectance(CosTheta(rIn, rec, sqrt), EtaRatio(refractiveIndex, rec.frontFace)) > u ==>
              res.0.direction == Reflect(Normalize(rIn.direction, sqrt), rec.normal)
    ensures !CannotRefract(refractiveIndex, rIn, rec, sqrt) &&
            Reflectance(CosTheta(rIn, rec, sqrt), EtaRatio(refractiveIndex, rec.frontFace)) <= u ==>
              res.0.direction == Refract(Normalize(rIn.direction, sqrt), rec.normal,
                                         EtaRatio(refractiveIndex, rec.frontFace), sqrt)
    ensures res.0.direction == Reflect(Normalize(rIn.direction, sqrt), rec.normal) ||
            res.0.direction == Refract(Normalize(rIn.direction, sqrt), rec.normal,
                                       EtaRatio(refractiveIndex, rec.frontFace), sqrt)
  {
    var etaiOverEtat := EtaRatio(refractiveIndex, rec.frontFace);
    var unitDirection := Normalize(rIn.direction, sqrt);
    var cosTheta := CosTheta(rIn, rec, sqrt);
    var cannotRefract := CannotRefract(refractiveIndex, rIn, rec, sqrt);
    var reflectance := Reflectance(cosTheta, etaiOverEtat);
    var direction :=
      if cannotRefract || reflectance > u then Reflect(unitDirection, rec.normal)
      else Refract(unitDirection, rec.normal, etaiOverEtat, sqrt);
    (Ray(rec.point, direction), White)
  }

  /** For a non-zero incoming direction and a unit normal the scattered
      direction is never shorter than a unit vector (it is exactly unit when
      reflecting), and the sine is well defined. */
  lemma DielectricDirection(refractiveIndex: real, rIn: Ray, rec: HitRecord, u: real, sqrt: RealFn)
    requires IsSqrt(sqrt) && rIn.direction != Zero && IsUnit(rec.normal)
    requires (rec.frontFace ==> refractiveIndex != 0.0) && refractiveIndex != -1.0
    ensures DielectricDefined(refractiveIndex, rIn, rec, sqrt)
    ensures 1.0 <= LengthSquared(DielectricScatter(refractiveIndex, rIn, rec, u, sqrt).0.direction)
  {
    var unitDirection := Normalize(rIn.direction, sqrt);
    NormalizeNonZero(rIn.direction, sqrt);
    DotOfUnits(unitDirection, rec.normal);
    ReflectPreservesLength(unitDirection, rec.normal);
    RefractLength(unitDirection, rec.normal, EtaRatio(refractiveIndex, rec.frontFace), sqrt);
  }

  // ---------------------------------------------------------------------
  // Dispatch

  /** What `scatter` needs of a material to run without error. */
  predicate ScatterDefined(m: Material, rIn: Ray, rec: HitRecord, sqrt: RealFn) {
    m.Dielectric? ==> DielectricDefined(m.refractiveIndex, rIn, rec, sqrt)
  }

  /** `hit_record.material.scatter(ray, hit_record)`. */
  function ScatterPy(m: Material, rIn: Ray, rec: HitRecord, d: Sample, sqrt: RealFn): (res: Option<(Ray, Vec3)>)
    requires ScatterDefined(m, rIn, rec, sqrt)
    ensures !m.Metal? ==> res.Some?
    ensures res.Some? ==> res.value.0.origin == rec.point
    ensures res.Some? ==> res.value.1 == if m.Dielectric? then White else m.albedo
  {
    match m
    case Lambertian(albedo) => Some(LambertianScatter(albedo, rec, d.ball, sqrt))
    case Metal(albedo, fuzz) => MetalScatter(albedo, fuzz, rIn, rec, d.ball, sqrt)
    case Dielectric(ri) => Some(DielectricScatter(ri, rIn, rec, d.u, sqrt))
  }

  /** The materials `scatter` can always handle: any Lambertian or Metal, and a
      Dielectric whose index is neither 0 nor -1. */
  predicate ValidMaterial(m: Material) {
    m.Dielectric? ==> m.refractiveIndex != 0.0 && m.refractiveIndex != -1.0
  }

  /** Scattering off a unit normal is defined for a valid material and never
      produces a zero direction, so the next bounce can be traced. */
  lemma ScatterDirectionNonZero(m: Material, rIn: Ray, rec: HitRecord, d: Sample, sqrt: RealFn)
    requires IsSqrt(sqrt) && ValidMaterial(m) && rIn.direction != Zero && IsUnit(rec.normal)
    ensures ScatterDefined(m, rIn, rec, sqrt)
    ensures ScatterPy(m, rIn, rec, d, sqrt).Some? ==> ScatterPy(m, rIn, rec, d, sqrt).value.0.direction != Zero
  {
    match m
    case Lambertian(albedo) =>
      LambertianUnit(albedo, rec, d.ball, sqrt);
    case Metal(albedo, fuzz) =>
      MetalUnit(albedo, fuzz, rIn, rec, d.ball, sqrt);
    case Dielectric(ri) =>
      DielectricDirection(ri, rIn, rec, d.u, sqrt);
  }
}
