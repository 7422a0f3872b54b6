/** The three surface materials shared by both path tracers
    (PathTracing/src/material.py and CppPathTracing/src/material.h) as data:
    the classes carry no state that changes after construction. */
module MaterialKind {
  import opened RealMath
  import opened Vector

  datatype Material =
    | Lambertian(albedo: Vec3)
    | Metal(albedo: Vec3, fuzz: real)
    | Dielectric(refractiveIndex: real)

  /** Python `Metal.__init__`: `fuzz = min(fuzz, 1.0)`; only the upper end is clamped. */
  function MakeMetal(albedo: Vec3, fuzz: real): (m: Material)
    ensures m.Metal? && m.albedo == albedo
    ensures m.fuzz <= 1.0
    ensures fuzz <= 1.0 ==> m.fuzz == fuzz
    ensures 1.0 < fuzz ==> m.fuzz == 1.0
  {
    Metal(albedo, Min(fuzz, 1.0))
  }

  /** C++ `Metal(albedo, f)`: `fuzz(f < 1 ? f : 1)`. */
  function MakeMetalCpp(albedo: Vec3, fuzz: real): (m: Material)
    ensures m.Metal? && m.albedo == albedo
    ensures m.fuzz <= 1.0
    ensures fuzz < 1.0 ==> m.fuzz == fuzz
  {
    Metal(albedo, if fuzz < 1.0 then fuzz else 1.0)
  }

  /** The two constructors store the same fuzz, negative values included. */
  lemma MetalConstructorsAgree(albedo: Vec3, fuzz: real)
    ensures MakeMetal(albedo, fuzz) == MakeMetalCpp(albedo, fuzz)
  {
  }
}
