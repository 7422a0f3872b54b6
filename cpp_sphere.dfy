/** `Sphere::hit` of CppPathTracing/src/sphere.h: the same half-b quadratic as
    the Python model, reporting through a bool and a record written in place. */
module CppSphere {
  import opened RealMath
  import opened Vector
  import opened Rays
  import opened Objects
  import CppHittable

  /** `Sphere::hit(r, t_min, t_max, rec)`. On true `rec` holds exactly the
      record the Python `Sphere.hit` returns; on false `rec` is not touched. */
  method Hit(s: Sphere, r: Ray, tmin: real, tmax: Bound, rec: CppHittable.HitRecord, sqrt: RealFn)
    returns (hit: bool)
    requires CanIntersect(s, r)
    modifies rec
    ensures hit == SphereHit(s, r, tmin, tmax, sqrt).Some?
    ensures hit ==> rec.Value() == SphereHit(s, r, tmin, tmax, sqrt).value
    ensures hit ==> InRange(rec.t, tmin, tmax) && rec.point == r.At(rec.t) && rec.material == s.material
    ensures !hit ==> unchanged(rec)
  {
    var oc := Sub(r.origin, s.center);
    var a := Dot(r.direction, r.direction);
    var halfB := Dot(oc, r.direction);
    var c := Dot(oc, oc) - s.radius * s.radius;
    var discriminant := halfB * halfB - a * c;
    assert a == LengthSquared(r.direction) && halfB == HalfB(s, r) && c == CTerm(s, r);
    assert discriminant == Discriminant(s, r);
    if discriminant < 0.0 {
      return false;
    }
    LengthSquaredZero(r.direction);
    var sqrtd := sqrt(discriminant);
    var root := (-halfB - sqrtd) / a;
    assert root == NearRoot(s, r, sqrt);
    if root < tmin || !tmax.Admits(root) {
      root := (-halfB + sqrtd) / a;
      assert root == FarRoot(s, r, sqrt);
      if root < tmin || !tmax.Admits(root) {
        return false;
      }
    }
    rec.t := root;
    rec.point := r.At(rec.t);
    var outwardNormal := Scale(1.0 / s.radius, Sub(rec.point, s.center));
    DivIsScaleByInverse(Sub(rec.point, s.center), s.radius);
    rec.SetFaceNormal(r, outwardNormal);
    rec.material := s.material;
    assert rec.Value() == MakeRecord(s, r, root);
    return true;
  }
}
