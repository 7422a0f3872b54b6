/** `Ray` of PathTracing/src/ray.py and CppPathTracing/src/ray.h: an origin and
    a direction, stored exactly as given (neither constructor normalises). */
module Rays {
  import opened Vector

  datatype Ray = Ray(origin: Vec3, direction: Vec3) {
    /** `at(t)`: the point reached after travelling `t` directions from the origin. */
    function At(t: real): Vec3 {
      Add(origin, Scale(t, direction))
    }
  }

  /** The C++ default constructor `Ray() {}`: both members default to (0,0,0). */
  const DefaultRay := Ray(Zero, Zero)

  /** The ray starts at its origin. */
  lemma AtZero(r: Ray)
    ensures r.At(0.0) == r.origin
  {
  }

  /** Travelling `t1 + t2` is travelling `t1`, then `t2` more directions. */
  lemma AtShift(r: Ray, t1: real, t2: real)
    ensures r.At(t1 + t2) == Add(r.At(t1), Scale(t2, r.direction))
    ensures r.At(t1 + t2) == Ray(r.At(t1), r.direction).At(t2)
  {
  }

  /** The point at `t` lies `|t| * |direction|` away from the origin. */
  lemma AtDistance(r: Ray, t: real)
    ensures LengthSquared(Sub(r.At(t), r.origin)) == t * t * LengthSquared(r.direction)
  {
    assert Sub(r.At(t), r.origin) == Scale(t, r.direction);
    LengthSquaredScale(t, r.direction);
  }

  /** Every point of the default ray is the origin. */
  lemma DefaultRayAt(t: real)
    ensures DefaultRay.At(t) == Zero
  {
  }
}
