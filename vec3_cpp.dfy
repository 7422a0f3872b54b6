/** The C++ `Vec3` of CppPathTracing/src/vec3.h where it differs from the
    Python vector: a mutable object with compound assignments, and a
    normalisation without a zero guard. */
module CppVec3 {
  import opened RealMath
  import V = Vector

  /** `class Vec3`: three doubles that `+=`, `*=` and `/=` overwrite in place. */
  class Vec3 {
    var x: real
    var y: real
    var z: real

    /** The value the object currently holds. */
    function Value(): V.Vec3
      reads this
    {
      V.Vec3(x, y, z)
    }

    /** `Vec3()`: all components zero. */
    constructor Default()
      ensures Value() == V.Zero
    {
      x, y, z := 0.0, 0.0, 0.0;
    }

    /** `Vec3(x, y, z)`. */
    constructor (x0: real, y0: real, z0: real)
      ensures Value() == V.Vec3(x0, y0, z0)
    {
      x, y, z := x0, y0, z0;
    }

    /** `operator+=`: the object becomes what the binary `+` would return. */
    method AddAssign(v: V.Vec3)
      modifies this
      ensures Value() == V.Add(old(Value()), v)
    {
      x := x + v.x;
      y := y + v.y;
      z := z + v.z;
    }

    /** `operator*=`: the object becomes what the scalar `*` would return. */
    method MulAssign(t: real)
      modifies this
      ensures Value() == V.Scale(t, old(Value()))
    {
      x := x * t;
      y := y * t;
      z := z * t;
    }

    /** `operator/=`: `*this *= 1/t`, which is the binary `/`. */
    method DivAssign(t: real)
      requires t != 0.0
      modifies this
      ensures Value() == V.Scale(1.0 / t, old(Value()))
      ensures Value() == V.Div(old(Value()), t)
    {
      MulAssign(1.0 / t);
      V.DivIsScaleByInverse(old(Value()), t);
    }

    /** `normalized()`: each component divided by the length, which must not be zero. */
    function Normalized(sqrt: RealFn): V.Vec3
      reads this
      requires V.Length(Value(), sqrt) != 0.0
    {
      var len := V.Length(Value(), sqrt);
      V.Vec3(x / len, y / len, z / len)
    }
  }

  /** `v.normalized()` and `unit_vector(v)` agree and give a unit vector. */
  lemma NormalizedIsUnitVector(v: Vec3, sqrt: RealFn)
    requires IsSqrt(sqrt) && v.Value() != V.Zero
    ensures V.Length(v.Value(), sqrt) != 0.0
    ensures v.Normalized(sqrt) == UnitVector(v.Value(), sqrt)
    ensures V.IsUnit(v.Normalized(sqrt))
  {
    V.NormalizeNonZero(v.Value(), sqrt);
    V.DivIsScaleByInverse(v.Value(), V.Length(v.Value(), sqrt));
  }

  /** `unit_vector(v)`: `v / v.length()`, i.e. `(1 / length) * v`, with no zero guard. */
  function UnitVector(v: V.Vec3, sqrt: RealFn): V.Vec3
    requires V.Length(v, sqrt) != 0.0
  {
    V.Scale(1.0 / V.Length(v, sqrt), v)
  }

  /** On a non-zero vector `unit_vector` is Python's `normalize` and has unit
      length; the zero vector, which Python maps to itself, is outside its domain. */
  lemma UnitVectorIsNormalize(v: V.Vec3, sqrt: RealFn)
    requires IsSqrt(sqrt)
    ensures V.Length(v, sqrt) != 0.0 <==> v != V.Zero
    ensures v != V.Zero ==> UnitVector(v, sqrt) == V.Normalize(v, sqrt) && V.IsUnit(UnitVector(v, sqrt))
  {
    if v != V.Zero {
      V.NormalizeNonZero(v, sqrt);
    } else {
      ZeroLength(sqrt);
    }
  }

  lemma ZeroLength(sqrt: RealFn)
    requires IsSqrt(sqrt)
    ensures V.Length(V.Zero, sqrt) == 0.0
  {
    SqrtOfSquare(sqrt, 0.0);
    assert V.LengthSquared(V.Zero) == 0.0 * 0.0;
  }
}
