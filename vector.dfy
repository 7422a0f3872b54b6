/** Three-component vectors as used by both path tracers: `Vector3` in
    PathTracing/src/vector3.py and the free functions of CppPathTracing/src/vec3.h.
    The two agree on every formula here; they differ in normalisation
    (`Normalize` below is Python's, the C++ `unit_vector` lives in CppVec3). */
module Vector {
  import opened RealMath
  import opened Wrappers

  /** A point, a direction or a linear RGB colour. */
  datatype Vec3 = Vec3(x: real, y: real, z: real)

  /** `Vector3()` / `Vec3()` with default arguments. */
  const Zero := Vec3(0.0, 0.0, 0.0)

  function Add(u: Vec3, v: Vec3): Vec3 {
    Vec3(u.x + v.x, u.y + v.y, u.z + v.z)
  }

  function Sub(u: Vec3, v: Vec3): Vec3 {
    Vec3(u.x - v.x, u.y - v.y, u.z - v.z)
  }

  function Neg(v: Vec3): Vec3 {
    Vec3(-v.x, -v.y, -v.z)
  }

  /** `v * k` and `k * v` with a number `k`. */
  function Scale(k: real, v: Vec3): Vec3 {
    Vec3(k * v.x, k * v.y, k * v.z)
  }

  /** `u * v` with two vectors: the componentwise (colour) product. */
  function Mul(u: Vec3, v: Vec3): Vec3 {
    Vec3(u.x * v.x, u.y * v.y, u.z * v.z)
  }

  /** The right operand of Python's `Vector3.__mul__`, which dispatches on it. */
  datatype Factor = Number(k: real) | Vector(w: Vec3)

  /** `Vector3.__mul__` (and `__rmul__`, which calls it). */
  function Times(v: Vec3, other: Factor): (r: Vec3)
    ensures other.Number? ==> r == Scale(other.k, v)
    ensures other.Vector? ==> r == Mul(v, other.w) && r == Mul(other.w, v)
    ensures other.Vector? && other.w == Vec3(1.0, 1.0, 1.0) ==> r == v
  {
    match other
    case Number(k) => Vec3(v.x * k, v.y * k, v.z * k)
    case Vector(w) => Vec3(v.x * w.x, v.y * w.y, v.z * w.z)
  }

  /** `v / k`, componentwise as in Python's `__truediv__`. */
  function Div(v: Vec3, k: real): Vec3
    requires k != 0.0
  {
    Vec3(v.x / k, v.y / k, v.z / k)
  }

  function Dot(u: Vec3, v: Vec3): real {
    u.x * v.x + u.y * v.y + u.z * v.z
  }

  /** The cross product is orthogonal to both of its arguments. */
  function Cross(u: Vec3, v: Vec3): (r: Vec3)
    ensures Dot(r, u) == 0.0 && Dot(r, v) == 0.0
  {
    Vec3(u.y * v.z - u.z * v.y,
         u.z * v.x - u.x * v.z,
         u.x * v.y - u.y * v.x)
  }

  function LengthSquared(v: Vec3): (r: real)
    ensures 0.0 <= r
  {
    v.x * v.x + v.y * v.y + v.z * v.z
  }

  /** Only the zero vector has zero length. */
  lemma LengthSquaredZero(v: Vec3)
    ensures LengthSquared(v) == 0.0 <==> v == Zero
  {
    var a, b, c := v.x * v.x, v.y * v.y, v.z * v.z;
    SquareNonNegative(v.x);
    SquareNonNegative(v.y);
    SquareNonNegative(v.z);
    if a + b + c == 0.0 {
      assert a == 0.0 && b == 0.0 && c == 0.0;
      ZeroProduct(v.x, v.x);
      ZeroProduct(v.y, v.y);
      ZeroProduct(v.z, v.z);
    }
  }

  function Length(v: Vec3, sqrt: RealFn): real {
    sqrt(LengthSquared(v))
  }

  predicate IsUnit(v: Vec3) {
    LengthSquared(v) == 1.0
  }

  /** Python's `normalize`: a zero-length vector normalises to the zero vector. */
  function Normalize(v: Vec3, sqrt: RealFn): (r: Vec3)
    ensures v == Zero ==> r == Zero
  {
    var length := Length(v, sqrt);
    if length > 0.0 then
      assert v == Zero ==> Div(v, length) == Zero by {
        assert 0.0 / length == 0.0;
      }
      Div(v, length)
    else Zero
  }

  /** `near_zero`: every component is below 1e-8 in absolute value. */
  predicate NearZero(v: Vec3) {
    Abs(v.x) < 0.00000001 && Abs(v.y) < 0.00000001 && Abs(v.z) < 0.00000001
  }

  /** `reflect`: mirror `v` about the plane whose normal is `n`. */
  function Reflect(v: Vec3, n: Vec3): Vec3 {
    Sub(v, Scale(2.0 * Dot(v, n), n))
  }

  /** `refract`, the Snell's-law split into a perpendicular and a parallel part. */
  function Refract(uv: Vec3, n: Vec3, etaiOverEtat: real, sqrt: RealFn): Vec3 {
    var cosTheta := Min(-Dot(uv, n), 1.0);
    var rOutPerp := Scale(etaiOverEtat, Add(uv, Scale(cosTheta, n)));
    var rOutParallel := Scale(-sqrt(Abs(1.0 - LengthSquared(rOutPerp))), n);
    Add(rOutPerp, rOutParallel)
  }

  /** `Vector3.random(lo, hi)` / `random_vec3(lo, hi)`: each component is
      `lo + (hi - lo) * u` for a uniform draw `u` taken from `draw`. */
  function RandomVec(draw: Vec3, lo: real, hi: real): Vec3 {
    Vec3(Lerp(lo, hi, draw.x), Lerp(lo, hi, draw.y), Lerp(lo, hi, draw.z))
  }

  /** `lo + (hi - lo) * u`: a draw in [0,1) stretched to [lo, hi). */
  function Lerp(lo: real, hi: real, u: real): real {
    lo + (hi - lo) * u
  }

  /** Uniform draws in [0,1) give a vector in the box [lo, hi)^3. */
  lemma RandomVecInBox(draw: Vec3, lo: real, hi: real)
    requires lo < hi && InUnitCube(draw)
    ensures InBox(RandomVec(draw, lo, hi), lo, hi)
  {
    Affine(lo, hi, draw.x);
    Affine(lo, hi, draw.y);
    Affine(lo, hi, draw.z);
  }

  lemma Affine(lo: real, hi: real, u: real)
    requires lo < hi && 0.0 <= u < 1.0
    ensures lo <= Lerp(lo, hi, u) < hi
  {
    var d := hi - lo;
    PositiveProduct(d, 1.0 - u);
    var p := d * u;
    assert d * (1.0 - u) == d - p;
    assert 0.0 <= p;
    assert p < d;
  }

  /** Every component is a draw of `random.random()` / `random_double()`, in [0,1). */
  predicate InUnitCube(u: Vec3) {
    0.0 <= u.x < 1.0 && 0.0 <= u.y < 1.0 && 0.0 <= u.z < 1.0
  }

  predicate InBox(v: Vec3, lo: real, hi: real) {
    lo <= v.x < hi && lo <= v.y < hi && lo <= v.z < hi
  }

  predicate InUnitBall(p: Vec3) {
    LengthSquared(p) < 1.0
  }

  /** The candidate `random_in_unit_sphere` accepts first, if any of the
      finitely many draws is accepted. */
  function FirstInUnitBall(draws: seq<Vec3>): (p: Option<Vec3>)
    ensures p.Some? ==> InUnitBall(p.value)
    ensures p.Some? ==> exists k :: 0 <= k < |draws| && p.value == RandomVec(draws[k], -1.0, 1.0)
    ensures p.None? <==> forall k :: 0 <= k < |draws| ==> !InUnitBall(RandomVec(draws[k], -1.0, 1.0))
  {
    if draws == [] then None
    else
      var c := RandomVec(draws[0], -1.0, 1.0);
      if InUnitBall(c) then Some(c)
      else
        var rest := FirstInUnitBall(draws[1..]);
        assert forall k :: 1 <= k < |draws| ==> draws[k] == draws[1..][k - 1];
        rest
  }

  /** `random_in_unit_sphere`: the rejection loop, run over a finite stream of
      uniform draws (the source loops until it accepts). */
  method RandomInUnitSphere(draws: seq<Vec3>) returns (p: Option<Vec3>)
    ensures p == FirstInUnitBall(draws)
    ensures p.Some? ==> InUnitBall(p.value)
  {
    var i := 0;
    while i < |draws|
      invariant 0 <= i <= |draws|
      invariant FirstInUnitBall(draws) == FirstInUnitBall(draws[i..])
    {
      assert draws[i..][1..] == draws[i + 1..];
      var candidate := RandomVec(draws[i], -1.0, 1.0);
      if LengthSquared(candidate) < 1.0 {
        return Some(candidate);
      }
      i := i + 1;
    }
    return None;
  }

  /** `random_in_hemisphere`: flip the in-ball draw onto the normal's side. */
  function RandomInHemisphere(inUnitSphere: Vec3, normal: Vec3): (r: Vec3)
    ensures Dot(r, normal) >= 0.0
    ensures r == inUnitSphere || r == Neg(inUnitSphere)
    ensures LengthSquared(r) == LengthSquared(inUnitSphere)
  {
    if Dot(inUnitSphere, normal) > 0.0 then inUnitSphere else Neg(inUnitSphere)
  }

  // ---------------------------------------------------------------------
  // Algebraic facts used by the proofs of the renderer.

  lemma DotSymmetric(u: Vec3, v: Vec3)
    ensures Dot(u, v) == Dot(v, u)
  {
  }

  lemma DotScaleLeft(k: real, u: Vec3, v: Vec3)
    ensures Dot(Scale(k, u), v) == k * Dot(u, v)
  {
  }

  lemma DotScaleRight(k: real, u: Vec3, v: Vec3)
    ensures Dot(u, Scale(k, v)) == k * Dot(u, v)
  {
  }

  lemma DotAddLeft(u: Vec3, v: Vec3, w: Vec3)
    ensures Dot(Add(u, v), w) == Dot(u, w) + Dot(v, w)
  {
  }

  lemma DotSubLeft(u: Vec3, v: Vec3, w: Vec3)
    ensures Dot(Sub(u, v), w) == Dot(u, w) - Dot(v, w)
  {
  }

  lemma DotSelf(v: Vec3)
    ensures Dot(v, v) == LengthSquared(v)
  {
  }

  /** |u + v|^2 = |u|^2 + 2 u.v + |v|^2 */
  lemma LengthSquaredAdd(u: Vec3, v: Vec3)
    ensures LengthSquared(Add(u, v)) == LengthSquared(u) + 2.0 * Dot(u, v) + LengthSquared(v)
  {
  }

  lemma LengthSquaredScale(k: real, v: Vec3)
    ensures LengthSquared(Scale(k, v)) == k * k * LengthSquared(v)
  {
  }

  /** Division by `k` is scaling by `1/k` (C++ writes `v / t` as `(1/t) * v`). */
  lemma DivIsScaleByInverse(v: Vec3, k: real)
    requires k != 0.0
    ensures Div(v, k) == Scale(1.0 / k, v)
  {
  }

  lemma ScaleOne(v: Vec3)
    ensures Scale(1.0, v) == v
  {
  }

  /** Lagrange's identity, the reason `|u.v| <= |u| |v|`. */
  lemma Lagrange(u: Vec3, v: Vec3)
    ensures LengthSquared(u) * LengthSquared(v) - Dot(u, v) * Dot(u, v) == LengthSquared(Cross(u, v))
  {
  }

  /** Cauchy-Schwarz for two unit vectors: their dot product is in [-1, 1]. */
  lemma DotOfUnits(u: Vec3, v: Vec3)
    requires IsUnit(u) && IsUnit(v)
    ensures -1.0 <= Dot(u, v) <= 1.0
  {
    Lagrange(u, v);
    var d := Dot(u, v);
    assert d * d <= 1.0;
  }

  /** A near-zero vector is a very short vector, and the zero vector is near zero. */
  lemma NearZeroIsShort(v: Vec3)
    ensures NearZero(v) ==> LengthSquared(v) < 0.0000000000000003
    ensures v == Zero ==> NearZero(v)
    ensures IsUnit(v) ==> !NearZero(v)
  {
    if NearZero(v) {
      SquareBelowEpsilon(v.x);
      SquareBelowEpsilon(v.y);
      SquareBelowEpsilon(v.z);
      assert LengthSquared(v) == Square(v.x) + Square(v.y) + Square(v.z);
    }
  }

  /** `a * a`, kept as one term so that bounds on squares combine linearly. */
  function Square(a: real): real {
    a * a
  }

  /** A component below `1e-8` in magnitude has a square below `1e-16`. */
  lemma SquareBelowEpsilon(a: real)
    requires Abs(a) < 0.00000001
    ensures Square(a) < 0.0000000000000001
  {
    var e := 0.00000001;
    MulStrict(Abs(a), e);
    assert e * e == 0.0000000000000001;
    assert a * a == Abs(a) * Abs(a);
  }

  lemma MulStrict(a: real, e: real)
    requires 0.0 <= a < e
    ensures a * a < e * e
  {
    var p := a * a;
    var q := a * e;
    var r := e * e;
    assert p <= q;
    assert q < r;
  }

  /** `reflect` keeps the tangential part and negates the normal part. */
  lemma ReflectNormalComponent(v: Vec3, n: Vec3)
    requires IsUnit(n)
    ensures Dot(Reflect(v, n), n) == -Dot(v, n)
  {
    DotSubLeft(v, Scale(2.0 * Dot(v, n), n), n);
    DotScaleLeft(2.0 * Dot(v, n), n, n);
  }

  /** `reflect` about a unit normal preserves length. */
  lemma ReflectPreservesLength(v: Vec3, n: Vec3)
    requires IsUnit(n)
    ensures LengthSquared(Reflect(v, n)) == LengthSquared(v)
  {
    var d := Dot(v, n);
    var m := Scale(-2.0 * d, n);
    assert Reflect(v, n) == Add(v, m);
    LengthSquaredAdd(v, m);
    DotScaleRight(-2.0 * d, v, n);
    LengthSquaredScale(-2.0 * d, n);
  }

  /** Python's `normalize` of a non-zero vector is that vector scaled by the
      positive factor 1/length, and has unit length. */
  lemma NormalizeNonZero(v: Vec3, sqrt: RealFn)
    requires IsSqrt(sqrt) && v != Zero
    ensures 0.0 < Length(v, sqrt)
    ensures Normalize(v, sqrt) == Scale(1.0 / Length(v, sqrt), v)
    ensures IsUnit(Normalize(v, sqrt))
  {
    var l := Length(v, sqrt);
    assert l * l == LengthSquared(v);
    LengthSquaredZero(v);
    assert 0.0 < l;
    DivIsScaleByInverse(v, l);
    LengthSquaredScale(1.0 / l, v);
    assert (1.0 / l) * (1.0 / l) * (l * l) == 1.0;
  }

  /** A unit vector is its own normalisation. */
  lemma NormalizeUnit(v: Vec3, sqrt: RealFn)
    requires IsSqrt(sqrt) && IsUnit(v)
    ensures Normalize(v, sqrt) == v
  {
    SqrtOne(sqrt);
    assert Length(v, sqrt) == 1.0;
  }

  /** Scaling by a positive factor scales the length by that factor. */
  lemma LengthScale(k: real, v: Vec3, sqrt: RealFn)
    requires IsSqrt(sqrt) && 0.0 < k
    ensures Length(Scale(k, v), sqrt) == k * Length(v, sqrt)
  {
    var l := Length(v, sqrt);
    var m := k * l;
    assert l * l == LengthSquared(v);
    LengthSquaredScale(k, v);
    assert k * k * (l * l) == m * m;
    assert LengthSquared(Scale(k, v)) == m * m;
    assert 0.0 <= l;
    assert 0.0 <= m;
    SqrtOfSquare(sqrt, m);
  }

  /** Normalisation ignores a positive scale factor. */
  lemma NormalizeScale(k: real, v: Vec3, sqrt: RealFn)
    requires IsSqrt(sqrt) && 0.0 < k
    ensures Normalize(Scale(k, v), sqrt) == Normalize(v, sqrt)
  {
    var w := Scale(k, v);
    LengthScale(k, v, sqrt);
    var l := Length(v, sqrt);
    if v != Zero {
      NormalizeNonZero(v, sqrt);
      var m := k * l;
      PositiveProduct(k, l);
      assert Length(w, sqrt) == m;
      assert Normalize(w, sqrt) == Div(w, m);
      assert Normalize(v, sqrt) == Div(v, l);
      DivScaleCancel(k, v, l);
    } else {
      assert w == Zero;
    }
  }

  /** Dividing `k v` by `k l` is dividing `v` by `l`. */
  lemma DivScaleCancel(k: real, v: Vec3, l: real)
    requires k != 0.0 && l != 0.0
    ensures Div(Scale(k, v), k * l) == Div(v, l)
  {
    assert k * l != 0.0;
    CancelFactor(k, v.x, l);
    CancelFactor(k, v.y, l);
    CancelFactor(k, v.z, l);
    assert Div(Scale(k, v), k * l) == Vec3((k * v.x) / (k * l), (k * v.y) / (k * l), (k * v.z) / (k * l));
  }

  lemma CancelFactor(k: real, x: real, l: real)
    requires k != 0.0 && l != 0.0
    ensures (k * x) / (k * l) == x / l
  {
    var q := x / l;
    assert x == q * l;
    assert k * x == q * (k * l);
  }

  /** The components of a unit vector lie in [-1, 1]. */
  lemma UnitComponents(v: Vec3)
    requires IsUnit(v)
    ensures -1.0 <= v.x <= 1.0 && -1.0 <= v.y <= 1.0 && -1.0 <= v.z <= 1.0
  {
    DotOfUnits(v, Vec3(1.0, 0.0, 0.0));
    DotOfUnits(v, Vec3(0.0, 1.0, 0.0));
    DotOfUnits(v, Vec3(0.0, 0.0, 1.0));
  }

  /** `refract` of a unit vector about a unit normal never collapses to zero:
      the perpendicular part is orthogonal to the normal and the parallel part
      restores at least unit length. When the perpendicular part is no longer
      than 1 (no total internal reflection) the result is a unit vector. */
  lemma RefractLength(uv: Vec3, n: Vec3, eta: real, sqrt: RealFn)
    requires IsSqrt(sqrt) && IsUnit(uv) && IsUnit(n)
    ensures LengthSquared(Refract(uv, n, eta, sqrt)) >= 1.0
    ensures eta * eta * (1.0 - Dot(uv, n) * Dot(uv, n)) <= 1.0 ==> IsUnit(Refract(uv, n, eta, sqrt))
  {
    DotOfUnits(uv, n);
    var cosTheta := Min(-Dot(uv, n), 1.0);
    assert cosTheta == -Dot(uv, n);
    var perp := Scale(eta, Add(uv, Scale(cosTheta, n)));
    PerpendicularPart(uv, n, eta);
    var rest := Abs(1.0 - LengthSquared(perp));
    var s := sqrt(rest);
    assert s * s == rest;
    ParallelCompletion(perp, n, s);
    assert Refract(uv, n, eta, sqrt) == Add(perp, Scale(-s, n));
  }

  /** The perpendicular part of a refracted unit vector: orthogonal to the
      normal, of squared length `eta^2 (1 - cos^2)`. */
  lemma PerpendicularPart(uv: Vec3, n: Vec3, eta: real)
    requires IsUnit(uv) && IsUnit(n)
    ensures var perp := Scale(eta, Add(uv, Scale(-Dot(uv, n), n)));
      Dot(perp, n) == 0.0 && LengthSquared(perp) == eta * eta * (1.0 - Dot(uv, n) * Dot(uv, n))
  {
    var c := -Dot(uv, n);
    var inner := Add(uv, Scale(c, n));
    DotAddLeft(uv, Scale(c, n), n);
    DotScaleLeft(c, n, n);
    assert Dot(inner, n) == 0.0;
    DotScaleLeft(eta, inner, n);
    LengthSquaredAdd(uv, Scale(c, n));
    DotScaleRight(c, uv, n);
    LengthSquaredScale(c, n);
    assert LengthSquared(inner) == 1.0 - Dot(uv, n) * Dot(uv, n);
    LengthSquaredScale(eta, inner);
  }

  /** Adding a multiple `-s` of a unit normal to a vector orthogonal to it
      adds `s^2` to the squared length. */
  lemma ParallelCompletion(perp: Vec3, n: Vec3, s: real)
    requires IsUnit(n) && Dot(perp, n) == 0.0
    ensures LengthSquared(Add(perp, Scale(-s, n))) == LengthSquared(perp) + s * s
  {
    DotScaleRight(-s, perp, n);
    LengthSquaredAdd(perp, Scale(-s, n));
    LengthSquaredScale(-s, n);
  }
}
