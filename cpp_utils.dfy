/** The inline helpers of CppPathTracing/src/utils.h. `std::rand()` and
    `RAND_MAX` are inputs. */
module CppUtils {
  import Vector

  /** `pi`, the literal of the source. */
  const Pi: real := 3.1415926535897932385

  function DegreesToRadians(degrees: real): (r: real)
    ensures degrees == 180.0 ==> r == Pi
  {
    degrees * Pi / 180.0
  }

  function RadiansToDegrees(radians: real): (d: real)
    ensures radians == Pi ==> d == 180.0
  {
    radians * 180.0 / Pi
  }

  /** Over the reals the two conversions invert each other. */
  lemma {:induction false} DegreesRoundTrip(d: real)
    ensures RadiansToDegrees(DegreesToRadians(d)) == d
    ensures DegreesToRadians(RadiansToDegrees(d)) == d
  {
    var r := d * Pi / 180.0;
    assert r * 180.0 == d * Pi;
    assert (d * 180.0 / Pi) * Pi == d * 180.0;
  }

  /** `random_double()`: `std::rand() / (RAND_MAX + 1.0)`. */
  function RandomDouble(rand: int, randMax: int): (r: real)
    requires 0 <= rand <= randMax
    ensures 0.0 <= r < 1.0
  {
    FractionBelowOne(rand as real, randMax as real + 1.0);
    rand as real / (randMax as real + 1.0)
  }

  lemma FractionBelowOne(a: real, b: real)
    requires 0.0 <= a < b
    ensures 0.0 <= a / b < 1.0
  {
    var q := a / b;
    assert q * b == a;
  }

  /** `random_double(min, max)`: the unit draw stretched onto `[min, max)`. */
  function RandomDoubleIn(min: real, max: real, rand: int, randMax: int): (r: real)
    requires 0 <= rand <= randMax
    ensures min < max ==> min <= r < max
    ensures min == max ==> r == min
  {
    var u := RandomDouble(rand, randMax);
    Stretch(min, max, u);
    min + (max - min) * u
  }

  lemma Stretch(min: real, max: real, u: real)
    requires 0.0 <= u < 1.0
    ensures min < max ==> min <= min + (max - min) * u < max
  {
    if min < max {
      Vector.Affine(min, max, u);
    }
  }

  /** `clamp(x, min, max)`: the lower bound is checked first. */
  function Clamp(x: real, min: real, max: real): (r: real)
    ensures min <= max ==> min <= r <= max
    ensures min <= x <= max ==> r == x
    ensures x < min ==> r == min
    ensures min <= x && max < x ==> r == max
  {
    if x < min then min
    else if x > max then max
    else x
  }

  /** Clamping twice is clamping once. */
  lemma ClampIdempotent(x: real, min: real, max: real)
    requires min <= max
    ensures Clamp(Clamp(x, min, max), min, max) == Clamp(x, min, max)
  {
  }
}
