/** Hit records, spheres and the scene list of PathTracing/src/objects.py. */
module Objects {
  import opened RealMath
  import opened Vector
  import opened Wrappers
  import opened Rays
  import opened MaterialKind

  /** `HitRecord` as `Sphere.hit` returns it, fully filled in. */
  datatype HitRecord = HitRecord(point: Vec3, normal: Vec3, t: real, frontFace: bool, material: Material)

  /** `set_face_normal`: the pair (front_face, normal) it stores. The stored
      normal always faces against the incoming ray. */
  function FaceNormal(r: Ray, outward: Vec3): (fn: (bool, Vec3))
    ensures fn.0 <==> Dot(r.direction, outward) < 0.0
    ensures fn.0 ==> fn.1 == outward
    ensures !fn.0 ==> fn.1 == Neg(outward)
    ensures Dot(r.direction, fn.1) <= 0.0
    ensures LengthSquared(fn.1) == LengthSquared(outward)
  {
    var front := Dot(r.direction, outward) < 0.0;
    (front, if front then outward else Neg(outward))
  }

  datatype Sphere = Sphere(center: Vec3, radius: real, material: Material)

  /** `Sphere.hit` divides by the radius and by `a = direction . direction`. */
  predicate CanIntersect(s: Sphere, r: Ray) {
    s.radius != 0.0 && r.direction != Zero
  }

  /** `t` passes the interval test: neither `t < t_min` nor `t > t_max`. */
  predicate InRange(t: real, tmin: real, tmax: Bound) {
    tmin <= t && tmax.Admits(t)
  }

  /** The point at `t` lies on the sphere's surface. */
  predicate OnSphere(s: Sphere, r: Ray, t: real) {
    LengthSquared(Sub(r.At(t), s.center)) == s.radius * s.radius
  }

  // The coefficients of the half-b quadratic a t^2 + 2 half_b t + c = 0.

  function HalfB(s: Sphere, r: Ray): real {
    Dot(Sub(r.origin, s.center), r.direction)
  }

  function CTerm(s: Sphere, r: Ray): real {
    LengthSquared(Sub(r.origin, s.center)) - s.radius * s.radius
  }

  function Discriminant(s: Sphere, r: Ray): real {
    HalfB(s, r) * HalfB(s, r) - LengthSquared(r.direction) * CTerm(s, r)
  }

  /** The smaller and the larger root, in the order `Sphere.hit` tries them. */
  function NearRoot(s: Sphere, r: Ray, sqrt: RealFn): real
    requires r.direction != Zero
  {
    LengthSquaredZero(r.direction);
    (-HalfB(s, r) - sqrt(Discriminant(s, r))) / LengthSquared(r.direction)
  }

  function FarRoot(s: Sphere, r: Ray, sqrt: RealFn): real
    requires r.direction != Zero
  {
    LengthSquaredZero(r.direction);
    (-HalfB(s, r) + sqrt(Discriminant(s, r))) / LengthSquared(r.direction)
  }

  /** The record `Sphere.hit` builds for the accepted root `t`. */
  function MakeRecord(s: Sphere, r: Ray, t: real): (rec: HitRecord)
    requires s.radius != 0.0
    ensures rec.t == t && rec.point == r.At(t) && rec.material == s.material
    ensures (rec.frontFace, rec.normal) == FaceNormal(r, Div(Sub(r.At(t), s.center), s.radius))
    ensures Dot(r.direction, rec.normal) <= 0.0
  {
    var point := r.At(t);
    var outward := Div(Sub(point, s.center), s.radius);
    var fn := FaceNormal(r, outward);
    HitRecord(point, fn.1, t, fn.0, s.material)
  }

  /** `Sphere.hit`: None when the discriminant is negative or when neither
      root passes the interval test; otherwise the record of the smaller root
      if it passes, else of the larger one. */
  function SphereHit(s: Sphere, r: Ray, tmin: real, tmax: Bound, sqrt: RealFn): (h: Option<HitRecord>)
    requires CanIntersect(s, r)
    ensures Discriminant(s, r) < 0.0 ==> h.None?
    ensures h.Some? ==> InRange(h.value.t, tmin, tmax) && h.value == MakeRecord(s, r, h.value.t)
    ensures h.Some? ==> h.value.t == NearRoot(s, r, sqrt) || h.value.t == FarRoot(s, r, sqrt)
    ensures 0.0 <= Discriminant(s, r) && InRange(NearRoot(s, r, sqrt), tmin, tmax) ==>
              h == Some(MakeRecord(s, r, NearRoot(s, r, sqrt)))
    ensures (0.0 <= Discriminant(s, r) && !InRange(NearRoot(s, r, sqrt), tmin, tmax) &&
             !InRange(FarRoot(s, r, sqrt), tmin, tmax)) ==> h.None?
  {
    if Discriminant(s, r) < 0.0 then None
    else
      var root := NearRoot(s, r, sqrt);
      if root < tmin || !tmax.Admits(root) then
        var root2 := FarRoot(s, r, sqrt);
        if root2 < tmin || !tmax.Admits(root2) then None
        else Some(MakeRecord(s, r, root2))
      else Some(MakeRecord(s, r, root))
  }

  // ---------------------------------------------------------------------
  // Geometry of a hit.

  /** Substituting the ray into the sphere's equation gives the quadratic. */
  lemma QuadraticForm(s: Sphere, r: Ray, t: real)
    ensures LengthSquared(Sub(r.At(t), s.center)) - s.radius * s.radius
         == LengthSquared(r.direction) * t * t + 2.0 * HalfB(s, r) * t + CTerm(s, r)
  {
    var oc := Sub(r.origin, s.center);
    assert Sub(r.At(t), s.center) == Add(oc, Scale(t, r.direction));
    LengthSquaredAdd(oc, Scale(t, r.direction));
    DotScaleRight(t, oc, r.direction);
    LengthSquaredScale(t, r.direction);
  }

  /** The real roots of `a t^2 + 2 hb t + c` for `a > 0`, by completing the square;
      `sq` is the square root of the discriminant whenever that is non-negative. */
  lemma QuadraticRoots(a: real, hb: real, c: real, t: real, sq: real)
    requires 0.0 < a
    requires 0.0 <= hb * hb - a * c ==> 0.0 <= sq && sq * sq == hb * hb - a * c
    ensures a * t * t + 2.0 * hb * t + c == 0.0 <==>
              0.0 <= hb * hb - a * c && (t == (-hb - sq) / a || t == (-hb + sq) / a)
  {
    var q := a * t * t + 2.0 * hb * t + c;
    var d := hb * hb - a * c;
    if q == 0.0 {
      var y := a * t + hb;
      CompleteSquare(a, hb, c, t);
      SquareNonNegative(y);
      assert 0.0 <= d;
      ZeroGivesRoot(a, hb, c, t, sq);
    }
    if 0.0 <= d && (t == (-hb - sq) / a || t == (-hb + sq) / a) {
      RootGivesZero(a, hb, c, t, sq);
    }
  }

  /** Completing the square: `(a t + hb)^2 = a (a t^2 + 2 hb t + c) + hb^2 - a c`. */
  lemma CompleteSquare(a: real, hb: real, c: real, t: real)
    ensures (a * t + hb) * (a * t + hb) == a * (a * t * t + 2.0 * hb * t + c) + (hb * hb - a * c)
  {
  }

  /** A zero of the quadratic is one of the two roots. */
  lemma ZeroGivesRoot(a: real, hb: real, c: real, t: real, s: real)
    requires 0.0 < a && 0.0 <= s && s * s == hb * hb - a * c
    requires a * t * t + 2.0 * hb * t + c == 0.0
    ensures t == (-hb - s) / a || t == (-hb + s) / a
  {
    var y := a * t + hb;
    CompleteSquare(a, hb, c, t);
    assert (y - s) * (y + s) == y * y - s * s;
    ZeroProduct(y - s, y + s);
    if y == s {
      assert a * t == -hb + s;
    } else {
      assert a * t == -hb - s;
    }
  }

  /** Each of the two roots is a zero of the quadratic. */
  lemma RootGivesZero(a: real, hb: real, c: real, t: real, s: real)
    requires 0.0 < a && 0.0 <= s && s * s == hb * hb - a * c
    requires t == (-hb - s) / a || t == (-hb + s) / a
    ensures a * t * t + 2.0 * hb * t + c == 0.0
  {
    var y := a * t + hb;
    CompleteSquare(a, hb, c, t);
    assert y == -s || y == s;
    assert y * y == s * s;
    ZeroProduct(a, a * t * t + 2.0 * hb * t + c);
  }

  /** A point of the ray is on the sphere exactly when its `t` is one of the two roots. */
  lemma OnSphereIffRoot(s: Sphere, r: Ray, t: real, sqrt: RealFn)
    requires IsSqrt(sqrt) && r.direction != Zero
    ensures OnSphere(s, r, t) <==>
              0.0 <= Discriminant(s, r) && (t == NearRoot(s, r, sqrt) || t == FarRoot(s, r, sqrt))
  {
    LengthSquaredZero(r.direction);
    var a, hb, c := LengthSquared(r.direction), HalfB(s, r), CTerm(s, r);
    var d := Discriminant(s, r);
    var sq := sqrt(d);
    assert d == hb * hb - a * c;
    if 0.0 <= d {
      assert 0.0 <= sq && sq * sq == d;
    }
    assert NearRoot(s, r, sqrt) == (-hb - sq) / a;
    assert FarRoot(s, r, sqrt) == (-hb + sq) / a;
    QuadraticForm(s, r, t);
    assert OnSphere(s, r, t) <==> a * t * t + 2.0 * hb * t + c == 0.0;
    QuadraticRoots(a, hb, c, t, sq);
  }

  /** The near root is never beyond the far root. */
  lemma NearRootFirst(s: Sphere, r: Ray, sqrt: RealFn)
    requires IsSqrt(sqrt) && r.direction != Zero && 0.0 <= Discriminant(s, r)
    ensures NearRoot(s, r, sqrt) <= FarRoot(s, r, sqrt)
  {
    LengthSquaredZero(r.direction);
    var a := LengthSquared(r.direction);
    var sq := sqrt(Discriminant(s, r));
    var hb := HalfB(s, r);
    assert 0.0 <= sq;
    assert NearRoot(s, r, sqrt) == (-hb - sq) / a;
    assert FarRoot(s, r, sqrt) == (-hb + sq) / a;
    DivideOrdered(-hb - sq, -hb + sq, a);
  }

  lemma DivideOrdered(x: real, y: real, a: real)
    requires x <= y && 0.0 < a
    ensures x / a <= y / a
  {
    assert y / a - x / a == (y - x) / a;
  }

  /** `Sphere.hit` finds the nearest point of the sphere inside the interval,
      and reports a miss only when no point of the sphere is inside it. */
  lemma SphereHitNearest(s: Sphere, r: Ray, tmin: real, tmax: Bound, sqrt: RealFn)
    requires IsSqrt(sqrt) && CanIntersect(s, r)
    ensures SphereHit(s, r, tmin, tmax, sqrt).Some? ==>
              OnSphere(s, r, SphereHit(s, r, tmin, tmax, sqrt).value.t)
    ensures SphereHit(s, r, tmin, tmax, sqrt).Some? ==>
              forall t :: InRange(t, tmin, tmax) && OnSphere(s, r, t) ==>
                SphereHit(s, r, tmin, tmax, sqrt).value.t <= t
    ensures SphereHit(s, r, tmin, tmax, sqrt).None? <==>
              forall t :: InRange(t, tmin, tmax) ==> !OnSphere(s, r, t)
  {
    var h := SphereHit(s, r, tmin, tmax, sqrt);
    var near, far := NearRoot(s, r, sqrt), FarRoot(s, r, sqrt);
    forall t | InRange(t, tmin, tmax) && OnSphere(s, r, t)
      ensures 0.0 <= Discriminant(s, r) && (t == near || t == far)
    {
      OnSphereIffRoot(s, r, t, sqrt);
    }
    if 0.0 <= Discriminant(s, r) {
      NearRootFirst(s, r, sqrt);
      OnSphereIffRoot(s, r, near, sqrt);
      OnSphereIffRoot(s, r, far, sqrt);
    }
    if h.Some? {
      OnSphereIffRoot(s, r, h.value.t, sqrt);
    }
  }

  /** The record of a point on the sphere carries a unit normal that faces the ray. */
  lemma RecordGeometry(s: Sphere, r: Ray, t: real)
    requires s.radius != 0.0 && OnSphere(s, r, t)
    ensures IsUnit(MakeRecord(s, r, t).normal)
    ensures Dot(r.direction, MakeRecord(s, r, t).normal) <= 0.0
    ensures LengthSquared(Sub(MakeRecord(s, r, t).point, s.center)) == s.radius * s.radius
  {
    var v := Sub(r.At(t), s.center);
    DivIsScaleByInverse(v, s.radius);
    LengthSquaredScale(1.0 / s.radius, v);
    assert (1.0 / s.radius) * (1.0 / s.radius) * (s.radius * s.radius) == 1.0;
  }

  // ---------------------------------------------------------------------
  // The scene.

  /** Every sphere of the list can be intersected with `r`. */
  predicate AllIntersectable(objects: seq<Sphere>, r: Ray) {
    forall k :: 0 <= k < |objects| ==> CanIntersect(objects[k], r)
  }

  /** The loop of `HittableList.hit` from some position on: `closest` is
      `closest_so_far` and `acc` is `hit_anything`. */
  function ListHitFrom(objects: seq<Sphere>, r: Ray, tmin: real, closest: Bound,
                       acc: Option<HitRecord>, sqrt: RealFn): Option<HitRecord>
    requires AllIntersectable(objects, r)
    decreases |objects|
  {
    if objects == [] then acc
    else
      var rec := SphereHit(objects[0], r, tmin, closest, sqrt);
      if rec.Some? then ListHitFrom(objects[1..], r, tmin, Finite(rec.value.t), rec, sqrt)
      else ListHitFrom(objects[1..], r, tmin, closest, acc, sqrt)
  }

  /** `HittableList.hit` over the objects in list order. */
  function ListHit(objects: seq<Sphere>, r: Ray, tmin: real, tmax: Bound, sqrt: RealFn): Option<HitRecord>
    requires AllIntersectable(objects, r)
  {
    ListHitFrom(objects, r, tmin, tmax, None, sqrt)
  }

  /** Some sphere of the list has a point inside the interval. */
  ghost predicate AnyHit(objects: seq<Sphere>, r: Ray, tmin: real, tmax: Bound) {
    exists k, t :: 0 <= k < |objects| && InRange(t, tmin, tmax) && OnSphere(objects[k], r, t)
  }

  /** `t` is no later than every point of every sphere inside the interval. */
  ghost predicate NoEarlierHit(objects: seq<Sphere>, r: Ray, tmin: real, tmax: Bound, t: real) {
    forall k, t' :: 0 <= k < |objects| && InRange(t', tmin, tmax) && OnSphere(objects[k], r, t') ==> t <= t'
  }

  /** `rec` is the record of the last sphere of the list that passes through its `t`. */
  ghost predicate FromLastAt(objects: seq<Sphere>, r: Ray, rec: HitRecord) {
    exists k :: 0 <= k < |objects| && objects[k].radius != 0.0 && OnSphere(objects[k], r, rec.t) &&
      rec == MakeRecord(objects[k], r, rec.t) &&
      forall k' :: k < k' < |objects| ==> !OnSphere(objects[k'], r, rec.t)
  }

  /** What the loop promises from some position on, given what it had
      found before (`acc`, with `closest` its `t`): the earlier result when
      no remaining sphere has a point inside the interval, and otherwise
      the nearest such point, taken from the last sphere through it. */
  ghost predicate NearestFrom(objects: seq<Sphere>, r: Ray, tmin: real, closest: Bound,
                              acc: Option<HitRecord>, h: Option<HitRecord>) {
    && (!AnyHit(objects, r, tmin, closest) ==> h == acc)
    && (AnyHit(objects, r, tmin, closest) ==>
          h.Some? && InRange(h.value.t, tmin, closest) &&
          NoEarlierHit(objects, r, tmin, closest, h.value.t) && FromLastAt(objects, r, h.value))
  }

  lemma {:induction false} ListHitFromNearest(objects: seq<Sphere>, r: Ray, tmin: real, closest: Bound,
                                              acc: Option<HitRecord>, sqrt: RealFn)
    requires IsSqrt(sqrt) && AllIntersectable(objects, r)
    requires acc.Some? ==> closest == Finite(acc.value.t) && tmin <= acc.value.t
    ensures NearestFrom(objects, r, tmin, closest, acc, ListHitFrom(objects, r, tmin, closest, acc, sqrt))
    decreases |objects|
  {
    var h := ListHitFrom(objects, r, tmin, closest, acc, sqrt);
    if objects == [] {
      return;
    }
    var s, rest := objects[0], objects[1..];
    assert AllIntersectable(rest, r) by {
      forall k | 0 <= k < |rest| ensures CanIntersect(rest[k], r) {
        assert rest[k] == objects[k + 1];
      }
    }
    assert CanIntersect(s, r);
    var rec := SphereHit(s, r, tmin, closest, sqrt);
    SphereHitNearest(s, r, tmin, closest, sqrt);
    if rec.Some? {
      var c := Finite(rec.value.t);
      assert h == ListHitFrom(rest, r, tmin, c, rec, sqrt);
      ListHitFromNearest(rest, r, tmin, c, rec, sqrt);
      NearestAfterHit(objects, r, tmin, closest, acc, rec.value, h);
    } else {
      assert h == ListHitFrom(rest, r, tmin, closest, acc, sqrt);
      ListHitFromNearest(rest, r, tmin, closest, acc, sqrt);
      NearestAfterMiss(objects, r, tmin, closest, acc, h);
    }
  }

  /** The step of the loop where the first sphere is hit at `rv.t`: the
      search goes on with `closest_so_far = rv.t`. */
  lemma NearestAfterHit(objects: seq<Sphere>, r: Ray, tmin: real, closest: Bound,
                        acc: Option<HitRecord>, rv: HitRecord, h: Option<HitRecord>)
    requires |objects| > 0 && objects[0].radius != 0.0
    requires InRange(rv.t, tmin, closest) && OnSphere(objects[0], r, rv.t) && rv == MakeRecord(objects[0], r, rv.t)
    requires forall t :: InRange(t, tmin, closest) && OnSphere(objects[0], r, t) ==> rv.t <= t
    requires NearestFrom(objects[1..], r, tmin, Finite(rv.t), Some(rv), h)
    ensures NearestFrom(objects, r, tmin, closest, acc, h)
  {
    var rest := objects[1..];
    var c := Finite(rv.t);
    assert h.Some? && InRange(h.value.t, tmin, c);
    assert AnyHit(objects, r, tmin, closest) by {
      assert InRange(rv.t, tmin, closest) && OnSphere(objects[0], r, rv.t);
    }
    assert NoEarlierHit(objects, r, tmin, closest, h.value.t) by {
      forall k, t' | 0 <= k < |objects| && InRange(t', tmin, closest) && OnSphere(objects[k], r, t')
        ensures h.value.t <= t'
      {
        if k > 0 && t' <= rv.t {
          assert objects[k] == rest[k - 1];
          assert InRange(t', tmin, c) && OnSphere(rest[k - 1], r, t');
          assert AnyHit(rest, r, tmin, c);
        }
      }
    }
    if AnyHit(rest, r, tmin, c) {
      var k :| 0 <= k < |rest| && rest[k].radius != 0.0 && OnSphere(rest[k], r, h.value.t) &&
        h.value == MakeRecord(rest[k], r, h.value.t) &&
        forall k' :: k < k' < |rest| ==> !OnSphere(rest[k'], r, h.value.t);
      assert objects[k + 1] == rest[k];
      forall k' | k + 1 < k' < |objects| ensures !OnSphere(objects[k'], r, h.value.t) {
        assert objects[k'] == rest[k' - 1];
      }
    } else {
      assert h.value == rv;
      forall k' | 0 < k' < |objects| ensures !OnSphere(objects[k'], r, rv.t) {
        assert objects[k'] == rest[k' - 1];
        assert InRange(rv.t, tmin, c);
      }
    }
  }

  /** The step of the loop where the first sphere has no point inside the
      interval: the search goes on unchanged. */
  lemma NearestAfterMiss(objects: seq<Sphere>, r: Ray, tmin: real, closest: Bound,
                         acc: Option<HitRecord>, h: Option<HitRecord>)
    requires |objects| > 0
    requires forall t :: InRange(t, tmin, closest) ==> !OnSphere(objects[0], r, t)
    requires NearestFrom(objects[1..], r, tmin, closest, acc, h)
    ensures NearestFrom(objects, r, tmin, closest, acc, h)
  {
    var rest := objects[1..];
    if AnyHit(objects, r, tmin, closest) {
      var k, t :| 0 <= k < |objects| && InRange(t, tmin, closest) && OnSphere(objects[k], r, t);
      assert k != 0;
      assert OnSphere(rest[k - 1], r, t);
      assert AnyHit(rest, r, tmin, closest);
      var j :| 0 <= j < |rest| && rest[j].radius != 0.0 && OnSphere(rest[j], r, h.value.t) &&
        h.value == MakeRecord(rest[j], r, h.value.t) &&
        forall k' :: j < k' < |rest| ==> !OnSphere(rest[k'], r, h.value.t);
      assert objects[j + 1] == rest[j];
      forall k' | j + 1 < k' < |objects| ensures !OnSphere(objects[k'], r, h.value.t) {
        assert objects[k'] == rest[k' - 1];
      }
      forall k', t' | 0 <= k' < |objects| && InRange(t', tmin, closest) && OnSphere(objects[k'], r, t')
        ensures h.value.t <= t'
      {
        assert k' != 0;
        assert objects[k'] == rest[k' - 1];
        assert OnSphere(rest[k' - 1], r, t');
      }
    } else {
      forall k, t | 0 <= k < |rest| && InRange(t, tmin, closest)
        ensures !OnSphere(rest[k], r, t)
      {
        assert rest[k] == objects[k + 1];
      }
    }
  }

  /** `HittableList.hit` misses exactly when no sphere has a point in
      [t_min, t_max]; otherwise it returns the record of the nearest such
      point, taken from the last sphere passing through it (ties go to the
      later object), and that record is no later than any single sphere's hit. */
  lemma ListHitNearest(objects: seq<Sphere>, r: Ray, tmin: real, tmax: Bound, sqrt: RealFn)
    requires IsSqrt(sqrt) && AllIntersectable(objects, r)
    ensures ListHit(objects, r, tmin, tmax, sqrt).None? <==>
              forall k, t :: 0 <= k < |objects| && InRange(t, tmin, tmax) ==> !OnSphere(objects[k], r, t)
    ensures var h := ListHit(objects, r, tmin, tmax, sqrt);
      h.Some? ==> InRange(h.value.t, tmin, tmax) && NoEarlierHit(objects, r, tmin, tmax, h.value.t) &&
                  FromLastAt(objects, r, h.value)
    ensures var h := ListHit(objects, r, tmin, tmax, sqrt);
      h.Some? ==> forall k :: 0 <= k < |objects| && SphereHit(objects[k], r, tmin, tmax, sqrt).Some? ==>
                    h.value.t <= SphereHit(objects[k], r, tmin, tmax, sqrt).value.t
  {
    var h := ListHit(objects, r, tmin, tmax, sqrt);
    ListHitFromNearest(objects, r, tmin, tmax, None, sqrt);
    if h.Some? {
      forall k | 0 <= k < |objects| && SphereHit(objects[k], r, tmin, tmax, sqrt).Some?
        ensures h.value.t <= SphereHit(objects[k], r, tmin, tmax, sqrt).value.t
      {
        SphereHitNearest(objects[k], r, tmin, tmax, sqrt);
      }
    }
  }

  /** `HittableList`: the scene, a list of objects that `add` and `clear` change in place. */
  class HittableList {
    var objects: seq<Sphere>

    constructor ()
      ensures objects == []
    {
      objects := [];
    }

    /** `add` appends at the end. */
    method Add(obj: Sphere)
      modifies this
      ensures objects == old(objects) + [obj]
    {
      objects := objects + [obj];
    }

    /** `clear` empties the list. */
    method Clear()
      modifies this
      ensures objects == []
    {
      objects := [];
    }

    /** `hit`: one pass over the objects, each queried up to the nearest hit so far. */
    method Hit(r: Ray, tmin: real, tmax: Bound, sqrt: RealFn) returns (hitAnything: Option<HitRecord>)
      requires AllIntersectable(objects, r)
      ensures hitAnything == ListHit(objects, r, tmin, tmax, sqrt)
    {
      hitAnything := None;
      var closestSoFar := tmax;
      var i := 0;
      while i < |objects|
        invariant 0 <= i <= |objects|
        invariant ListHit(objects, r, tmin, tmax, sqrt)
               == ListHitFrom(objects[i..], r, tmin, closestSoFar, hitAnything, sqrt)
      {
        assert objects[i..][1..] == objects[i + 1..];
        var rec := SphereHit(objects[i], r, tmin, closestSoFar, sqrt);
        if rec.Some? {
          hitAnything := rec;
          closestSoFar := Finite(rec.value.t);
        }
        i := i + 1;
      }
    }
  }
}
