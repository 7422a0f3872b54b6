/** The pinhole camera of PathTracing/src/camera.py. `math.tan` is a
    parameter like `sqrt`; nothing is proved about it, because the frame
    facts below hold for any viewport size. */
module Camera {
  import opened RealMath
  import opened Vector
  import opened Rays

  /** `math.pi`. */
  const Pi: real := 3.141592653589793

  /** `math.radians`. */
  function Radians(degrees: real): (r: real)
    ensures degrees == 180.0 ==> r == Pi
    ensures degrees == 0.0 ==> r == 0.0
  {
    degrees * (Pi / 180.0)
  }

  datatype Camera = Camera(origin: Vec3, lowerLeftCorner: Vec3, horizontal: Vec3, vertical: Vec3)

  /** `w`: the unit vector from the target back to the eye. */
  function Backward(lookFrom: Vec3, lookAt: Vec3, sqrt: RealFn): Vec3 {
    Normalize(Sub(lookFrom, lookAt), sqrt)
  }

  /** `u`: the unit vector to the right of the view; zero when `vup` is parallel to `w`. */
  function Right(vup: Vec3, w: Vec3, sqrt: RealFn): Vec3 {
    Normalize(Cross(vup, w), sqrt)
  }

  /** `Camera.__init__`. */
  function MakeCamera(lookFrom: Vec3, lookAt: Vec3, vup: Vec3, vfov: real, aspectRatio: real,
                      sqrt: RealFn, tan: RealFn): (c: Camera)
    ensures c.origin == lookFrom
  {
    var viewportHeight := ViewportHeight(vfov, tan);
    var viewportWidth := aspectRatio * viewportHeight;
    var w := Backward(lookFrom, lookAt, sqrt);
    var u := Right(vup, w, sqrt);
    var v := Cross(w, u);
    var horizontal := Scale(viewportWidth, u);
    var vertical := Scale(viewportHeight, v);
    Frame(lookFrom, w, horizontal, vertical)
  }

  /** `2 * tan(theta / 2)` for the vertical field of view in degrees. */
  function ViewportHeight(vfov: real, tan: RealFn): real {
    var theta := Radians(vfov);
    var h := tan(theta / 2.0);
    2.0 * h
  }

  /** `w` is a unit vector when the eye is not at the target. */
  lemma BackwardUnit(lookFrom: Vec3, lookAt: Vec3, sqrt: RealFn)
    requires IsSqrt(sqrt) && lookFrom != lookAt
    ensures IsUnit(Backward(lookFrom, lookAt, sqrt))
  {
    var d := Sub(lookFrom, lookAt);
    assert d != Zero by {
      assert lookFrom.x - lookAt.x != 0.0 || lookFrom.y - lookAt.y != 0.0 || lookFrom.z - lookAt.z != 0.0;
    }
    NormalizeNonZero(d, sqrt);
  }

  /** The camera whose viewport spans `horizontal` by `vertical`, centred one
      unit in front of `origin` against the backward axis `w`. */
  function Frame(origin: Vec3, w: Vec3, horizontal: Vec3, vertical: Vec3): Camera {
    Camera(origin, Sub(Sub(Sub(origin, Div(horizontal, 2.0)), Div(vertical, 2.0)), w), horizontal, vertical)
  }

  /** The direction `get_ray(u, v)` takes before normalising. */
  function ViewDirection(c: Camera, u: real, v: real): Vec3 {
    Sub(Add(Add(c.lowerLeftCorner, Scale(u, c.horizontal)), Scale(v, c.vertical)), c.origin)
  }

  /** `get_ray`: from the eye through viewport point (u, v), unit direction. */
  function GetRay(c: Camera, u: real, v: real, sqrt: RealFn): (r: Ray)
    ensures r.origin == c.origin
  {
    Ray(c.origin, Normalize(ViewDirection(c, u, v), sqrt))
  }

  /** The backward axis recovered from a camera's stored vectors. */
  function Axis(c: Camera): Vec3 {
    Sub(Sub(Sub(c.origin, Div(c.horizontal, 2.0)), Div(c.vertical, 2.0)), c.lowerLeftCorner)
  }

  /** A camera built from an eye distinct from its target: a unit backward
      axis, and a viewport plane perpendicular to it. */
  predicate ValidCamera(c: Camera) {
    IsUnit(Axis(c)) && Dot(c.horizontal, Axis(c)) == 0.0 && Dot(c.vertical, Axis(c)) == 0.0
  }

  lemma NormalizeOrthogonal(v: Vec3, w: Vec3, sqrt: RealFn)
    requires IsSqrt(sqrt) && Dot(v, w) == 0.0
    ensures Dot(Normalize(v, sqrt), w) == 0.0
  {
    if v != Zero {
      NormalizeNonZero(v, sqrt);
      DotScaleLeft(1.0 / Length(v, sqrt), v, w);
    }
  }

  lemma FrameAxis(origin: Vec3, w: Vec3, horizontal: Vec3, vertical: Vec3)
    ensures Axis(Frame(origin, w, horizontal, vertical)) == w
  {
  }

  /** The camera frame is orthogonal: right, up and backward are mutually
      perpendicular, whatever `vup`, `vfov` and the aspect ratio are. */
  lemma CameraFrame(lookFrom: Vec3, lookAt: Vec3, vup: Vec3, vfov: real, aspectRatio: real,
                    sqrt: RealFn, tan: RealFn)
    requires IsSqrt(sqrt) && lookFrom != lookAt
    ensures var c := MakeCamera(lookFrom, lookAt, vup, vfov, aspectRatio, sqrt, tan);
      && Axis(c) == Backward(lookFrom, lookAt, sqrt)
      && ValidCamera(c)
      && Dot(c.horizontal, c.vertical) == 0.0
  {
    var w := Backward(lookFrom, lookAt, sqrt);
    var u := Right(vup, w, sqrt);
    var hgt := ViewportHeight(vfov, tan);
    var horizontal := Scale(aspectRatio * hgt, u);
    var vertical := Scale(hgt, Cross(w, u));
    MakeCameraFrame(lookFrom, lookAt, vup, vfov, aspectRatio, sqrt, tan);
    FrameAxis(lookFrom, w, horizontal, vertical);
    BackwardUnit(lookFrom, lookAt, sqrt);
    OrthogonalAxes(vup, w, aspectRatio * hgt, hgt, sqrt);
  }

  /** `__init__` builds the frame of its backward axis and scaled right and
      up vectors. */
  lemma MakeCameraFrame(lookFrom: Vec3, lookAt: Vec3, vup: Vec3, vfov: real, aspectRatio: real,
                        sqrt: RealFn, tan: RealFn)
    ensures var w := Backward(lookFrom, lookAt, sqrt);
      var u := Right(vup, w, sqrt);
      var hgt := ViewportHeight(vfov, tan);
      MakeCamera(lookFrom, lookAt, vup, vfov, aspectRatio, sqrt, tan) ==
        Frame(lookFrom, w, Scale(aspectRatio * hgt, u), Scale(hgt, Cross(w, u)))
  {
  }

  /** The scaled right and up vectors are perpendicular to `w` and to each other. */
  lemma OrthogonalAxes(vup: Vec3, w: Vec3, width: real, height: real, sqrt: RealFn)
    requires IsSqrt(sqrt)
    ensures var u := Right(vup, w, sqrt);
      && Dot(Scale(width, u), w) == 0.0
      && Dot(Scale(height, Cross(w, u)), w) == 0.0
      && Dot(Scale(width, u), Scale(height, Cross(w, u))) == 0.0
  {
    var u := Right(vup, w, sqrt);
    var v := Cross(w, u);
    DotSymmetric(Cross(vup, w), w);
    NormalizeOrthogonal(Cross(vup, w), w, sqrt);
    DotScaleLeft(width, u, w);
    DotSymmetric(v, w);
    DotScaleLeft(height, v, w);
    DotScaleLeft(width, u, Scale(height, v));
    DotScaleRight(height, u, v);
    DotSymmetric(v, u);
  }

  /** Componentwise, the view direction is the viewport offset minus the axis. */
  lemma ViewDirectionSplit(c: Camera, u: real, v: real)
    ensures ViewDirection(c, u, v) ==
              Sub(Add(Scale(u - 0.5, c.horizontal), Scale(v - 0.5, c.vertical)), Axis(c))
  {
  }

  /** Every primary ray of a valid camera has a unit direction pointing away
      from the backward axis, so it can be traced into the scene. */
  lemma RaysPointForward(c: Camera, u: real, v: real, sqrt: RealFn)
    requires IsSqrt(sqrt) && ValidCamera(c)
    ensures IsUnit(GetRay(c, u, v, sqrt).direction)
    ensures Dot(GetRay(c, u, v, sqrt).direction, Axis(c)) < 0.0
  {
    var w := Axis(c);
    var d := ViewDirection(c, u, v);
    var a := Scale(u - 0.5, c.horizontal);
    var b := Scale(v - 0.5, c.vertical);
    ViewDirectionSplit(c, u, v);
    DotSubLeft(Add(a, b), w, w);
    DotAddLeft(a, b, w);
    DotScaleLeft(u - 0.5, c.horizontal, w);
    DotScaleLeft(v - 0.5, c.vertical, w);
    DotSelf(w);
    assert Dot(d, w) == -1.0;
    assert d != Zero;
    NormalizeNonZero(d, sqrt);
    var l := Length(d, sqrt);
    DotScaleLeft(1.0 / l, d, w);
    assert 0.0 < 1.0 / l;
  }

  lemma LengthSquaredNeg(v: Vec3)
    ensures LengthSquared(Neg(v)) == LengthSquared(v)
  {
    assert (-v.x) * (-v.x) == v.x * v.x;
    assert (-v.y) * (-v.y) == v.y * v.y;
    assert (-v.z) * (-v.z) == v.z * v.z;
  }

  lemma CenterDirection(c: Camera)
    ensures ViewDirection(c, 0.5, 0.5) == Neg(Axis(c))
  {
    ViewDirectionSplit(c, 0.5, 0.5);
  }

  /** The ray through the centre of the viewport looks straight at the target. */
  lemma CenterRay(lookFrom: Vec3, lookAt: Vec3, vup: Vec3, vfov: real, aspectRatio: real,
                  sqrt: RealFn, tan: RealFn)
    requires IsSqrt(sqrt) && lookFrom != lookAt
    ensures GetRay(MakeCamera(lookFrom, lookAt, vup, vfov, aspectRatio, sqrt, tan), 0.5, 0.5, sqrt)
            == Ray(lookFrom, Neg(Backward(lookFrom, lookAt, sqrt)))
  {
    var c := MakeCamera(lookFrom, lookAt, vup, vfov, aspectRatio, sqrt, tan);
    var w := Backward(lookFrom, lookAt, sqrt);
    CameraFrame(lookFrom, lookAt, vup, vfov, aspectRatio, sqrt, tan);
    CenterDirection(c);
    LengthSquaredNeg(w);
    NormalizeUnit(Neg(w), sqrt);
  }
}
