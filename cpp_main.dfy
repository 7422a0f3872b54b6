/** `ray_color`, `write_color` and the render loop of
    CppPathTracing/src/main.cpp. The world is the nearest-hit list of the
    Python model (the C++ `HittableList` is not part of this model), the
    materials are the C++ ones, and the fixed camera of `main` shoots
    unnormalised rays. Draws are inputs as in the Python renderer. */
module CppMain {
  import opened RealMath
  import opened Vector
  import opened Rays
  import opened MaterialKind
  import opened Objects
  import Py = Scatter
  import CppVec3
  import CppMaterial
  import CppUtils
  import Camera
  import R = Renderer

  // ---------------------------------------------------------------------
  // ray_color

  /** The sky gradient of `ray_color`, on `unit_vector`, which has no zero guard. */
  function SkyColor(r: Ray, sqrt: RealFn): Vec3
    requires Length(r.direction, sqrt) != 0.0
  {
    var unitDirection := CppVec3.UnitVector(r.direction, sqrt);
    var t := 0.5 * (unitDirection.y + 1.0);
    Add(Scale(1.0 - t, Vec3(1.0, 1.0, 1.0)), Scale(t, Vec3(0.5, 0.7, 1.0)))
  }

  /** For a non-zero direction the C++ sky is the Python sky. */
  lemma SkyAgrees(r: Ray, sqrt: RealFn)
    requires IsSqrt(sqrt) && r.direction != Zero
    ensures Length(r.direction, sqrt) != 0.0
    ensures SkyColor(r, sqrt) == R.SkyColor(r, sqrt)
  {
    CppVec3.UnitVectorIsNormalize(r.direction, sqrt);
  }

  /** Every ball draw is non-zero, as `unit_vector` in `random_unit_vector` needs. */
  ghost predicate NonZeroBalls(draws: int -> Py.Sample) {
    forall n :: draws(n).ball != Zero
  }

  /** A hit on a valid material with a traceable ray can be scattered by the
      C++ material, and a scattered ray can be traced in turn. */
  lemma ScatterReady(m: Material, rIn: Ray, rec: HitRecord, d: Py.Sample, sqrt: RealFn)
    requires IsSqrt(sqrt) && Py.ValidMaterial(m) && rIn.direction != Zero && IsUnit(rec.normal)
    requires d.ball != Zero
    ensures CppMaterial.ScatterDefined(m, rIn, rec, d, sqrt)
    ensures CppMaterial.Scatter(m, rIn, rec, d, sqrt).scatters ==>
              CppMaterial.Scatter(m, rIn, rec, d, sqrt).scattered.direction != Zero
  {
    CppVec3.UnitVectorIsNormalize(d.ball, sqrt);
    CppVec3.UnitVectorIsNormalize(rIn.direction, sqrt);
    DotOfUnits(CppVec3.UnitVector(rIn.direction, sqrt), rec.normal);
    CppMaterial.ScatterDirectionNonZero(m, rIn, rec, d, sqrt);
  }

  /** `ray_color`: black past the bounce limit, the material's attenuation
      times the scattered colour on a scattering hit, black on an absorbing
      hit, and the sky on a miss. */
  function RayColor(r: Ray, world: seq<Sphere>, depth: int, draws: int -> Py.Sample, sqrt: RealFn): (c: Vec3)
    requires IsSqrt(sqrt) && R.ValidScene(world) && r.direction != Zero && NonZeroBalls(draws)
    ensures depth <= 0 ==> c == Zero
    decreases depth
  {
    if depth <= 0 then Zero
    else
      R.HitFacts(world, r, sqrt);
      var hit := ListHit(world, r, R.TMin, Infinity, sqrt);
      if hit.Some? then
        var rec := hit.value;
        ScatterReady(rec.material, r, rec, draws(depth), sqrt);
        var o := CppMaterial.Scatter(rec.material, r, rec, draws(depth), sqrt);
        if o.scatters then Mul(o.attenuation, RayColor(o.scattered, world, depth - 1, draws, sqrt))
        else Zero
      else
        SkyAgrees(r, sqrt);
        SkyColor(r, sqrt)
  }

  /** No channel is negative. */
  predicate NonNegativeColor(c: Vec3) {
    0.0 <= c.x && 0.0 <= c.y && 0.0 <= c.z
  }

  predicate AlbedosNonNegative(world: seq<Sphere>) {
    forall k :: 0 <= k < |world| ==> world[k].material.Dielectric? || NonNegativeColor(world[k].material.albedo)
  }

  lemma NonNegativeProduct(a: Vec3, b: Vec3)
    requires NonNegativeColor(a) && NonNegativeColor(b)
    ensures NonNegativeColor(Mul(a, b))
  {
  }

  /** Non-negative albedos give a non-negative colour (which `write_color`
      needs for its square roots); albedos in [0, 1] keep it in [0, 1]. */
  lemma {:induction false} RayColorBounded(r: Ray, world: seq<Sphere>, depth: int, draws: int -> Py.Sample,
                                           sqrt: RealFn)
    requires IsSqrt(sqrt) && R.ValidScene(world) && r.direction != Zero && NonZeroBalls(draws)
    ensures AlbedosNonNegative(world) ==> NonNegativeColor(RayColor(r, world, depth, draws, sqrt))
    ensures R.AlbedosInUnit(world) ==> R.InUnitColor(RayColor(r, world, depth, draws, sqrt))
    decreases depth
  {
    if depth > 0 {
      R.HitFacts(world, r, sqrt);
      var hit := ListHit(world, r, R.TMin, Infinity, sqrt);
      if hit.Some? {
        var rec := hit.value;
        ScatterReady(rec.material, r, rec, draws(depth), sqrt);
        var o := CppMaterial.Scatter(rec.material, r, rec, draws(depth), sqrt);
        if o.scatters {
          RayColorBounded(o.scattered, world, depth - 1, draws, sqrt);
          var k :| 0 <= k < |world| && rec.material == world[k].material;
          var next := RayColor(o.scattered, world, depth - 1, draws, sqrt);
          if AlbedosNonNegative(world) {
            NonNegativeProduct(o.attenuation, next);
          }
          if R.AlbedosInUnit(world) {
            R.UnitColorProduct(o.attenuation, next);
          }
        }
      } else {
        SkyAgrees(r, sqrt);
        R.SkyBounds(r, sqrt);
      }
    }
  }

  // ---------------------------------------------------------------------
  // write_color

  /** An `unsigned char`. */
  newtype Byte = x: int | 0 <= x < 256

  /** One channel of `write_color`: scale by `1.0 / samples_per_pixel`,
      gamma 2 by `std::sqrt`, clamp to [0, 0.999], scale by 256 and truncate.
      A negative scaled channel has no real square root. */
  function ChannelByte(c: real, samplesPerPixel: int, sqrt: RealFn): (b: Byte)
    requires samplesPerPixel != 0 && 0.0 <= (1.0 / samplesPerPixel as real) * c
  {
    var scale := 1.0 / samplesPerPixel as real;
    var g := sqrt(scale * c);
    var clamped := CppUtils.Clamp(g, 0.0, 0.999);
    assert 0.0 <= 256.0 * clamped < 256.0;
    (256.0 * clamped).Floor as Byte
  }

  /** `write_color` writes what Python's `save_image` would write for the
      averaged pixel: `sqrt(c / spp)` clamped the same way. */
  lemma ChannelByteAgrees(c: real, samplesPerPixel: int, sqrt: RealFn)
    requires 0 < samplesPerPixel && 0.0 <= c
    ensures 0.0 <= (1.0 / samplesPerPixel as real) * c
    ensures ChannelByte(c, samplesPerPixel, sqrt) as int == R.GammaByte(c / samplesPerPixel as real, sqrt)
    ensures IsSqrt(sqrt) && c == 0.0 ==> ChannelByte(c, samplesPerPixel, sqrt) == 0
    ensures IsSqrt(sqrt) && samplesPerPixel as real <= c ==> ChannelByte(c, samplesPerPixel, sqrt) == 255
  {
    var k := samplesPerPixel as real;
    ChannelByteGamma(c, samplesPerPixel, sqrt);
    if IsSqrt(sqrt) {
      var a := c / k;
      R.GammaByteProperties(a, if k <= c then a else 1.0, sqrt);
      R.GammaByteProperties(0.0, a, sqrt);
    }
  }

  lemma ChannelByteGamma(c: real, samplesPerPixel: int, sqrt: RealFn)
    requires 0 < samplesPerPixel && 0.0 <= c
    ensures 0.0 <= (1.0 / samplesPerPixel as real) * c
    ensures samplesPerPixel as real <= c ==> 1.0 <= c / samplesPerPixel as real
    ensures ChannelByte(c, samplesPerPixel, sqrt) as int == R.GammaByte(c / samplesPerPixel as real, sqrt)
  {
    Average(c, samplesPerPixel as real);
    ChannelByteFormula(c, samplesPerPixel, sqrt);
    var g := sqrt(c / samplesPerPixel as real);
    var clamped := Max(0.0, Min(0.999, g));
    assert CppUtils.Clamp(g, 0.0, 0.999) == clamped;
    assert R.GammaByte(c / samplesPerPixel as real, sqrt) == (256.0 * clamped).Floor;
  }

  lemma ChannelByteFormula(c: real, samplesPerPixel: int, sqrt: RealFn)
    requires 0 < samplesPerPixel && 0.0 <= (1.0 / samplesPerPixel as real) * c
    ensures ChannelByte(c, samplesPerPixel, sqrt) as int ==
            (256.0 * CppUtils.Clamp(sqrt((1.0 / samplesPerPixel as real) * c), 0.0, 0.999)).Floor
  {
  }

  /** Scaling by `1.0 / spp` is dividing by `spp`. */
  lemma Average(c: real, k: real)
    requires 0.0 < k && 0.0 <= c
    ensures (1.0 / k) * c == c / k && 0.0 <= c / k
    ensures k <= c ==> 1.0 <= c / k
    ensures c == 0.0 ==> c / k == 0.0
  {
    var q := c / k;
    assert q * k == c;
  }

  /** `write_color(buffer, index, pixel_color, samples_per_pixel)`: the three
      bytes at `index` and nothing else. */
  method WriteColor(buffer: array<Byte>, index: int, pixelColor: Vec3, samplesPerPixel: int, sqrt: RealFn)
    requires 0 <= index && index + 3 <= buffer.Length
    requires 0 < samplesPerPixel && NonNegativeColor(pixelColor)
    modifies buffer
    ensures Written(buffer[..], index, pixelColor, samplesPerPixel, sqrt)
    ensures forall p :: 0 <= p < buffer.Length && !(index <= p < index + 3) ==> buffer[p] == old(buffer[p])
  {
    var scale := 1.0 / samplesPerPixel as real;
    PositiveScale(samplesPerPixel, pixelColor);
    buffer[index + 0] := ChannelByte(pixelColor.x, samplesPerPixel, sqrt);
    buffer[index + 1] := ChannelByte(pixelColor.y, samplesPerPixel, sqrt);
    buffer[index + 2] := ChannelByte(pixelColor.z, samplesPerPixel, sqrt);
  }

  lemma PositiveScale(samplesPerPixel: int, c: Vec3)
    requires 0 < samplesPerPixel && NonNegativeColor(c)
    ensures 0.0 <= (1.0 / samplesPerPixel as real) * c.x
    ensures 0.0 <= (1.0 / samplesPerPixel as real) * c.y
    ensures 0.0 <= (1.0 / samplesPerPixel as real) * c.z
  {
  }

  /** The three bytes at `index` hold the channels of `pixelColor`. */
  predicate Written(s: seq<Byte>, index: int, pixelColor: Vec3, samplesPerPixel: int, sqrt: RealFn) {
    0 <= index && index + 3 <= |s| && 0 < samplesPerPixel && NonNegativeColor(pixelColor) &&
    (PositiveScale(samplesPerPixel, pixelColor);
     s[index] == ChannelByte(pixelColor.x, samplesPerPixel, sqrt) &&
     s[index + 1] == ChannelByte(pixelColor.y, samplesPerPixel, sqrt) &&
     s[index + 2] == ChannelByte(pixelColor.z, samplesPerPixel, sqrt))
  }

  // ---------------------------------------------------------------------
  // The render loop of main

  /** Where pixel (i, j) goes: image rows top first, three bytes per pixel. */
  function PixelIndex(i: int, j: int, width: int, height: int): int {
    ((height - 1 - j) * width + i) * 3
  }

  lemma MulLeft(a: int, b: int, w: int)
    requires a <= b && 0 <= w
    ensures a * w <= b * w
  {
  }

  /** Each pixel's triple lies inside its row, each row inside the
      `3 * width * height` buffer, and rows lie top first. */
  lemma PixelIndexBounds(i: int, j: int, width: int, height: int)
    requires 0 <= i < width && 0 <= j < height
    ensures var row := (height - 1 - j) * width * 3;
      0 <= row <= PixelIndex(i, j, width, height) &&
      PixelIndex(i, j, width, height) + 3 <= row + width * 3 <= width * height * 3
  {
    MulLeft(0, height - 1 - j, width);
    MulLeft(height - 1 - j + 1, height, width);
  }

  /** Distinct pixels get disjoint triples. */
  lemma PixelIndexDisjoint(i: int, j: int, i': int, j': int, width: int, height: int)
    requires 0 <= i < width && 0 <= j < height && 0 <= i' < width && 0 <= j' < height
    requires (i, j) != (i', j')
    ensures PixelIndex(i, j, width, height) + 3 <= PixelIndex(i', j', width, height) ||
            PixelIndex(i', j', width, height) + 3 <= PixelIndex(i, j, width, height)
  {
    if j == j' {
    } else if j < j' {
      MulLeft(height - 1 - j' + 1, height - 1 - j, width);
    } else {
      MulLeft(height - 1 - j + 1, height - 1 - j', width);
    }
  }

  /** The camera of `main`: the eye at the origin, a 2-high viewport of
      aspect `16.0 / 9.0`, focal length 1 along the negative z axis. */
  const AspectRatio: real := 16.0 / 9.0
  const FocalAxis: Vec3 := Vec3(0.0, 0.0, 1.0)

  /** A camera at the origin looking down the negative z axis with a level
      viewport: what `main` builds. */
  predicate LevelCamera(c: Camera.Camera) {
    c.origin == Zero && Camera.Axis(c) == FocalAxis && c.horizontal.z == 0.0 && c.vertical.z == 0.0
  }

  /** `origin`, `horizontal`, `vertical` and
      `lower_left_corner = origin - horizontal/2 - vertical/2 - vec3(0, 0, focal_length)`. */
  function MainCamera(): (c: Camera.Camera)
    ensures LevelCamera(c)
  {
    var viewportHeight := 2.0;
    var viewportWidth := AspectRatio * viewportHeight;
    var horizontal := Vec3(viewportWidth, 0.0, 0.0);
    var vertical := Vec3(0.0, viewportHeight, 0.0);
    Camera.FrameAxis(Zero, FocalAxis, horizontal, vertical);
    Camera.Frame(Zero, FocalAxis, horizontal, vertical)
  }

  /** Every primary ray of such a camera points one unit down the z axis, so
      it is never zero and the world can be queried with it. */
  lemma LevelRays(c: Camera.Camera, u: real, v: real)
    requires LevelCamera(c)
    ensures Camera.ViewDirection(c, u, v).z == -1.0
    ensures Camera.ViewDirection(c, u, v) != Zero
  {
    Camera.ViewDirectionSplit(c, u, v);
  }

  /** The draws of `main`: its bounce draws never produce a zero ball point. */
  ghost predicate ValidDraws(d: R.Draws) {
    forall i, j, s :: NonZeroBalls(d.bounces(i, j, s))
  }

  /** One pass of the sample loop: `ray_color` of the unnormalised ray through (u, v). */
  function SampleColor(cam: Camera.Camera, world: seq<Sphere>, width: int, height: int, maxDepth: int,
                       i: int, j: int, s: int, d: R.Draws, sqrt: RealFn): Vec3
    requires IsSqrt(sqrt) && LevelCamera(cam) && R.ValidScene(world) && 2 <= width && 2 <= height && ValidDraws(d)
  {
    var (du, dv) := d.jitter(i, j, s);
    var u := (i as real + du) / (width - 1) as real;
    var v := (j as real + dv) / (height - 1) as real;
    LevelRays(cam, u, v);
    RayColor(Ray(cam.origin, Camera.ViewDirection(cam, u, v)), world, maxDepth,
             d.bounces(i, j, s), sqrt)
  }

  /** `pixel_color` after `n` samples. */
  function SampleSum(cam: Camera.Camera, world: seq<Sphere>, width: int, height: int, maxDepth: int,
                     i: int, j: int, n: nat, d: R.Draws, sqrt: RealFn): Vec3
    requires IsSqrt(sqrt) && LevelCamera(cam) && R.ValidScene(world) && 2 <= width && 2 <= height && ValidDraws(d)
  {
    if n == 0 then Zero
    else Add(SampleSum(cam, world, width, height, maxDepth, i, j, n - 1, d, sqrt),
             SampleColor(cam, world, width, height, maxDepth, i, j, n - 1, d, sqrt))
  }

  lemma {:induction false} SampleSumNonNegative(cam: Camera.Camera, world: seq<Sphere>, width: int, height: int, maxDepth: int,
                                                i: int, j: int, n: nat, d: R.Draws, sqrt: RealFn)
    requires IsSqrt(sqrt) && LevelCamera(cam) && R.ValidScene(world) && 2 <= width && 2 <= height && ValidDraws(d)
    requires AlbedosNonNegative(world)
    ensures NonNegativeColor(SampleSum(cam, world, width, height, maxDepth, i, j, n, d, sqrt))
  {
    if n > 0 {
      SampleSumNonNegative(cam, world, width, height, maxDepth, i, j, n - 1, d, sqrt);
      SampleColorNonNegative(cam, world, width, height, maxDepth, i, j, n - 1, d, sqrt);
      NonNegativeSum(SampleSum(cam, world, width, height, maxDepth, i, j, n - 1, d, sqrt),
                     SampleColor(cam, world, width, height, maxDepth, i, j, n - 1, d, sqrt));
    }
  }

  lemma SampleColorNonNegative(cam: Camera.Camera, world: seq<Sphere>, width: int, height: int, maxDepth: int,
                               i: int, j: int, s: int, d: R.Draws, sqrt: RealFn)
    requires IsSqrt(sqrt) && LevelCamera(cam) && R.ValidScene(world) && 2 <= width && 2 <= height && ValidDraws(d)
    requires AlbedosNonNegative(world)
    ensures NonNegativeColor(SampleColor(cam, world, width, height, maxDepth, i, j, s, d, sqrt))
  {
    var (du, dv) := d.jitter(i, j, s);
    var u := (i as real + du) / (width - 1) as real;
    var v := (j as real + dv) / (height - 1) as real;
    LevelRays(cam, u, v);
    RayColorBounded(Ray(cam.origin, Camera.ViewDirection(cam, u, v)), world, maxDepth, d.bounces(i, j, s), sqrt);
  }

  lemma NonNegativeSum(a: Vec3, b: Vec3)
    requires NonNegativeColor(a) && NonNegativeColor(b)
    ensures NonNegativeColor(Add(a, b))
  {
  }

  /** What `main` requires of its scene and settings; `main` itself uses a
      400 by 225 image, 100 samples and depth 50. */
  ghost predicate Renderable(cam: Camera.Camera, world: seq<Sphere>, width: int, height: int, samplesPerPixel: int,
                             d: R.Draws) {
    LevelCamera(cam) && SceneReady(world, width, height, samplesPerPixel, d)
  }

  ghost predicate SceneReady(world: seq<Sphere>, width: int, height: int, samplesPerPixel: int, d: R.Draws) {
    R.ValidScene(world) && AlbedosNonNegative(world) && 2 <= width && 2 <= height &&
    0 < samplesPerPixel && ValidDraws(d)
  }

  /** The multisampling loop for pixel (i, j), accumulating with `+=`. */
  method SamplePixel(cam: Camera.Camera, world: seq<Sphere>, width: int, height: int, samplesPerPixel: int, maxDepth: int,
                     i: int, j: int, d: R.Draws, sqrt: RealFn)
    returns (pixelColor: Vec3)
    requires IsSqrt(sqrt) && Renderable(cam, world, width, height, samplesPerPixel, d)
    ensures pixelColor == SampleSum(cam, world, width, height, maxDepth, i, j, samplesPerPixel, d, sqrt)
    ensures NonNegativeColor(pixelColor)
  {
    var color := new CppVec3.Vec3(0.0, 0.0, 0.0);
    var s := 0;
    while s < samplesPerPixel
      invariant 0 <= s <= samplesPerPixel
      invariant color.Value() == SampleSum(cam, world, width, height, maxDepth, i, j, s, d, sqrt)
    {
      var sample := SampleColor(cam, world, width, height, maxDepth, i, j, s, d, sqrt);
      color.AddAssign(sample);
      assert SampleSum(cam, world, width, height, maxDepth, i, j, s + 1, d, sqrt) ==
             Add(SampleSum(cam, world, width, height, maxDepth, i, j, s, d, sqrt), sample);
      s := s + 1;
    }
    pixelColor := color.Value();
    SampleSumNonNegative(cam, world, width, height, maxDepth, i, j, samplesPerPixel, d, sqrt);
  }

  /** Pixel (i, j) of the buffer holds its averaged, gamma-corrected samples. */
  predicate PixelDone(s: seq<Byte>, cam: Camera.Camera, world: seq<Sphere>, width: int, height: int, samplesPerPixel: int,
                      maxDepth: int, i: int, j: int, d: R.Draws, sqrt: RealFn)
    requires IsSqrt(sqrt) && Renderable(cam, world, width, height, samplesPerPixel, d)
  {
    Written(s, PixelIndex(i, j, width, height),
            SampleSum(cam, world, width, height, maxDepth, i, j, samplesPerPixel, d, sqrt), samplesPerPixel, sqrt)
  }

  /** A finished pixel stays finished while its three bytes do. */
  lemma PixelDoneFrame(s: seq<Byte>, t: seq<Byte>, cam: Camera.Camera, world: seq<Sphere>, width: int, height: int,
                       samplesPerPixel: int, maxDepth: int, i: int, j: int, d: R.Draws, sqrt: RealFn)
    requires IsSqrt(sqrt) && Renderable(cam, world, width, height, samplesPerPixel, d)
    requires PixelDone(s, cam, world, width, height, samplesPerPixel, maxDepth, i, j, d, sqrt)
    requires |s| == |t|
    requires forall p :: PixelIndex(i, j, width, height) <= p < PixelIndex(i, j, width, height) + 3 ==> s[p] == t[p]
    ensures PixelDone(t, cam, world, width, height, samplesPerPixel, maxDepth, i, j, d, sqrt)
  {
    var k := PixelIndex(i, j, width, height);
    assert s[k] == t[k] && s[k + 1] == t[k + 1] && s[k + 2] == t[k + 2];
  }

  /** A pixel of a row above scanline `j` (one rendered earlier) lies before
      the bytes of row `j`. */
  lemma EarlierRow(i: int, j': int, j: int, width: int, height: int)
    requires 0 <= i < width && 0 <= j < j' < height
    ensures 0 <= PixelIndex(i, j', width, height)
    ensures PixelIndex(i, j', width, height) + 3 <= (height - 1 - j) * width * 3
  {
    PixelIndexBounds(i, j', width, height);
    MulLeft(height - 1 - j' + 1, height - 1 - j, width);
  }

  /** One pass of the inner loop of `main`: sample pixel (i, j) and write
      its three bytes, leaving every other byte alone. */
  method WritePixel(imageData: array<Byte>, cam: Camera.Camera, world: seq<Sphere>, width: int, height: int,
                    samplesPerPixel: int, maxDepth: int, i: int, j: int, d: R.Draws, sqrt: RealFn)
    requires IsSqrt(sqrt) && Renderable(cam, world, width, height, samplesPerPixel, d)
    requires imageData.Length == width * height * 3 && 0 <= i < width && 0 <= j < height
    modifies imageData
    ensures PixelDone(imageData[..], cam, world, width, height, samplesPerPixel, maxDepth, i, j, d, sqrt)
    ensures forall p :: (0 <= p < imageData.Length &&
              !(PixelIndex(i, j, width, height) <= p < PixelIndex(i, j, width, height) + 3)) ==>
              imageData[p] == old(imageData[p])
  {
    var pixelColor := SamplePixel(cam, world, width, height, samplesPerPixel, maxDepth, i, j, d, sqrt);
    var index := ((height - 1 - j) * width + i) * 3;
    PixelIndexBounds(i, j, width, height);
    WriteColor(imageData, index, pixelColor, samplesPerPixel, sqrt);
  }

  /** Writing pixel (i, j) keeps pixels 0 .. i-1 of the row finished. */
  lemma RowPrefixDone(before: seq<Byte>, after: seq<Byte>, cam: Camera.Camera, world: seq<Sphere>, width: int,
                      height: int, samplesPerPixel: int, maxDepth: int, i: int, j: int, d: R.Draws, sqrt: RealFn)
    requires IsSqrt(sqrt) && Renderable(cam, world, width, height, samplesPerPixel, d)
    requires |before| == |after| && 0 <= i < width && 0 <= j < height
    requires forall i' :: 0 <= i' < i ==>
               PixelDone(before, cam, world, width, height, samplesPerPixel, maxDepth, i', j, d, sqrt)
    requires PixelDone(after, cam, world, width, height, samplesPerPixel, maxDepth, i, j, d, sqrt)
    requires forall p :: (0 <= p < |after| &&
               !(PixelIndex(i, j, width, height) <= p < PixelIndex(i, j, width, height) + 3)) ==>
               after[p] == before[p]
    ensures forall i' :: 0 <= i' <= i ==>
              PixelDone(after, cam, world, width, height, samplesPerPixel, maxDepth, i', j, d, sqrt)
  {
    forall i' | 0 <= i' < i
      ensures PixelDone(after, cam, world, width, height, samplesPerPixel, maxDepth, i', j, d, sqrt)
    {
      PixelIndexDisjoint(i', j, i, j, width, height);
      PixelIndexBounds(i', j, width, height);
      PixelDoneFrame(before, after, cam, world, width, height, samplesPerPixel, maxDepth, i', j, d, sqrt);
    }
  }

  /** One scanline of the render loop of `main`. */
  method RenderRow(imageData: array<Byte>, cam: Camera.Camera, world: seq<Sphere>, width: int, height: int, samplesPerPixel: int,
                   maxDepth: int, j: int, d: R.Draws, sqrt: RealFn)
    requires IsSqrt(sqrt) && Renderable(cam, world, width, height, samplesPerPixel, d)
    requires imageData.Length == width * height * 3 && 0 <= j < height
    modifies imageData
    ensures forall i :: 0 <= i < width ==>
              PixelDone(imageData[..], cam, world, width, height, samplesPerPixel, maxDepth, i, j, d, sqrt)
    ensures forall p :: (0 <= p < imageData.Length &&
              !((height - 1 - j) * width * 3 <= p < (height - 1 - j) * width * 3 + width * 3)) ==>
              imageData[p] == old(imageData[p])
  {
    var i := 0;
    while i < width
      invariant 0 <= i <= width
      invariant forall i' :: 0 <= i' < i ==>
                  PixelDone(imageData[..], cam, world, width, height, samplesPerPixel, maxDepth, i', j, d, sqrt)
      invariant forall p :: (0 <= p < imageData.Length &&
                  !((height - 1 - j) * width * 3 <= p < (height - 1 - j) * width * 3 + width * 3)) ==>
                  imageData[p] == old(imageData[p])
    {
      PixelIndexBounds(i, j, width, height);
      ghost var before := imageData[..];
      WritePixel(imageData, cam, world, width, height, samplesPerPixel, maxDepth, i, j, d, sqrt);
      RowPrefixDone(before, imageData[..], cam, world, width, height, samplesPerPixel, maxDepth, i, j, d, sqrt);
      i := i + 1;
    }
  }

  /** The render loop of `main`, for its camera (`MainCamera()` is level):
      scanlines from `j = image_height - 1` down, every pixel written once
      into a fresh `3 * width * height` buffer. */
  method Render(cam: Camera.Camera, world: seq<Sphere>, width: int, height: int, samplesPerPixel: int,
                maxDepth: int, d: R.Draws, sqrt: RealFn)
    returns (imageData: array<Byte>)
    requires IsSqrt(sqrt) && Renderable(cam, world, width, height, samplesPerPixel, d)
    ensures fresh(imageData) && imageData.Length == width * height * 3
    ensures forall i, j :: 0 <= i < width && 0 <= j < height ==>
              PixelDone(imageData[..], cam, world, width, height, samplesPerPixel, maxDepth, i, j, d, sqrt)
  {
    imageData := new Byte[width * height * 3];
    var j := height - 1;
    while j >= 0
      invariant -1 <= j < height
      invariant forall i, j' :: 0 <= i < width && j < j' < height ==>
                  PixelDone(imageData[..], cam, world, width, height, samplesPerPixel, maxDepth, i, j', d, sqrt)
    {
      ghost var before := imageData[..];
      RenderRow(imageData, cam, world, width, height, samplesPerPixel, maxDepth, j, d, sqrt);
      forall i, j' | 0 <= i < width && j < j' < height
        ensures PixelDone(imageData[..], cam, world, width, height, samplesPerPixel, maxDepth, i, j', d, sqrt)
      {
        EarlierRow(i, j', j, width, height);
        PixelDoneFrame(before, imageData[..], cam, world, width, height, samplesPerPixel, maxDepth, i, j', d, sqrt);
      }
      j := j - 1;
    }
  }
}
