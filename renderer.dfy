/** The recursive path tracer of PathTracing/src/renderer.py: `ray_color`,
    the row-by-row `render` loop with its per-pixel multisampling, and the
    gamma correction of `save_image`. Random draws are inputs. */
module Renderer {
  import opened RealMath
  import opened Vector
  import opened Wrappers
  import opened Rays
  import opened MaterialKind
  import opened Objects
  import opened Scatter
  import opened Camera

  /** The lower end of the hit interval, which keeps a scattered ray from
      re-hitting the surface it leaves. */
  const TMin := 0.001

  const SkyBlue := Vec3(0.5, 0.7, 1.0)

  /** Every component lies in [0, 1]. */
  predicate InUnitColor(c: Vec3) {
    0.0 <= c.x <= 1.0 && 0.0 <= c.y <= 1.0 && 0.0 <= c.z <= 1.0
  }

  /** `_sky_color`: blend from white (looking down) to sky blue (looking up). */
  function SkyColor(r: Ray, sqrt: RealFn): Vec3 {
    var unitDirection := Normalize(r.direction, sqrt);
    var t := 0.5 * (unitDirection.y + 1.0);
    Add(Scale(1.0 - t, White), Scale(t, SkyBlue))
  }

  /** The background is a colour between white and sky blue: red in
      [0.5, 1], green in [0.7, 1], blue exactly 1; straight up is sky blue and
      straight down is white. */
  lemma SkyBounds(r: Ray, sqrt: RealFn)
    requires IsSqrt(sqrt)
    ensures var c := SkyColor(r, sqrt);
      0.5 <= c.x <= 1.0 && 0.7 <= c.y <= 1.0 && c.z == 1.0
    ensures Normalize(r.direction, sqrt).y == 1.0 ==> SkyColor(r, sqrt) == SkyBlue
    ensures Normalize(r.direction, sqrt).y == -1.0 ==> SkyColor(r, sqrt) == White
  {
    var ud := Normalize(r.direction, sqrt);
    if r.direction != Zero {
      NormalizeNonZero(r.direction, sqrt);
      UnitComponents(ud);
    }
    var t := 0.5 * (ud.y + 1.0);
    assert 0.0 <= t <= 1.0;
  }

  /** A scene `ray_color` can always trace: no sphere of radius 0 (whose
      normal divides by the radius) and materials `scatter` accepts. */
  predicate ValidScene(world: seq<Sphere>) {
    forall k :: 0 <= k < |world| ==> world[k].radius != 0.0 && ValidMaterial(world[k].material)
  }

  /** Every material reflects at most all incoming light in each channel. */
  predicate AlbedosInUnit(world: seq<Sphere>) {
    forall k :: 0 <= k < |world| ==> world[k].material.Dielectric? || InUnitColor(world[k].material.albedo)
  }

  /** What `scene.hit(ray, 0.001, inf)` returns for a traceable ray: a record
      with a unit normal and the material of one of the spheres. */
  lemma HitFacts(world: seq<Sphere>, r: Ray, sqrt: RealFn)
    requires IsSqrt(sqrt) && ValidScene(world) && (world != [] ==> r.direction != Zero)
    ensures AllIntersectable(world, r)
    ensures var h := ListHit(world, r, TMin, Infinity, sqrt);
      h.Some? ==> IsUnit(h.value.normal) && r.direction != Zero &&
                  exists k :: 0 <= k < |world| && h.value.material == world[k].material
  {
    ListHitNearest(world, r, TMin, Infinity, sqrt);
    var h := ListHit(world, r, TMin, Infinity, sqrt);
    if h.Some? {
      var k :| 0 <= k < |world| && world[k].radius != 0.0 && OnSphere(world[k], r, h.value.t) &&
               h.value == MakeRecord(world[k], r, h.value.t);
      RecordGeometry(world[k], r, h.value.t);
    }
  }

  /** `ray_color`. `draws(depth)` is what the bounce at remaining depth
      `depth` draws when it scatters. */
  function RayColor(r: Ray, world: seq<Sphere>, depth: int, draws: int -> Sample, sqrt: RealFn): (c: Vec3)
    requires IsSqrt(sqrt) && ValidScene(world) && (world != [] ==> r.direction != Zero)
    ensures depth <= 0 ==> c == Zero
    decreases depth
  {
    if depth <= 0 then Zero
    else
      HitFacts(world, r, sqrt);
      var hitRecord := ListHit(world, r, TMin, Infinity, sqrt);
      if hitRecord.None? then SkyColor(r, sqrt)
      else
        var rec := hitRecord.value;
        ScatterDirectionNonZero(rec.material, r, rec, draws(depth), sqrt);
        var scatterResult := ScatterPy(rec.material, r, rec, draws(depth), sqrt);
        if scatterResult.None? then Zero
        else
          var (scatteredRay, attenuation) := scatterResult.value;
          Mul(attenuation, RayColor(scatteredRay, world, depth - 1, draws, sqrt))
  }

  lemma UnitColorProduct(a: Vec3, b: Vec3)
    requires InUnitColor(a) && InUnitColor(b)
    ensures InUnitColor(Mul(a, b))
  {
    UnitProduct(a.x, b.x);
    UnitProduct(a.y, b.y);
    UnitProduct(a.z, b.z);
  }

  /** With albedos in [0, 1] a traced colour never leaves [0, 1]: the sky is
      in range and each bounce multiplies by an attenuation in range. */
  lemma {:induction false} RayColorBounded(r: Ray, world: seq<Sphere>, depth: int, draws: int -> Sample, sqrt: RealFn)
    requires IsSqrt(sqrt) && ValidScene(world) && (world != [] ==> r.direction != Zero)
    requires AlbedosInUnit(world)
    ensures InUnitColor(RayColor(r, world, depth, draws, sqrt))
    decreases depth
  {
    if depth > 0 {
      HitFacts(world, r, sqrt);
      var hitRecord := ListHit(world, r, TMin, Infinity, sqrt);
      if hitRecord.None? {
        SkyBounds(r, sqrt);
      } else {
        var rec := hitRecord.value;
        ScatterDirectionNonZero(rec.material, r, rec, draws(depth), sqrt);
        var scatterResult := ScatterPy(rec.material, r, rec, draws(depth), sqrt);
        if scatterResult.Some? {
          var (scatteredRay, attenuation) := scatterResult.value;
          RayColorBounded(scatteredRay, world, depth - 1, draws, sqrt);
          var k :| 0 <= k < |world| && rec.material == world[k].material;
          assert InUnitColor(attenuation);
          UnitColorProduct(attenuation, RayColor(scatteredRay, world, depth - 1, draws, sqrt));
        }
      }
    }
  }

  /** A ray that meets no sphere beyond `TMin` shows the sky at any positive depth. */
  lemma MissShowsSky(r: Ray, world: seq<Sphere>, depth: int, draws: int -> Sample, sqrt: RealFn)
    requires IsSqrt(sqrt) && ValidScene(world) && (world != [] ==> r.direction != Zero) && 0 < depth
    requires forall k, t :: 0 <= k < |world| && TMin <= t ==> !OnSphere(world[k], r, t)
    ensures RayColor(r, world, depth, draws, sqrt) == SkyColor(r, sqrt)
  {
    HitFacts(world, r, sqrt);
    ListHitNearest(world, r, TMin, Infinity, sqrt);
  }

  // ---------------------------------------------------------------------
  // render

  /** `Renderer(max_depth, samples_per_pixel)`. */
  datatype Renderer = Renderer(maxDepth: int, samplesPerPixel: int)

  /** The draws of a whole render, keyed by pixel column `i`, row `j` and
      sample `s`: the two `random.random()` offsets, and the bounce draws. */
  datatype Draws = Draws(jitter: (int, int, int) -> (real, real), bounces: (int, int, int) -> int -> Sample)

  /** What the sample loop needs: `image_width - 1` and `image_height - 1`
      are divisors. */
  predicate Renderable(world: seq<Sphere>, camera: Camera, width: int, height: int) {
    ValidScene(world) && ValidCamera(camera) && 2 <= width && 2 <= height
  }

  /** One pass of the sample loop for pixel (i, j). */
  function SampleColor(rd: Renderer, world: seq<Sphere>, camera: Camera, width: int, height: int,
                       i: int, j: int, s: int, d: Draws, sqrt: RealFn): Vec3
    requires IsSqrt(sqrt) && Renderable(world, camera, width, height)
  {
    var (du, dv) := d.jitter(i, j, s);
    var u := (i as real + du) / (width - 1) as real;
    var v := (j as real + dv) / (height - 1) as real;
    RaysPointForward(camera, u, v, sqrt);
    RayColor(GetRay(camera, u, v, sqrt), world, rd.maxDepth, d.bounces(i, j, s), sqrt)
  }

  /** How many times `range(samples_per_pixel)` runs. */
  function SampleCount(rd: Renderer): nat {
    if rd.samplesPerPixel < 0 then 0 else rd.samplesPerPixel
  }

  /** The samples of pixel (i, j), in loop order. */
  function Samples(rd: Renderer, world: seq<Sphere>, camera: Camera, width: int, height: int,
                   i: int, j: int, d: Draws, sqrt: RealFn): (samples: seq<Vec3>)
    requires IsSqrt(sqrt) && Renderable(world, camera, width, height)
    ensures |samples| == SampleCount(rd)
  {
    seq(SampleCount(rd), s requires 0 <= s && IsSqrt(sqrt) && Renderable(world, camera, width, height) =>
      SampleColor(rd, world, camera, width, height, i, j, s, d, sqrt))
  }

  /** The sum of colours, added left to right. */
  function Sum(colors: seq<Vec3>): Vec3
    decreases |colors|
  {
    if colors == [] then Zero
    else Add(Sum(colors[..|colors| - 1]), colors[|colors| - 1])
  }

  /** The colour `render` stores for pixel (i, j): the mean of its samples. */
  function PixelColor(rd: Renderer, world: seq<Sphere>, camera: Camera, width: int, height: int,
                      i: int, j: int, d: Draws, sqrt: RealFn): Vec3
    requires IsSqrt(sqrt) && Renderable(world, camera, width, height) && rd.samplesPerPixel != 0
  {
    Div(Sum(Samples(rd, world, camera, width, height, i, j, d, sqrt)), rd.samplesPerPixel as real)
  }

  /** Each channel of a sum of `n` colours in [0, 1] lies in [0, n]. */
  lemma {:induction false} SumBounded(colors: seq<Vec3>)
    requires forall k | 0 <= k < |colors| :: InUnitColor(colors[k])
    ensures var c := Sum(colors);
      0.0 <= c.x <= |colors| as real && 0.0 <= c.y <= |colors| as real && 0.0 <= c.z <= |colors| as real
    decreases |colors|
  {
    if colors != [] {
      var n := |colors| - 1;
      SumBounded(colors[..n]);
      AddBounded(Sum(colors[..n]), colors[n], n);
    }
  }

  /** Every sample is a colour in [0, 1]. */
  lemma SampleColorBounded(rd: Renderer, world: seq<Sphere>, camera: Camera, width: int, height: int,
                           i: int, j: int, s: int, d: Draws, sqrt: RealFn)
    requires IsSqrt(sqrt) && Renderable(world, camera, width, height) && AlbedosInUnit(world)
    ensures InUnitColor(SampleColor(rd, world, camera, width, height, i, j, s, d, sqrt))
  {
    var (du, dv) := d.jitter(i, j, s);
    var u := (i as real + du) / (width - 1) as real;
    var v := (j as real + dv) / (height - 1) as real;
    RaysPointForward(camera, u, v, sqrt);
    RayColorBounded(GetRay(camera, u, v, sqrt), world, rd.maxDepth, d.bounces(i, j, s), sqrt);
  }

  /** Adding a colour in [0, 1] to a sum with channels in [0, n] gives
      channels in [0, n + 1]. */
  lemma AddBounded(sum: Vec3, c: Vec3, n: nat)
    requires 0.0 <= sum.x <= n as real && 0.0 <= sum.y <= n as real && 0.0 <= sum.z <= n as real
    requires InUnitColor(c)
    ensures var r := Add(sum, c);
      0.0 <= r.x <= (n + 1) as real && 0.0 <= r.y <= (n + 1) as real && 0.0 <= r.z <= (n + 1) as real
  {
  }

  /** With albedos in [0, 1] every rendered pixel is a colour in [0, 1]. */
  lemma PixelBounded(rd: Renderer, world: seq<Sphere>, camera: Camera, width: int, height: int,
                     i: int, j: int, d: Draws, sqrt: RealFn)
    requires IsSqrt(sqrt) && Renderable(world, camera, width, height) && rd.samplesPerPixel != 0
    requires AlbedosInUnit(world)
    ensures InUnitColor(PixelColor(rd, world, camera, width, height, i, j, d, sqrt))
  {
    var samples := Samples(rd, world, camera, width, height, i, j, d, sqrt);
    forall k | 0 <= k < |samples|
      ensures InUnitColor(samples[k])
    {
      SampleColorBounded(rd, world, camera, width, height, i, j, k, d, sqrt);
    }
    SumBounded(samples);
    var sum := Sum(samples);
    if rd.samplesPerPixel > 0 {
      var k := rd.samplesPerPixel as real;
      assert k == |samples| as real;
      MeanInUnit(sum.x, k);
      MeanInUnit(sum.y, k);
      MeanInUnit(sum.z, k);
    } else {
      assert samples == [];
    }
  }

  lemma MeanInUnit(x: real, k: real)
    requires 0.0 < k && 0.0 <= x <= k
    ensures 0.0 <= x / k <= 1.0
  {
  }

  /** A prefix grows by the next element. */
  lemma TakeOneMore<T>(s: seq<T>, i: nat)
    requires i < |s|
    ensures s[..i + 1] == s[..i] + [s[i]]
  {
  }

  /** The colours of image row `j`, left to right. */
  function RowColors(rd: Renderer, world: seq<Sphere>, camera: Camera, width: int, height: int,
                     j: int, d: Draws, sqrt: RealFn): (row: seq<Vec3>)
    requires IsSqrt(sqrt)
    requires width <= 0 || (Renderable(world, camera, width, height) && rd.samplesPerPixel != 0)
    ensures |row| == if width < 0 then 0 else width
  {
    seq(if width < 0 then 0 else width,
        i requires 0 <= i < width && IsSqrt(sqrt) && Renderable(world, camera, width, height) && rd.samplesPerPixel != 0 =>
          PixelColor(rd, world, camera, width, height, i, j, d, sqrt))
  }

  /** The image `render` returns: row `row` holds image row
      `j = image_height - 1 - row`, so the top row comes first. */
  function Image(rd: Renderer, world: seq<Sphere>, camera: Camera, width: int, height: int,
                 d: Draws, sqrt: RealFn): (pixels: seq<seq<Vec3>>)
    requires IsSqrt(sqrt)
    requires width <= 0 || height <= 0 || (Renderable(world, camera, width, height) && rd.samplesPerPixel != 0)
    ensures |pixels| == if height < 0 then 0 else height
  {
    seq(if height < 0 then 0 else height,
        row requires 0 <= row < height && IsSqrt(sqrt) &&
                     (width <= 0 || (Renderable(world, camera, width, height) && rd.samplesPerPixel != 0)) =>
          RowColors(rd, world, camera, width, height, height - 1 - row, d, sqrt))
  }

  /** The image has `image_height` rows of `image_width` pixels, and the
      pixel in column `i` of row `row` is the mean of the samples of image
      point (i, image_height - 1 - row). */
  lemma ImagePixels(rd: Renderer, world: seq<Sphere>, camera: Camera, width: int, height: int,
                    d: Draws, sqrt: RealFn)
    requires IsSqrt(sqrt)
    requires width <= 0 || height <= 0 || (Renderable(world, camera, width, height) && rd.samplesPerPixel != 0)
    ensures var pixels := Image(rd, world, camera, width, height, d, sqrt);
      (forall row | 0 <= row < |pixels| :: |pixels[row]| == if width < 0 then 0 else width) &&
      (forall row, i | 0 <= row < |pixels| && 0 <= i < |pixels[row]| ::
         Renderable(world, camera, width, height) && rd.samplesPerPixel != 0 &&
         pixels[row][i] == PixelColor(rd, world, camera, width, height, i, height - 1 - row, d, sqrt))
  {
    var pixels := Image(rd, world, camera, width, height, d, sqrt);
    forall row | 0 <= row < |pixels|
      ensures pixels[row] == RowColors(rd, world, camera, width, height, height - 1 - row, d, sqrt)
    {
    }
  }

  /** `Renderer.render`: rows from the top (`j = image_height - 1`) down,
      columns left to right. */
  method Render(rd: Renderer, world: seq<Sphere>, camera: Camera, width: int, height: int, d: Draws, sqrt: RealFn)
    returns (pixels: seq<seq<Vec3>>)
    requires IsSqrt(sqrt)
    requires width <= 0 || height <= 0 ||
             (Renderable(world, camera, width, height) && rd.samplesPerPixel != 0)
    ensures pixels == Image(rd, world, camera, width, height, d, sqrt)
  {
    ghost var image := Image(rd, world, camera, width, height, d, sqrt);
    pixels := [];
    var j := height - 1;
    while j >= 0
      invariant -1 <= j <= height - 1 || (height <= 0 && j == height - 1)
      invariant |pixels| == if j < -1 then 0 else height - 1 - j
      invariant pixels == image[..|pixels|]
      decreases j
    {
      var rowColors := RenderRow(rd, world, camera, width, height, j, d, sqrt);
      assert image[|pixels|] == rowColors;
      TakeOneMore(image, |pixels|);
      pixels := pixels + [rowColors];
      j := j - 1;
    }
  }

  /** One row of `render`: the pixel colours of image row `j`. */
  method RenderRow(rd: Renderer, world: seq<Sphere>, camera: Camera, width: int, height: int,
                   j: int, d: Draws, sqrt: RealFn)
    returns (rowColors: seq<Vec3>)
    requires IsSqrt(sqrt)
    requires width <= 0 || (Renderable(world, camera, width, height) && rd.samplesPerPixel != 0)
    ensures rowColors == RowColors(rd, world, camera, width, height, j, d, sqrt)
  {
    ghost var row := RowColors(rd, world, camera, width, height, j, d, sqrt);
    rowColors := [];
    var i := 0;
    while i < width
      invariant 0 <= i <= (if width < 0 then 0 else width)
      invariant rowColors == row[..i]
    {
      var pixelColor := RenderPixel(rd, world, camera, width, height, i, j, d, sqrt);
      assert row[i] == pixelColor;
      TakeOneMore(row, i);
      rowColors := rowColors + [pixelColor];
      i := i + 1;
    }
  }

  /** The body of the column loop: `samples_per_pixel` jittered samples,
      summed and averaged. */
  method RenderPixel(rd: Renderer, world: seq<Sphere>, camera: Camera, width: int, height: int,
                     i: int, j: int, d: Draws, sqrt: RealFn)
    returns (pixelColor: Vec3)
    requires IsSqrt(sqrt) && Renderable(world, camera, width, height) && rd.samplesPerPixel != 0
    ensures pixelColor == PixelColor(rd, world, camera, width, height, i, j, d, sqrt)
  {
    ghost var samples := Samples(rd, world, camera, width, height, i, j, d, sqrt);
    pixelColor := Zero;
    var s := 0;
    while s < rd.samplesPerPixel
      invariant 0 <= s <= SampleCount(rd)
      invariant pixelColor == Sum(samples[..s])
    {
      var sample := SampleColor(rd, world, camera, width, height, i, j, s, d, sqrt);
      assert samples[s] == sample;
      assert samples[..s + 1][..s] == samples[..s];
      pixelColor := Add(pixelColor, sample);
      s := s + 1;
    }
    assert samples[..s] == samples;
    pixelColor := Div(pixelColor, rd.samplesPerPixel as real);
  }

  // ---------------------------------------------------------------------
  // save_image

  /** One channel of `save_image`: gamma 2 (`c ** 0.5`), clamped to
      [0, 0.999], scaled by 256 and truncated by `int`. A negative channel
      makes `** 0.5` complex, which the clamp cannot compare. */
  function GammaByte(c: real, sqrt: RealFn): (b: int)
    requires 0.0 <= c
    ensures 0 <= b <= 255
  {
    var g := sqrt(c);
    var clamped := Max(0.0, Min(0.999, g));
    (256.0 * clamped).Floor
  }

  lemma SqrtMonotone(sqrt: RealFn, a: real, b: real)
    requires IsSqrt(sqrt) && 0.0 <= a <= b
    ensures sqrt(a) <= sqrt(b)
  {
    var x, y := sqrt(a), sqrt(b);
    assert (x - y) * (x + y) == x * x - y * y;
    if 0.0 < x + y {
      NonPositiveFactor(x - y, x + y);
    }
  }

  /** Black maps to 0, full intensity and beyond to 255, and brighter
      channels never map to smaller bytes. */
  lemma GammaByteProperties(a: real, b: real, sqrt: RealFn)
    requires IsSqrt(sqrt) && 0.0 <= a <= b
    ensures GammaByte(a, sqrt) <= GammaByte(b, sqrt)
    ensures a == 0.0 ==> GammaByte(a, sqrt) == 0
    ensures 1.0 <= b ==> GammaByte(b, sqrt) == 255
  {
    SqrtMonotone(sqrt, a, b);
    if a == 0.0 {
      SqrtOfSquare(sqrt, 0.0);
    }
    if 1.0 <= b {
      SqrtOne(sqrt);
      SqrtMonotone(sqrt, 1.0, b);
    }
  }

  /** All channels of every pixel are non-negative. */
  predicate NonNegativeImage(pixels: seq<seq<Vec3>>) {
    forall j, i :: 0 <= j < |pixels| && 0 <= i < |pixels[j]| ==>
      0.0 <= pixels[j][i].x && 0.0 <= pixels[j][i].y && 0.0 <= pixels[j][i].z
  }

  /** Channel `ch` (0 red, 1 green, 2 blue) of a colour. */
  function Channel(c: Vec3, ch: int): real
    requires 0 <= ch < 3
  {
    if ch == 0 then c.x else if ch == 1 then c.y else c.z
  }

  /** The `img_array` that `save_image` fills: height by `len(pixels[0])` by
      3 bytes; every row must be at least as long as the first. */
  method ToBytes(pixels: seq<seq<Vec3>>, sqrt: RealFn) returns (img: array3<int>)
    requires NonNegativeImage(pixels)
    requires forall j :: 0 <= j < |pixels| ==> |pixels[0]| <= |pixels[j]|
    ensures fresh(img)
    ensures img.Length0 == |pixels| && img.Length2 == 3
    ensures img.Length1 == if |pixels| > 0 then |pixels[0]| else 0
    ensures forall j, i, ch :: 0 <= j < img.Length0 && 0 <= i < img.Length1 && 0 <= ch < 3 ==>
              0 <= ch < 3 && 0.0 <= Channel(pixels[j][i], ch) &&
              img[j, i, ch] == GammaByte(Channel(pixels[j][i], ch), sqrt)
  {
    var height := |pixels|;
    var width := if height > 0 then |pixels[0]| else 0;
    img := new int[height, width, 3];
    var j := 0;
    while j < height
      invariant 0 <= j <= height
      invariant forall j', i, ch :: 0 <= j' < j && 0 <= i < width && 0 <= ch < 3 ==>
                  0.0 <= Channel(pixels[j'][i], ch) &&
                  img[j', i, ch] == GammaByte(Channel(pixels[j'][i], ch), sqrt)
    {
      var i := 0;
      while i < width
        invariant 0 <= i <= width
        invariant forall j', i', ch :: 0 <= j' < j && 0 <= i' < width && 0 <= ch < 3 ==>
                    0.0 <= Channel(pixels[j'][i'], ch) &&
                    img[j', i', ch] == GammaByte(Channel(pixels[j'][i'], ch), sqrt)
        invariant forall i', ch :: 0 <= i' < i && 0 <= ch < 3 ==>
                    0.0 <= Channel(pixels[j][i'], ch) &&
                    img[j, i', ch] == GammaByte(Channel(pixels[j][i'], ch), sqrt)
      {
        var color := pixels[j][i];
        img[j, i, 0] := GammaByte(color.x, sqrt);
        img[j, i, 1] := GammaByte(color.y, sqrt);
        img[j, i, 2] := GammaByte(color.z, sqrt);
        i := i + 1;
      }
      j := j + 1;
    }
  }
}
