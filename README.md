# A verified model of four small programs of the AIProj repository

The repository holds four independent programs. This project models the core of each.

* **Path tracers.** A Python path tracer (`PathTracing/src`) and a C++ one (`CppPathTracing/src`) render the same kind of scene:
  * spheres with Lambertian, metal and dielectric materials;
  * a pinhole camera;
  * a recursive `ray_color` with a bounce limit;
  * multisampling;
  * gamma-2 output.

  The model covers:
  * the vector algebra (modules `Vector` and `CppVec3`);
  * rays (`Rays`);
  * hit records, spheres and the scene list (`Objects`, `CppHittable`, `CppSphere`);
  * materials (`MaterialKind`, `Scatter`, `CppMaterial`);
  * the utilities of `utils.h` (`CppUtils`);
  * the Python camera (`Camera`);
  * the Python renderer (`Renderer`);
  * the render loop of the C++ `main` (`CppMain`).

  Doubles are modelled as reals. `sqrt` and `tan` are function parameters, and lemmas that need the square-root law require `RealMath.IsSqrt(sqrt)`. Random draws are parameters too.
* **TextMeshPro pools.** `TMPro_MeshUtilities.cs` provides:
  * the static pools `ListArrayPool<T>` (arrays bucketed by length, at most 512 per bucket) and `ItemPool<T>` (a stack of at most 128 items);
  * the link-ID buffer of `TMP_LinkInfo`;
  * `Extents.zero`.

  `TMP_LineInfo.cs` provides `TMP_LineInfo.Reset`. These are modules `TmpMeshUtilities` and `TmpLineInfo`. Each pool is a class whose methods update the pool's map or stack.
* **AdbMem.** The monitor converts `dumpsys meminfo` text into Markdown. It recognises:
  * two-line table headers;
  * data rows;
  * headings;
  * `key: value` lines.

  It finds the target process in `ps -A` output (module `AdbMeminfo`).
* **DLSS inference.** The model covers:
  * how `_load_checkpoint` picks the state dict from a checkpoint;
  * how it rewrites every key (`generator.` removed, `body` renamed to `rrdb_blocks`, `generator.` added for the marked layers);
  * the output file names of `upscale` and `upscale_batch`;
  * the extension filter of `upscale_batch`.

  These are modules `DlssCheckpoint` and `DlssPaths`.

The Python render loop (`PathTracing/src/renderer.py:40`) runs `j` from `image_height - 1` down, so the top row of the image is appended first; `Renderer.Image` and `Renderer.ImagePixels` follow that order.

## Model

| member | source | states |
|---|---|---|
| Vector.Times | PathTracing/src/vector3.py:26-37 | `*` with a number scales; with a vector it is the componentwise product, the same in either operand order (`__rmul__`); multiplying by white is the identity |
| Vector.Cross | PathTracing/src/vector3.py:51-57 | the cross product is orthogonal to both arguments |
| Vector.LengthSquared | PathTracing/src/vector3.py:63-65 | the squared length is never negative |
| Vector.LengthSquaredZero | PathTracing/src/vector3.py:63-65 | the squared length is zero iff the vector is zero |
| Vector.Normalize | PathTracing/src/vector3.py:67-72 | the zero vector normalises to the zero vector (the guard of `normalize`) |
| Vector.NormalizeNonZero | PathTracing/src/vector3.py:67-72 | a non-zero vector has positive length, normalises to itself scaled by 1/length, and the result is a unit vector |
| Vector.NormalizeUnit | PathTracing/src/vector3.py:67-72 | a unit vector is its own normalisation |
| Vector.NormalizeScale | PathTracing/src/vector3.py:67-72 | normalisation ignores a positive scale factor |
| Vector.LengthScale | PathTracing/src/vector3.py:59-61 | scaling by k > 0 multiplies the length by k |
| Vector.NearZeroIsShort | PathTracing/src/vector3.py:74-77 | a near-zero vector has squared length below 3e-16; the zero vector is near zero; a unit vector is not |
| Vector.RandomVecInBox | PathTracing/src/vector3.py:79-87 | draws in [0,1) give a vector in the box [lo,hi)^3 |
| Vector.FirstInUnitBall | PathTracing/src/vector3.py:89-95 | the accepted candidate is one of the drawn candidates and lies strictly inside the unit ball; there is none iff no candidate is inside |
| Vector.RandomInUnitSphere | PathTracing/src/vector3.py:89-95 | the rejection loop returns the first accepted candidate, which lies inside the unit ball |
| Vector.RandomInHemisphere | PathTracing/src/vector3.py:102-109 | the result is the draw or its negation, lies on the normal's side, and keeps the draw's length |
| Vector.DotSymmetric | PathTracing/src/vector3.py:47-49 | the dot product is symmetric |
| Vector.Lagrange | PathTracing/src/vector3.py:47-57 | Lagrange's identity links dot, cross and length |
| Vector.DotOfUnits | PathTracing/src/vector3.py:47-49 | the dot product of two unit vectors lies in [-1,1] (Cauchy-Schwarz) |
| Vector.ReflectNormalComponent | PathTracing/src/vector3.py:111-113 | `reflect` about a unit normal negates the normal component |
| Vector.ReflectPreservesLength | PathTracing/src/vector3.py:111-113 | `reflect` about a unit normal preserves length |
| Vector.RefractLength | PathTracing/src/vector3.py:115-120 | the refracted vector of a unit vector has squared length at least 1, and is a unit vector when Snell's law has a solution |
| Vector.PerpendicularPart | PathTracing/src/vector3.py:115-120 | the perpendicular part is orthogonal to the normal and has squared length eta^2 (1 - cos^2) |
| Vector.ParallelCompletion | PathTracing/src/vector3.py:115-120 | adding a multiple of the unit normal to an orthogonal vector adds its square to the squared length |
| Vector.DivIsScaleByInverse | CppPathTracing/src/vec3.h:95-97 | C++ `v / t` (`(1/t) * v`) is the componentwise division of Python |
| CppVec3.Vec3.Default | CppPathTracing/src/vec3.h:13 | `Vec3()` holds the zero vector |
| CppVec3.Vec3.constructor | CppPathTracing/src/vec3.h:14 | `Vec3(x, y, z)` holds (x, y, z) |
| CppVec3.Vec3.AddAssign | CppPathTracing/src/vec3.h:25-30 | `+=` leaves the object holding the old value plus the argument |
| CppVec3.Vec3.MulAssign | CppPathTracing/src/vec3.h:32-37 | `*=` leaves the object holding the old value scaled by t |
| CppVec3.Vec3.DivAssign | CppPathTracing/src/vec3.h:39-41 | `/=` leaves the object holding the old value scaled by 1/t, which is the binary `/` |
| CppVec3.NormalizedIsUnitVector | CppPathTracing/src/vec3.h:53-56 | for a non-zero vector `normalized()` agrees with `unit_vector` and has unit length |
| CppVec3.UnitVectorIsNormalize | CppPathTracing/src/vec3.h:114-116 | the length is zero iff the vector is zero; on a non-zero vector `unit_vector` is Python's `normalize` and has unit length |
| CppVec3.ZeroLength | CppPathTracing/src/vec3.h:44-50 | the zero vector has length zero, so `unit_vector` of it divides by zero |
| Rays.AtZero | PathTracing/src/ray.py:21-33 | the ray is at its origin at t = 0 |
| Rays.AtShift | PathTracing/src/ray.py:21-33 | travelling t1 + t2 is travelling t1, then t2 from there |
| Rays.AtDistance | CppPathTracing/src/ray.h:20-22 | the squared distance from the origin to the point at t is t^2 times the direction's squared length |
| Rays.DefaultRayAt | CppPathTracing/src/ray.h:15-17 | every point of the default-constructed ray is the origin |
| Objects.FaceNormal | PathTracing/src/objects.py:18-27 | front face iff the direction meets the outward normal at a negative dot product; the stored normal is the outward normal or its negation, always facing the ray |
| Objects.MakeRecord | PathTracing/src/objects.py:103-110 | the record holds t, the point `ray.at(t)` and the sphere's material; `front_face` and `normal` are `set_face_normal` of the outward normal `(point - center) / radius`, so the normal faces against the ray |
| Objects.SphereHit | PathTracing/src/objects.py:62-110 | no hit for a negative discriminant; a hit is in range, at the near root when that is in range, else at the far root; no hit when both roots are out of range |
| Objects.QuadraticForm | PathTracing/src/objects.py:78-86 | the squared distance of `ray.at(t)` from the centre minus the squared radius is a t^2 + 2 half_b t + c, for the coefficients `hit` computes |
| Objects.QuadraticRoots | PathTracing/src/objects.py:86-98 | t is a zero of the quadratic iff the discriminant is non-negative and t is one of the two roots of the formula |
| Objects.CompleteSquare | PathTracing/src/objects.py:86 | a times the quadratic equals (a t + half_b)^2 minus the discriminant |
| Objects.ZeroGivesRoot | PathTracing/src/objects.py:86-98 | every zero of the quadratic is one of the two roots, and the discriminant is then non-negative |
| Objects.RootGivesZero | PathTracing/src/objects.py:92-98 | each root is a zero of the quadratic |
| Objects.OnSphereIffRoot | PathTracing/src/objects.py:78-98 | the point at t lies on the sphere iff t is one of the two roots |
| Objects.NearRootFirst | PathTracing/src/objects.py:95-98 | the near root is never larger than the far root |
| Objects.SphereHitNearest | PathTracing/src/objects.py:62-110 | a hit lies on the sphere and is the smallest in-range t on it; there is no hit iff no in-range point lies on the sphere |
| Objects.RecordGeometry | PathTracing/src/objects.py:103-110 | the record's point is on the sphere, and its normal is a unit vector facing the ray |
| Objects.ListHitFromNearest | PathTracing/src/objects.py:132-141 | from any point of the scan (record so far, bound equal to its t), the result is the record so far when nothing later is hit in range, and otherwise an in-range hit with none earlier, taken from the last object hit at that t |
| Objects.NearestAfterHit | PathTracing/src/objects.py:135-139 | a hit by the next object replaces the record and lowers the bound to its t |
| Objects.NearestAfterMiss | PathTracing/src/objects.py:135-139 | a miss keeps the record and the bound |
| Objects.ListHitNearest | PathTracing/src/objects.py:127-141 | no hit iff no sphere has a point in range; otherwise the hit is in range, no sphere is hit earlier, ties go to the later object, and its t is at most every sphere's own hit |
| Objects.HittableList.constructor | PathTracing/src/objects.py:116-117 | a new list is empty |
| Objects.HittableList.Add | PathTracing/src/objects.py:119-121 | `add` appends the object |
| Objects.HittableList.Clear | PathTracing/src/objects.py:123-125 | `clear` empties the list |
| Objects.HittableList.Hit | PathTracing/src/objects.py:127-141 | the loop with the shrinking bound returns the nearest hit of `ListHit` |
| CppHittable.HitRecord.constructor | CppPathTracing/src/hittable.h:12-17 | `HitRecord rec;` starts with zero point and normal |
| CppHittable.HitRecord.SetFaceNormal | CppPathTracing/src/hittable.h:20-23 | front face iff dot < 0; the normal is the outward normal or its negation and faces the ray; agrees with Python's `set_face_normal`; point, t and material unchanged |
| CppSphere.Hit | CppPathTracing/src/sphere.h:25-59 | returns true iff the Python sphere hits; on true the record is exactly the Python record, in range, at `r.at(t)`, with the sphere's material; on false the record is untouched |
| CppUtils.DegreesToRadians | CppPathTracing/src/utils.h:14-16 | 180 degrees is pi |
| CppUtils.RadiansToDegrees | CppPathTracing/src/utils.h:18-20 | pi radians is 180 degrees |
| CppUtils.DegreesRoundTrip | CppPathTracing/src/utils.h:14-20 | the two conversions invert each other |
| CppUtils.RandomDouble | CppPathTracing/src/utils.h:23-25 | `rand() / (RAND_MAX + 1.0)` lies in [0,1) |
| CppUtils.RandomDoubleIn | CppPathTracing/src/utils.h:28-30 | the stretched draw lies in [min,max) when min < max, and equals min when they are equal |
| CppUtils.Clamp | CppPathTracing/src/utils.h:33-37 | the result lies in [min,max]; x inside is kept; below min gives min; above max gives max |
| CppUtils.ClampIdempotent | CppPathTracing/src/utils.h:33-37 | clamping twice is clamping once |
| MaterialKind.MakeMetal | PathTracing/src/material.py:55-62 | Python `Metal`: fuzz clamped from above to 1 only, albedo kept |
| MaterialKind.MakeMetalCpp | CppPathTracing/src/material.h:59 | C++ `Metal`: `f < 1 ? f : 1`, albedo kept |
| MaterialKind.MetalConstructorsAgree | CppPathTracing/src/material.h:59 | both constructors store the same fuzz, negative values included |
| Scatter.ReflectanceBounds | PathTracing/src/material.py:128-133 | Schlick's reflectance is in [0,1] for a cosine in [0,1] and a positive index, and is 1 at cosine 0 |
| Scatter.LambertianScatter | PathTracing/src/material.py:35-49 | scattered from the hit point with the albedo; the direction is the normalised sum of the normal and the unit draw, or the normalised normal when that sum is near zero |
| Scatter.LambertianUnit | PathTracing/src/material.py:35-49 | with a unit normal the Lambertian direction is a unit vector |
| Scatter.MetalScatter | PathTracing/src/material.py:64-81 | scatters iff the fuzzed reflection leaves on the normal's side; then from the hit point, with the albedo |
| Scatter.MetalUnit | PathTracing/src/material.py:64-81 | a metal bounce leaves along a unit vector on the normal's side |
| Scatter.MetalMirror | PathTracing/src/material.py:64-81 | with fuzz 0 the direction is the mirror reflection, and it scatters iff the ray arrives against the normal |
| Scatter.EtaRatio | PathTracing/src/material.py:101-104 | 1/index entering through the front face, the index leaving |
| Scatter.CosTheta | PathTracing/src/material.py:109 | the cosine is capped at 1 |
| Scatter.DielectricScatter | PathTracing/src/material.py:94-126 | always scatters from the hit point with white; it reflects when refraction is impossible or when Schlick's reflectance exceeds the draw `u`, and refracts with the eta ratio otherwise |
| Scatter.DielectricDirection | PathTracing/src/material.py:94-126 | for a non-zero direction and a unit normal the scattered direction has squared length at least 1 |
| Scatter.ScatterPy | PathTracing/src/material.py:11-126 | only a metal can absorb; a scattered ray starts at the hit point, with white for glass and the albedo otherwise |
| Scatter.ScatterDirectionNonZero | PathTracing/src/material.py:35-126 | for a valid material and a unit normal scattering is defined and never gives a zero direction |
| CppMaterial.Lambertian | CppPathTracing/src/material.h:34-50 | always scatters from the hit point with the albedo; the direction is the normal plus `random_unit_vector()`, not normalised, or the normal itself when that sum is near zero |
| CppMaterial.Metal | CppPathTracing/src/material.h:61-71 | writes both out-parameters; the written direction is the reflection of the unit incoming direction plus fuzz times the ball draw, not normalised; scatters iff that direction meets the normal at a positive dot product |
| CppMaterial.Dielectric | CppPathTracing/src/material.h:81-105 | always scatters from the hit point with white; it reflects the unit incoming direction when `cannot_refract` holds or the reflectance exceeds the draw, and refracts it otherwise |
| CppMaterial.Scatter | CppPathTracing/src/material.h:19-105 | only a metal can absorb; the scattered ray starts at the hit point with white for glass and the albedo otherwise |
| CppMaterial.LambertianScatter | CppPathTracing/src/material.h:34-50 | the method's result and out-parameters are those of `Lambertian` |
| CppMaterial.MetalScatter | CppPathTracing/src/material.h:61-71 | the method's result and out-parameters are those of `Metal` |
| CppMaterial.DielectricScatter | CppPathTracing/src/material.h:81-105 | the method's result and out-parameters are those of `Dielectric` |
| CppMaterial.LambertianAgrees | CppPathTracing/src/material.h:34-50 | for a non-zero draw the C++ Lambertian scatters exactly like Python's |
| CppMaterial.MetalAgrees | CppPathTracing/src/material.h:61-71 | for a unit incoming direction the two metals scatter in the same cases along the same direction |
| CppMaterial.MetalReflectsUnit | CppPathTracing/src/material.h:66-68 | for every non-zero incoming direction C++ reflects the normalised direction and adds the fuzz without normalising the sum |
| CppMaterial.MetalDiverges | CppPathTracing/src/material.h:66-68 | for the non-unit direction (0,0,-2) at normal (0,0,1), fuzz 0.5 and ball draw (0.5,0,0), C++ leaves along (0.25,0,1), and Python's direction is not that direction normalised |
| CppMaterial.DielectricAgrees | CppPathTracing/src/material.h:81-113 | for a non-zero incoming direction the two dielectrics agree exactly |
| CppMaterial.ScatterDirectionNonZero | CppPathTracing/src/material.h:19-105 | a scattered ray off a unit normal never has a zero direction |
| Camera.Radians | PathTracing/src/camera.py:26 | 180 degrees is pi and 0 is 0 |
| Camera.MakeCamera | PathTracing/src/camera.py:12-38 | the camera's origin is `look_from` |
| Camera.MakeCameraFrame | PathTracing/src/camera.py:26-38 | the camera is the frame of w = normalize(look_from - look_at) with the scaled right and up vectors |
| Camera.BackwardUnit | PathTracing/src/camera.py:32 | w is a unit vector when the eye is not at the target |
| Camera.NormalizeOrthogonal | PathTracing/src/camera.py:33 | normalising a vector orthogonal to w keeps it orthogonal |
| Camera.FrameAxis | PathTracing/src/camera.py:38 | w can be recovered from the stored vectors |
| Camera.OrthogonalAxes | PathTracing/src/camera.py:33-37 | horizontal and vertical are orthogonal to w and to each other |
| Camera.CameraFrame | PathTracing/src/camera.py:12-38 | for an eye away from the target, the stored backward axis is w, a unit vector, and horizontal, vertical and w are mutually orthogonal |
| Camera.GetRay | PathTracing/src/camera.py:40-52 | the ray starts at the camera's origin |
| Camera.ViewDirectionSplit | PathTracing/src/camera.py:51 | the view direction is the viewport offset minus w |
| Camera.RaysPointForward | PathTracing/src/camera.py:40-52 | every primary ray has a unit direction pointing away from w |
| Camera.CenterDirection | PathTracing/src/camera.py:51 | the direction through (0.5, 0.5) is -w |
| Camera.CenterRay | PathTracing/src/camera.py:12-52 | the central ray points straight at the target |
| Renderer.SkyBounds | PathTracing/src/renderer.py:105-118 | the sky colour lies between white and sky blue: white looking down, sky blue looking up |
| Renderer.HitFacts | PathTracing/src/renderer.py:84 | in a valid scene the hit of `scene.hit(ray, 0.001, inf)` has a unit normal and the material of one of the spheres |
| Renderer.RayColor | PathTracing/src/renderer.py:66-103 | black once the depth is used up |
| Renderer.RayColorBounded | PathTracing/src/renderer.py:66-103 | with albedos in [0,1] the traced colour stays in [0,1] |
| Renderer.MissShowsSky | PathTracing/src/renderer.py:84-103 | a ray that hits nothing shows the sky at any positive depth |
| Renderer.Samples | PathTracing/src/renderer.py:49-55 | one sample per pass of `range(samples_per_pixel)` |
| Renderer.SumBounded | PathTracing/src/renderer.py:46-55 | the sum of n colours in [0,1] has channels in [0,n] |
| Renderer.SampleColorBounded | PathTracing/src/renderer.py:49-55 | every sample is a colour in [0,1] |
| Renderer.PixelBounded | PathTracing/src/renderer.py:46-58 | with albedos in [0,1] every averaged pixel is a colour in [0,1] |
| Renderer.RowColors | PathTracing/src/renderer.py:44-61 | a row holds `image_width` pixels |
| Renderer.Image | PathTracing/src/renderer.py:34-64 | the image holds `image_height` rows |
| Renderer.ImagePixels | PathTracing/src/renderer.py:40-64 | list row r holds scanline `image_height - 1 - r`: the top row comes first |
| Renderer.Render | PathTracing/src/renderer.py:21-64 | the nested loops return exactly `Image` |
| Renderer.RenderRow | PathTracing/src/renderer.py:44-61 | the column loop returns exactly that row's colours |
| Renderer.RenderPixel | PathTracing/src/renderer.py:46-58 | the sample loop returns the mean of the pixel's samples |
| Renderer.GammaByte | PathTracing/src/renderer.py:143-150 | a channel byte lies in 0..255 |
| Renderer.GammaByteProperties | PathTracing/src/renderer.py:143-150 | the byte is monotone in intensity, 0 for black and 255 at full intensity and beyond |
| Renderer.ToBytes | PathTracing/src/renderer.py:121-156 | the array is height by `len(pixels[0])` by 3, and each entry is the gamma byte of its channel |
| CppMain.SkyAgrees | CppPathTracing/src/main.cpp:36-39 | for a non-zero direction the C++ sky is the Python sky |
| CppMain.ScatterReady | CppPathTracing/src/main.cpp:22-29 | a hit in a valid scene can be scattered, and the scattered ray is traceable again |
| CppMain.RayColor | CppPathTracing/src/main.cpp:14-40 | black once the depth is used up |
| CppMain.RayColorBounded | CppPathTracing/src/main.cpp:14-40 | non-negative albedos give a non-negative colour; albedos in [0,1] give a colour in [0,1] |
| CppMain.ChannelByteAgrees | CppPathTracing/src/main.cpp:43-58 | each byte of `write_color` is the byte Python's `save_image` writes for the averaged colour: 0 for black, 255 from the sample count on |
| CppMain.ChannelByteGamma | CppPathTracing/src/main.cpp:49-57 | scaling by `1.0/spp` then gamma-correcting is the gamma byte of c/spp |
| CppMain.ChannelByteFormula | CppPathTracing/src/main.cpp:49-57 | the byte is `256 * clamp(sqrt(c/spp), 0, 0.999)` truncated |
| CppMain.WriteColor | CppPathTracing/src/main.cpp:43-58 | the three bytes at `index` hold the pixel's channels and no other byte changes |
| CppMain.PixelIndexBounds | CppPathTracing/src/main.cpp:138 | each pixel's triple lies inside its row, and each row inside the buffer |
| CppMain.PixelIndexDisjoint | CppPathTracing/src/main.cpp:138 | distinct pixels get disjoint triples |
| CppMain.MainCamera | CppPathTracing/src/main.cpp:88-98 | the camera of `main` sits at the origin with a level viewport one unit down the z axis |
| CppMain.LevelRays | CppPathTracing/src/main.cpp:133 | every primary ray of that camera has z = -1, so it is never zero |
| CppMain.SampleColorNonNegative | CppPathTracing/src/main.cpp:129-135 | every sample of a scene with non-negative albedos is non-negative |
| CppMain.SampleSumNonNegative | CppPathTracing/src/main.cpp:126-135 | the accumulated `pixel_color` is non-negative |
| CppMain.SamplePixel | CppPathTracing/src/main.cpp:126-135 | the `+=` loop computes the sum of the samples, which is non-negative |
| CppMain.PixelDoneFrame | CppPathTracing/src/main.cpp:138-139 | a finished pixel stays finished while its three bytes do |
| CppMain.EarlierRow | CppPathTracing/src/main.cpp:120-138 | pixels of scanlines rendered earlier lie before the current row in the buffer |
| CppMain.WritePixel | CppPathTracing/src/main.cpp:125-139 | pixel (i, j) is finished and no byte outside its triple changes |
| CppMain.RowPrefixDone | CppPathTracing/src/main.cpp:125-139 | writing pixel i keeps pixels 0..i-1 of the row finished |
| CppMain.RenderRow | CppPathTracing/src/main.cpp:125-140 | every pixel of the scanline is finished and the other rows keep their bytes |
| CppMain.Render | CppPathTracing/src/main.cpp:117-141 | a fresh buffer of width*height*3 bytes in which every pixel holds its averaged, gamma-corrected samples |
| TmpMeshUtilities.Take | com.unity.textmeshpro@3.0.6/Scripts/Runtime/TMPro_MeshUtilities.cs:529-551 | only bucket n shrinks, and only from its end; a found array is the last non-null entry, with the nulls above it dropped; none found means the bucket had only nulls and is now empty |
| TmpMeshUtilities.TakeValid | com.unity.textmeshpro@3.0.6/Scripts/Runtime/TMPro_MeshUtilities.cs:529-551 | taking keeps the pool valid and hands out an array of the asked length from the pool |
| TmpMeshUtilities.Recycled | com.unity.textmeshpro@3.0.6/Scripts/Runtime/TMPro_MeshUtilities.cs:554-582 | the array's bucket is created if missing and gets the array appended below 512 entries; a full bucket is left unchanged; other buckets are untouched; validity is kept |
| TmpMeshUtilities.RecycleThenTake | com.unity.textmeshpro@3.0.6/Scripts/Runtime/TMPro_MeshUtilities.cs:529-582 | recycling into a bucket with room and then allocating that length returns the same array and restores the bucket |
| TmpMeshUtilities.ListArrayPool.constructor | com.unity.textmeshpro@3.0.6/Scripts/Runtime/TMPro_MeshUtilities.cs:525 | the pool starts empty |
| TmpMeshUtilities.ListArrayPool.AlocArray | com.unity.textmeshpro@3.0.6/Scripts/Runtime/TMPro_MeshUtilities.cs:529-551 | returns the pooled array `Take` finds or a fresh one, of length n, and leaves the pool as `Take` says |
| TmpMeshUtilities.ListArrayPool.RecycleArray | com.unity.textmeshpro@3.0.6/Scripts/Runtime/TMPro_MeshUtilities.cs:554-582 | null is ignored; otherwise the pool becomes `Recycled` |
| TmpMeshUtilities.ListArrayPool.Resize | com.unity.textmeshpro@3.0.6/Scripts/Runtime/TMPro_MeshUtilities.cs:584-595 | a long enough array is kept; otherwise the new array starts with the old contents and the old array is recycled; pooled arrays not handed out keep their contents, and a reused array keeps its tail beyond the copy |
| TmpMeshUtilities.CopyPrefix | com.unity.textmeshpro@3.0.6/Scripts/Runtime/TMPro_MeshUtilities.cs:592 | `Array.Copy` copies the source into the front of the destination and leaves the rest alone |
| TmpMeshUtilities.RecycledItems | com.unity.textmeshpro@3.0.6/Scripts/Runtime/TMPro_MeshUtilities.cs:498-517 | null or a full stack leaves it unchanged; otherwise the item is pushed; the stack never exceeds 128 |
| TmpMeshUtilities.AlocatedItem | com.unity.textmeshpro@3.0.6/Scripts/Runtime/TMPro_MeshUtilities.cs:487-495 | an empty stack hands out a new item; otherwise the top is popped |
| TmpMeshUtilities.RecycleThenAlocItem | com.unity.textmeshpro@3.0.6/Scripts/Runtime/TMPro_MeshUtilities.cs:487-517 | an item recycled into a stack with room is the next one allocated, and the stack is restored |
| TmpMeshUtilities.ItemPool.constructor | com.unity.textmeshpro@3.0.6/Scripts/Runtime/TMPro_MeshUtilities.cs:483 | the stack starts empty |
| TmpMeshUtilities.ItemPool.AlocItem | com.unity.textmeshpro@3.0.6/Scripts/Runtime/TMPro_MeshUtilities.cs:487-495 | the result and the new stack are those of `AlocatedItem` |
| TmpMeshUtilities.ItemPool.RecycleItem | com.unity.textmeshpro@3.0.6/Scripts/Runtime/TMPro_MeshUtilities.cs:498-517 | the new stack is `RecycledItems` of the old |
| TmpMeshUtilities.LinkInfo.constructor | com.unity.textmeshpro@3.0.6/Scripts/Runtime/TMPro_MeshUtilities.cs:127-138 | a default link info has every field zero or null |
| TmpMeshUtilities.LinkInfo.Reset | com.unity.textmeshpro@3.0.6/Scripts/Runtime/TMPro_MeshUtilities.cs:140-150 | every field goes back to zero or null |
| TmpMeshUtilities.LinkInfo.GetLinkID | com.unity.textmeshpro@3.0.6/Scripts/Runtime/TMPro_MeshUtilities.cs:183-191 | empty without a text component; otherwise the first `linkIdLength` characters of the buffer |
| TmpMeshUtilities.LinkInfo.SetLinkID | com.unity.textmeshpro@3.0.6/Scripts/Runtime/TMPro_MeshUtilities.cs:153-159 | a new buffer of exactly `length` only when there is none or it is too short; its first `length` characters are the text's from `startIndex`; no other field changes; a replaced buffer is left as it was; `GetLinkID` then returns that text when the lengths match |
| TmpLineInfo.LineInfo.Reset | com.unity.textmeshpro@3.0.6/Scripts/Runtime/TMP_LineInfo.cs:34-58 | counts, indices and metrics are zero, the alignment is Center, the extents are `Extents.zero`, and `controlCharacterCount` is untouched |
| TmpLineInfo.LineInfo.ResetCounts | com.unity.textmeshpro@3.0.6/Scripts/Runtime/TMP_LineInfo.cs:36-43 | the eight counts and indices are zero |
| TmpLineInfo.LineInfo.ResetMetrics | com.unity.textmeshpro@3.0.6/Scripts/Runtime/TMP_LineInfo.cs:45-54 | the nine metrics are zero |
| AdbMeminfo.RStripShape | AdbMem/adb_meminfo_monitor.py:158 | `rstrip` keeps the longest prefix not ending in whitespace and removes only whitespace |
| AdbMeminfo.LStripShape | AdbMem/adb_meminfo_monitor.py:257-258 | `lstrip` keeps a suffix and removes only whitespace |
| AdbMeminfo.StripShape | AdbMem/adb_meminfo_monitor.py:154 | `strip` gives nothing iff the text is blank, and otherwise neither end is whitespace |
| AdbMeminfo.RStripBlank | AdbMem/adb_meminfo_monitor.py:158-164 | stripping trailing whitespace keeps a line blank or non-blank |
| AdbMeminfo.WordsBlank | AdbMem/adb_meminfo_monitor.py:116 | `split()` gives no words iff the text is blank |
| AdbMeminfo.WordsAreTokens | AdbMem/adb_meminfo_monitor.py:116 | every word of `split()` is non-empty and has no whitespace |
| AdbMeminfo.WordsKeepText | AdbMem/adb_meminfo_monitor.py:116 | the words of `split()` glued together are the text with its whitespace removed, in order |
| AdbMeminfo.SplitOn | AdbMem/adb_meminfo_monitor.py:154 | `split('\n')` gives at least one piece and no piece contains the separator (with `AdbMeminfo.SplitJoin`, the pieces are exactly the separator-delimited lines) |
| AdbMeminfo.SplitJoin | AdbMem/adb_meminfo_monitor.py:154 | joining the pieces of a split with the separator gives back the text |
| AdbMeminfo.SplitOnce | AdbMem/adb_meminfo_monitor.py:255 | `split(':', 1)` cuts at the first colon; without one it returns the text |
| AdbMeminfo.SearchNotBlank | AdbMem/adb_meminfo_monitor.py:173 | a line where a keyword is found is not blank |
| AdbMeminfo.FindTargetProcess | AdbMem/adb_meminfo_monitor.py:96-123 | none when the command fails; otherwise none iff no line contains the keyword with a last column, and a found name is the last column of the first such line |
| AdbMeminfo.MergeShape | AdbMem/adb_meminfo_monitor.py:185-199 | one header per first-line token, in order and starting with that token, followed by the leftover second-line tokens |
| AdbMeminfo.MergeHeaders | AdbMem/adb_meminfo_monitor.py:185-199 | the `j1`/`j2` loop computes `Merge` |
| AdbMeminfo.HeaderRow | AdbMem/adb_meminfo_monitor.py:202 | the header row starts with a newline, a bar and a space |
| AdbMeminfo.SeparatorCells | AdbMem/adb_meminfo_monitor.py:203 | the separator row under n headers is a bar followed by exactly n cells, each a space, three dashes, a space and a bar |
| AdbMeminfo.FirstNumberShape | AdbMem/adb_meminfo_monitor.py:224-228 | -1 iff no token is a number; otherwise the index of the first number |
| AdbMeminfo.FirstNumberIndex | AdbMem/adb_meminfo_monitor.py:224-228 | the `enumerate` loop finds `FirstNumber` |
| AdbMeminfo.CountNumbersNone | AdbMem/adb_meminfo_monitor.py:177 | no number is counted iff there is no first number |
| AdbMeminfo.DataRow | AdbMem/adb_meminfo_monitor.py:230-237 | the row of a data line is never empty |
| AdbMeminfo.DataRowsShape | AdbMem/adb_meminfo_monitor.py:209-243 | every line read is a data line and gives its row in order; reading stops at the first line that is not a data line |
| AdbMeminfo.TakeRowsStop | AdbMem/adb_meminfo_monitor.py:209-243 | reading stops at the first line that ends the table, without consuming it |
| AdbMeminfo.TakeRowsRead | AdbMem/adb_meminfo_monitor.py:209-243 | every line read gave a row, and the rows are in line order |
| AdbMeminfo.ParseDataLine | AdbMem/adb_meminfo_monitor.py:210-243 | one pass of the data loop gives the row, or none where the loop breaks |
| AdbMeminfo.ReadDataRows | AdbMem/adb_meminfo_monitor.py:209-243 | the inner `while` reads exactly `DataRows` and stops where it says |
| AdbMeminfo.LineOutputShape | AdbMem/adb_meminfo_monitor.py:248-267 | a heading becomes `\n### line`; a non-indented line with a colon becomes `**key**: value`; any other line stays as it is |
| AdbMeminfo.LineOutputNonEmpty | AdbMem/adb_meminfo_monitor.py:248-267 | a non-empty line never gives empty Markdown |
| AdbMeminfo.Markdown | AdbMem/adb_meminfo_monitor.py:150-151 | a missing or empty report gives the error message |
| AdbMeminfo.ClassifyShape | AdbMem/adb_meminfo_monitor.py:158-206 | a line is treated as blank iff it is blank; a text line never gives empty text; a table header is followed by a non-blank line |
| AdbMeminfo.EveryLineOnce | AdbMem/adb_meminfo_monitor.py:153-267 | every line of the report gives exactly one output entry, empty iff the line is blank |
| AdbMeminfo.FormatLine | AdbMem/adb_meminfo_monitor.py:157-267 | one pass of the outer loop advances i and appends exactly the entries `Markdown` assigns to those lines |
| AdbMeminfo.FormatMeminfoToMarkdown | AdbMem/adb_meminfo_monitor.py:140-269 | the function returns exactly `Markdown` |
| DlssCheckpoint.SplitJoin | DLSS/inference.py:96-102 | splitting at a pattern and joining with it gives the text back |
| DlssCheckpoint.SplitPiecesFree | DLSS/inference.py:96-102 | no piece of a split contains the pattern |
| DlssCheckpoint.ReplaceIsSplitJoin | DLSS/inference.py:96-102 | `str.replace` is splitting at the pattern and joining with the replacement |
| DlssCheckpoint.ReplaceAbsent | DLSS/inference.py:96-102 | a text without the pattern is left unchanged by `str.replace` |
| DlssCheckpoint.ReplaceAtFront | DLSS/inference.py:101-102 | replacing in a text that starts with the pattern puts the replacement in front |
| DlssCheckpoint.StripGeneratorShape | DLSS/inference.py:94-96 | a key starting with `generator.` loses every occurrence, and only those; other keys are kept |
| DlssCheckpoint.RenameBodyShape | DLSS/inference.py:98-102 | with `.body.` present every one becomes `.rrdb_blocks.`; otherwise a leading `body.` makes the key start with `generator.rrdb_blocks.` (every `body.` replaced); other keys are kept |
| DlssCheckpoint.AddPrefixesShape | DLSS/inference.py:104-118 | `generator.` is added at most once: exactly when a marker occurs and the key does not already start with it |
| DlssCheckpoint.ConvertKeyShape | DLSS/inference.py:92-118 | the converted key is the renamed key, with `generator.` in front at most once: exactly when it names a marked layer |
| DlssCheckpoint.RewriteKey | DLSS/inference.py:92-118 | the step-by-step rewrite gives `ConvertKey` |
| DlssCheckpoint.AddMarkedPrefixes | DLSS/inference.py:104-118 | the five marker checks give `AddPrefixes` |
| DlssCheckpoint.Lookup | DLSS/inference.py:79-85 | a key is absent iff no item has it |
| DlssCheckpoint.AssignShape | DLSS/inference.py:120 | `d[k] = v` keeps keys distinct, maps k to v and keeps every other key |
| DlssCheckpoint.AssignAllLastWins | DLSS/inference.py:90-120 | after all assignments each key maps to the value of its last pair, and absent keys stay absent |
| DlssCheckpoint.SelectStateDictShape | DLSS/inference.py:77-87 | the state dict is the value under the first of `model_state_dict`, `params_ema`, `params` present, else the whole checkpoint |
| DlssCheckpoint.ConvertStateDict | DLSS/inference.py:90-122 | the loop builds `ConvertAll` |
| DlssCheckpoint.ConvertAllLastWins | DLSS/inference.py:90-122 | converted keys are distinct, each holds the value of the last item converting to it, and keys nothing converts to are absent |
| DlssCheckpoint.ConvertKeepsLast | DLSS/inference.py:90-122 | an item's value survives when no later item converts to the same key |
| DlssCheckpoint.LoadedStateDict | DLSS/inference.py:77-122 | there is a converted dict iff the selected value is a dict, and then it is `ConvertAll` of its items |
| DlssPaths.LastIndexOf | DLSS/inference.py:189 | the last occurrence of the character, or -1 |
| DlssPaths.Basename | DLSS/inference.py:189 | the basename has no `/` and is a suffix of the path |
| DlssPaths.JoinBasename | DLSS/inference.py:191 | the joined path starts with the directory, and its basename is the name |
| DlssPaths.SplitextShape | DLSS/inference.py:190 | root plus extension is the path; the extension is empty or one dot followed by neither dot nor `/` |
| DlssPaths.UpscaleOutputPath | DLSS/inference.py:184-193 | a given output path is used as it is |
| DlssPaths.OutputPathShape | DLSS/inference.py:184-191 | the automatic path lies in the output directory, and its file name is the input's name with `_sr` plus the input's extension |
| DlssPaths.SrSplitsExt | DLSS/inference.py:190-191 | a name with `_sr` still splits off the same extension |
| DlssPaths.SrSplitsNoExt | DLSS/inference.py:190-191 | a name without extension gets none after `_sr` |
| DlssPaths.BatchOutputPath | DLSS/inference.py:232-233 | the batch output lies in the output directory under the input's basename |
| DlssPaths.Lower | DLSS/inference.py:217 | `lower()` maps exactly the ASCII capitals to small letters |
| DlssPaths.FilterMapMembers | DLSS/inference.py:216-219 | an element is kept iff it comes from a kept input |
| DlssPaths.FilterMapOrder | DLSS/inference.py:216-219 | the kept elements keep the input order |
| DlssPaths.ImageFilesShape | DLSS/inference.py:213-219 | a path is collected iff it joins the directory with a listed image file; the count and listing order are kept |
| DlssPaths.CollectImages | DLSS/inference.py:213-219 | the loop collects exactly `ImageFiles` |

## Left out

- Floating point: doubles are reals, so rounding, overflow, infinities and NaN are not modelled. `float('inf')` and `infinity` become an explicit unbounded upper limit.
- Randomness: `random.random()`, `random_double()` and `std::rand()` are parameters. Each rejection loop (`random_in_unit_sphere`) runs over a finite sequence of draws, and runs that never accept are not modelled. Seeding with `std::time` is left out.
- Division by zero: the model forbids inputs for which the source divides by zero, through `requires`. These are:
  - a sphere of radius 0;
  - a zero ray direction;
  - `samples_per_pixel` 0;
  - an image width or height of 1;
  - a refractive index of 0 or -1.

  The source would crash on these (Python) or produce inf/NaN (C++).
- `TmpMeshUtilities.ListArrayPool.AlocArray`: requires a non-negative length. For a negative `nCount` the source throws from `new T[nCount]`; that exception path is not modelled.
- `TmpMeshUtilities.LinkInfo.GetLinkID`: requires a buffer holding at least `linkIdLength` characters when a text component is set. The exception `new string(linkID, 0, linkIdLength)` throws otherwise is not modelled.
- `TmpMeshUtilities.LinkInfo.SetLinkID`: requires a buffer when `length` is negative and `startIndex + length` within `text`. The exceptions from `new char[length]` and from reading outside `text` are not modelled.
- `Renderer.GammaByte`: requires a non-negative channel. For a negative channel `** 0.5` yields a complex number and the following `max`/`int` raise `TypeError`; that path is not modelled. For scenes whose albedos are non-negative, every colour `ray_color` produces is non-negative (`CppMain.RayColorBounded`; `Renderer.RayColorBounded` for albedos in [0,1]). A scene with a negative albedo can produce a negative channel, and its `save_image` path is not modelled.
- `Renderer.ToBytes`: requires every row to be at least as long as row 0. A shorter row would raise `IndexError`; the renderer always produces rows of equal length.
- `Objects.HittableList`, `Objects.ListHit`: the list holds spheres only. The Python list accepts any object with a `hit` method, nested lists included; such heterogeneous lists are not modelled.
- `hittable_list.h` is not part of this model. The C++ `ray_color` uses the nearest-hit list of `objects.py` as its world.
- The C++ `main`'s scene constants, image size, sample count and depth are parameters. Its camera is `CppMain.MainCamera`.
- The progress prints, the PPM/PNG writers, PIL's `Image.save`, and `PathTracing/main.py` with the demo scenes are I/O and not modelled.
- `Renderer.RayColor`: its contract states only the depth cut-off. The hit, absorb and scatter branches are its definition, and what they promise is proved in `Renderer.RayColorBounded` and `Renderer.MissShowsSky`.
- `CppMain.RayColor`: its contract states only the depth cut-off. The other branches are stated by `CppMain.RayColorBounded` and `CppMain.SkyAgrees`.
- `Camera.MakeCamera`: its contract states only the origin. The frame is stated by `Camera.MakeCameraFrame` and `Camera.CameraFrame`.
- `Camera.GetRay`: its contract states only the origin. The direction is stated by `Camera.RaysPointForward` and `Camera.CenterRay`.
- The static pools `ListArrayPool<T>` and `ItemPool<T>` are modelled as objects. The static fields become fields of one pool instance.
- The `UNITY_EDITOR` double-recycle checks only log an error, so they are left out.
- `TMP_LinkInfo.textComponent` is modelled as a flag saying whether it is set. `GetLinkText` reads `TMP_TextInfo`, which is not part of this model.
- `TMP_LinkInfo` is a C# struct and is modelled as a class, so the struct's copy-on-assign semantics are not captured.
- `HorizontalAlignmentOptions` is not part of this model. Its `Center` member is one value of a small enum.
- The AdbMem subprocess calls (`run_adb_command`, `ps -A`, `dumpsys`), configuration loading, the monitor loop, the file writes and the prints are I/O. A failed command is the `None` input.
- `isupper`, `isdigit`, `\w` and `lower()` are modelled on ASCII only. `isspace` (`AdbMeminfo.IsSpace`) is Python's full whitespace set, Unicode separators included.
- `torch.load` is left out, and so are `load_state_dict` with its strict/non-strict fallback, the missing-checkpoint branch, the model and the image conversions. A checkpoint is a dict of tensors or nested dicts.
- `os.makedirs`, `os.listdir`, `cv2` and the image reads and writes are I/O. A directory listing is a parameter.
- Paths follow POSIX `os.path` with `/` as the only separator. An absolute second argument to `os.path.join` replaces the first, as in `posixpath.join`; an empty first argument and repeated separators are not normalised.
