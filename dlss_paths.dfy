/** The file naming of the super-resolution inferencer
    (`DLSS/inference.py`): the output path `upscale` chooses, and the
    images `upscale_batch` picks from a directory listing. Paths are POSIX
    paths, so `os.path` behaves as `posixpath`. */
module DlssPaths {
  import opened Wrappers

  /** The index of the last `c` in `s`, or -1 (`s.rfind(c)`). */
  function LastIndexOf(s: string, c: char): (r: int)
    ensures -1 <= r < |s|
    ensures r >= 0 ==> s[r] == c
    ensures forall q | r < q < |s| :: s[q] != c
    decreases |s|
  {
    if s == [] then -1
    else if s[|s| - 1] == c then |s| - 1
    else LastIndexOf(s[..|s| - 1], c)
  }

  /** An index with `c` there and none after it is the last index of `c`. */
  lemma LastIndexUnique(s: string, c: char, r: int)
    requires -1 <= r < |s| && (r >= 0 ==> s[r] == c)
    requires forall q | r < q < |s| :: s[q] != c
    ensures LastIndexOf(s, c) == r
  {
  }

  /** `os.path.basename`: what follows the last `/`. */
  function Basename(p: string): (name: string)
    ensures '/' !in name
    ensures |name| <= |p| && p[|p| - |name|..] == name
  {
    p[LastIndexOf(p, '/') + 1..]
  }

  /** `os.path.join(a, b)` for two parts. */
  function PathJoin(a: string, b: string): string {
    if b != [] && b[0] == '/' then b
    else if a == [] || a[|a| - 1] == '/' then a + b
    else a + "/" + b
  }

  /** Joining a directory and a name without `/` gives a path inside that
      directory whose basename is the name. */
  lemma JoinBasename(dir: string, name: string)
    requires '/' !in name
    ensures dir <= PathJoin(dir, name)
    ensures Basename(PathJoin(dir, name)) == name
  {
    var p := PathJoin(dir, name);
    if dir == [] {
      LastIndexUnique(p, '/', -1);
    } else if dir[|dir| - 1] == '/' {
      LastIndexUnique(p, '/', |dir| - 1);
    } else {
      LastIndexUnique(p, '/', |dir|);
    }
  }

  /** Some character of `p[lo..hi]` is not a dot. */
  predicate HasNonDot(p: string, lo: int, hi: int)
    requires 0 <= lo && hi <= |p|
  {
    exists q | lo <= q < hi :: p[q] != '.'
  }

  /** `os.path.splitext`: the extension runs from the last dot of the last
      component, unless only dots precede that dot in the component. */
  function Splitext(p: string): (string, string) {
    var sepIndex := LastIndexOf(p, '/');
    var dotIndex := LastIndexOf(p, '.');
    if dotIndex > sepIndex && HasNonDot(p, sepIndex + 1, dotIndex) then (p[..dotIndex], p[dotIndex..])
    else (p, "")
  }

  /** The root and the extension put back together give the path; an
      extension is empty or one dot followed by neither a dot nor a `/`. */
  lemma SplitextShape(p: string)
    ensures Splitext(p).0 + Splitext(p).1 == p
    ensures var ext := Splitext(p).1;
      ext == [] || (ext[0] == '.' && '.' !in ext[1..] && '/' !in ext)
  {
    var ext := Splitext(p).1;
    if ext != [] {
      var dotIndex := LastIndexOf(p, '.');
      assert forall q | 1 <= q < |ext| :: ext[q] == p[dotIndex + q];
    }
  }

  /** The path `upscale` writes to when none is given: the input's
      basename with `_sr` before its extension, inside `outputDir`. */
  function OutputPath(outputDir: string, imagePath: string): string {
    var nameExt := Splitext(Basename(imagePath));
    PathJoin(outputDir, nameExt.0 + "_sr" + nameExt.1)
  }

  /** The path `upscale` returns: the one given, or `OutputPath`. */
  function UpscaleOutputPath(outputDir: string, imagePath: string, outputPath: Option<string>): (r: string)
    ensures outputPath.Some? ==> r == outputPath.value
  {
    if outputPath.None? then OutputPath(outputDir, imagePath) else outputPath.value
  }

  /** The automatic output path lies in `outputDir`, and its file name
      splits into the input's name with `_sr` appended and the input's
      extension. */
  lemma OutputPathShape(outputDir: string, imagePath: string)
    ensures var nameExt := Splitext(Basename(imagePath));
      outputDir <= OutputPath(outputDir, imagePath) &&
      Basename(OutputPath(outputDir, imagePath)) == nameExt.0 + "_sr" + nameExt.1 &&
      Splitext(Basename(OutputPath(outputDir, imagePath))) == (nameExt.0 + "_sr", nameExt.1)
  {
    var file := Basename(imagePath);
    var nameExt := Splitext(file);
    var name := nameExt.0;
    var ext := nameExt.1;
    SplitextShape(file);
    var out := name + "_sr" + ext;
    assert '/' !in out by {
      assert forall q | 0 <= q < |name| :: name[q] == file[q];
      assert forall q | 0 <= q < |ext| :: ext[q] == file[|name| + q];
    }
    JoinBasename(outputDir, out);
    SrSplits(file, name, ext);
  }

  /** Appending `_sr` to the root of a file name without `/` keeps its
      extension apart. */
  lemma SrSplits(file: string, name: string, ext: string)
    requires '/' !in file && Splitext(file) == (name, ext)
    ensures Splitext(name + "_sr" + ext) == (name + "_sr", ext)
  {
    SplitextShape(file);
    assert forall q | 0 <= q < |name| :: name[q] == file[q];
    if ext != [] {
      SrSplitsExt(name, ext);
    } else {
      SrSplitsNoExt(file);
      assert name == file && name + "_sr" + ext == file + "_sr";
    }
  }

  /** With an extension, the last dot of `name_sr.ext` is the extension's
      and the `r` before it is not a dot. */
  lemma SrSplitsExt(name: string, ext: string)
    requires '/' !in name && ext != [] && ext[0] == '.' && '.' !in ext[1..] && '/' !in ext
    ensures Splitext(name + "_sr" + ext) == (name + "_sr", ext)
  {
    var out := name + "_sr" + ext;
    var d := |name| + 3;
    LastIndexUnique(out, '/', -1);
    assert forall q | d < q < |out| :: out[q] == ext[1..][q - d - 1];
    LastIndexUnique(out, '.', d);
    assert out[d - 1] == 'r';
    assert out[..d] == name + "_sr";
  }

  /** Without an extension, `file_sr` has none either: `_sr` adds no dot,
      and the dots before the last one stay all dots. */
  lemma SrSplitsNoExt(file: string)
    requires '/' !in file && Splitext(file).1 == []
    ensures Splitext(file + "_sr") == (file + "_sr", [])
  {
    var out := file + "_sr";
    LastIndexUnique(file, '/', -1);
    LastIndexUnique(out, '/', -1);
    var dot := LastIndexOf(file, '.');
    LastIndexUnique(out, '.', dot);
    assert dot >= 0 ==> !HasNonDot(file, 0, dot);
    assert forall q | 0 <= q < |file| :: out[q] == file[q];
  }

  /** The name `upscale_batch` gives a file's output: its basename inside
      `outputDir`. */
  function BatchOutputPath(outputDir: string, imagePath: string): (r: string)
    ensures outputDir <= r && Basename(r) == Basename(imagePath)
  {
    JoinBasename(outputDir, Basename(imagePath));
    PathJoin(outputDir, Basename(imagePath))
  }

  // ---------------------------------------------------------------------
  // The extension filter of upscale_batch

  const ValidExtensions: seq<string> := [".jpg", ".jpeg", ".png", ".bmp", ".tif", ".tiff"]

  /** `str.lower` on ASCII letters. */
  function Lower(s: string): (r: string)
    ensures |r| == |s|
    ensures forall q | 0 <= q < |s| :: 'A' <= s[q] <= 'Z' ==> r[q] == s[q] - 'A' + 'a'
    ensures forall q | 0 <= q < |s| :: !('A' <= s[q] <= 'Z') ==> r[q] == s[q]
  {
    seq(|s|, q requires 0 <= q < |s| => if 'A' <= s[q] <= 'Z' then s[q] - 'A' + 'a' else s[q])
  }

  /** A listed file counts as an image. */
  predicate IsImage(file: string) {
    Lower(Splitext(file).1) in ValidExtensions
  }

  /** `[f(x) for x in xs if keep(x)]`. */
  function FilterMap<A, B>(xs: seq<A>, keep: A -> bool, f: A -> B): (r: seq<B>)
    ensures |r| <= |xs|
    decreases |xs|
  {
    if xs == [] then []
    else
      var init := FilterMap(xs[..|xs| - 1], keep, f);
      if keep(xs[|xs| - 1]) then init + [f(xs[|xs| - 1])] else init
  }

  /** The number of kept elements. */
  function CountKept<A>(xs: seq<A>, keep: A -> bool): (r: nat)
    ensures r <= |xs|
    decreases |xs|
  {
    if xs == [] then 0
    else CountKept(xs[..|xs| - 1], keep) + if keep(xs[|xs| - 1]) then 1 else 0
  }

  /** A value is in the result exactly when it is the image of a kept
      element. */
  lemma {:induction false} FilterMapMembers<A, B>(xs: seq<A>, keep: A -> bool, f: A -> B, y: B)
    ensures y in FilterMap(xs, keep, f) <==> exists i | 0 <= i < |xs| :: keep(xs[i]) && y == f(xs[i])
    decreases |xs|
  {
    if xs != [] {
      var n := |xs| - 1;
      FilterMapMembers(xs[..n], keep, f, y);
      assert forall i | 0 <= i < n :: xs[..n][i] == xs[i];
    }
  }

  /** Every kept element appears, in order: the one with `k` kept
      elements before it is at position `k`. */
  lemma {:induction false} FilterMapOrder<A, B>(xs: seq<A>, keep: A -> bool, f: A -> B)
    ensures |FilterMap(xs, keep, f)| == CountKept(xs, keep)
    ensures forall i | 0 <= i < |xs| && keep(xs[i]) ::
      CountKept(xs[..i], keep) < |FilterMap(xs, keep, f)| &&
      FilterMap(xs, keep, f)[CountKept(xs[..i], keep)] == f(xs[i])
    decreases |xs|
  {
    if xs != [] {
      var n := |xs| - 1;
      FilterMapOrder(xs[..n], keep, f);
      forall i | 0 <= i < |xs| && keep(xs[i])
        ensures CountKept(xs[..i], keep) < |FilterMap(xs, keep, f)|
        ensures FilterMap(xs, keep, f)[CountKept(xs[..i], keep)] == f(xs[i])
      {
        if i < n {
          assert xs[..n][..i] == xs[..i];
          assert xs[..n][i] == xs[i];
        } else {
          assert xs[..i] == xs[..n];
        }
      }
    }
  }

  /** The image paths `upscale_batch` collects from a listing, in order. */
  function ImageFiles(inputDir: string, files: seq<string>): seq<string> {
    FilterMap(files, IsImage, file => PathJoin(inputDir, file))
  }

  /** A path is collected exactly when it joins the directory with a
      listed image, and the listed images are collected in listing order. */
  lemma ImageFilesShape(inputDir: string, files: seq<string>, path: string)
    ensures path in ImageFiles(inputDir, files) <==>
      exists i | 0 <= i < |files| :: IsImage(files[i]) && path == PathJoin(inputDir, files[i])
    ensures |ImageFiles(inputDir, files)| == CountKept(files, IsImage)
    ensures forall i | 0 <= i < |files| && IsImage(files[i]) ::
      CountKept(files[..i], IsImage) < |ImageFiles(inputDir, files)| &&
      ImageFiles(inputDir, files)[CountKept(files[..i], IsImage)] == PathJoin(inputDir, files[i])
  {
    FilterMapMembers(files, IsImage, file => PathJoin(inputDir, file), path);
    FilterMapOrder(files, IsImage, file => PathJoin(inputDir, file));
  }

  /** The loop of `upscale_batch` that collects the image paths. */
  method CollectImages(inputDir: string, files: seq<string>) returns (imageFiles: seq<string>)
    ensures imageFiles == ImageFiles(inputDir, files)
  {
    imageFiles := [];
    var n := 0;
    while n < |files|
      invariant 0 <= n <= |files|
      invariant imageFiles == ImageFiles(inputDir, files[..n])
    {
      var ext := Lower(Splitext(files[n]).1);
      assert files[..n + 1][..n] == files[..n];
      assert IsImage(files[n]) == (ext in ValidExtensions);
      if ext in ValidExtensions {
        imageFiles := imageFiles + [PathJoin(inputDir, files[n])];
      }
      n := n + 1;
    }
    assert files[..n] == files;
  }
}
