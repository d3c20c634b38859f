/**
 * The part of Rust's `std::path` that `tag_file` relies on, on parsed paths.
 *
 * A path is kept as Rust's `Path::components` sees it: a root flag and a
 * list of components in which `.` only survives as a leading component of a
 * relative path, separators are gone, and every other name is a non-empty
 * `Normal` name without `/`. Operations that work on the byte string in Rust
 * (`push`, `set_extension`) are stated by their effect on that list.
 */
module Paths {
  import opened Wrappers

  datatype Component = CurDir | ParentDir | Normal(name: string)

  datatype Path = Path(absolute: bool, comps: seq<Component>)

  /** A name that `components()` reports as `Normal`. */
  predicate NormalName(n: string) {
    n != "" && n != "." && n != ".." && '/' !in n
  }

  /** The shape `Path::components` guarantees. */
  predicate Valid(p: Path) {
    forall i :: 0 <= i < |p.comps| ==>
      match p.comps[i]
      case Normal(n) => NormalName(n)
      case CurDir => i == 0 && !p.absolute
      case ParentDir => true
  }

  /** `Path::file_name`: the last component when it is a normal name. */
  function FileName(p: Path): (name: Option<string>)
    ensures name.Some? <==> |p.comps| > 0 && p.comps[|p.comps| - 1].Normal?
    ensures Valid(p) && name.Some? ==> NormalName(name.value)
  {
    if |p.comps| > 0 && p.comps[|p.comps| - 1].Normal? then Some(p.comps[|p.comps| - 1].name) else None
  }

  /** Index of the last `.` in `n`, or -1 when there is none. */
  function LastDot(n: string): (k: int)
    ensures -1 <= k < |n|
    ensures k >= 0 ==> n[k] == '.'
    ensures forall j :: k < j < |n| ==> n[j] != '.'
  {
    if n == [] then -1
    else if n[|n| - 1] == '.' then |n| - 1
    else LastDot(n[..|n| - 1])
  }

  /**
   * The stem of a file name, as `rsplit_file_at_dot(name).before.or(after)`:
   * `..` is its own stem, a name whose only dot is its first character is its
   * own stem, and otherwise the stem is what precedes the last dot.
   */
  function NameStem(n: string): (stem: string)
    ensures stem <= n
    ensures n != "" ==> stem != ""
    ensures stem != n ==> n[|stem|] == '.' && '.' !in n[|stem| + 1..]
  {
    if n == ".." then n
    else
      var k := LastDot(n);
      if k <= 0 then n else n[..k]
  }

  /** `Path::file_stem`. */
  function FileStem(p: Path): (stem: Option<string>)
    ensures stem.Some? <==> FileName(p).Some?
    ensures stem.Some? ==> stem.value <= FileName(p).value
    ensures Valid(p) && stem.Some? ==> stem.value != ""
  {
    match FileName(p)
    case None => None
    case Some(n) => Some(NameStem(n))
  }

  /** The path without its last component (`PathBuf::pop` after `file_name` was found). */
  function Pop(p: Path): (q: Path)
    requires |p.comps| > 0
    ensures Valid(p) ==> Valid(q)
  {
    Path(p.absolute, p.comps[..|p.comps| - 1])
  }

  /**
   * `PathBuf::push` of one name without a separator: a `.` is normalised away
   * except as the first component of a relative path, `..` becomes a
   * `ParentDir`, an empty name adds only a separator.
   */
  function Push(p: Path, n: string): (q: Path)
    requires '/' !in n
    ensures Valid(p) ==> Valid(q)
    ensures NormalName(n) ==> q == Path(p.absolute, p.comps + [Normal(n)])
  {
    if n == "" then p
    else if n == "." then (if |p.comps| == 0 && !p.absolute then Path(false, [CurDir]) else p)
    else if n == ".." then Path(p.absolute, p.comps + [ParentDir])
    else Path(p.absolute, p.comps + [Normal(n)])
  }

  /** `Path::with_file_name`, i.e. `set_file_name` on a copy. */
  function WithFileName(p: Path, n: string): (q: Path)
    requires '/' !in n
    ensures Valid(p) ==> Valid(q)
    ensures NormalName(n) ==> FileName(q) == Some(n)
    ensures NormalName(n) && FileName(p).Some? ==> Pop(q) == Pop(p)
    ensures NormalName(n) && FileName(p).None? ==> Pop(q) == p
  {
    if FileName(p).Some? then Push(Pop(p), n) else Push(p, n)
  }

  /**
   * `PathBuf::set_extension`: no effect without a file stem, otherwise the
   * file name becomes the stem followed by `.` and the extension.
   */
  function SetExtension(p: Path, ext: string): (q: Path)
    requires Valid(p) && '/' !in ext
    ensures FileStem(p).None? ==> q == p
    ensures FileStem(p).Some? && ext != "" ==>
      FileName(q) == Some(FileStem(p).value + "." + ext) && Pop(q) == Pop(p)
  {
    match FileStem(p)
    case None => p
    case Some(stem) =>
      NoSlashInPrefix(stem, FileName(p).value);
      WithFileName(p, if ext == "" then stem else stem + "." + ext)
  }

  /**
   * The sidecar of `image` as src/lib.rs:51-53 and src/main.rs:42-44 derive it:
   * `with_file_name(file_stem)` followed by `set_extension("xmp")`; `None`
   * when the image has no file stem.
   */
  function SidecarPath(image: Path): (sidecar: Option<Path>)
    requires Valid(image)
    ensures sidecar.None? <==> FileName(image).None?
  {
    match FileStem(image)
    case None => None
    case Some(stem) =>
      NoSlashInPrefix(stem, FileName(image).value);
      Some(SetExtension(WithFileName(image, stem), "xmp"))
  }

  /**
   * The sidecar the derivation is meant to find: beside the image, named as
   * `set_extension("xmp")` names it, for every file name.
   */
  function IntendedSidecarPath(image: Path): (sidecar: Option<Path>)
    ensures sidecar.None? <==> FileName(image).None?
  {
    match FileName(image)
    case None => None
    case Some(n) => Some(Path(image.absolute, image.comps[..|image.comps| - 1] + [Normal(NameStem(NameStem(n)) + ".xmp")]))
  }

  // ---------------------------------------------------------------------
  // Helpers about names

  lemma NoSlashInPrefix(a: string, b: string)
    requires a <= b && '/' !in b
    ensures '/' !in a
  {
    forall i | 0 <= i < |a| ensures a[i] != '/' {
      assert a[i] == b[i];
    }
  }

  /** Appending `.xmp` to a non-empty name without `/` gives a normal name. */
  lemma XmpNameIsNormal(s: string)
    requires s != "" && '/' !in s
    ensures NormalName(s + ".xmp")
  {
    var x := s + ".xmp";
    assert x[|x| - 4..] == ".xmp";
    forall i | 0 <= i < |x| ensures x[i] != '/' {
      if i < |s| { assert x[i] == s[i]; }
    }
  }

  /** The last dot of `base` + "." + `ext` is the one before `ext` when `ext` has none. */
  lemma {:induction false} LastDotBeforeExtension(base: string, ext: string)
    requires '.' !in ext
    ensures LastDot(base + "." + ext) == |base|
    decreases |ext|
  {
    var n := base + "." + ext;
    if ext == [] {
      assert n[|n| - 1] == '.';
    } else {
      assert n[|n| - 1] == ext[|ext| - 1];
      assert n[..|n| - 1] == base + "." + ext[..|ext| - 1];
      LastDotBeforeExtension(base, ext[..|ext| - 1]);
    }
  }

  /** A name without dots has no last dot. */
  lemma {:induction false} LastDotOfUndotted(n: string)
    requires '.' !in n
    ensures LastDot(n) == -1
    decreases |n|
  {
    if n != [] {
      assert n[|n| - 1] in n;
      LastDotOfUndotted(n[..|n| - 1]);
    }
  }

  /**
   * A stem loses exactly its last extension: `base.ext` has stem `base`
   * whenever `base` is non-empty and `ext` has no dot.
   */
  lemma StemOfExtended(base: string, ext: string)
    requires base != "" && '.' !in ext && base + "." + ext != ".."
    ensures NameStem(base + "." + ext) == base
  {
    LastDotBeforeExtension(base, ext);
    assert (base + "." + ext)[..|base|] == base;
  }

  /** A name without a dot, and a dot-file with no further dot, are their own stems. */
  lemma StemOfUndotted(n: string)
    requires n != "" && ('.' !in n || (n[0] == '.' && '.' !in n[1..]))
    ensures NameStem(n) == n
  {
    if '.' !in n {
      LastDotOfUndotted(n);
    } else {
      assert n == "" + "." + n[1..];
      LastDotBeforeExtension("", n[1..]);
    }
  }

  // ---------------------------------------------------------------------
  // Properties of the derivation

  /**
   * Whenever the stem is neither `.` nor `..`, the derivation of the source
   * puts the sidecar beside the image, named by the stem of the stem plus
   * `.xmp`; the corrected derivation is then the same path.
   */
  lemma SidecarPathAgrees(image: Path)
    requires Valid(image)
    requires FileStem(image).Some? && FileStem(image).value != "." && FileStem(image).value != ".."
    ensures SidecarPath(image) == IntendedSidecarPath(image)
  {
    var name := FileName(image).value;
    var stem := NameStem(name);
    NoSlashInPrefix(stem, name);
    var parent := Pop(image);
    var named := WithFileName(image, stem);
    assert named == Path(image.absolute, parent.comps + [Normal(stem)]);
    assert FileName(named) == Some(stem);
    var stem2 := NameStem(stem);
    NoSlashInPrefix(stem2, stem);
    XmpNameIsNormal(stem2);
    assert stem2 + "." + "xmp" == stem2 + ".xmp";
    assert SetExtension(named, "xmp") == WithFileName(named, stem2 + ".xmp");
    assert Pop(named) == parent;
  }

  /** The corrected sidecar always lies in the image's directory and is a valid `.xmp` name. */
  lemma IntendedSidecarBeside(image: Path)
    requires Valid(image) && FileName(image).Some?
    ensures var s := IntendedSidecarPath(image).value;
      Valid(s) && |s.comps| == |image.comps| && Pop(s) == Pop(image)
      && FileName(s).Some? && FileName(s).value[|FileName(s).value| - 4..] == ".xmp"
  {
    var n := FileName(image).value;
    var stem2 := NameStem(NameStem(n));
    NoSlashInPrefix(NameStem(n), n);
    NoSlashInPrefix(stem2, NameStem(n));
    XmpNameIsNormal(stem2);
    var x := stem2 + ".xmp";
    assert x[|x| - 4..] == ".xmp";
    var s := IntendedSidecarPath(image).value;
    assert Pop(s).comps == image.comps[..|image.comps| - 1];
    assert Valid(s) by {
      forall i | 0 <= i < |s.comps| ensures s.comps[i] == if i < |s.comps| - 1 then image.comps[i] else Normal(x) { }
    }
  }

  /** `<dir>/<a>.<ext>` has the sidecar `<dir>/<a>.xmp` when `a` and `ext` have no dot. */
  lemma SidecarOfExtendedName(dir: string, a: string, ext: string)
    requires NormalName(dir) && NormalName(a + "." + ext) && a != "" && '.' !in a && '.' !in ext
    ensures SidecarPath(Path(false, [Normal(dir), Normal(a + "." + ext)])) == Some(Path(false, [Normal(dir), Normal(a + ".xmp")]))
  {
    var image := Path(false, [Normal(dir), Normal(a + "." + ext)]);
    assert a[0] in a && (a + "." + ext)[0] == a[0];
    assert FileName(image) == Some(a + "." + ext);
    StemOfExtended(a, ext);
    StemOfUndotted(a);
    SidecarPathAgrees(image);
    assert image.comps[..1] + [Normal(a + ".xmp")] == [Normal(dir), Normal(a + ".xmp")];
  }

  /**
   * `<dir>/<a>.<b>.<ext>` has the sidecar `<dir>/<a>.xmp` when none of the
   * three parts has a dot: the stem `<a>.<b>` loses its own extension too.
   */
  lemma SidecarOfTwiceExtendedName(dir: string, a: string, b: string, ext: string)
    requires NormalName(dir) && NormalName(a + "." + b + "." + ext) && a != "" && '.' !in a && '.' !in b && '.' !in ext
    ensures SidecarPath(Path(false, [Normal(dir), Normal(a + "." + b + "." + ext)])) == Some(Path(false, [Normal(dir), Normal(a + ".xmp")]))
  {
    var ab := a + "." + b;
    var image := Path(false, [Normal(dir), Normal(ab + "." + ext)]);
    assert a[0] in a && ab[0] == a[0] && (ab + "." + ext)[0] == a[0];
    assert FileName(image) == Some(ab + "." + ext);
    StemOfExtended(ab, ext);
    StemOfExtended(a, b);
    assert FileStem(image) == Some(ab);
    SidecarPathAgrees(image);
    assert IntendedSidecarPath(image) == Some(Path(false, image.comps[..1] + [Normal(a + ".xmp")]));
    assert image.comps[..1] + [Normal(a + ".xmp")] == [Normal(dir), Normal(a + ".xmp")];
  }

  /** `dir/a.jpg` has sidecar `dir/a.xmp`. */
  lemma SidecarOfSimpleName()
    ensures SidecarPath(Path(false, [Normal("dir"), Normal("a.jpg")])) == Some(Path(false, [Normal("dir"), Normal("a.xmp")]))
  {
    assert "a.jpg" == "a" + "." + "jpg" && "a.xmp" == "a" + ".xmp";
    assert '/' !in "a.jpg" && '.' !in "jpg";
    SidecarOfExtendedName("dir", "a", "jpg");
  }

  /** `dir/a.b.jpg` has sidecar `dir/a.xmp`. */
  lemma SidecarOfMultiDotName()
    ensures SidecarPath(Path(false, [Normal("dir"), Normal("a.b.jpg")])) == Some(Path(false, [Normal("dir"), Normal("a.xmp")]))
  {
    assert "a.b.jpg" == "a" + "." + "b" + "." + "jpg" && "a.xmp" == "a" + ".xmp";
    assert '/' !in "a.b.jpg" && '.' !in "jpg";
    SidecarOfTwiceExtendedName("dir", "a", "b", "jpg");
  }

  /** A path ending in `..` has no file name, hence no sidecar. */
  lemma NoSidecarAfterParentDir(dirs: seq<Component>, absolute: bool)
    requires Valid(Path(absolute, dirs + [ParentDir]))
    ensures SidecarPath(Path(absolute, dirs + [ParentDir])).None?
  {
  }

  // ---------------------------------------------------------------------
  // The derivation as written leaves the directory for stems `.` and `..`

  /**
   * For an image `<dirs>/<d>/..<ext>` (stem `.`), the derivation as written
   * yields `<dirs>/<stem of d>.xmp`, a file outside the image's directory,
   * where the corrected derivation yields `<dirs>/<d>/..xmp`.
   */
  lemma DotStemEscapesDirectory(absolute: bool, dirs: seq<Component>, d: string, ext: string)
    requires Valid(Path(absolute, dirs + [Normal(d), Normal(".." + ext)]))
    requires '.' !in ext
    ensures SidecarPath(Path(absolute, dirs + [Normal(d), Normal(".." + ext)]))
         == Some(Path(absolute, dirs + [Normal(NameStem(d) + ".xmp")]))
    ensures IntendedSidecarPath(Path(absolute, dirs + [Normal(d), Normal(".." + ext)]))
         == Some(Path(absolute, dirs + [Normal(d), Normal("..xmp")]))
  {
    var image := Path(absolute, dirs + [Normal(d), Normal(".." + ext)]);
    assert image.comps[|image.comps| - 1] == Normal(".." + ext);
    assert NormalName(".." + ext);
    assert ext != "";
    assert ".." + ext == "." + "." + ext;
    StemOfExtended(".", ext);
    assert FileStem(image) == Some(".");
    assert NormalName(d) by { assert image.comps[|dirs|] == Normal(d); }
    var parent := Pop(image);
    assert parent.comps == dirs + [Normal(d)];
    var named := WithFileName(image, ".");
    assert named == parent;
    assert FileName(named) == Some(d);
    var dstem := NameStem(d);
    NoSlashInPrefix(dstem, d);
    XmpNameIsNormal(dstem);
    assert dstem + "." + "xmp" == dstem + ".xmp";
    assert SetExtension(named, "xmp") == WithFileName(named, dstem + ".xmp");
    assert Pop(named).comps == dirs;
    StemOfUndotted(".");
    assert NameStem(NameStem(".." + ext)) + ".xmp" == "..xmp";
    assert image.comps[..|image.comps| - 1] == dirs + [Normal(d)];
    assert FileName(image) == Some(".." + ext);
    assert IntendedSidecarPath(image)
        == Some(Path(absolute, image.comps[..|image.comps| - 1] + [Normal(NameStem(NameStem(".." + ext)) + ".xmp")]));
    assert (dirs + [Normal(d)]) + [Normal("..xmp")] == dirs + [Normal(d), Normal("..xmp")];
  }

  /**
   * `/<d>/..jpg` has, as written, the sidecar `/<d>.xmp` beside the
   * directory `d` rather than inside it (`/photos/..jpg` gives `/photos.xmp`).
   */
  lemma SidecarOfDotStem(d: string)
    requires NormalName(d) && '.' !in d
    ensures SidecarPath(Path(true, [Normal(d), Normal("..jpg")])) == Some(Path(true, [Normal(d + ".xmp")]))
  {
    assert ".." + "jpg" == "..jpg";
    assert [] + [Normal(d), Normal(".." + "jpg")] == [Normal(d), Normal("..jpg")];
    DotStemEscapesDirectory(true, [], d, "jpg");
    StemOfUndotted(d);
    assert [] + [Normal(d + ".xmp")] == [Normal(d + ".xmp")];
  }

  /** `/photos/...jpg` has, as written, the "sidecar" `/photos/..`, the parent directory. */
  lemma SidecarOfDotDotStem()
    ensures SidecarPath(Path(true, [Normal("photos"), Normal("...jpg")])) == Some(Path(true, [Normal("photos"), ParentDir]))
  {
    var image := Path(true, [Normal("photos"), Normal("...jpg")]);
    assert "...jpg" == ".." + "." + "jpg";
    StemOfExtended("..", "jpg");
    assert FileStem(image) == Some("..");
    assert WithFileName(image, "..") == Path(true, [Normal("photos"), ParentDir]);
  }
}
