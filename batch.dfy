/**
 * The part of the geotag binary that drives `tag_file`: it gives up when
 * the coordinate source is not usable, and otherwise tags the images one
 * after the other, each call seeing the file system the previous one left.
 */
module Batch {
  import opened Paths
  import opened Fs
  import opened Xmp
  import opened Tagger
  import opened GeoTag

  /** Every image is a well-formed path. */
  predicate AllValid(images: seq<Path>) {
    forall i :: 0 <= i < |images| ==> Valid(images[i])
  }

  /** The results of tagging `images` in order, and the file system left at the end. */
  function TagAll(files: map<Path, Bytes>, tagger: Tagger, images: seq<Path>, overwrite: bool,
                  e: Engine, ios: seq<IoOutcomes>): (r: (seq<Result<bool>>, map<Path, Bytes>))
    requires |ios| == |images| && AllValid(images)
    ensures |r.0| == |images|
    decreases |images|
  {
    if images == [] then ([], files)
    else
      var n := |images| - 1;
      var before := TagAll(files, tagger, images[..n], overwrite, e, ios[..n]);
      var last := TagFileSpec(before.1, tagger, images[n], overwrite, e, ios[n]);
      (before.0 + [last.result], last.files)
  }

  /** The whole run: nothing at all when the source is not usable. */
  function Run(files: map<Path, Bytes>, tagger: Tagger, coordIsOk: bool, images: seq<Path>, overwrite: bool,
               e: Engine, ios: seq<IoOutcomes>): (seq<Result<bool>>, map<Path, Bytes>)
    requires |ios| == |images| && AllValid(images)
  {
    if !tagger.IsOk(coordIsOk) then ([], files) else TagAll(files, tagger, images, overwrite, e, ios)
  }

  /**
   * The `is_ok` guard and the loop over the images of the binary's `main`;
   * `ios[i]` is what the operating system does for the i-th image.
   */
  method TagFiles(fs: FileSystem, tagger: Tagger, coordIsOk: bool, images: seq<Path>, overwrite: bool,
                  e: Engine, ios: seq<IoOutcomes>) returns (results: seq<Result<bool>>)
    requires |ios| == |images| && AllValid(images)
    modifies fs
    ensures (results, fs.files) == Run(old(fs.files), tagger, coordIsOk, images, overwrite, e, ios)
  {
    results := [];
    if !tagger.IsOk(coordIsOk) {
      return;
    }
    var i := 0;
    while i < |images|
      invariant 0 <= i <= |images|
      invariant (results, fs.files) == TagAll(old(fs.files), tagger, images[..i], overwrite, e, ios[..i])
    {
      TagAllExtend(old(fs.files), tagger, images, overwrite, e, ios, i);
      var r := TagFile(fs, tagger, images[i], overwrite, e, ios[i]);
      results := results + [r];
      i := i + 1;
    }
    assert images[..i] == images && ios[..i] == ios;
  }

  /** Tagging one image more extends the run by that image's call. */
  lemma TagAllExtend(files: map<Path, Bytes>, tagger: Tagger, images: seq<Path>, overwrite: bool,
                     e: Engine, ios: seq<IoOutcomes>, i: nat)
    requires |ios| == |images| && AllValid(images) && i < |images|
    ensures var before := TagAll(files, tagger, images[..i], overwrite, e, ios[..i]);
      var last := TagFileSpec(before.1, tagger, images[i], overwrite, e, ios[i]);
      TagAll(files, tagger, images[..i + 1], overwrite, e, ios[..i + 1]) == (before.0 + [last.result], last.files)
  {
    assert images[..i + 1][..i] == images[..i] && ios[..i + 1][..i] == ios[..i];
  }

  /** The sidecars a list of images can touch. */
  function Sidecars(images: seq<Path>): set<Path> {
    set i | 0 <= i < |images| && Valid(images[i]) && SidecarPath(images[i]).Some? :: SidecarPath(images[i]).value
  }

  /** A tracklog source stops the run before any image is looked at. */
  lemma TracklogTagsNothing(path: string, coordIsOk: bool, files: map<Path, Bytes>, images: seq<Path>, overwrite: bool,
                            e: Engine, ios: seq<IoOutcomes>)
    requires |ios| == |images| && AllValid(images)
    ensures Run(files, ByTracklog(Tracklog.New(path)), coordIsOk, images, overwrite, e, ios) == ([], files)
  {
    TracklogNeverUsable(path, coordIsOk, Path(false, []));
  }

  /** A whole run changes no file but the sidecars of the images it was given. */
  lemma {:induction false} TagAllTouchesOnlySidecars(files: map<Path, Bytes>, tagger: Tagger, images: seq<Path>,
                                                     overwrite: bool, e: Engine, ios: seq<IoOutcomes>)
    requires |ios| == |images| && AllValid(images)
    ensures var after := TagAll(files, tagger, images, overwrite, e, ios).1;
      && after.Keys <= files.Keys + Sidecars(images)
      && forall q :: q in files && q !in Sidecars(images) ==> q in after && after[q] == files[q]
    decreases |images|
  {
    if images != [] {
      var n := |images| - 1;
      var before := TagAll(files, tagger, images[..n], overwrite, e, ios[..n]);
      TagAllTouchesOnlySidecars(files, tagger, images[..n], overwrite, e, ios[..n]);
      OnlySidecarChanges(before.1, tagger, images[n], overwrite, e, ios[n]);
      assert Sidecars(images[..n]) <= Sidecars(images) by {
        forall q | q in Sidecars(images[..n]) ensures q in Sidecars(images) {
          var i :| 0 <= i < n && Valid(images[..n][i]) && SidecarPath(images[..n][i]).Some? && SidecarPath(images[..n][i]).value == q;
          assert images[..n][i] == images[i];
        }
      }
      if FileName(images[n]).Some? {
        assert SidecarPath(images[n]).value in Sidecars(images);
      }
    }
  }

  /** With `--overwrite` no image of the run is reported as skipped. */
  lemma {:induction false} OverwriteRunSkipsNothing(files: map<Path, Bytes>, tagger: Tagger, images: seq<Path>,
                                                 e: Engine, ios: seq<IoOutcomes>)
    requires |ios| == |images| && AllValid(images)
    ensures forall i :: 0 <= i < |images| ==> TagAll(files, tagger, images, true, e, ios).0[i] != Ok(false)
    decreases |images|
  {
    if images != [] {
      var n := |images| - 1;
      var before := TagAll(files, tagger, images[..n], true, e, ios[..n]);
      OverwriteRunSkipsNothing(files, tagger, images[..n], e, ios[..n]);
      OverwriteNeverSkips(before.1, tagger, images[n], e, ios[n]);
      var r := TagAll(files, tagger, images, true, e, ios);
      assert r.0 == before.0 + [TagFileSpec(before.1, tagger, images[n], true, e, ios[n]).result];
      forall i | 0 <= i < |images| ensures r.0[i] != Ok(false) {
        if i < n {
          assert r.0[i] == before.0[i];
        }
      }
    }
  }
}
