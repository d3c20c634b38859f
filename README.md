# geotag: the sidecar geotagging engine in Dafny

geotag writes GPS coordinates into the XMP sidecar of an image. It
derives the sidecar path by replacing the image's file name with its
stem and then setting that path's extension to `xmp`. So `dir/a.jpg`
gets `dir/a.xmp`, and `dir/a.b.jpg` gets `dir/a.xmp` too, named after the
stem of the stem. For the stems `.` and `..` the derived path leaves the
image's directory (see Findings). It then loads
that document, or starts an empty one when there is no sidecar. If the
document already has a latitude or longitude, it skips it, unless told to
overwrite. Otherwise it sets the GPS properties, serialises the document
and rewrites the file. The coordinates come from a coordinate source:
either a literal `x,y` argument or a GPX tracklog source, which is still a
stub.

The model has one module per concern:

- `Paths` (paths.dfy): the part of Rust's `std::path` that the derivation
  uses, at the level of path components. It covers `file_name`,
  `file_stem`, `push`, `with_file_name` and `set_extension`. It also holds
  the sidecar derivation as written and the corrected one (see Findings).
  A `Path` is kept in the form `components()` yields (`Paths.Valid`), and
  the operations that take an image path require that form.
- `Fs` (fs.dfy): the file system, as a class whose `files` map is updated
  in place. `File::open` + `read_to_end`, `File::create` and `write` are
  methods that take the operating system's answer as a parameter.
- `Xmp` (xmp.dfy): an XMP document as a map from (namespace, name) to
  value. The toolkit's parser, property setter and serialiser are
  function values in an `Engine`; any of them may fail.
- `Coord`, `Tracklog`, `Tagger` (coord.dfy, tracklog.dfy, tagger.dfy): the
  two coordinate sources, and the `Tagger` abstraction over them.
- `GeoTag` (geotag.dfy): `tag_file` of src/lib.rs and its error type. The
  method `TagFile` is proved equal to the specification function
  `TagFileSpec`, and the lemmas about `TagFileSpec` carry the properties.
  Like the code, it uses the derivation as written (`Paths.SidecarPath`).
- `Legacy` (legacy.dfy): the older `tag_file` of src/main.rs, built from
  the same pieces, with lemmas that compare the two policies.
- `Batch` (batch.dfy): the `is_ok` guard and the loop over the images in
  src/bin/geotag.rs.

Inputs the program does not control are parameters:

- `IoOutcomes` says whether the operating system lets each call succeed.
- `Engine` says what the XMP toolkit does.

An error keeps only the name of the call that failed (`IoCall`,
`XmpCall`). It does not keep the payload of `std::io::Error` or
`exempi::Error`.

## Model

| member | source | states |
|---|---|---|
| Paths.FileName | src/lib.rs:51 | the file name exists exactly when the last component is a normal name, and it is then a valid normal name |
| Paths.FileStem | src/lib.rs:51 | `file_stem` exists exactly when the file name does; it is then a prefix of the file name, and not empty for a well-formed path |
| Paths.LastDot | src/lib.rs:51 | the index of the last `.` of a name, or -1: the character there is a dot and none follows |
| Paths.NameStem | src/lib.rs:51 | `file_stem` of a name: a non-empty prefix of a non-empty name; when shorter than the name it ends right before the last dot |
| Paths.Pop | src/lib.rs:52 | removing the last component keeps a path well formed |
| Paths.Push | src/lib.rs:52 | pushing a name keeps a path well formed, and pushing a normal name appends exactly that component |
| Paths.WithFileName | src/lib.rs:52 | `with_file_name` keeps a path well formed; with a normal name, that name becomes the file name, in the image's directory when there was a file name and appended otherwise |
| Paths.SetExtension | src/lib.rs:53 | `set_extension` leaves a path without a file stem unchanged; otherwise, for a non-empty extension, it keeps the parent and makes the file name the stem, a dot and the extension |
| Paths.SidecarPath | src/lib.rs:51-53 | the derivation as written gives a sidecar exactly when the image has a file name |
| Paths.IntendedSidecarPath | src/lib.rs:51-53 | the corrected derivation gives a sidecar exactly when the image has a file name |
| Paths.LastDotBeforeExtension | src/lib.rs:53 | in `base.ext` with a dot-free `ext`, the last dot is the one before `ext` |
| Paths.LastDotOfUndotted | src/lib.rs:51 | a name without a dot has no last dot |
| Paths.StemOfExtended | src/lib.rs:51-53 | the stem of `base.ext` is `base` when `ext` has no dot and `base` is not empty |
| Paths.StemOfUndotted | src/lib.rs:51 | a name without a dot, and a dot-file with no other dot, are their own stems |
| Paths.SidecarPathAgrees | src/lib.rs:51-53 | when the stem is neither `.` nor `..`, the derivation as written and the corrected one give the same path |
| Paths.IntendedSidecarBeside | src/lib.rs:51-53 | the corrected sidecar is well formed, sits in the image's directory, and its name ends in `.xmp` |
| Paths.SidecarOfExtendedName | src/lib.rs:51-53 | `<dir>/<a>.<ext>` has the sidecar `<dir>/<a>.xmp` whenever `a` and `ext` have no dot |
| Paths.SidecarOfTwiceExtendedName | src/lib.rs:51-53 | `<dir>/<a>.<b>.<ext>` has the sidecar `<dir>/<a>.xmp`: the stem `<a>.<b>` loses its own extension too |
| Paths.SidecarOfSimpleName | src/lib.rs:52-53 | `dir/a.jpg` has the sidecar `dir/a.xmp` |
| Paths.SidecarOfMultiDotName | src/lib.rs:52-53 | `dir/a.b.jpg` has the sidecar `dir/a.xmp` |
| Paths.NoSidecarAfterParentDir | src/lib.rs:51 | a path ending in `..` has no stem and so no sidecar |
| Paths.DotStemEscapesDirectory | src/lib.rs:51-53 | as written, `<dirs>/<d>/..<ext>` gets the sidecar `<dirs>/<stem of d>.xmp`, outside its own directory; corrected, it gets `<dirs>/<d>/..xmp` |
| Paths.SidecarOfDotStem | src/lib.rs:51-53 | as written, for a dot-free `d`, `/<d>/..jpg` gets the sidecar `/<d>.xmp` |
| Paths.SidecarOfDotDotStem | src/lib.rs:51-53 | as written, `/photos/...jpg` gets the "sidecar" `/photos/..` |
| Fs.Prefix | src/lib.rs:58 | the bytes read before a failure are a prefix of the content, of the requested length or all of it |
| Fs.Accepted | src/lib.rs:106-109 | what a write accepts is a prefix of the buffer: all of it on a full write, `count` bytes on a short one |
| Fs.FileSystem.Exists | src/lib.rs:55 | `exists` is whether the path is a key of the file map |
| Fs.FileSystem.ReadToEnd | src/lib.rs:56-58 | open failure, read failure with the bytes read so far, or the whole content, depending on the operating system's answer |
| Fs.FileSystem.Create | src/lib.rs:105 | a successful create leaves the file present and empty; a failed one changes nothing |
| Fs.FileSystem.Write | src/lib.rs:106-109 | a successful write appends the accepted bytes and reports their count; a failed one changes nothing |
| Xmp.HasProperty | src/lib.rs:65-66 | `has_property`, and the `get_property(..).is_ok()` test of src/main.rs:57-72, is whether the name is a key of the document |
| Xmp.SetProperty | src/lib.rs:73-78 | a refused value leaves no document; an accepted one sets that property and keeps every other |
| Xmp.SetAll | src/lib.rs:73-96 | a run of `set_property(..)?` calls either stops at a refused property named in the run, or gives the document with all of them assigned |
| Xmp.AssignPrefixStep | src/lib.rs:73-96 | after the first assignment, the document a prefix of the run leaves is the one the matching prefix of the rest leaves |
| Xmp.AcceptsFirstStep | src/lib.rs:73-96 | accepting the first `k` calls is accepting the first call and then the first `k - 1` of the rest |
| Xmp.SetAllFirstRefusal | src/lib.rs:73-96 | the run succeeds exactly when the engine accepts every call on the document the earlier calls left; a refused run names the first refused property, every earlier call having been accepted |
| Xmp.AssignEffect | src/lib.rs:73-96 | distinct assignments add exactly their names, give them their values and keep every other property |
| Coord.IndexOf | src/coord.rs:16 | the first occurrence of a character: it is there, and there is none before it |
| Coord.Split | src/coord.rs:16 | `split(',')` gives one more piece than there are commas, no piece holds a comma, and joining the pieces gives back the input |
| Coord.New | src/coord.rs:13-21 | exactly one comma: the two stored tokens joined by a comma are the argument, and neither holds a comma; otherwise both tokens are empty |
| Coord.CommaSplitUnique | src/coord.rs:16-18 | two comma-free halves around a comma are determined by the joined string |
| Coord.NewAcceptsPair | src/coord.rs:16-18 | any comma-free pair, empty tokens included, is accepted unparsed as `(a, b)` |
| Coord.NewRejectsCommaFree | src/coord.rs:17-20 | an argument without a comma gives two empty tokens |
| Coord.CoordsFromArgument | src/coord.rs:13-28 | for every argument and file, the pair is the text before and after the only comma, or `("", "")` |
| Coord.TestParsing | src/coord.rs:34-38 | `"12.34,-45.54"` yields `("12.34", "-45.54")` |
| Coord.TestParsingInvalid | src/coord.rs:40-44 | `"12.34/-45.54"` yields `("", "")` |
| Coord.CoordTagger.GetCoordForFile | src/coord.rs:26-28 | the pair handed out is the stored first and second token, in that order |
| Tracklog.New | src/tracklog.rs:14-16 | the tracklog path is neither read nor kept (`Tagger.TracklogNeverUsable` states what any such source does) |
| Tracklog.TracklogTagger.GetCoordForFile | src/tracklog.rs:20-22 | the tracklog source supplies two empty strings |
| Tracklog.TracklogTagger.IsOk | src/tracklog.rs:24-26 | the tracklog source is never usable |
| Tagger.Tagger.GetCoordForFile | src/tagger.rs:5 | dispatch: a coordinate source gives its stored pair, a tracklog source two empty strings |
| Tagger.Tagger.IsOk | src/tagger.rs:7 | dispatch: usable exactly when it is a coordinate source and `coordIsOk` holds |
| Tagger.CoordsIgnoreFile | src/tagger.rs:5 | neither source's pair depends on the file asked about |
| Tagger.TracklogNeverUsable | src/tracklog.rs:14-26 | a tracklog source built from any path is never usable and supplies `("", "")` |
| GeoTag.TagFile | src/lib.rs:48-112 | the result and the new file system are exactly those of `TagFileSpec` on the old file system, with the sidecar derived as the code derives it |
| GeoTag.LoadSidecar | src/lib.rs:55-63 | the loaded document, or the first failing call, is `Load` of the current file system |
| GeoTag.SetGpsProperties | src/lib.rs:73-96 | the four `set_property` calls in source order behave as `SetAll` of the four GPS assignments |
| GeoTag.StoreSidecar | src/lib.rs:98-109 | the result and new file system are `Store`: a serialisation failure or a failed create leave the files as they were, a failed write leaves the sidecar empty, otherwise it holds the accepted bytes |
| GeoTag.StampEffect | src/lib.rs:71-96 | the stamped document adds exactly the four GPS properties (latitude `coords.0`, longitude `coords.1`, version `2.2.0.0`, altitude `0/10000`) and keeps every other property |
| GeoTag.NoStemNoEffect | src/lib.rs:51-111 | without a file name the result is `Ok(true)` and the file system is unchanged |
| GeoTag.LoadFailures | src/lib.rs:55-60 | an existing sidecar that cannot be opened, read or parsed gives `IoError(Open)`, `IoError(Read)` or `XmpError(FromBuffer)`, with the file system unchanged |
| GeoTag.SkipIff | src/lib.rs:64-70 | `Ok(false)` exactly when the document loaded, `overwrite` is off and latitude or longitude is present; the file system is then unchanged |
| GeoTag.OverwriteNeverSkips | src/lib.rs:64-70 | with `overwrite` the result is never `Ok(false)` |
| GeoTag.SuccessWritesStamped | src/lib.rs:98-111 | for an image with a stem, `Ok(true)` holds exactly when every step succeeded; the sidecar then holds the accepted part of the serialised stamped document, and nothing else changed |
| GeoTag.FailuresLeaveFiles | src/lib.rs:73-106 | every error except a failed write leaves the file system unchanged; a failed write leaves the sidecar created and empty |
| GeoTag.StoreFailures | src/lib.rs:98-106 | serialise and create failures change nothing; a write failure leaves the sidecar created and empty; and each failing call gives its own error (`XmpError(Serialize)`, `IoError(Create)`, `IoError(Write)`) |
| GeoTag.FailingCallErrors | src/lib.rs:73-106 | once the sidecar is loaded and not skipped, a refused `set_property` gives `XmpError(Set(p))` for that property, then a failed serialisation, create or write gives `XmpError(Serialize)`, `IoError(Create)` or `IoError(Write)`; only the write failure leaves anything behind, an empty sidecar |
| GeoTag.OnlySidecarChanges | src/lib.rs:48-112 | no file other than the sidecar derived as the code derives it is created, removed or changed |
| GeoTag.StoreShape | src/lib.rs:105-106 | storing changes at most the content of the sidecar |
| GeoTag.TagFileChangesOnlyBeside | src/lib.rs:51-53 | when the stem is neither `.` nor `..`, a call changes no file but the corrected sidecar, which lies in the image's directory |
| GeoTag.DotStemTagEscapes | src/lib.rs:51-53 | as written, for a dot-free `d`, tagging `/<d>/..jpg` can change only `/<d>.xmp`, outside the image's directory |
| GeoTag.SecondCallSkips | src/lib.rs:64-106 | if the toolkit reads back what it serialises, the write was complete and the second call reads the sidecar cleanly, a second call without `overwrite` after a successful one gives `Ok(false)` and changes nothing |
| Legacy.LegacyBuffer | src/main.rs:47-52 | the buffer given to the parser is a prefix of the sidecar's content |
| Legacy.TrySet | src/main.rs:76-81 | a dropped `set_property` result: an accepted value is set, a refused one leaves the document as it was, other properties are kept |
| Legacy.TagFileLegacy | src/main.rs:40-91 | how the call ends and the new file system are exactly those of `LegacySpec` on the old file system, with the sidecar derived as the code derives it |
| Legacy.LegacyLoadSidecar | src/main.rs:46-55 | the document, or the panic, is `LegacyLoad` of the current file system |
| Legacy.LegacyStoreSidecar | src/main.rs:83-89 | the new file system is `LegacyStore`: unchanged after a failed serialisation or create, the sidecar empty after a failed write, otherwise holding the accepted bytes |
| Legacy.LegacyNoStemNoEffect | src/main.rs:42-90 | without a file name nothing happens |
| Legacy.LegacyLoadCases | src/main.rs:47-55 | a missing sidecar is an empty document; an unopenable one is parsed from an empty buffer; an unreadable one from the bytes read |
| Legacy.LegacyPanicsOnlyOnParse | src/main.rs:52 | the call panics exactly when an existing sidecar's buffer does not parse, and after a panic nothing has been written |
| Legacy.LegacySkipsTagged | src/main.rs:57-72 | a latitude or longitude already present means the call returns without writing |
| Legacy.LegacySwallowsFailures | src/main.rs:83-89 | a failed serialisation or create is not reported, and nothing is written |
| Legacy.LegacyWritesOnlyLatLon | src/main.rs:74-89 | when anything changes, only the sidecar does; it holds the accepted part of the serialised document with only latitude and longitude set, or nothing after a failed write |
| Legacy.LegacyStampEffect | src/main.rs:74-81 | the older variant changes latitude and longitude at most and never writes version or altitude |
| Legacy.LoadsAgreeOnCleanRead | src/main.rs:47-55 | when the sidecar is missing or reads cleanly, both variants load the same document, and the older one panics exactly where the newer one reports a parse error |
| Legacy.UnopenableSidecarDiverges | src/main.rs:49-52 | an unopenable sidecar is `IoError(Open)` for the newer variant; the older one parses an empty buffer |
| Legacy.PoliciesAgreeOnSkip | src/main.rs:57-72 | on a tagged document, both variants leave the file system unchanged unless the newer one is asked to overwrite, in which case it does not skip |
| Legacy.LibStampExtendsLegacyStamp | src/main.rs:76-81 | when all four values are accepted, the newer variant's document is the older one's plus version and altitude |
| Batch.TagAll | src/bin/geotag.rs:57-63 | one result per image, in order |
| Batch.TagFiles | src/bin/geotag.rs:52-63 | the results and the final file system are those of `Run`: nothing when the source is not usable, otherwise `tag_file` on each image in turn |
| Batch.TagAllExtend | src/bin/geotag.rs:57-63 | one image more extends the run by exactly that image's `tag_file` call on the file system the run left |
| Batch.TracklogTagsNothing | src/bin/geotag.rs:52-54 | with a tracklog source the run returns before any image is tagged |
| Batch.TagAllTouchesOnlySidecars | src/bin/geotag.rs:57-63 | a run changes no file except the sidecars derived, as the code derives them, from the images it was given |
| Batch.OverwriteRunSkipsNothing | src/bin/geotag.rs:57-63 | with overwrite on, no image in the run is reported as skipped |

## Left out

- `exempi::init()` (src/lib.rs:49) is process-wide initialisation of a foreign library, so it is not modelled.
- The toolkit's internals are foreign code that is not visible here. This covers
  the packet format, `from_buffer`, `set_property` and `serialize_and_format`.
  The serialisation flags are modelled (`Xmp.SerialFlags`), but the padding,
  newline, indent and indent-count arguments (src/lib.rs:100-103,
  src/main.rs:84) are not. The model has only uninterpreted, possibly failing
  functions over a property map. `Xmp.SetProperty` assumes a successful set
  stores exactly the given value.
- `get_property` (src/main.rs:57-72) is modelled as a presence test. The flags it returns are unused.
- Real file I/O is left out, since the operating system's behaviour is a
  parameter (`IoOutcomes`). It holds one outcome each for `open`,
  `read_to_end`, `create` and `write`. `exists` is not an outcome: it is
  whether the path is a key of the file system's map. The file is created empty, so the single
  `write` call is modelled as appending to an empty file.
- `buf.to_str()` (src/lib.rs:106, src/main.rs:87) is the toolkit's string
  conversion and is not modelled. The serialised bytes are written as they are.
- The "Short write" `println!` (src/lib.rs:107-109) is console output only. The
  result stays `Ok(true)`.
- The command-line front ends are left out: docopt, the usage text,
  `env::current_dir`, `println!` of results, and `main` in src/main.rs and
  src/bin/geotag.rs. `Batch.TagFiles` models only the `is_ok` guard and the loop, and
  it takes the images as already resolved paths (`path.push(file)`
  on the current directory is not modelled).
- `Tagger.Tagger.IsOk`: `CoordTagger` has no `is_ok` in src/coord.rs, although
  src/tagger.rs:7 requires one. Its answer is the parameter `coordIsOk`, and
  no rule is invented for it.
- The `Tagger` trait is the closed datatype `Tagger.Tagger` over its two
  implementations. `Box<dyn Tagger>` dispatch is a `match`.
- `Paths` models Rust paths component by component, in the form
  `components()` yields: a `.` after the first component is dropped, but
  `..` is kept and not resolved. It leaves out the byte-level spelling of paths: repeated or trailing
  separators, non-UTF-8 names and Windows prefixes.
- The file map (`Fs.FileSystem.files`) holds regular files only: there are
  no directories and no symbolic links. Paths are compared as component
  lists, without resolving `..` or links, so `/a/b/../x.xmp` and `/a/x.xmp`
  are two different keys, while the kernel would open the same file for
  both. "No other file changes" (`GeoTag.OnlySidecarChanges`,
  `Batch.TagAllTouchesOnlySidecars`) is therefore a statement about path
  names, not about the files they resolve to, and a run that reaches one
  file by two spellings is not modelled as the program behaves there.
  In the `..`-stem case of the Findings row the derived path `/photos/..`
  names a directory; the model treats it as an absent regular file, so
  `exists` is false there and `create` may succeed, where the operating
  system would report it present and refuse to create it.
- Error payloads (`exempi::Error`, `std::io::Error`) are left out. Each error
  keeps only the call that failed, and the `Debug` derive is not modelled.
- Decimal-degree parsing, hemisphere letters, degree/minute formatting and
  range checks on latitude and longitude are not in the code. src/coord.rs
  splits the argument on `,` and keeps both tokens verbatim, so the model
  follows the code. Floating point is not used anywhere.
- The GPX tracklog source is a stub in src/tracklog.rs and is modelled as that stub.

## Findings

| source | as written | input that shows it | evidently intended | confidence | as-written member | corrected member |
|---|---|---|---|---|---|---|
| src/lib.rs:51-53 (also src/main.rs:42-44) | `file.with_file_name(stem)` followed by `set_extension("xmp")`. When the stem is `.` or `..`, `with_file_name` pushes a component that normalises away or climbs out of the directory. | The image `/photos/..jpg` (stem `.`) gets the sidecar `/photos.xmp`, beside the directory. The image `/photos/...jpg` (stem `..`) gets `/photos/..`, the parent directory itself. | The sidecar sits in the image's own directory, named after the stem with its extension set to `xmp` (`/photos/..xmp`). For every other stem the two derivations agree (`Paths.SidecarPathAgrees`), so there a call changes only the corrected sidecar (`GeoTag.TagFileChangesOnlyBeside`). `tag_file` is modelled as written; `GeoTag.DotStemTagEscapes` shows the escape at the level of a call. | medium, not executed | Paths.DotStemEscapesDirectory | Paths.IntendedSidecarBeside |
