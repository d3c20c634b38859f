/**
 * `tag_file` of src/lib.rs: find the image's XMP sidecar, load it or start
 * an empty document, skip an already tagged one unless asked to overwrite,
 * set the four GPS properties and rewrite the sidecar.
 */
module GeoTag {
  import opened Wrappers
  import opened Paths
  import opened Fs
  import opened Xmp
  import opened Tagger

  /** The file-system call that failed, standing for the `std::io::Error` it returned. */
  datatype IoCall = Open | Read | Create | Write

  /** The toolkit call that failed, standing for the `exempi::Error` it returned. */
  datatype XmpCall = FromBuffer | Set(prop: PropName) | Serialize

  /**
   * `GeoTagError`. The `From` conversions that `?` applies are the two
   * constructors: an I/O failure becomes `IoError`, a toolkit failure `XmpError`.
   */
  datatype GeoTagError = XmpError(xmp: XmpCall) | IoError(io: IoCall)

  datatype Result<T> = Ok(value: T) | Err(error: GeoTagError)

  /** `SERIAL_OMITPACKETWRAPPER | SERIAL_USECOMPACTFORMAT`. */
  const LIB_FLAGS := SerialFlags(true, true)

  /** The four `set_property` calls, in the order the source makes them. */
  function GpsProperties(coords: (string, string)): seq<(PropName, string)> {
    [(GPS_LATITUDE, coords.0), (GPS_LONGITUDE, coords.1), (GPS_VERSION_ID, "2.2.0.0"), (GPS_ALTITUDE, "0/10000")]
  }

  /** The document once all four properties are set. */
  function Stamp(doc: Doc, coords: (string, string)): Doc {
    Assign(doc, GpsProperties(coords))
  }

  /** The skip test: a latitude or a longitude is already there. */
  predicate AlreadyTagged(doc: Doc) {
    HasProperty(doc, GPS_LATITUDE) || HasProperty(doc, GPS_LONGITUDE)
  }

  datatype Loaded = Loaded(doc: Doc) | LoadFailed(error: GeoTagError)

  /** The document `tag_file` works on: the parsed sidecar, or a new one when there is none. */
  function Load(files: map<Path, Bytes>, sidecar: Path, e: Engine, io: IoOutcomes): Loaded {
    if sidecar !in files then Loaded(map[])
    else if !io.openOk then LoadFailed(IoError(Open))
    else if io.readFailsAfter.Some? then LoadFailed(IoError(Read))
    else match e.fromBuffer(files[sidecar])
      case None => LoadFailed(XmpError(FromBuffer))
      case Some(doc) => Loaded(doc)
  }

  datatype Outcome = Outcome(result: Result<bool>, files: map<Path, Bytes>)

  /** Serialise, create and write: the outcome of storing `doc` in `sidecar`. */
  function Store(files: map<Path, Bytes>, sidecar: Path, doc: Doc, e: Engine, io: IoOutcomes): Outcome {
    match e.serialize(doc, LIB_FLAGS)
    case None => Outcome(Err(XmpError(Serialize)), files)
    case Some(buf) =>
      if !io.createOk then Outcome(Err(IoError(Create)), files)
      else if io.write.WriteFailed? then Outcome(Err(IoError(Write)), files[sidecar := []])
      else Outcome(Ok(true), files[sidecar := Accepted(buf, io.write)])
  }

  /** The result of one `tag_file` call and the file system it leaves behind. */
  function TagFileSpec(files: map<Path, Bytes>, tagger: Tagger, file: Path, overwrite: bool,
                       e: Engine, io: IoOutcomes): Outcome
    requires Valid(file)
  {
    match SidecarPath(file)
    case None => Outcome(Ok(true), files)
    case Some(sidecar) =>
      match Load(files, sidecar, e, io)
      case LoadFailed(err) => Outcome(Err(err), files)
      case Loaded(doc) =>
        if !overwrite && AlreadyTagged(doc) then Outcome(Ok(false), files)
        else match SetAll(e, doc, GpsProperties(tagger.GetCoordForFile(file)))
          case Refused(prop) => Outcome(Err(XmpError(Set(prop))), files)
          case AllSet(stamped) =>
            Store(files, sidecar, stamped, e, io)
  }

  /** `tag_file(tagger, file, overwrite)` against the file system `fs`. */
  method TagFile(fs: FileSystem, tagger: Tagger, file: Path, overwrite: bool, e: Engine, io: IoOutcomes)
    returns (r: Result<bool>)
    requires Valid(file)
    modifies fs
    ensures Outcome(r, fs.files) == TagFileSpec(old(fs.files), tagger, file, overwrite, e, io)
  {
    var sidecar := SidecarPath(file);
    if sidecar.None? {
      return Ok(true);
    }
    var xmpFile := sidecar.value;

    var loaded := LoadSidecar(fs, xmpFile, e, io);
    if loaded.LoadFailed? {
      return Err(loaded.error);
    }
    var xmp := loaded.doc;
    if !overwrite && (HasProperty(xmp, GPS_LATITUDE) || HasProperty(xmp, GPS_LONGITUDE)) {
      // already there, skip
      return Ok(false);
    }
    var coords := tagger.GetCoordForFile(file);
    var stamped := SetGpsProperties(e, xmp, coords);
    if stamped.Refused? {
      return Err(XmpError(Set(stamped.prop)));
    }
    xmp := stamped.doc;

    r := StoreSidecar(fs, xmpFile, xmp, e, io);
  }

  /**
   * Lines 98-109 of `tag_file`: the sidecar is created (and so truncated)
   * only once serialisation has succeeded; a short write is only reported
   * on the console.
   */
  method StoreSidecar(fs: FileSystem, xmpFile: Path, xmp: Doc, e: Engine, io: IoOutcomes) returns (r: Result<bool>)
    modifies fs
    ensures Outcome(r, fs.files) == Store(old(fs.files), xmpFile, xmp, e, io)
  {
    var buf := e.serialize(xmp, LIB_FLAGS);
    if buf.None? {
      return Err(XmpError(Serialize));
    }
    var created := fs.Create(xmpFile, io.createOk);
    if !created {
      return Err(IoError(Create));
    }
    var ok, written := fs.Write(xmpFile, buf.value, io.write);
    if !ok {
      return Err(IoError(Write));
    }
    // written < |buf.value| is a short write, which the source only prints
    assert [] + Accepted(buf.value, io.write) == Accepted(buf.value, io.write);
    return Ok(true);
  }

  /**
   * Lines 55-63 of `tag_file`: read and parse the sidecar when it exists,
   * otherwise start from `Xmp::new()`; the first failing call is reported.
   */
  method LoadSidecar(fs: FileSystem, xmpFile: Path, e: Engine, io: IoOutcomes) returns (loaded: Loaded)
    ensures loaded == Load(fs.files, xmpFile, e, io)
  {
    if !fs.Exists(xmpFile) {
      return Loaded(map[]);
    }
    var read := fs.ReadToEnd(xmpFile, io);
    if read.OpenFailed? {
      return LoadFailed(IoError(Open));
    }
    if read.ReadFailed? {
      return LoadFailed(IoError(Read));
    }
    var parsed := e.fromBuffer(read.data);
    if parsed.None? {
      return LoadFailed(XmpError(FromBuffer));
    }
    return Loaded(parsed.value);
  }

  /**
   * The four `set_property(..)?` calls of `tag_file` on the document `xmp`:
   * latitude, longitude, version and altitude, stopping at the first refusal.
   */
  method SetGpsProperties(e: Engine, xmp: Doc, coords: (string, string)) returns (r: SetOutcome)
    ensures r == SetAll(e, xmp, GpsProperties(coords))
  {
    var props := GpsProperties(coords);
    var doc := xmp;
    var updated := SetProperty(e, doc, GPS_LATITUDE, coords.0);
    if updated.None? {
      return Refused(GPS_LATITUDE);
    }
    doc := updated.value;
    assert SetAll(e, xmp, props) == SetAll(e, doc, props[1..]);
    updated := SetProperty(e, doc, GPS_LONGITUDE, coords.1);
    if updated.None? {
      return Refused(GPS_LONGITUDE);
    }
    doc := updated.value;
    assert props[1..][1..] == props[2..];
    assert SetAll(e, xmp, props) == SetAll(e, doc, props[2..]);
    updated := SetProperty(e, doc, GPS_VERSION_ID, "2.2.0.0");
    if updated.None? {
      return Refused(GPS_VERSION_ID);
    }
    doc := updated.value;
    assert props[2..][1..] == props[3..];
    assert SetAll(e, xmp, props) == SetAll(e, doc, props[3..]);
    updated := SetProperty(e, doc, GPS_ALTITUDE, "0/10000");
    if updated.None? {
      return Refused(GPS_ALTITUDE);
    }
    doc := updated.value;
    assert props[3..][1..] == [];
    return AllSet(doc);
  }

  // ---------------------------------------------------------------------
  // Properties

  /** The four GPS properties take their values; every other property is kept. */
  lemma StampEffect(doc: Doc, coords: (string, string))
    ensures Stamp(doc, coords).Keys == doc.Keys + {GPS_LATITUDE, GPS_LONGITUDE, GPS_VERSION_ID, GPS_ALTITUDE}
    ensures Stamp(doc, coords)[GPS_LATITUDE] == coords.0
    ensures Stamp(doc, coords)[GPS_LONGITUDE] == coords.1
    ensures Stamp(doc, coords)[GPS_VERSION_ID] == "2.2.0.0"
    ensures Stamp(doc, coords)[GPS_ALTITUDE] == "0/10000"
    ensures forall q :: q in doc && q !in {GPS_LATITUDE, GPS_LONGITUDE, GPS_VERSION_ID, GPS_ALTITUDE} ==>
      Stamp(doc, coords)[q] == doc[q]
  {
    var ps := GpsProperties(coords);
    assert Names(ps) == {GPS_LATITUDE, GPS_LONGITUDE, GPS_VERSION_ID, GPS_ALTITUDE} by {
      assert ps[0].0 == GPS_LATITUDE && ps[1].0 == GPS_LONGITUDE;
      assert ps[2].0 == GPS_VERSION_ID && ps[3].0 == GPS_ALTITUDE;
    }
    AssignEffect(doc, ps);
    assert ps[0].0 == GPS_LATITUDE && ps[1].0 == GPS_LONGITUDE;
    assert ps[2].0 == GPS_VERSION_ID && ps[3].0 == GPS_ALTITUDE;
  }

  /** Without a file stem nothing is read or written and the call reports success. */
  lemma NoStemNoEffect(files: map<Path, Bytes>, tagger: Tagger, file: Path, overwrite: bool, e: Engine, io: IoOutcomes)
    requires Valid(file)
    requires FileName(file).None?
    ensures TagFileSpec(files, tagger, file, overwrite, e, io) == Outcome(Ok(true), files)
  {
  }

  /**
   * An existing sidecar that cannot be opened or read gives an I/O error, one
   * that does not parse an XMP error; the file system is unchanged in all three cases.
   */
  lemma LoadFailures(files: map<Path, Bytes>, tagger: Tagger, file: Path, overwrite: bool, e: Engine, io: IoOutcomes)
    requires Valid(file)
    requires FileName(file).Some? && SidecarPath(file).value in files
    ensures var out := TagFileSpec(files, tagger, file, overwrite, e, io);
      var sidecar := SidecarPath(file).value;
      && (!io.openOk ==> out == Outcome(Err(IoError(Open)), files))
      && (io.openOk && io.readFailsAfter.Some? ==> out == Outcome(Err(IoError(Read)), files))
      && (io.openOk && io.readFailsAfter.None? && e.fromBuffer(files[sidecar]).None? ==>
            out == Outcome(Err(XmpError(FromBuffer)), files))
  {
  }

  /**
   * `Ok(false)` is reported exactly when the sidecar loaded, overwriting was
   * not asked for and a latitude or longitude is present; nothing changes then.
   */
  lemma SkipIff(files: map<Path, Bytes>, tagger: Tagger, file: Path, overwrite: bool, e: Engine, io: IoOutcomes)
    requires Valid(file)
    ensures var out := TagFileSpec(files, tagger, file, overwrite, e, io);
      out.result == Ok(false) <==>
        && FileName(file).Some?
        && Load(files, SidecarPath(file).value, e, io).Loaded?
        && !overwrite
        && AlreadyTagged(Load(files, SidecarPath(file).value, e, io).doc)
    ensures var out := TagFileSpec(files, tagger, file, overwrite, e, io);
      out.result == Ok(false) ==> out.files == files
  {
    var out := TagFileSpec(files, tagger, file, overwrite, e, io);
    if FileName(file).Some? {
      var sidecar := SidecarPath(file).value;
      match Load(files, sidecar, e, io)
      case LoadFailed(_) =>
      case Loaded(doc) =>
        if overwrite || !AlreadyTagged(doc) {
          var ps := GpsProperties(tagger.GetCoordForFile(file));
          match SetAll(e, doc, ps)
          case Refused(_) =>
          case AllSet(stamped) =>
            match e.serialize(stamped, LIB_FLAGS)
            case None =>
            case Some(buf) =>
              assert out.result != Ok(false);
        }
    }
  }

  /** With `overwrite` the skip branch is never taken. */
  lemma OverwriteNeverSkips(files: map<Path, Bytes>, tagger: Tagger, file: Path, e: Engine, io: IoOutcomes)
    requires Valid(file)
    ensures TagFileSpec(files, tagger, file, true, e, io).result != Ok(false)
  {
    SkipIff(files, tagger, file, true, e, io);
  }

  /**
   * `Ok(true)` for an image with a stem means that every step succeeded:
   * the sidecar now holds what was accepted of the serialisation of the
   * loaded document with the four GPS properties set, and nothing else changed.
   */
  lemma SuccessWritesStamped(files: map<Path, Bytes>, tagger: Tagger, file: Path, overwrite: bool, e: Engine, io: IoOutcomes)
    requires Valid(file)
    requires FileName(file).Some?
    ensures var out := TagFileSpec(files, tagger, file, overwrite, e, io);
      var sidecar := SidecarPath(file).value;
      var loaded := Load(files, sidecar, e, io);
      out.result == Ok(true) <==>
        && loaded.Loaded?
        && (overwrite || !AlreadyTagged(loaded.doc))
        && SetAll(e, loaded.doc, GpsProperties(tagger.GetCoordForFile(file))).AllSet?
        && e.serialize(Stamp(loaded.doc, tagger.GetCoordForFile(file)), LIB_FLAGS).Some?
        && io.createOk && !io.write.WriteFailed?
    ensures var out := TagFileSpec(files, tagger, file, overwrite, e, io);
      var sidecar := SidecarPath(file).value;
      var loaded := Load(files, sidecar, e, io);
      out.result == Ok(true) ==>
        && loaded.Loaded?
        && out.files == files[sidecar := Accepted(e.serialize(Stamp(loaded.doc, tagger.GetCoordForFile(file)), LIB_FLAGS).value, io.write)]
  {
  }

  /**
   * Failures: a toolkit failure (parse, set or serialise) leaves the file
   * system as it was, and so does every I/O failure except a failed `write`,
   * which leaves the sidecar created and empty.
   */
  lemma FailuresLeaveFiles(files: map<Path, Bytes>, tagger: Tagger, file: Path, overwrite: bool, e: Engine, io: IoOutcomes)
    requires Valid(file)
    ensures var out := TagFileSpec(files, tagger, file, overwrite, e, io);
      out.result.Err? && (out.result.error.XmpError? || out.result.error.io != Write) ==> out.files == files
    ensures var out := TagFileSpec(files, tagger, file, overwrite, e, io);
      out.result == Err(IoError(Write)) ==>
        FileName(file).Some? && out.files == files[SidecarPath(file).value := []]
  {
    if FileName(file).Some? {
      var sidecar := SidecarPath(file).value;
      match Load(files, sidecar, e, io)
      case LoadFailed(_) =>
      case Loaded(doc) =>
        if overwrite || !AlreadyTagged(doc) {
          match SetAll(e, doc, GpsProperties(tagger.GetCoordForFile(file)))
          case Refused(_) =>
          case AllSet(stamped) => StoreFailures(files, sidecar, stamped, e, io);
        }
    }
  }

  /** Storing fails before touching the file system, except when `write` fails after `create`. */
  lemma StoreFailures(files: map<Path, Bytes>, sidecar: Path, doc: Doc, e: Engine, io: IoOutcomes)
    ensures var out := Store(files, sidecar, doc, e, io);
      out.result.Err? && (out.result.error.XmpError? || out.result.error.io != Write) ==> out.files == files
    ensures var out := Store(files, sidecar, doc, e, io);
      out.result == Err(IoError(Write)) ==> out.files == files[sidecar := []]
    ensures e.serialize(doc, LIB_FLAGS).None? ==>
      Store(files, sidecar, doc, e, io) == Outcome(Err(XmpError(Serialize)), files)
    ensures e.serialize(doc, LIB_FLAGS).Some? && !io.createOk ==>
      Store(files, sidecar, doc, e, io) == Outcome(Err(IoError(Create)), files)
    ensures e.serialize(doc, LIB_FLAGS).Some? && io.createOk && io.write.WriteFailed? ==>
      Store(files, sidecar, doc, e, io) == Outcome(Err(IoError(Write)), files[sidecar := []])
  {
  }

  /**
   * Once the sidecar is loaded and not skipped, each failing call gives its
   * own error: a refused `set_property` names the property, then a failed
   * serialisation, a failed `create` and a failed `write` follow in that
   * order, and only the last one leaves anything behind (an empty sidecar).
   */
  lemma FailingCallErrors(files: map<Path, Bytes>, tagger: Tagger, file: Path, overwrite: bool, e: Engine, io: IoOutcomes)
    requires Valid(file) && FileName(file).Some?
    requires var l := Load(files, SidecarPath(file).value, e, io);
      l.Loaded? && (overwrite || !AlreadyTagged(l.doc))
    ensures var sidecar := SidecarPath(file).value;
      var doc := Load(files, sidecar, e, io).doc;
      var coords := tagger.GetCoordForFile(file);
      var out := TagFileSpec(files, tagger, file, overwrite, e, io);
      && (SetAll(e, doc, GpsProperties(coords)).Refused? ==>
            out == Outcome(Err(XmpError(Set(SetAll(e, doc, GpsProperties(coords)).prop))), files))
      && (SetAll(e, doc, GpsProperties(coords)).AllSet? ==>
            var buf := e.serialize(Stamp(doc, coords), LIB_FLAGS);
            && (buf.None? ==> out == Outcome(Err(XmpError(Serialize)), files))
            && (buf.Some? && !io.createOk ==> out == Outcome(Err(IoError(Create)), files))
            && (buf.Some? && io.createOk && io.write.WriteFailed? ==>
                  out == Outcome(Err(IoError(Write)), files[sidecar := []])))
  {
    var sidecar := SidecarPath(file).value;
    var doc := Load(files, sidecar, e, io).doc;
    var coords := tagger.GetCoordForFile(file);
    if SetAll(e, doc, GpsProperties(coords)).AllSet? {
      StoreFailures(files, sidecar, Stamp(doc, coords), e, io);
    }
  }

  /** Whatever the outcome, no file other than the sidecar is created, removed or changed. */
  lemma OnlySidecarChanges(files: map<Path, Bytes>, tagger: Tagger, file: Path, overwrite: bool, e: Engine, io: IoOutcomes)
    requires Valid(file)
    ensures var out := TagFileSpec(files, tagger, file, overwrite, e, io);
      FileName(file).None? ==> out.files == files
    ensures var out := TagFileSpec(files, tagger, file, overwrite, e, io);
      FileName(file).Some? ==>
        var sidecar := SidecarPath(file).value;
        && out.files.Keys <= files.Keys + {sidecar}
        && forall q :: q in files && q != sidecar ==> q in out.files && out.files[q] == files[q]
  {
    if FileName(file).Some? {
      var sidecar := SidecarPath(file).value;
      match Load(files, sidecar, e, io)
      case LoadFailed(_) =>
      case Loaded(doc) =>
        if overwrite || !AlreadyTagged(doc) {
          match SetAll(e, doc, GpsProperties(tagger.GetCoordForFile(file)))
          case Refused(_) =>
          case AllSet(stamped) => StoreShape(files, sidecar, stamped, e, io);
        }
    }
  }

  /** Storing leaves the file system as it was or changes the sidecar's content only. */
  lemma StoreShape(files: map<Path, Bytes>, sidecar: Path, doc: Doc, e: Engine, io: IoOutcomes)
    ensures var after := Store(files, sidecar, doc, e, io).files;
      after == files || (sidecar in after && after == files[sidecar := after[sidecar]])
  {
  }

  /** The toolkit reads back what it serialised. */
  ghost predicate RoundTrips(e: Engine, flags: SerialFlags) {
    forall d :: e.serialize(d, flags).Some? ==> e.fromBuffer(e.serialize(d, flags).value) == Some(d)
  }

  /**
   * Whenever the image's stem is neither `.` nor `..`, the one file a call
   * can change is the corrected sidecar, which lies in the image's directory.
   */
  lemma TagFileChangesOnlyBeside(files: map<Path, Bytes>, tagger: Tagger, file: Path, overwrite: bool, e: Engine, io: IoOutcomes)
    requires Valid(file)
    requires FileStem(file).Some? && FileStem(file).value != "." && FileStem(file).value != ".."
    ensures var out := TagFileSpec(files, tagger, file, overwrite, e, io);
      var sidecar := IntendedSidecarPath(file).value;
      && Pop(sidecar) == Pop(file)
      && out.files.Keys <= files.Keys + {sidecar}
      && forall q :: q in files && q != sidecar ==> q in out.files && out.files[q] == files[q]
  {
    SidecarPathAgrees(file);
    IntendedSidecarBeside(file);
    OnlySidecarChanges(files, tagger, file, overwrite, e, io);
  }

  /**
   * As written, tagging `/<d>/..jpg` can change `/<d>.xmp`, a file outside
   * the image's directory, and no other file.
   */
  lemma DotStemTagEscapes(files: map<Path, Bytes>, tagger: Tagger, d: string, overwrite: bool, e: Engine, io: IoOutcomes)
    requires NormalName(d) && '.' !in d
    ensures var image := Path(true, [Normal(d), Normal("..jpg")]);
      Valid(image) &&
      var out := TagFileSpec(files, tagger, image, overwrite, e, io);
      && out.files.Keys <= files.Keys + {Path(true, [Normal(d + ".xmp")])}
      && forall q :: q in files && q != Path(true, [Normal(d + ".xmp")]) ==> q in out.files && out.files[q] == files[q]
  {
    var image := Path(true, [Normal(d), Normal("..jpg")]);
    assert NormalName("..jpg");
    assert Valid(image);
    SidecarOfDotStem(d);
    OnlySidecarChanges(files, tagger, image, overwrite, e, io);
  }

  /**
   * Idempotence: when the toolkit reads back what it serialises and the
   * first write was complete, a call that tagged the sidecar is followed by
   * a call without `overwrite` that reports `Ok(false)` and changes nothing.
   */
  lemma SecondCallSkips(files: map<Path, Bytes>, tagger: Tagger, file: Path, overwrite: bool, e: Engine,
                        io1: IoOutcomes, io2: IoOutcomes)
    requires Valid(file)
    requires FileName(file).Some?
    requires RoundTrips(e, LIB_FLAGS)
    requires io1.write == WroteAll
    requires io2.openOk && io2.readFailsAfter.None?
    requires TagFileSpec(files, tagger, file, overwrite, e, io1).result == Ok(true)
    ensures var first := TagFileSpec(files, tagger, file, overwrite, e, io1);
      TagFileSpec(first.files, tagger, file, false, e, io2) == Outcome(Ok(false), first.files)
  {
    var first := TagFileSpec(files, tagger, file, overwrite, e, io1);
    var sidecar := SidecarPath(file).value;
    var coords := tagger.GetCoordForFile(file);
    SuccessWritesStamped(files, tagger, file, overwrite, e, io1);
    var doc := Load(files, sidecar, e, io1).doc;
    var stamped := Stamp(doc, coords);
    var buf := e.serialize(stamped, LIB_FLAGS).value;
    assert first.files[sidecar] == buf;
    assert e.fromBuffer(buf) == Some(stamped);
    StampEffect(doc, coords);
    assert Load(first.files, sidecar, e, io2) == Loaded(stamped);
    assert AlreadyTagged(stamped);
  }
}
