/**
 * The older `tag_file` of src/main.rs. It derives the same sidecar, but it
 * always skips a tagged document, sets only latitude and longitude,
 * ignores every failure except a parse failure, and stops the program
 * (`unwrap` panics) when the sidecar does not parse.
 */
module Legacy {
  import opened Wrappers
  import opened Paths
  import opened Fs
  import opened Xmp
  import opened Tagger
  import GeoTag

  /** `exempi::SerialFlags::empty()`. */
  const LEGACY_FLAGS := SerialFlags(false, false)

  /** How the call ends: it returns, or the `unwrap` on the parse result panics. */
  datatype Run = Finished | Panicked

  datatype LegacyOutcome = LegacyOutcome(run: Run, files: map<Path, Bytes>)

  /**
   * The buffer handed to the parser: empty when the sidecar cannot be
   * opened, the bytes read before a failure when reading fails.
   */
  function LegacyBuffer(files: map<Path, Bytes>, sidecar: Path, io: IoOutcomes): (buf: Bytes)
    requires sidecar in files
    ensures buf <= files[sidecar]
  {
    if !io.openOk then []
    else match io.readFailsAfter
      case None => files[sidecar]
      case Some(n) => Prefix(files[sidecar], n)
  }

  /** The document the call works on; `None` is the panic of `unwrap`. */
  function LegacyLoad(files: map<Path, Bytes>, sidecar: Path, e: Engine, io: IoOutcomes): Option<Doc> {
    if sidecar !in files then Some(map[]) else e.fromBuffer(LegacyBuffer(files, sidecar, io))
  }

  /** A `set_property` whose result is dropped: a refused value leaves the document as it was. */
  function TrySet(e: Engine, doc: Doc, prop: PropName, value: string): (r: Doc)
    ensures r.Keys <= doc.Keys + {prop}
    ensures forall q :: q in doc && q != prop ==> q in r && r[q] == doc[q]
    ensures e.setAccepts(doc, prop, value) ==> prop in r && r[prop] == value
    ensures !e.setAccepts(doc, prop, value) ==> r == doc
  {
    match SetProperty(e, doc, prop, value)
    case None => doc
    case Some(d) => d
  }

  /** Latitude then longitude, each failure ignored. */
  function LegacyStamp(e: Engine, doc: Doc, coords: (string, string)): Doc {
    TrySet(e, TrySet(e, doc, GPS_LATITUDE, coords.0), GPS_LONGITUDE, coords.1)
  }

  /**
   * Serialise, create and write, every failure dropped: the file system after
   * storing `doc` in `sidecar`.
   */
  function LegacyStore(files: map<Path, Bytes>, sidecar: Path, doc: Doc, e: Engine, io: IoOutcomes): map<Path, Bytes> {
    match e.serialize(doc, LEGACY_FLAGS)
    case None => files
    case Some(buf) =>
      if !io.createOk then files
      else if io.write.WriteFailed? then files[sidecar := []]
      else files[sidecar := Accepted(buf, io.write)]
  }

  /** The way one call of the older `tag_file` ends and the file system it leaves behind. */
  function LegacySpec(files: map<Path, Bytes>, tagger: Tagger, file: Path, e: Engine, io: IoOutcomes): LegacyOutcome
    requires Valid(file)
  {
    match SidecarPath(file)
    case None => LegacyOutcome(Finished, files)
    case Some(sidecar) =>
      match LegacyLoad(files, sidecar, e, io)
      case None => LegacyOutcome(Panicked, files)
      case Some(doc) =>
        if HasProperty(doc, GPS_LATITUDE) then LegacyOutcome(Finished, files)
        else if HasProperty(doc, GPS_LONGITUDE) then LegacyOutcome(Finished, files)
        else LegacyOutcome(Finished, LegacyStore(files, sidecar, LegacyStamp(e, doc, tagger.GetCoordForFile(file)), e, io))
  }

  /** `tag_file(tagger, file)` of src/main.rs against the file system `fs`. */
  method TagFileLegacy(fs: FileSystem, tagger: Tagger, file: Path, e: Engine, io: IoOutcomes) returns (run: Run)
    requires Valid(file)
    modifies fs
    ensures LegacyOutcome(run, fs.files) == LegacySpec(old(fs.files), tagger, file, e, io)
  {
    var sidecar := SidecarPath(file);
    if sidecar.None? {
      return Finished;
    }
    var xmpFile := sidecar.value;

    var loaded := LegacyLoadSidecar(fs, xmpFile, e, io);
    if loaded.None? {
      return Panicked;
    }
    var xmp := loaded.value;
    if HasProperty(xmp, GPS_LATITUDE) {
      return Finished;
    }
    if HasProperty(xmp, GPS_LONGITUDE) {
      return Finished;
    }

    var coords := tagger.GetCoordForFile(file);
    var updated := SetProperty(e, xmp, GPS_LATITUDE, coords.0);
    if updated.Some? {
      xmp := updated.value;
    }
    updated := SetProperty(e, xmp, GPS_LONGITUDE, coords.1);
    if updated.Some? {
      xmp := updated.value;
    }

    assert xmp == LegacyStamp(e, loaded.value, coords);
    LegacyStoreSidecar(fs, xmpFile, xmp, e, io);
    return Finished;
  }

  /** Lines 83-89 of the older `tag_file`: the results of serialising, creating and writing are dropped. */
  method LegacyStoreSidecar(fs: FileSystem, xmpFile: Path, xmp: Doc, e: Engine, io: IoOutcomes)
    modifies fs
    ensures fs.files == LegacyStore(old(fs.files), xmpFile, xmp, e, io)
  {
    var out := e.serialize(xmp, LEGACY_FLAGS);
    if out.None? {
      return;
    }
    var created := fs.Create(xmpFile, io.createOk);
    if !created {
      return;
    }
    var ok, written := fs.Write(xmpFile, out.value, io.write);
    if ok {
      assert [] + Accepted(out.value, io.write) == Accepted(out.value, io.write);
    }
  }

  /**
   * Lines 46-55 of the older `tag_file`: a sidecar that cannot be opened
   * or read is parsed from what is in the buffer; `None` means `unwrap`
   * panics on the parse result.
   */
  method LegacyLoadSidecar(fs: FileSystem, xmpFile: Path, e: Engine, io: IoOutcomes) returns (loaded: Option<Doc>)
    ensures loaded == LegacyLoad(fs.files, xmpFile, e, io)
  {
    if !fs.Exists(xmpFile) {
      return Some(map[]);
    }
    var buf: Bytes := [];
    var read := fs.ReadToEnd(xmpFile, io);
    match read {
      case OpenFailed =>
      case ReadFailed(partial) => buf := partial;
      case ReadAll(data) => buf := data;
    }
    loaded := e.fromBuffer(buf);
  }

  // ---------------------------------------------------------------------
  // Properties

  /** Without a file stem nothing happens. */
  lemma LegacyNoStemNoEffect(files: map<Path, Bytes>, tagger: Tagger, file: Path, e: Engine, io: IoOutcomes)
    requires Valid(file)
    requires FileName(file).None?
    ensures LegacySpec(files, tagger, file, e, io) == LegacyOutcome(Finished, files)
  {
  }

  /**
   * Loading: a missing sidecar is an empty document; an unopenable one is
   * the parse of an empty buffer; an unreadable one the parse of what was read.
   */
  lemma LegacyLoadCases(files: map<Path, Bytes>, sidecar: Path, e: Engine, io: IoOutcomes)
    ensures sidecar !in files ==> LegacyLoad(files, sidecar, e, io) == Some(map[])
    ensures sidecar in files && !io.openOk ==> LegacyLoad(files, sidecar, e, io) == e.fromBuffer([])
    ensures sidecar in files && io.openOk && io.readFailsAfter.Some? ==>
      LegacyLoad(files, sidecar, e, io) == e.fromBuffer(Prefix(files[sidecar], io.readFailsAfter.value))
    ensures sidecar in files && io.openOk && io.readFailsAfter.None? ==>
      LegacyLoad(files, sidecar, e, io) == e.fromBuffer(files[sidecar])
  {
  }

  /**
   * The call panics exactly when an existing sidecar's buffer does not
   * parse, and a panic happens before anything is written.
   */
  lemma LegacyPanicsOnlyOnParse(files: map<Path, Bytes>, tagger: Tagger, file: Path, e: Engine, io: IoOutcomes)
    requires Valid(file)
    ensures var out := LegacySpec(files, tagger, file, e, io);
      out.run == Panicked <==>
        && FileName(file).Some?
        && SidecarPath(file).value in files
        && e.fromBuffer(LegacyBuffer(files, SidecarPath(file).value, io)).None?
    ensures var out := LegacySpec(files, tagger, file, e, io);
      out.run == Panicked ==> out.files == files
  {
  }

  /** A latitude or a longitude already present means the call returns without writing. */
  lemma LegacySkipsTagged(files: map<Path, Bytes>, tagger: Tagger, file: Path, e: Engine, io: IoOutcomes)
    requires Valid(file)
    requires FileName(file).Some?
    requires var l := LegacyLoad(files, SidecarPath(file).value, e, io);
      l.Some? && GeoTag.AlreadyTagged(l.value)
    ensures LegacySpec(files, tagger, file, e, io) == LegacyOutcome(Finished, files)
  {
  }

  /**
   * A failed serialisation or `File::create` is not reported: the call
   * finishes and the file system is unchanged.
   */
  lemma LegacySwallowsFailures(files: map<Path, Bytes>, tagger: Tagger, file: Path, e: Engine, io: IoOutcomes)
    requires Valid(file)
    requires FileName(file).Some?
    requires var l := LegacyLoad(files, SidecarPath(file).value, e, io);
      && l.Some? && !GeoTag.AlreadyTagged(l.value)
      && (e.serialize(LegacyStamp(e, l.value, tagger.GetCoordForFile(file)), LEGACY_FLAGS).None? || !io.createOk)
    ensures LegacySpec(files, tagger, file, e, io) == LegacyOutcome(Finished, files)
  {
  }

  /**
   * When the file system changes, only the sidecar does, and it holds what
   * was accepted of the serialisation of the loaded, untagged document
   * with at most latitude and longitude changed (or nothing, after a
   * failed write).
   */
  lemma LegacyWritesOnlyLatLon(files: map<Path, Bytes>, tagger: Tagger, file: Path, e: Engine, io: IoOutcomes)
    requires Valid(file)
    ensures var out := LegacySpec(files, tagger, file, e, io);
      out.files != files ==>
        && FileName(file).Some?
        && var sidecar := SidecarPath(file).value;
           var l := LegacyLoad(files, sidecar, e, io);
           && l.Some? && !GeoTag.AlreadyTagged(l.value)
           && var buf := e.serialize(LegacyStamp(e, l.value, tagger.GetCoordForFile(file)), LEGACY_FLAGS);
              && buf.Some? && io.createOk
              && out.files == files[sidecar := if io.write.WriteFailed? then [] else Accepted(buf.value, io.write)]
  {
  }

  /**
   * The document the older variant serialises differs from the loaded one
   * in latitude and longitude at most: version and altitude are never written.
   */
  lemma LegacyStampEffect(e: Engine, doc: Doc, coords: (string, string))
    ensures LegacyStamp(e, doc, coords).Keys <= doc.Keys + {GPS_LATITUDE, GPS_LONGITUDE}
    ensures forall q :: q in doc && q != GPS_LATITUDE && q != GPS_LONGITUDE ==> LegacyStamp(e, doc, coords)[q] == doc[q]
    ensures GPS_VERSION_ID in LegacyStamp(e, doc, coords) <==> GPS_VERSION_ID in doc
    ensures GPS_ALTITUDE in LegacyStamp(e, doc, coords) <==> GPS_ALTITUDE in doc
  {
    var d1 := TrySet(e, doc, GPS_LATITUDE, coords.0);
    assert d1.Keys <= doc.Keys + {GPS_LATITUDE};
    assert GPS_VERSION_ID != GPS_LATITUDE && GPS_VERSION_ID != GPS_LONGITUDE;
    assert GPS_ALTITUDE != GPS_LATITUDE && GPS_ALTITUDE != GPS_LONGITUDE;
  }

  // ---------------------------------------------------------------------
  // The two policies side by side

  /**
   * With a sidecar that reads cleanly (or does not exist) both variants
   * start from the same document, and the older one panics exactly where
   * the newer one reports a parse error.
   */
  lemma LoadsAgreeOnCleanRead(files: map<Path, Bytes>, sidecar: Path, e: Engine, io: IoOutcomes)
    requires sidecar !in files || (io.openOk && io.readFailsAfter.None?)
    ensures GeoTag.Load(files, sidecar, e, io).Loaded? <==> LegacyLoad(files, sidecar, e, io).Some?
    ensures GeoTag.Load(files, sidecar, e, io).Loaded? ==>
      LegacyLoad(files, sidecar, e, io).value == GeoTag.Load(files, sidecar, e, io).doc
  {
  }

  /**
   * An unopenable sidecar is an error for the newer variant, while the
   * older one goes on with the parse of an empty buffer.
   */
  lemma UnopenableSidecarDiverges(files: map<Path, Bytes>, sidecar: Path, e: Engine, io: IoOutcomes)
    requires sidecar in files && !io.openOk
    ensures GeoTag.Load(files, sidecar, e, io) == GeoTag.LoadFailed(GeoTag.IoError(GeoTag.Open))
    ensures LegacyLoad(files, sidecar, e, io) == e.fromBuffer([])
  {
  }

  /**
   * On a tagged document both variants leave the file system as it was
   * unless the newer one is asked to overwrite, in which case it does not skip.
   */
  lemma PoliciesAgreeOnSkip(files: map<Path, Bytes>, tagger: Tagger, file: Path, overwrite: bool, e: Engine, io: IoOutcomes)
    requires Valid(file)
    requires FileName(file).Some?
    requires sidecarClean: var sidecar := SidecarPath(file).value;
      sidecar !in files || (io.openOk && io.readFailsAfter.None?)
    requires var l := GeoTag.Load(files, SidecarPath(file).value, e, io);
      l.Loaded? && GeoTag.AlreadyTagged(l.doc)
    ensures LegacySpec(files, tagger, file, e, io) == LegacyOutcome(Finished, files)
    ensures !overwrite ==> GeoTag.TagFileSpec(files, tagger, file, overwrite, e, io) == GeoTag.Outcome(GeoTag.Ok(false), files)
    ensures overwrite ==> GeoTag.TagFileSpec(files, tagger, file, overwrite, e, io).result != GeoTag.Ok(false)
  {
    var sidecar := SidecarPath(file).value;
    LoadsAgreeOnCleanRead(files, sidecar, e, io);
    GeoTag.OverwriteNeverSkips(files, tagger, file, e, io);
  }

  /**
   * When the toolkit accepts all four values, what the newer variant
   * stores is what the older one stores plus the version and the altitude.
   */
  lemma LibStampExtendsLegacyStamp(e: Engine, doc: Doc, coords: (string, string))
    requires SetAll(e, doc, GeoTag.GpsProperties(coords)).AllSet?
    ensures LegacyStamp(e, doc, coords) == doc[GPS_LATITUDE := coords.0][GPS_LONGITUDE := coords.1]
    ensures GeoTag.Stamp(doc, coords) == LegacyStamp(e, doc, coords)[GPS_VERSION_ID := "2.2.0.0"][GPS_ALTITUDE := "0/10000"]
  {
    var ps := GeoTag.GpsProperties(coords);
    var d1 := doc[GPS_LATITUDE := coords.0];
    var d2 := d1[GPS_LONGITUDE := coords.1];
    assert SetProperty(e, doc, ps[0].0, ps[0].1) == Some(d1);
    assert ps[1..][0] == (GPS_LONGITUDE, coords.1);
    assert SetProperty(e, d1, GPS_LONGITUDE, coords.1) == Some(d2);
    assert ps[1..][1..] == ps[2..] && ps[2..][1..] == ps[3..] && ps[3..][1..] == [];
    calc {
      GeoTag.Stamp(doc, coords);
      Assign(doc, ps);
      Assign(d1, ps[1..]);
      Assign(d2, ps[2..]);
      Assign(d2[GPS_VERSION_ID := "2.2.0.0"], ps[3..]);
      d2[GPS_VERSION_ID := "2.2.0.0"][GPS_ALTITUDE := "0/10000"];
    }
  }
}
