/**
 * The XMP toolkit (exempi) as the core uses it. A document is a map from
 * property names (namespace and local name) to values; the toolkit's parser,
 * property setter and serialiser are not part of this model and are taken as
 * parameters that may fail.
 */
module Xmp {
  import opened Wrappers
  import opened Fs

  /** The EXIF namespace all four GPS properties live in. */
  const EXIF_NS := "http://ns.adobe.com/exif/1.0/"

  datatype PropName = PropName(ns: string, name: string)

  type Doc = map<PropName, string>

  const GPS_LATITUDE := PropName(EXIF_NS, "GPSLatitude")
  const GPS_LONGITUDE := PropName(EXIF_NS, "GPSLongitude")
  const GPS_VERSION_ID := PropName(EXIF_NS, "GPSVersionID")
  const GPS_ALTITUDE := PropName(EXIF_NS, "GPSAltitude")

  /** `exempi::SerialFlags`, the two flags the callers choose between. */
  datatype SerialFlags = SerialFlags(omitPacketWrapper: bool, useCompactFormat: bool)

  /**
   * The toolkit calls: `Xmp::from_buffer`, whether `set_property` accepts a
   * value, and `serialize_and_format` with the given flags.
   */
  datatype Engine = Engine(
    fromBuffer: Bytes -> Option<Doc>,
    setAccepts: (Doc, PropName, string) -> bool,
    serialize: (Doc, SerialFlags) -> Option<Bytes>)

  /** `Xmp::has_property`; also what `get_property(..).is_ok()` tests. */
  predicate HasProperty(doc: Doc, prop: PropName) {
    prop in doc
  }

  /** `Xmp::set_property`: the property takes the value, or the call fails and the document is kept. */
  function SetProperty(e: Engine, doc: Doc, prop: PropName, value: string): (r: Option<Doc>)
    ensures r.None? <==> !e.setAccepts(doc, prop, value)
    ensures r.Some? ==> r.value.Keys == doc.Keys + {prop} && r.value[prop] == value
    ensures r.Some? ==> forall q :: q in doc && q != prop ==> r.value[q] == doc[q]
  {
    if e.setAccepts(doc, prop, value) then Some(doc[prop := value]) else None
  }

  /** The names a list of assignments sets. */
  function Names(ps: seq<(PropName, string)>): set<PropName> {
    set i | 0 <= i < |ps| :: ps[i].0
  }

  /** No name is assigned twice. */
  predicate Distinct(ps: seq<(PropName, string)>) {
    forall i, j :: 0 <= i < j < |ps| ==> ps[i].0 != ps[j].0
  }

  /** What a run of successful `set_property` calls, in order, makes of a document. */
  function Assign(doc: Doc, ps: seq<(PropName, string)>): Doc
    decreases |ps|
  {
    if ps == [] then doc else Assign(doc[ps[0].0 := ps[0].1], ps[1..])
  }

  datatype SetOutcome = AllSet(doc: Doc) | Refused(prop: PropName)

  /**
   * A run of `set_property(..)?` calls: stops at the first refused property;
   * when none is refused the document holds all of the assignments.
   */
  function SetAll(e: Engine, doc: Doc, ps: seq<(PropName, string)>): (r: SetOutcome)
    ensures r.AllSet? ==> r.doc == Assign(doc, ps)
    ensures r.Refused? ==> r.prop in Names(ps)
    decreases |ps|
  {
    if ps == [] then AllSet(doc)
    else match SetProperty(e, doc, ps[0].0, ps[0].1)
      case None => Refused(ps[0].0)
      case Some(d) =>
        var rest := SetAll(e, d, ps[1..]);
        assert Names(ps[1..]) <= Names(ps) by {
          forall q | q in Names(ps[1..]) ensures q in Names(ps) {
            var i :| 0 <= i < |ps[1..]| && ps[1..][i].0 == q;
            assert ps[i + 1].0 == q;
          }
        }
        rest
  }

  /** The engine accepts each of the first `k` assignments, each made on the document the earlier ones left. */
  predicate AcceptsFirst(e: Engine, doc: Doc, ps: seq<(PropName, string)>, k: nat)
    requires k <= |ps|
  {
    forall i :: 0 <= i < k ==> e.setAccepts(Assign(doc, ps[..i]), ps[i].0, ps[i].1)
  }

  /** After the first assignment, a prefix of the run is a prefix of the rest of the run. */
  lemma AssignPrefixStep(doc: Doc, ps: seq<(PropName, string)>, i: nat)
    requires 0 < i <= |ps|
    ensures Assign(doc, ps[..i]) == Assign(doc[ps[0].0 := ps[0].1], ps[1..][..i - 1])
  {
    assert ps[..i][0] == ps[0] && ps[..i][1..] == ps[1..][..i - 1];
  }

  /** Accepting the first `k` assignments is accepting the first one and then `k - 1` of the rest. */
  lemma AcceptsFirstStep(e: Engine, doc: Doc, ps: seq<(PropName, string)>, k: nat)
    requires 0 < k <= |ps|
    ensures AcceptsFirst(e, doc, ps, k) <==>
      e.setAccepts(doc, ps[0].0, ps[0].1) && AcceptsFirst(e, doc[ps[0].0 := ps[0].1], ps[1..], k - 1)
  {
    var d := doc[ps[0].0 := ps[0].1];
    assert ps[..0] == [];
    forall i | 0 < i < k
      ensures e.setAccepts(Assign(doc, ps[..i]), ps[i].0, ps[i].1)
          <==> e.setAccepts(Assign(d, ps[1..][..i - 1]), ps[1..][i - 1].0, ps[1..][i - 1].1)
    {
      AssignPrefixStep(doc, ps, i);
    }
    if AcceptsFirst(e, doc, ps, k) {
      forall j | 0 <= j < k - 1 ensures e.setAccepts(Assign(d, ps[1..][..j]), ps[1..][j].0, ps[1..][j].1) {
        assert e.setAccepts(Assign(doc, ps[..j + 1]), ps[j + 1].0, ps[j + 1].1);
      }
    }
    if e.setAccepts(doc, ps[0].0, ps[0].1) && AcceptsFirst(e, d, ps[1..], k - 1) {
      forall i | 0 <= i < k ensures e.setAccepts(Assign(doc, ps[..i]), ps[i].0, ps[i].1) {
        if i > 0 {
          assert e.setAccepts(Assign(d, ps[1..][..i - 1]), ps[1..][i - 1].0, ps[1..][i - 1].1);
        }
      }
    }
  }

  /**
   * A run of `set_property` calls succeeds exactly when the engine accepts
   * every call, and a refused run names the first property the engine
   * refused, every earlier call having been accepted.
   */
  lemma {:induction false} SetAllFirstRefusal(e: Engine, doc: Doc, ps: seq<(PropName, string)>)
    ensures SetAll(e, doc, ps).AllSet? <==> AcceptsFirst(e, doc, ps, |ps|)
    ensures SetAll(e, doc, ps).Refused? ==>
      exists k :: 0 <= k < |ps| && SetAll(e, doc, ps).prop == ps[k].0
        && !e.setAccepts(Assign(doc, ps[..k]), ps[k].0, ps[k].1) && AcceptsFirst(e, doc, ps, k)
    decreases |ps|
  {
    if ps != [] {
      assert ps[..0] == [];
      AcceptsFirstStep(e, doc, ps, |ps|);
      if e.setAccepts(doc, ps[0].0, ps[0].1) {
        var d := doc[ps[0].0 := ps[0].1];
        var tail := ps[1..];
        SetAllFirstRefusal(e, d, tail);
        assert SetAll(e, doc, ps) == SetAll(e, d, tail);
        if SetAll(e, d, tail).Refused? {
          var j :| 0 <= j < |tail| && SetAll(e, d, tail).prop == tail[j].0
            && !e.setAccepts(Assign(d, tail[..j]), tail[j].0, tail[j].1) && AcceptsFirst(e, d, tail, j);
          AssignPrefixStep(doc, ps, j + 1);
          AcceptsFirstStep(e, doc, ps, j + 1);
          assert ps[j + 1] == tail[j];
        }
      } else {
        assert AcceptsFirst(e, doc, ps, 0);
      }
    }
  }

  /**
   * Distinct assignments set exactly their names to their values and keep
   * every other property of the document.
   */
  lemma {:induction false} AssignEffect(doc: Doc, ps: seq<(PropName, string)>)
    requires Distinct(ps)
    ensures Assign(doc, ps).Keys == doc.Keys + Names(ps)
    ensures forall i :: 0 <= i < |ps| ==> Assign(doc, ps)[ps[i].0] == ps[i].1
    ensures forall q :: q in doc && q !in Names(ps) ==> Assign(doc, ps)[q] == doc[q]
    decreases |ps|
  {
    if ps != [] {
      var d := doc[ps[0].0 := ps[0].1];
      var tail := ps[1..];
      AssignEffect(d, tail);
      assert Names(ps) == {ps[0].0} + Names(tail) by {
        forall q | q in Names(ps) ensures q in {ps[0].0} + Names(tail) {
          var i :| 0 <= i < |ps| && ps[i].0 == q;
          if i > 0 { assert tail[i - 1].0 == q; }
        }
        forall q | q in Names(tail) ensures q in Names(ps) {
          var i :| 0 <= i < |tail| && tail[i].0 == q;
          assert ps[i + 1].0 == q;
        }
      }
      assert ps[0].0 !in Names(tail) by {
        forall i | 0 <= i < |tail| ensures tail[i].0 != ps[0].0 {
          assert tail[i] == ps[i + 1];
        }
      }
      forall i | 0 <= i < |ps| ensures Assign(doc, ps)[ps[i].0] == ps[i].1 {
        if i > 0 { assert ps[i] == tail[i - 1]; }
      }
    }
  }
}
