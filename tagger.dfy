/**
 * The coordinate supplier `tag_file` consumes (the `Tagger` trait of
 * src/tagger.rs), as the closed set of its two implementations.
 */
module Tagger {
  import opened Paths
  import Coord
  import Tracklog

  datatype Tagger = ByCoord(coord: Coord.CoordTagger) | ByTracklog(tracklog: Tracklog.TracklogTagger) {

    /** `get_coord_for_file`, dispatched to the implementation. */
    function GetCoordForFile(file: Path): (c: (string, string))
      ensures ByCoord? ==> c == (coord.long, coord.lat)
      ensures ByTracklog? ==> c == ("", "")
    {
      match this
      case ByCoord(c) => c.GetCoordForFile(file)
      case ByTracklog(t) => t.GetCoordForFile(file)
    }

    /**
     * `is_ok`. The coordinate source does not define it, so its answer is
     * the parameter `coordIsOk`; the tracklog source answers itself.
     */
    predicate IsOk(coordIsOk: bool): (ok: bool)
      ensures ok <==> ByCoord? && coordIsOk
    {
      match this
      case ByCoord(_) => coordIsOk
      case ByTracklog(t) => t.IsOk()
    }
  }

  /** Neither source looks at the file it is asked about. */
  lemma CoordsIgnoreFile(t: Tagger, f: Path, g: Path)
    ensures t.GetCoordForFile(f) == t.GetCoordForFile(g)
  {
  }

  /** A tracklog source, however built, is never usable and supplies two empty strings. */
  lemma TracklogNeverUsable(path: string, coordIsOk: bool, file: Path)
    ensures !ByTracklog(Tracklog.New(path)).IsOk(coordIsOk)
    ensures ByTracklog(Tracklog.New(path)).GetCoordForFile(file) == ("", "")
  {
  }
}
