/** The GPX tracklog source (src/tracklog.rs), a stub that holds nothing. */
module Tracklog {
  import opened Paths

  datatype TracklogTagger = TracklogTagger {
    /** `Tagger::get_coord_for_file`: never any coordinates. */
    function GetCoordForFile(file: Path): (c: (string, string))
      ensures c.0 == "" && c.1 == ""
    {
      ("", "")
    }

    /** `Tagger::is_ok`: never usable. */
    predicate IsOk(): (ok: bool)
      ensures !ok
    {
      false
    }
  }

  /** `TracklogTagger::new`: the tracklog path is neither read nor kept. */
  function New(path: string): TracklogTagger {
    TracklogTagger
  }
}
