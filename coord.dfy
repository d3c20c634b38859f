/**
 * The literal-coordinate source (src/coord.rs): the command-line argument
 * `x,y` split on `,`, the two tokens kept as they are.
 */
module Coord {
  import opened Paths

  /** Index of the first occurrence of `c` in `s`. */
  function IndexOf(s: string, c: char): (i: nat)
    requires c in s
    ensures i < |s| && s[i] == c && c !in s[..i]
  {
    if s[0] == c then 0 else 1 + IndexOf(s[1..], c)
  }

  /** The pieces joined back together, `sep` between neighbours. */
  function Join(parts: seq<string>, sep: char): string
    requires |parts| > 0
  {
    if |parts| == 1 then parts[0] else parts[0] + [sep] + Join(parts[1..], sep)
  }

  /**
   * `str::split(sep)` collected into a vector: one piece more than there are
   * separators, no piece holding a separator, and the pieces joined with
   * `sep` give back the input.
   */
  function Split(s: string, sep: char): (parts: seq<string>)
    ensures |parts| == multiset(s)[sep] + 1
    ensures forall i :: 0 <= i < |parts| ==> sep !in parts[i]
    ensures Join(parts, sep) == s
    decreases |s|
  {
    if sep !in s then [s]
    else
      var i := IndexOf(s, sep);
      var rest := Split(s[i + 1..], sep);
      assert s == s[..i] + [sep] + s[i + 1..];
      assert multiset(s) == multiset(s[..i]) + multiset{sep} + multiset(s[i + 1..]);
      assert ([s[..i]] + rest)[1..] == rest;
      [s[..i]] + rest
  }

  /**
   * The source keeps the first token in a field named `long` and the second
   * in `lat`; `get_coord_for_file` returns them in that order, so the first
   * token is what the caller writes as the latitude.
   */
  datatype CoordTagger = CoordTagger(long: string, lat: string) {
    /** `Tagger::get_coord_for_file`: the stored pair, whatever the file. */
    function GetCoordForFile(file: Path): (c: (string, string))
      ensures c.0 == long && c.1 == lat
    {
      (long, lat)
    }
  }

  /**
   * `CoordTagger::new`: exactly one comma in `arg` gives the two tokens
   * around it, unparsed; any other number of commas gives two empty strings.
   */
  function New(arg: string): (t: CoordTagger)
    ensures multiset(arg)[','] == 1 ==> t.long + "," + t.lat == arg && ',' !in t.long && ',' !in t.lat
    ensures multiset(arg)[','] != 1 ==> t == CoordTagger("", "")
  {
    var v := Split(arg, ',');
    if |v| == 2 then
      assert v[1..] == [v[1]];
      CoordTagger(v[0], v[1])
    else CoordTagger("", "")
  }

  /** Where two comma-free halves meet, the comma is at the same place. */
  lemma CommaSplitUnique(a: string, b: string, c: string, d: string)
    requires a + "," + b == c + "," + d
    requires ',' !in a && ',' !in b && ',' !in c && ',' !in d
    ensures a == c && b == d
  {
    var s := a + "," + b;
    assert s[|a|] == ',';
    assert s[|c|] == ',';
    assert a == s[..|a|] && c == s[..|c|];
    assert b == s[|a| + 1..] && d == s[|c| + 1..];
  }

  /**
   * Every comma-free pair of tokens is accepted as it is: `New` of
   * `a,b` stores `a` and `b` and nothing else, empty tokens included.
   */
  lemma NewAcceptsPair(a: string, b: string)
    requires ',' !in a && ',' !in b
    ensures New(a + "," + b) == CoordTagger(a, b)
  {
    var arg := a + "," + b;
    assert multiset(arg) == multiset(a) + multiset{','} + multiset(b);
    var t := New(arg);
    CommaSplitUnique(t.long, t.lat, a, b);
  }

  /**
   * For every argument and file, the pair handed out is the text before and
   * after the only comma, or two empty strings when the comma count is not one.
   */
  lemma CoordsFromArgument(arg: string, file: Path)
    ensures New(arg).GetCoordForFile(file) ==
      if multiset(arg)[','] == 1 then
        var i := IndexOf(arg, ',');
        (arg[..i], arg[i + 1..])
      else ("", "")
  {
    if multiset(arg)[','] == 1 {
      var i := IndexOf(arg, ',');
      assert arg == arg[..i] + "," + arg[i + 1..];
      assert multiset(arg) == multiset(arg[..i]) + multiset{','} + multiset(arg[i + 1..]);
      NewAcceptsPair(arg[..i], arg[i + 1..]);
    }
  }

  /** `test_parsing`: a well-formed argument and one with the wrong delimiter. */
  lemma TestParsing()
    ensures New("12.34,-45.54").GetCoordForFile(Path(false, [])) == ("12.34", "-45.54")
  {
    assert "12.34" + "," + "-45.54" == "12.34,-45.54";
    NewAcceptsPair("12.34", "-45.54");
  }

  lemma TestParsingInvalid()
    ensures New("12.34/-45.54").GetCoordForFile(Path(false, [])) == ("", "")
  {
    NewRejectsCommaFree("12.34/-45.54");
  }

  /** An argument without a comma is refused: both tokens are empty. */
  lemma NewRejectsCommaFree(arg: string)
    requires ',' !in arg
    ensures New(arg) == CoordTagger("", "")
  {
    assert multiset(arg)[','] == 0;
  }
}
