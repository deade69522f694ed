/** The catalogue loader (parse_openings/src/main.rs): a tab-separated file
    of openings, one per line, becomes the list of openings to insert. */
module ParseOpenings {
  import Text
  import Seqs
  import OpeningMatch

  type Opening = OpeningMatch.Opening

  /** `format_row`: the fields of a line, split on tabs. There is one more
      field than there are tabs, and joining the fields with tabs gives the
      line back. */
  function FormatRow(row: string): (r: seq<string>)
    ensures |r| == Text.Count(row, '\t') + 1
    ensures Text.Join(r, '\t') == row
    ensures forall k :: 0 <= k < |r| ==> '\t' !in r[k]
  {
    Text.SplitPieces(row, '\t');
    Text.JoinSplit(row, '\t');
    Text.Split(row, '\t')
  }

  /** `open_file` after the read: the file's lines, each split into fields.
      A file ending in a line break yields a last row `[""]`. */
  function OpenFile(contents: string): (r: seq<seq<string>>)
    ensures |r| == Text.Count(contents, '\n') + 1 == |Text.Split(contents, '\n')|
    ensures forall k :: 0 <= k < |r| ==> r[k] == FormatRow(Text.Split(contents, '\n')[k])
  {
    var lines := Text.Split(contents, '\n');
    Text.SplitPieces(contents, '\n');
    seq(|lines|, k requires 0 <= k < |lines| => FormatRow(lines[k]))
  }

  /** A row becomes an opening when it has at least three fields and is not
      the header row (first field "eco"). */
  predicate Kept(row: seq<string>)
  {
    |row| >= 3 && row[0] != "eco"
  }

  /** The opening a kept row describes; fields after the third are ignored. */
  function ToOpening(row: seq<string>): (o: Opening)
    requires |row| >= 3
    ensures o.eco == row[0] && o.name == row[1] && o.pgn == row[2]
  {
    OpeningMatch.Opening(row[0], row[1], row[2])
  }

  /** The openings of the kept rows, in row order. */
  function Openings(data: seq<seq<string>>): seq<Opening>
    decreases |data|
  {
    if |data| == 0 then []
    else
      var row := data[|data| - 1];
      Openings(data[..|data| - 1]) + (if Kept(row) then [ToOpening(row)] else [])
  }

  /** `insert_file` up to the database insert: the openings it collects. */
  method InsertFile(data: seq<seq<string>>) returns (openings: seq<Opening>)
    ensures openings == Openings(data)
  {
    openings := [];
    var i := 0;
    while i < |data|
      invariant 0 <= i <= |data|
      invariant openings == Openings(data[..i])
    {
      var row := data[i];
      assert data[..i + 1][..i] == data[..i];
      if |row| < 3 || row[0] == "eco" {
        i := i + 1;
        continue;
      }
      var eco, name, moves := row[0], row[1], row[2];
      openings := openings + [OpeningMatch.Opening(eco, name, moves)];
      i := i + 1;
    }
    assert data[..i] == data;
  }

  /** Loading two runs of rows in turn is loading them together: the output
      follows row order. */
  lemma {:induction false} OpeningsConcat(a: seq<seq<string>>, b: seq<seq<string>>)
    ensures Openings(a + b) == Openings(a) + Openings(b)
    decreases |b|
  {
    if |b| > 0 {
      var init := b[..|b| - 1];
      OpeningsConcat(a, init);
      assert (a + b)[..|a + b| - 1] == a + init;
      assert (a + b)[|a + b| - 1] == b[|b| - 1];
      var last := if Kept(b[|b| - 1]) then [ToOpening(b[|b| - 1])] else [];
      assert Openings(a + b) == Openings(a + init) + last;
      assert Openings(b) == Openings(init) + last;
      Seqs.Assoc(Openings(a), Openings(init), last);
    } else {
      assert a + b == a;
    }
  }

  /** Every opening comes from a kept row, and every kept row gives one. */
  lemma {:induction false} OpeningsFromKeptRows(data: seq<seq<string>>)
    ensures |Openings(data)| <= |data|
    ensures forall o :: o in Openings(data) ==> exists k :: 0 <= k < |data| && Kept(data[k]) && o == ToOpening(data[k])
    ensures forall k :: 0 <= k < |data| && Kept(data[k]) ==> ToOpening(data[k]) in Openings(data)
    decreases |data|
  {
    if |data| > 0 {
      var init := data[..|data| - 1];
      OpeningsFromKeptRows(init);
      forall o | o in Openings(init)
        ensures exists k :: 0 <= k < |data| && Kept(data[k]) && o == ToOpening(data[k])
      {
        var k :| 0 <= k < |init| && Kept(init[k]) && o == ToOpening(init[k]);
        assert data[k] == init[k];
      }
      forall k | 0 <= k < |data| && Kept(data[k])
        ensures ToOpening(data[k]) in Openings(data)
      {
        if k < |init| {
          assert data[k] == init[k];
        }
      }
    }
  }

  /** The empty line after a final line break and the header line are never
      loaded. */
  lemma SkippedLines(name: string, pgn: string)
    requires '\t' !in name && '\t' !in pgn
    ensures !Kept(FormatRow(""))
    ensures !Kept(FormatRow("eco\t" + name + "\t" + pgn))
  {
    var row := FormatRow("eco\t" + name + "\t" + pgn);
    var fields := ["eco", name, pgn];
    assert Text.Join(fields[1..], '\t') == name + "\t" + pgn;
    assert Text.Join(fields, '\t') == "eco\t" + name + "\t" + pgn;
    Text.SplitJoin(fields, '\t');
    assert row[0] == "eco";
  }

  /** A well-formed catalogue line loads as the opening it spells out. */
  lemma {:induction false} LineRoundTrip(o: Opening)
    requires '\t' !in o.eco && '\t' !in o.name && '\t' !in o.pgn && o.eco != "eco"
    ensures Kept(FormatRow(o.eco + "\t" + o.name + "\t" + o.pgn))
    ensures ToOpening(FormatRow(o.eco + "\t" + o.name + "\t" + o.pgn)) == o
  {
    var fields := [o.eco, o.name, o.pgn];
    assert Text.Join(fields[1..], '\t') == o.name + "\t" + o.pgn;
    assert Text.Join(fields, '\t') == o.eco + "\t" + o.name + "\t" + o.pgn;
    Text.SplitJoin(fields, '\t');
  }
}
