/**
 Documents whose text is already a delimited table, and what the table builder
 (netlify/functions/extract.js) makes of them.
 */
module TextTables {
  import opened Seqs
  import opened JsString
  import opened TableResult
  import opened LineClassifier
  import opened Delimiters
  import opened RowNormalizer
  import opened TableBuilder

  /** A line of cells that survives the trip through the text: trimmed cells free of
      the delimiter and of line breaks, a non-empty first cell, enough cells for the
      line to be recognised as delimited (two around a tab, three otherwise), and a
      delimiter the resolver picks for them. */
  predicate CleanLine(cells: seq<string>, d: char)
  {
    && (|cells| >= 3 || (d == '\t' && |cells| >= 2))
    && |cells[0]| > 0
    && PicksDelimiter(cells, d)
    && forall i :: 0 <= i < |cells| ==> IsTrimmed(cells[i]) && d !in cells[i] && '\n' !in cells[i]
  }

  /** The document text of a table: one line per row, cells joined by `d`. */
  function TextLines(header: seq<string>, rows: seq<seq<string>>, d: char): (lines: seq<string>)
    ensures |lines| == |rows| + 1
  {
    [Join(header, [d])] + seq(|rows|, j requires 0 <= j < |rows| => Join(rows[j], [d]))
  }

  function TextOf(header: seq<string>, rows: seq<seq<string>>, d: char): string
  {
    Join(TextLines(header, rows, d), "\n")
  }

  /** A clean line is kept by the blank-line filter, is a table line, and splits back
      into its cells. */
  lemma CleanLineFacts(cells: seq<string>, d: char)
    requires CleanLine(cells, d)
    ensures '\n' !in Join(cells, [d])
    ensures IsNonBlank(Join(cells, [d]))
    ensures IsDelimited(Join(cells, [d]))
    ensures Split(Join(cells, [d]), d) == cells
  {
    var line := Join(cells, [d]);
    JoinedLineDelimiter(cells, d);
    JoinFree(cells, [d], '\n');
    assert line[0] == cells[0][0];
    TrimEmptyIffAllSpace(line);
  }

  /** Every line of a clean table's text is kept, is a table line, and holds no
      line break. */
  lemma TextLinesFacts(header: seq<string>, rows: seq<seq<string>>, d: char)
    requires CleanLine(header, d)
    requires forall j :: 0 <= j < |rows| ==> CleanLine(rows[j], d)
    ensures var lines := TextLines(header, rows, d);
      forall i :: 0 <= i < |lines| ==> '\n' !in lines[i] && IsNonBlank(lines[i]) && IsDelimited(lines[i])
  {
    var lines := TextLines(header, rows, d);
    forall i | 0 <= i < |lines|
      ensures '\n' !in lines[i] && IsNonBlank(lines[i]) && IsDelimited(lines[i])
    {
      if i == 0 {
        CleanLineFacts(header, d);
      } else {
        assert lines[i] == Join(rows[i - 1], [d]);
        CleanLineFacts(rows[i - 1], d);
      }
    }
  }

  /** The table lines of a clean table's text are all of its lines. */
  lemma TextTableLines(header: seq<string>, rows: seq<seq<string>>, d: char)
    requires CleanLine(header, d)
    requires forall j :: 0 <= j < |rows| ==> CleanLine(rows[j], d)
    ensures IdentifyTableLines(NonBlankLines(TextOf(header, rows, d))) == TextLines(header, rows, d)
  {
    var lines := TextLines(header, rows, d);
    TextLinesFacts(header, rows, d);
    JoinSplit(lines, '\n');
    FilterAll(lines, IsNonBlank);
    assert NonBlankLines(TextOf(header, rows, d)) == lines;
    FilterAll(lines, IsDelimited);
  }

  /** Every row line of a clean table's text parses back to its row. */
  lemma TextRows(header: seq<string>, rows: seq<seq<string>>, d: char)
    requires |header| >= 1
    requires forall j :: 0 <= j < |rows| ==> |rows[j]| == |header| && CleanLine(rows[j], d)
    ensures ParseRows(TextLines(header, rows, d)[1..], |header|) == rows
  {
    var lines := TextLines(header, rows, d);
    var k := |header|;
    forall j | 0 <= j < |rows|
      ensures ParseTableRow(lines[1..][j], k) == rows[j]
    {
      assert lines[1..][j] == Join(rows[j], [d]);
      RowRoundTrip(rows[j], d, k);
      var r := PadOrCollapse(rows[j], k);
      assert r == r[..|rows[j]|];
    }
  }

  /** Round trip through the text: a header of non-empty names and rows of as many
      cells, written one line each with the same delimiter, are rebuilt exactly. */
  lemma BuildRoundTrip(header: seq<string>, rows: seq<seq<string>>, d: char)
    requires CleanLine(header, d)
    requires forall i :: 0 <= i < |header| ==> |header[i]| > 0
    requires forall j :: 0 <= j < |rows| ==> |rows[j]| == |header| && CleanLine(rows[j], d)
    ensures Build(TextOf(header, rows, d)) == Table(header, rows)
  {
    var text := TextOf(header, rows, d);
    TextTableLines(header, rows, d);
    HeaderRoundTrip(header, d);
    TextRows(header, rows, d);
  }

  /** `| a | b |` is the pieces `""`, ` a `, ` b `, `""` joined by pipes. */
  lemma PipeFramedJoin(a: string, b: string)
    ensures "| " + a + " | " + b + " |" == Join(["", " " + a + " ", " " + b + " ", ""], "|")
  {
    var pieces := ["", " " + a + " ", " " + b + " ", ""];
    assert Join(pieces[3..], "|") == "";
    assert Join(pieces[2..], "|") == " " + b + " " + "|";
    assert Join(pieces[1..], "|") == " " + a + " " + "|" + (" " + b + " " + "|");
  }

  /** The pieces of `| a | b |`, trimmed, are the two names between two empty pieces. */
  lemma PipeFramedTrim(a: string, b: string)
    requires |a| > 0 && |b| > 0 && IsTrimmed(a) && IsTrimmed(b)
    ensures TrimAll(["", " " + a + " ", " " + b + " ", ""]) == ["", a, b, ""]
  {
    var pieces := ["", " " + a + " ", " " + b + " ", ""];
    assert TrimAll(pieces) == [Trim(pieces[0]), Trim(pieces[1]), Trim(pieces[2]), Trim(pieces[3])];
    TrimEmpty();
    TrimSpaced(a);
    TrimSpaced(b);
  }

  /** The pipe-framed line `| a | b |` holds a pipe and no tab, and its trimmed pipe
      pieces are the two names between two empty pieces at the frame. */
  lemma PipeFramedPieces(a: string, b: string)
    requires |a| > 0 && |b| > 0 && IsTrimmed(a) && IsTrimmed(b)
    requires '|' !in a && '|' !in b && '\t' !in a && '\t' !in b
    ensures var line := "| " + a + " | " + b + " |";
      && '|' in line && '\t' !in line
      && TrimAll(Split(line, '|')) == ["", a, b, ""]
  {
    var line := "| " + a + " | " + b + " |";
    var pieces := ["", " " + a + " ", " " + b + " ", ""];
    PipeFramedJoin(a, b);
    JoinSplit(pieces, '|');
    JoinFree(pieces, "|", '\t');
    assert line[0] == '|';
    PipeFramedTrim(a, b);
  }

  /** Dropping the empty pieces at the frame. */
  lemma FramedNonEmpty(a: string, b: string)
    requires |a| > 0 && |b| > 0
    ensures Filter(["", a, b, ""], NonEmpty) == [a, b]
  {
    assert Filter([""], NonEmpty) == [] by {
      assert [""][1..] == [];
    }
    assert ["", a, b, ""][1..] == [a, b, ""] && [a, b, ""][1..] == [b, ""] && [b, ""][1..] == [""];
    assert Filter([b, ""], NonEmpty) == [b];
  }

  /** Merging the pieces after the first with spaces. */
  lemma FramedMerge(a: string, b: string)
    ensures PadOrCollapse(["", a, b, ""], 2) == ["", a + " " + b + " "]
  {
    assert Join([""], " ") == "";
    assert Join([b, ""], " ") == b + " " + "";
    assert Join([a, b, ""], " ") == a + " " + (b + " " + "");
    var cells := ["", a, b, ""];
    assert cells[1..] == [a, b, ""];
    var r := PadOrCollapse(cells, 2);
    assert r[..1][0] == r[0] && cells[..1][0] == cells[0];
    assert r == [r[0], r[1]];
    assert r[0] == "";
    assert r[1] == Join(cells[1..], " ");
    assert a + " " + (b + " " + "") == a + " " + b + " ";
  }

  /** A pipe-framed line `| a | b |`: as a header line the empty pieces at the frame
      are dropped; as a row they are kept, so the row has four pieces and with two
      columns the surplus merges into the second cell. */
  lemma PipeFramed(a: string, b: string)
    requires |a| > 0 && |b| > 0 && IsTrimmed(a) && IsTrimmed(b)
    requires '|' !in a && '|' !in b && '\t' !in a && '\t' !in b
    ensures ParseTableHeaders("| " + a + " | " + b + " |") == [a, b]
    ensures ParseTableRow("| " + a + " | " + b + " |", 2) == ["", a + " " + b + " "]
  {
    PipeFramedPieces(a, b);
    FramedNonEmpty(a, b);
    FramedMerge(a, b);
  }

  /** A cell of a two-column comma or pipe table: a non-empty word holding no
      whitespace, no line break and none of the characters tab, `|` and `,`. */
  predicate PlainCell(cell: string)
  {
    && |cell| > 0 && NoSpace(cell)
    && '\t' !in cell && '|' !in cell && ',' !in cell && '\n' !in cell
  }

  predicate PlainPair(cells: seq<string>)
  {
    |cells| == 2 && PlainCell(cells[0]) && PlainCell(cells[1])
  }

  /** Two cells joined by a delimiter. */
  lemma PairJoin(cells: seq<string>, d: char)
    requires |cells| == 2
    ensures Join(cells, [d]) == cells[0] + [d] + cells[1]
  {
    JoinCons(cells[0], cells[1..], [d]);
    assert cells[1..] == [cells[1]];
  }

  /** The joined line of a plain pair: no whitespace, no line break, no tab, and one
      occurrence of each of `,` and `|` at most. */
  lemma PlainPairLine(cells: seq<string>, d: char)
    requires d == ',' || d == '|'
    requires PlainPair(cells)
    ensures var line := cells[0] + [d] + cells[1];
      && |line| > 0 && NoSpace(line) && '\n' !in line && '\t' !in line
      && multiset(line)[','] <= 1 && multiset(line)['|'] <= 1
  {
    var line := cells[0] + [d] + cells[1];
    forall i | 0 <= i < |line|
      ensures !IsSpace(line[i])
    {
      if i < |cells[0]| {
        assert line[i] == cells[0][i];
      } else if i > |cells[0]| {
        assert line[i] == cells[1][i - |cells[0]| - 1];
      }
    }
    assert multiset(line) == multiset(cells[0]) + multiset{d} + multiset(cells[1]);
  }

  /** `a,b` and `a|b` hold a single delimiter, one fewer than the line test asks for, so
      such a line is kept by the blank-line filter but is not a table line. */
  lemma TwoCellLine(cells: seq<string>, d: char)
    requires d == ',' || d == '|'
    requires PlainPair(cells)
    ensures var line := Join(cells, [d]);
      '\n' !in line && IsNonBlank(line) && !IsDelimited(line)
  {
    var line := Join(cells, [d]);
    PairJoin(cells, d);
    PlainPairLine(cells, d);
    NoSpaceNoRun(line, 3);
    assert !IsSpace(line[0]);
    TrimEmptyIffAllSpace(line);
    DelimitedMeans(line);
  }

  /** The lines of a two-column comma or pipe table: every line is kept and none is a
      table line. */
  lemma TwoColumnLines(header: seq<string>, rows: seq<seq<string>>, d: char)
    requires d == ',' || d == '|'
    requires PlainPair(header)
    requires forall j :: 0 <= j < |rows| ==> PlainPair(rows[j])
    ensures NonBlankLines(TextOf(header, rows, d)) == TextLines(header, rows, d)
    ensures CountIf(TextLines(header, rows, d), IsDelimited) == 0
  {
    var lines := TextLines(header, rows, d);
    forall i | 0 <= i < |lines|
      ensures '\n' !in lines[i] && IsNonBlank(lines[i]) && !IsDelimited(lines[i])
    {
      if i == 0 {
        TwoCellLine(header, d);
      } else {
        assert lines[i] == Join(rows[i - 1], [d]);
        TwoCellLine(rows[i - 1], d);
      }
    }
    JoinSplit(lines, '\n');
    FilterAll(lines, IsNonBlank);
    FilterNone(lines, IsDelimited);
  }

  /** The first `m` rows' text is the first `m + 1` lines. */
  lemma TextLinesPrefix(header: seq<string>, rows: seq<seq<string>>, d: char, m: nat)
    requires m <= |rows|
    ensures TextLines(header, rows, d)[..m + 1] == TextLines(header, rows[..m], d)
  {
    var a := TextLines(header, rows, d)[..m + 1];
    var b := TextLines(header, rows[..m], d);
    assert |a| == |b|;
    forall i | 0 <= i < |a|
      ensures a[i] == b[i]
    {
      if i > 0 {
        assert rows[..m][i - 1] == rows[i - 1];
      }
    }
  }

  /** The cells of a plain pair are what the delimiter round trips ask for. */
  lemma PlainPairClean(cells: seq<string>, d: char)
    requires d == ',' || d == '|'
    requires PlainPair(cells)
    ensures PicksDelimiter(cells, d)
    ensures forall i :: 0 <= i < |cells| ==> |cells[i]| > 0 && IsTrimmed(cells[i]) && d !in cells[i]
  {
    forall i | 0 <= i < |cells|
      ensures |cells[i]| > 0 && IsTrimmed(cells[i]) && d !in cells[i]
      ensures '\t' !in cells[i] && '|' !in cells[i]
    {
      assert PlainCell(cells[i]);
      assert !IsSpace(cells[i][0]) && !IsSpace(cells[i][|cells[i]| - 1]);
    }
  }

  /** A plain pair joined by `,` or `|` parses back to itself as a two-column row. */
  lemma PlainPairRow(cells: seq<string>, d: char)
    requires d == ',' || d == '|'
    requires PlainPair(cells)
    ensures ParseTableRow(Join(cells, [d]), 2) == cells
  {
    PlainPairClean(cells, d);
    RowRoundTrip(cells, d, 2);
    var r := PadOrCollapse(cells, 2);
    assert r == r[..2];
  }

  /** Every row line of a two-column comma or pipe table parses back to its row. */
  lemma TwoColumnRows(header: seq<string>, rows: seq<seq<string>>, d: char)
    requires d == ',' || d == '|'
    requires forall j :: 0 <= j < |rows| ==> PlainPair(rows[j])
    ensures ParseRows(TextLines(header, rows, d)[1..], 2) == rows
  {
    var lines := TextLines(header, rows, d);
    forall j | 0 <= j < |rows|
      ensures ParseTableRow(lines[1..][j], 2) == rows[j]
    {
      assert lines[1..][j] == Join(rows[j], [d]);
      PlainPairRow(rows[j], d);
    }
  }

  /** The first ten lines of a two-column comma or pipe table give back its header and
      its first nine rows. */
  lemma TwoColumnFirstTen(header: seq<string>, rows: seq<seq<string>>, d: char)
    requires d == ',' || d == '|'
    requires PlainPair(header)
    requires forall j :: 0 <= j < |rows| ==> PlainPair(rows[j])
    ensures var lines := TextLines(header, rows, d);
      && ParseTableHeaders(lines[0]) == header
      && ParseRows(lines[1..Min(10, |lines|)], 2) == rows[..Min(9, |rows|)]
  {
    var lines := TextLines(header, rows, d);
    var m := Min(9, |rows|);
    var kept := rows[..m];
    assert lines[1..Min(10, |lines|)] == TextLines(header, kept, d)[1..] by {
      assert Min(10, |lines|) == m + 1;
      TextLinesPrefix(header, rows, d, m);
    }
    PlainPairClean(header, d);
    HeaderRoundTrip(header, d);
    TwoColumnRows(header, kept, d);
  }

  /** A two-column comma or pipe table is not recognised by its delimiters: with three
      or more lines the first ten lines are taken, so the header survives and only the
      first nine rows are kept. */
  lemma TwoColumnTableKeepsNineRows(header: seq<string>, rows: seq<seq<string>>, d: char)
    requires d == ',' || d == '|'
    requires PlainPair(header)
    requires forall j :: 0 <= j < |rows| ==> PlainPair(rows[j])
    requires |rows| >= 2
    ensures Build(TextOf(header, rows, d)) == Table(header, rows[..Min(9, |rows|)])
  {
    TwoColumnLines(header, rows, d);
    FirstTenLines(TextOf(header, rows, d));
    TwoColumnFirstTen(header, rows, d);
  }
}
