/**
 The delimiter resolver for header lines, `parseTableHeaders`
 (netlify/functions/extract.js): pick tab, pipe or comma, else runs of two or
 more whitespace characters, else words, else three generic column names.
 */
module Delimiters {
  import opened Seqs
  import opened JsString

  /** `.map(c => c.trim())`. */
  function TrimAll(parts: seq<string>): (r: seq<string>)
    ensures |r| == |parts|
    ensures forall i :: 0 <= i < |r| ==> IsTrimmed(r[i])
  {
    seq(|parts|, i requires 0 <= i < |parts| => Trim(parts[i]))
  }

  predicate NonEmpty(cell: string)
  {
    |cell| > 0
  }

  /** `line.split(d).map(h => h.trim()).filter(h => h.length > 0)`. */
  function DelimitedHeaders(line: string, d: char): seq<string>
  {
    Filter(TrimAll(Split(line, d)), NonEmpty)
  }

  /** `line.split(/\s{2,}/).map(h => h.trim()).filter(h => h.length > 0)`. */
  function SpacedCells(line: string): seq<string>
  {
    Filter(TrimAll(SplitRuns(line, 2)), NonEmpty)
  }

  /** `line.trim().split(/\s+/)`. */
  function Words(line: string): seq<string>
  {
    SplitRuns(Trim(line), 1)
  }

  const GenericHeaders: seq<string> := ["Column 1", "Column 2", "Column 3"]

  /** `parseTableHeaders`: the first strategy that applies wins. */
  function ParseTableHeaders(line: string): (r: seq<string>)
    ensures '\t' in line ==> r == DelimitedHeaders(line, '\t')
    ensures '\t' !in line && '|' in line ==> r == DelimitedHeaders(line, '|')
    ensures '\t' !in line && '|' !in line && ',' in line ==> r == DelimitedHeaders(line, ',')
    ensures '\t' !in line && '|' !in line && ',' !in line ==>
              if |SpacedCells(line)| > 1 then r == SpacedCells(line)
              else if |Words(line)| <= 4 then r == Words(line)
              else r == GenericHeaders
  {
    if '\t' in line then DelimitedHeaders(line, '\t')
    else if '|' in line then DelimitedHeaders(line, '|')
    else if ',' in line then DelimitedHeaders(line, ',')
    else
      var spaced := SpacedCells(line);
      if |spaced| > 1 then spaced
      else
        var words := Words(line);
        if |words| <= 4 then words else GenericHeaders
  }

  /** Headers split on a tab, pipe or comma are trimmed, non-empty, free of that
      delimiter, and at most one more than the delimiter's occurrences. */
  lemma DelimitedHeadersShape(line: string, d: char)
    ensures var r := DelimitedHeaders(line, d);
      && |r| <= multiset(line)[d] + 1
      && forall i :: 0 <= i < |r| ==> |r[i]| > 0 && IsTrimmed(r[i]) && d !in r[i]
  {
    var pieces := Split(line, d);
    SplitCount(line, d);
    var trimmed := TrimAll(pieces);
    var r := Filter(trimmed, NonEmpty);
    assert forall j :: 0 <= j < |trimmed| ==> d !in trimmed[j] by {
      forall j | 0 <= j < |trimmed| {
        TrimChars(pieces[j], d);
      }
    }
    FilterContents(trimmed, NonEmpty);
  }

  /** A header line made of a single delimiter, such as `|` or `,`, has no headers. */
  lemma LoneDelimiterHasNoHeaders(d: char)
    requires d == '\t' || d == '|' || d == ','
    ensures ParseTableHeaders([d]) == []
  {
    var pieces := Split([d], d);
    assert [d][1..] == [];
    assert Split([], d) == [""];
    assert pieces == [""] + Split([], d);
    assert ["", ""][1..] == [""];
    assert CountIf(["", ""], NonEmpty) == 0;
    assert TrimAll(pieces) == ["", ""];
  }

  /** Without tab, pipe or comma the header line always yields at least one header;
      on the word path of a non-blank line the headers are its at most four words,
      each non-empty and free of whitespace. */
  lemma UndelimitedHeaders(line: string)
    requires '\t' !in line && '|' !in line && ',' !in line
    ensures |ParseTableHeaders(line)| >= 1
    ensures |SpacedCells(line)| <= 1 && |Trim(line)| > 0 && |Words(line)| <= 4 ==>
              var r := ParseTableHeaders(line);
              |r| <= 4 && forall i :: 0 <= i < |r| ==> |r[i]| > 0 && NoSpace(r[i])
  {
    if |Trim(line)| > 0 {
      WordsOfNonBlank(line);
    }
  }

  /** `d` is what the resolver picks for a line made of these pieces joined by `d`:
      a tab always wins, a pipe when no piece holds a tab, a comma when no piece holds
      a tab or a pipe. */
  predicate PicksDelimiter(cells: seq<string>, d: char)
  {
    || d == '\t'
    || (d == '|' && forall i :: 0 <= i < |cells| ==> '\t' !in cells[i])
    || (d == ',' && forall i :: 0 <= i < |cells| ==> '\t' !in cells[i] && '|' !in cells[i])
  }

  lemma JoinedLineDelimiter(cells: seq<string>, d: char)
    requires |cells| >= 2 && PicksDelimiter(cells, d)
    requires forall i :: 0 <= i < |cells| ==> d !in cells[i]
    ensures d in Join(cells, [d])
    ensures d != '\t' ==> '\t' !in Join(cells, [d])
    ensures d == ',' ==> '|' !in Join(cells, [d])
    ensures Split(Join(cells, [d]), d) == cells
  {
    JoinSplit(cells, d);
    assert Join(cells, [d])[|cells[0]|] == d;
    if d != '\t' {
      JoinFree(cells, [d], '\t');
    }
    if d == ',' {
      JoinFree(cells, [d], '|');
    }
  }

  /** Header round trip: non-empty trimmed names joined by the delimiter the resolver
      picks come back as the headers. */
  lemma HeaderRoundTrip(cells: seq<string>, d: char)
    requires |cells| >= 2 && PicksDelimiter(cells, d)
    requires forall i :: 0 <= i < |cells| ==> |cells[i]| > 0 && IsTrimmed(cells[i]) && d !in cells[i]
    ensures ParseTableHeaders(Join(cells, [d])) == cells
  {
    JoinedLineDelimiter(cells, d);
    forall i | 0 <= i < |cells| {
      TrimTrimmed(cells[i]);
    }
    assert TrimAll(cells) == cells;
    FilterAll(cells, NonEmpty);
  }

  /** Words round trip: non-empty words without whitespace, joined by single spaces,
      are the words of the line. */
  lemma WordsRoundTrip(words: seq<string>)
    requires |words| >= 1
    requires forall i :: 0 <= i < |words| ==> |words[i]| > 0 && NoSpace(words[i])
    ensures Words(Join(words, " ")) == words
  {
    var line := Join(words, " ");
    JoinHead(words, " ");
    JoinLast(words, " ");
    assert IsTrimmed(line);
    TrimTrimmed(line);
    WordsJoin(words);
  }

  /** Trimmed cells are left alone by the trimming map. */
  lemma TrimAllTrimmed(cells: seq<string>)
    requires forall i :: 0 <= i < |cells| ==> IsTrimmed(cells[i])
    ensures TrimAll(cells) == cells
  {
    forall i | 0 <= i < |cells|
      ensures TrimAll(cells)[i] == cells[i]
    {
      TrimTrimmed(cells[i]);
    }
  }

  /** Round trip of the multi-space path `split(/\s{2,}/).map(trim).filter(non-empty)`:
      non-empty trimmed cells, with single whitespace characters inside but no run of
      two, separated by whitespace runs of two or more, each gap of its own width, are
      read back exactly. */
  lemma SpacedRoundTrip(cells: seq<string>, seps: seq<string>)
    requires |seps| + 1 == |cells| && RunSeps(seps, 2)
    requires forall i :: 0 <= i < |cells| ==> RunCell(cells[i], 2)
    ensures SpacedCells(JoinWith(cells, seps)) == cells
  {
    RunsJoinWith(cells, seps, 2);
    TrimAllTrimmed(cells);
    FilterAll(cells, NonEmpty);
  }

  /** A whitespace separator holds no pipe and no comma. */
  lemma SeparatorsPlain(seps: seq<string>)
    requires RunSeps(seps, 2)
    ensures forall i :: 0 <= i < |seps| ==> '|' !in seps[i] && ',' !in seps[i]
  {
    forall i, j | 0 <= i < |seps| && 0 <= j < |seps[i]|
      ensures seps[i][j] != '|' && seps[i][j] != ','
    {
      assert IsSpace(seps[i][j]);
    }
  }

  /** A header line of two or more such cells, aligned by runs of spaces of any widths,
      with no tab, pipe or comma, gives back exactly those cells as headers. */
  lemma SpacedHeaders(cells: seq<string>, seps: seq<string>)
    requires |cells| >= 2 && |seps| + 1 == |cells| && RunSeps(seps, 2)
    requires forall i :: 0 <= i < |seps| ==> '\t' !in seps[i]
    requires forall i :: 0 <= i < |cells| ==>
               RunCell(cells[i], 2) && '\t' !in cells[i] && '|' !in cells[i] && ',' !in cells[i]
    ensures ParseTableHeaders(JoinWith(cells, seps)) == cells
  {
    SeparatorsPlain(seps);
    JoinWithFree(cells, seps, '\t');
    JoinWithFree(cells, seps, '|');
    JoinWithFree(cells, seps, ',');
    SpacedRoundTrip(cells, seps);
  }

  /** The cells of the aligned header `Name    Age  City`. */
  lemma AlignedCells(cells: seq<string>)
    requires cells == ["Name", "Age", "City"]
    ensures forall i :: 0 <= i < |cells| ==>
              RunCell(cells[i], 2) && '\t' !in cells[i] && '|' !in cells[i] && ',' !in cells[i]
  {
    forall i | 0 <= i < |cells|
      ensures RunCell(cells[i], 2)
    {
      NoSpaceNoRun(cells[i], 2);
    }
  }

  /** The gaps of the aligned header and the line they make. */
  lemma AlignedGaps(cells: seq<string>, seps: seq<string>)
    requires cells == ["Name", "Age", "City"] && seps == ["    ", "  "]
    ensures |seps| + 1 == |cells| && RunSeps(seps, 2)
    ensures forall i :: 0 <= i < |seps| ==> '\t' !in seps[i]
    ensures JoinWith(cells, seps) == "Name    Age  City"
  {
    assert JoinWith(cells[2..], seps[2..]) == "City";
  }

  /** A space-aligned header whose gaps differ in width. */
  lemma AlignedHeader()
    ensures ParseTableHeaders("Name    Age  City") == ["Name", "Age", "City"]
  {
    var cells := ["Name", "Age", "City"];
    var seps := ["    ", "  "];
    AlignedCells(cells);
    AlignedGaps(cells, seps);
    SpacedHeaders(cells, seps);
  }

  /** The empty piece a leading or trailing run of two or more whitespace characters
      leaves at that end of the split. */
  function Gap(pad: string): seq<string>
  {
    if |pad| >= 2 then [""] else []
  }

  /** Trailing padding that is empty or a run of two or more. */
  lemma TrailPieces(trail: string)
    requires AllSpace(trail) && (|trail| == 0 || |trail| >= 2)
    ensures SplitRuns(trail, 2) == [""] + Gap(trail)
  {
    if |trail| >= 2 {
      RunOnly(trail, 2);
    }
  }

  /** Cells separated by runs and followed by trailing padding split back into the cells
      and, if the padding is a run, one empty piece. */
  lemma JoinTrail(cells: seq<string>, seps: seq<string>, trail: string)
    requires |seps| + 1 == |cells| && RunSeps(seps, 2)
    requires forall i :: 0 <= i < |cells| ==> RunCell(cells[i], 2)
    requires AllSpace(trail) && (|trail| == 0 || |trail| >= 2)
    ensures SplitRuns(JoinWith(cells, seps) + trail, 2) == cells + Gap(trail)
  {
    assert SplitRuns(JoinWith(cells, seps) + trail, 2) == JoinedPieces(cells, trail, 2) by {
      RunsJoinThen(cells, seps, 2, trail);
    }
    assert JoinedPieces(cells, trail, 2) == cells + Gap(trail) by {
      TrailPieces(trail);
      JoinedPiecesGap(cells, trail, 2, Gap(trail));
    }
  }

  /** Glued cells, whatever follows them, start with the first cell's first character. */
  lemma JoinStarts(cells: seq<string>, seps: seq<string>, t: string)
    requires |seps| + 1 == |cells| && |cells[0]| > 0 && !IsSpace(cells[0][0])
    ensures |JoinWith(cells, seps) + t| > 0 && !IsSpace((JoinWith(cells, seps) + t)[0])
  {
    JoinWithHead(cells, seps);
  }

  /** Leading padding before text that starts with a non-space adds one empty piece
      when it is a run and nothing when it is empty. */
  lemma LeadThen(lead: string, y: string)
    requires AllSpace(lead) && (|lead| == 0 || |lead| >= 2)
    requires |y| > 0 && !IsSpace(y[0])
    ensures SplitRuns(lead + y, 2) == Gap(lead) + SplitRuns(y, 2)
  {
    if |lead| >= 2 {
      SeparatorThenCell(lead, y, 2);
    } else {
      assert lead + y == y;
    }
  }

  /** The multi-space split of padded cells: an empty piece for each end padded by two
      or more whitespace characters, and the cells in between. */
  lemma PaddedPieces(cells: seq<string>, seps: seq<string>, lead: string, trail: string)
    requires |seps| + 1 == |cells| && RunSeps(seps, 2)
    requires forall i :: 0 <= i < |cells| ==> RunCell(cells[i], 2)
    requires AllSpace(lead) && (|lead| == 0 || |lead| >= 2)
    requires AllSpace(trail) && (|trail| == 0 || |trail| >= 2)
    ensures SplitRuns(lead + (JoinWith(cells, seps) + trail), 2) == Gap(lead) + (cells + Gap(trail))
  {
    JoinTrail(cells, seps, trail);
    JoinStarts(cells, seps, trail);
    LeadThen(lead, JoinWith(cells, seps) + trail);
  }

  /** Trimming and dropping empty pieces removes the gaps and keeps non-empty trimmed
      cells. */
  lemma CleanGaps(cells: seq<string>, lead: string, trail: string)
    requires forall i :: 0 <= i < |cells| ==> |cells[i]| > 0 && IsTrimmed(cells[i])
    ensures Filter(TrimAll(Gap(lead) + (cells + Gap(trail))), NonEmpty) == cells
  {
    var pieces := Gap(lead) + (cells + Gap(trail));
    assert forall i :: 0 <= i < |pieces| ==> IsTrimmed(pieces[i]);
    TrimAllTrimmed(pieces);
    FilterAppend(Gap(lead), cells + Gap(trail), NonEmpty);
    FilterAppend(cells, Gap(trail), NonEmpty);
    FilterNone(Gap(lead), NonEmpty);
    FilterNone(Gap(trail), NonEmpty);
    FilterAll(cells, NonEmpty);
  }

  /** Round trip of the multi-space path with padding: leading and trailing runs of two
      or more whitespace characters leave empty pieces, which the filter drops, so the
      cells are read back exactly. */
  lemma SpacedPadded(cells: seq<string>, seps: seq<string>, lead: string, trail: string)
    requires |seps| + 1 == |cells| && RunSeps(seps, 2)
    requires forall i :: 0 <= i < |cells| ==> RunCell(cells[i], 2)
    requires AllSpace(lead) && (|lead| == 0 || |lead| >= 2)
    requires AllSpace(trail) && (|trail| == 0 || |trail| >= 2)
    ensures SpacedCells(lead + (JoinWith(cells, seps) + trail)) == cells
  {
    PaddedPieces(cells, seps, lead, trail);
    CleanGaps(cells, lead, trail);
  }
}
