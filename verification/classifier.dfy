/**
 Line splitting and the line classifier `identifyTableLines`
 (netlify/functions/extract.js): which lines of the extracted text are taken
 as the table.
 */
module LineClassifier {
  import opened Seqs
  import opened JsString

  /** The filter `line.trim().length > 0`. */
  predicate IsNonBlank(line: string)
  {
    |Trim(line)| > 0
  }

  /** The non-blank pieces are not all whitespace and hold no character that no piece
      holds. */
  lemma NonBlankPieces(pieces: seq<string>, c: char)
    requires forall i :: 0 <= i < |pieces| ==> c !in pieces[i]
    ensures forall i :: 0 <= i < |Filter(pieces, IsNonBlank)| ==> !AllSpace(Filter(pieces, IsNonBlank)[i])
    ensures forall i :: 0 <= i < |Filter(pieces, IsNonBlank)| ==> c !in Filter(pieces, IsNonBlank)[i]
  {
    var r := Filter(pieces, IsNonBlank);
    FilterContents(pieces, IsNonBlank);
    forall i | 0 <= i < |r|
      ensures !AllSpace(r[i]) && c !in r[i]
    {
      TrimEmptyIffAllSpace(r[i]);
      assert r[i] in pieces;
    }
  }

  /** `text.split('\n').filter(line => line.trim().length > 0)`. The lines are not
      trimmed: leading whitespace and a trailing carriage return survive. */
  function NonBlankLines(text: string): (lines: seq<string>)
    ensures forall i :: 0 <= i < |lines| ==> !AllSpace(lines[i])
    ensures forall i :: 0 <= i < |lines| ==> '\n' !in lines[i]
    ensures IsSubsequence(lines, Split(text, '\n'))
    ensures forall x :: multiset(lines)[x] == if IsNonBlank(x) then multiset(Split(text, '\n'))[x] else 0
  {
    NonBlankPieces(Split(text, '\n'), '\n');
    FilterContents(Split(text, '\n'), IsNonBlank);
    Filter(Split(text, '\n'), IsNonBlank)
  }

  /** The line test of `identifyTableLines`: a tab, a split on `/\s{3,}/` with more
      than one piece, or a split on `,` or `|` with more than two pieces. */
  predicate IsDelimited(line: string)
  {
    || '\t' in line
    || |SplitRuns(line, 3)| > 1
    || |Split(line, ',')| > 2
    || |Split(line, '|')| > 2
  }

  /** A line is delimited exactly when it holds a tab, a run of three whitespace
      characters anywhere (also at its start), two commas, or two pipes. */
  lemma DelimitedMeans(line: string)
    ensures IsDelimited(line) <==>
      || '\t' in line
      || HasRun(line, 3)
      || multiset(line)[','] >= 2
      || multiset(line)['|'] >= 2
  {
    SplitRunsSeveral(line, 3);
    SplitCount(line, ',');
    SplitCount(line, '|');
  }

  /** Lines are not trimmed before the test: three leading whitespace characters alone
      make a line delimited. */
  lemma LeadingRunDelimited(line: string)
    requires |line| >= 3 && IsSpace(line[0]) && IsSpace(line[1]) && IsSpace(line[2])
    ensures IsDelimited(line)
  {
    assert RunAt(line, 0, 3) by {
      assert line[0..3] == [line[0], line[1], line[2]];
    }
    SplitRunsSeveral(line, 3);
  }

  /** `identifyTableLines`: the delimited lines when there are at least three of them
      (however many); otherwise the first ten lines when there are at least three
      lines; otherwise the (fewer than three) delimited lines. */
  function IdentifyTableLines(lines: seq<string>): (r: seq<string>)
    ensures IsSubsequence(r, lines)
    ensures CountIf(lines, IsDelimited) >= 3 || |lines| < 3 ==>
              && (forall i :: 0 <= i < |r| ==> IsDelimited(r[i]))
              && (forall x :: multiset(r)[x] == if IsDelimited(x) then multiset(lines)[x] else 0)
    ensures CountIf(lines, IsDelimited) < 3 && |lines| >= 3 ==> r == lines[..Min(10, |lines|)]
    ensures |r| == 0 <==> |lines| <= 2 && CountIf(lines, IsDelimited) == 0
  {
    var tableLines := Filter(lines, IsDelimited);
    FilterContents(lines, IsDelimited);
    if |tableLines| >= 3 then tableLines
    else if |lines| >= 3 then
      PrefixIsSubsequence(lines, Min(10, |lines|));
      lines[..Min(10, |lines|)]
    else tableLines
  }
}
