/**
 The composition shared by `extractFromPDF`, `extractFromWord` and
 `extractFromText` (netlify/functions/extract.js): the decoded document text is
 split into non-blank lines, the table lines are picked, the first gives the
 headers and every later one a row coerced to the header count; with no table
 lines the Key/Value fallback is returned.
 */
module TableBuilder {
  import opened Seqs
  import opened JsString
  import opened TableResult
  import opened LineClassifier
  import opened Delimiters
  import opened RowNormalizer
  import opened GenericTable

  /** No table is detected: at most two non-blank lines and none delimited. */
  predicate NoTableDetected(text: string)
  {
    |NonBlankLines(text)| <= 2 && CountIf(NonBlankLines(text), IsDelimited) == 0
  }

  /** The rows: every table line after the first, parsed to `k` cells. */
  function ParseRows(lines: seq<string>, k: nat): (rows: seq<seq<string>>)
    ensures |rows| == |lines|
    ensures k >= 1 ==> forall i :: 0 <= i < |rows| ==> |rows[i]| == k
  {
    seq(|lines|, i requires 0 <= i < |lines| => ParseTableRow(lines[i], k))
  }

  function Build(text: string): (t: Table)
    ensures NoTableDetected(text) ==> t == CreateGenericTable(text)
    ensures !NoTableDetected(text) ==>
              var candidates := IdentifyTableLines(NonBlankLines(text));
              && |candidates| > 0
              && t.headers == ParseTableHeaders(candidates[0])
              && t.rows == ParseRows(candidates[1..], |t.headers|)
    ensures |t.headers| >= 1 ==> Rectangular(t)
  {
    var lines := NonBlankLines(text);
    var tableLines := IdentifyTableLines(lines);
    if |tableLines| > 0 then
      var headers := ParseTableHeaders(tableLines[0]);
      Table(headers, ParseRows(tableLines[1..], |headers|))
    else
      CreateGenericTable(text)
  }

  /** Empty text yields the empty Key/Value table. */
  lemma BuildEmpty()
    ensures Build("") == Table(["Key", "Value"], [])
  {
    assert Split("", '\n') == [""];
    assert NonBlankLines("") == [] by {
      assert CountIf([""], IsNonBlank) == 0 by {
        assert [""][1..] == [];
      }
    }
  }

  /** With at least three non-blank lines the fallback is never reached: the headers
      come from the first delimited line when at least three lines are delimited, and
      otherwise from the first line, whatever it holds. */
  lemma ThreeLinesMakeATable(text: string)
    requires |NonBlankLines(text)| >= 3
    ensures var lines := NonBlankLines(text);
      CountIf(lines, IsDelimited) < 3 ==> Build(text).headers == ParseTableHeaders(lines[0])
    ensures var lines := NonBlankLines(text);
      CountIf(lines, IsDelimited) >= 3 ==>
        && IsDelimited(IdentifyTableLines(lines)[0])
        && Build(text).headers == ParseTableHeaders(IdentifyTableLines(lines)[0])
  {
  }

  /** When fewer than three of three or more non-blank lines are table lines, the first
      ten lines are taken whatever they hold: the first gives the headers, the next
      nine at most give the rows, and every later line is dropped. */
  lemma FirstTenLines(text: string)
    requires |NonBlankLines(text)| >= 3 && CountIf(NonBlankLines(text), IsDelimited) < 3
    ensures var lines := NonBlankLines(text);
      var headers := ParseTableHeaders(lines[0]);
      Build(text) == Table(headers, ParseRows(lines[1..Min(10, |lines|)], |headers|))
  {
    var lines := NonBlankLines(text);
    assert IdentifyTableLines(lines)[1..] == lines[1..Min(10, |lines|)];
  }
}
