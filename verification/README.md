# Table inference of the document extraction function

The document extraction tool's serverless function turns an uploaded PDF, Word or
text file into a table of headers and rows. After the file is decoded to plain
text, the same table-inference pipeline runs for every format:

1. The text is split into lines and blank lines are dropped.
2. `identifyTableLines` picks the lines that look tabular.
3. `parseTableHeaders` reads the column names from the first picked line.
4. `parseTableRow` splits every later picked line and pads or merges it to the
   header count.
5. When no line is picked, `createGenericTable` builds a two-column Key/Value table
   from short capitalised lines instead.

This project models that pipeline in Dafny as pure functions on `seq<char>`. It
proves what each step guarantees and how the steps compose.

Modules:

- `Seqs`: `Array.prototype.filter` as `Filter`, counting, and the subsequence order.
- `JsString`: the JavaScript string operations the pipeline uses.
  - `trim()` is `Trim`, on the ECMAScript whitespace set `IsSpace`.
  - `split` on one character is `Split`; `join` is `Join`. `IndexOf`, the position of the first
    occurrence of a character, is a helper for stating where a split cuts; extract.js
    never calls `indexOf`.
  - `split(/\s{k,}/)` is `SplitRuns`: the separators are the maximal whitespace
    runs of at least `k` characters.
  - `JoinWith(cells, seps)` glues cells with a separator of its own in every gap, the
    shape of a space-aligned line such as `Name    Age  City`; `join` is the case of
    one repeated separator (`JsString.JoinIsJoinWith`).
  - `.length` is `Utf16Length`, counting UTF-16 code units.
- `TableResult`: the `{ headers, rows }` result.
- `LineClassifier`: line splitting and `identifyTableLines`.
- `Delimiters`: `parseTableHeaders`.
- `RowNormalizer`: `parseTableRow`, including the word distribution loop.
- `GenericTable`: `createGenericTable`.
- `TableBuilder`: the shared composition, `Build(text)`.
- `TextTables`: documents whose text already is a delimited table.

The code behaves as follows, which its comments ("Try multiple spaces as delimiter" at
extract.js:241, "Fallback for documents without table structure" at extract.js:137)
do not suggest:

- `\s` and `trim()` treat every ECMAScript whitespace character as a separator,
  not just spaces and tabs.
- A long key phrase with no separator is cut on `split(' ')`, single spaces only.
  The key holds the first floor(m/2) of the m pieces and the value the rest. When the
  phrase holds a space, the halves glued with one space give it back. A phrase with no
  space has one piece, so its key is empty and its value is the whole phrase
  (`GenericTable.KeyValueLong`).
- A document with three or more non-blank lines never reaches the Key/Value
  fallback. With fewer than three delimited lines, its first ten lines become the
  table (`TableBuilder.ThreeLinesMakeATable`).
- A two-column comma or pipe table is not recognised by its delimiters. A line like
  `a,b` holds one comma, and a line needs two commas or two pipes to count. With
  three or more lines, the first ten lines are then taken, so every row after the
  ninth is dropped (`TextTables.TwoColumnTableKeepsNineRows`).
- The headers can be empty, for example when the header line is a lone `|`
  (`Delimiters.LoneDelimiterHasNoHeaders`).
  - The rows are then parsed with zero expected columns, so they are not coerced.
  - Rows on the word path come out empty (`RowNormalizer.ZeroColumns`).
  - "Every row has as many cells as there are headers" therefore holds only when
    there is at least one header (`TableBuilder.Build`).

## Model

All source paths are in `document-extraction-tool-v4/netlify/functions/extract.js`.

| member | source | states |
|---|---|---|
| LineClassifier.NonBlankLines | document-extraction-tool-v4/netlify/functions/extract.js:120 | the kept lines are pieces of the newline split, in order, none holding a newline. Every non-blank piece is kept as often as it occurs and no blank piece is kept |
| LineClassifier.IsDelimited | document-extraction-tool-v4/netlify/functions/extract.js:205-210 | the line test as written: a tab, more than one piece on `/\s{3,}/`, or more than two pieces on `,` or `|`. It has no contract of its own; `LineClassifier.DelimitedMeans` characterises it |
| LineClassifier.DelimitedMeans | document-extraction-tool-v4/netlify/functions/extract.js:203-211 | a line counts as tabular exactly when it holds a tab, a run of three whitespace characters, two commas or two pipes |
| LineClassifier.LeadingRunDelimited | document-extraction-tool-v4/netlify/functions/extract.js:207 | the patterns are matched against the untrimmed line, so three leading whitespace characters make a line delimited |
| LineClassifier.IdentifyTableLines | document-extraction-tool-v4/netlify/functions/extract.js:201-224 | the picked lines keep the input order. With at least three delimited lines, or fewer than three lines, they are exactly the delimited lines with their multiplicities. Otherwise they are the first ten lines. The result is empty exactly when there are at most two lines and none is delimited |
| JsString.SplitRuns | document-extraction-tool-v4/netlify/functions/extract.js:207 | `split(/\s{k,}/)` gives at least one piece. `JsString.SplitRunsSeveral` characterises when there is more than one, and `JsString.RunsJoinWith`, `JsString.RunsJoin` and `JsString.WordsJoin` what the pieces are |
| JsString.Split | document-extraction-tool-v4/netlify/functions/extract.js:208-209 | `split(c)` gives at least one piece and no piece holds c. `JsString.SplitCount` counts the pieces, and `JsString.SplitJoin` and `JsString.JoinSplit` make it the inverse of `join` |
| JsString.Trim | document-extraction-tool-v4/netlify/functions/extract.js:230 | `trim()` is the part of the string after its leading whitespace run: it is trimmed, and only whitespace follows it |
| JsString.Utf16Length | document-extraction-tool-v4/netlify/functions/extract.js:317 | `.length` lies between the number of characters and twice that. It equals the number of characters exactly when no character is outside the Basic Multilingual Plane |
| JsString.SplitRunsSeveral | document-extraction-tool-v4/netlify/functions/extract.js:207 | the split on `/\s{k,}/` gives more than one piece exactly when the line holds a whitespace run of length k |
| JsString.SplitCount | document-extraction-tool-v4/netlify/functions/extract.js:208-209 | a one-character split has exactly one piece more than the line has occurrences of that character |
| JsString.SplitAtFirst | document-extraction-tool-v4/netlify/functions/extract.js:327-328 | the first piece of a split is the text before the first separator, and the other pieces joined by the separator are all the text after it |
| JsString.SplitJoin | document-extraction-tool-v4/netlify/functions/extract.js:327-328 | joining the pieces of a one-character split with that character gives the string back |
| JsString.JoinSplit | document-extraction-tool-v4/netlify/functions/extract.js:327-328 | splitting parts joined by a character they do not hold gives the parts back |
| JsString.TrimPadded | document-extraction-tool-v4/netlify/functions/extract.js:230 | trimming removes exactly the whitespace padding around a trimmed core |
| JsString.RunsJoinWith | document-extraction-tool-v4/netlify/functions/extract.js:242 | cells that are non-empty, trimmed and free of a whitespace run of length k, with a whitespace run of length at least k in every gap, each gap of its own width, split on `/\s{k,}/` back into exactly those cells; single whitespace characters inside a cell stay |
| JsString.RunsJoin | document-extraction-tool-v4/netlify/functions/extract.js:242 | the same round trip for such cells joined by one whitespace separator of length at least k repeated in every gap |
| JsString.WordsJoin | document-extraction-tool-v4/netlify/functions/extract.js:248 | splitting words joined by single spaces on `/\s+/` gives back the words |
| Delimiters.ParseTableHeaders | document-extraction-tool-v4/netlify/functions/extract.js:227-256 | tab, then pipe, then comma decides the split. Without them, the whitespace-run cells win when there are more than one, then the words when there are at most four, then the three generic column names |
| Delimiters.DelimitedHeadersShape | document-extraction-tool-v4/netlify/functions/extract.js:229-239 | delimited headers are non-empty, trimmed and free of the delimiter, at most one more than the delimiter's occurrences |
| Delimiters.LoneDelimiterHasNoHeaders | document-extraction-tool-v4/netlify/functions/extract.js:229-239 | a header line that is a single tab, pipe or comma yields no headers |
| Delimiters.UndelimitedHeaders | document-extraction-tool-v4/netlify/functions/extract.js:241-255 | without a tab, pipe or comma there is always at least one header. On the word path of a non-blank line there are at most four, non-empty and without whitespace |
| Delimiters.HeaderRoundTrip | document-extraction-tool-v4/netlify/functions/extract.js:229-239 | non-empty trimmed names joined by the delimiter the resolver picks are read back as exactly those headers |
| Delimiters.SpacedRoundTrip | document-extraction-tool-v4/netlify/functions/extract.js:242 | on the multi-space path, non-empty trimmed cells with no run of two whitespace characters, separated by runs of two or more whose widths may differ from gap to gap, are read back exactly: nothing is added to a cell and no cell is dropped |
| Delimiters.AlignedHeader | document-extraction-tool-v4/netlify/functions/extract.js:241-245 | the space-aligned header `Name    Age  City`, whose gaps are four and two spaces wide, gives the headers `Name`, `Age` and `City` |
| Delimiters.PaddedPieces | document-extraction-tool-v4/netlify/functions/extract.js:242 | split on `/\s{2,}/`, such cells with gaps of any widths between a leading and a trailing run of two or more whitespace characters give one empty piece for each padded end, then the cells unchanged |
| Delimiters.CleanGaps | document-extraction-tool-v4/netlify/functions/extract.js:242 | `map(trim)` then `filter(length > 0)` removes exactly the empty pieces at the ends and keeps every non-empty trimmed cell, in order |
| Delimiters.SpacedPadded | document-extraction-tool-v4/netlify/functions/extract.js:242 | a padded line of such cells is read back exactly on the multi-space path: the padding adds no cell, because the empty pieces it leaves are dropped |
| Delimiters.SpacedHeaders | document-extraction-tool-v4/netlify/functions/extract.js:241-245 | a header line of two or more such cells, aligned by runs of two or more spaces of any widths and holding no tab, pipe or comma, gives exactly those cells as headers |
| Delimiters.WordsRoundTrip | document-extraction-tool-v4/netlify/functions/extract.js:248 | the words of a line made of words joined by single spaces are those words |
| RowNormalizer.Distribute | document-extraction-tool-v4/netlify/functions/extract.js:281-289 | the distribution loop gives exactly k cells. `RowNormalizer.DistributeColumn`, `RowNormalizer.DistributeLast` and `RowNormalizer.DistributeWords` state what each cell holds |
| RowNormalizer.DistributeColumn | document-extraction-tool-v4/netlify/functions/extract.js:281-289 | with more words than columns, each column but the last joins the floor(n/k) words starting at i·floor(n/k), and that count is at least one |
| RowNormalizer.DistributeLast | document-extraction-tool-v4/netlify/functions/extract.js:283-288 | with more words than columns, the last column takes every word from (k−1)·floor(n/k) to the end |
| RowNormalizer.DistributeWords | document-extraction-tool-v4/netlify/functions/extract.js:281-289 | the columns joined with spaces equal the words joined with spaces, so the distribution loses no word and keeps their order |
| RowNormalizer.WordCells | document-extraction-tool-v4/netlify/functions/extract.js:274-294 | with at most as many words as columns the words are kept, with more they become exactly k cells |
| RowNormalizer.SplitRow | document-extraction-tool-v4/netlify/functions/extract.js:262-295 | on the tab, pipe and comma paths, in that order, the cells are trimmed and there is one more cell than occurrences of the chosen delimiter. `RowNormalizer.RowRoundTrip` and `RowNormalizer.SpacedRowRoundTrip` state what the cells are on the delimiter and multi-space paths |
| RowNormalizer.PadOrCollapse | document-extraction-tool-v4/netlify/functions/extract.js:297-307 | for k ≥ 1 the result has k cells. Short rows keep their cells and gain empty ones; long rows keep their first k−1 cells and merge the rest with spaces. k = 0 leaves the row alone |
| RowNormalizer.PadOrCollapseIdempotent | document-extraction-tool-v4/netlify/functions/extract.js:297-307 | normalising a normalised row changes nothing |
| RowNormalizer.CollapseKeepsText | document-extraction-tool-v4/netlify/functions/extract.js:302-307 | merging the surplus loses no text: the row joined with spaces is unchanged |
| RowNormalizer.ParseTableRow | document-extraction-tool-v4/netlify/functions/extract.js:259-310 | with at least one expected column, every row has exactly that many cells |
| RowNormalizer.ZeroColumns | document-extraction-tool-v4/netlify/functions/extract.js:259-310 | with zero expected columns, delimited rows keep all their trimmed pieces and word-path rows come out empty |
| RowNormalizer.WordRow | document-extraction-tool-v4/netlify/functions/extract.js:270-289 | a word-path row with more words than columns is the distribution and holds all the words in order |
| RowNormalizer.WordPerColumn | document-extraction-tool-v4/netlify/functions/extract.js:277-279 | a word-path row with exactly as many words as columns has one word per cell |
| RowNormalizer.RowRoundTrip | document-extraction-tool-v4/netlify/functions/extract.js:262-269 | trimmed cells joined by the resolver's delimiter split back into exactly those cells, empty ones included, before padding or merging |
| RowNormalizer.SpacedRowRoundTrip | document-extraction-tool-v4/netlify/functions/extract.js:270-274 | on the multi-space path, two or more non-empty trimmed cells without a run of two whitespace characters, aligned by runs of two or more spaces of any widths and holding no tab, pipe or comma, split back into exactly those cells before padding or merging |
| GenericTable.KeyPhrases | document-extraction-tool-v4/netlify/functions/extract.js:315-319 | the key phrases are the first min(10, count) non-blank lines shorter than 100 code units that start with a capital, in order |
| GenericTable.SplitAtSeparator | document-extraction-tool-v4/netlify/functions/extract.js:326-338 | the key is the trimmed text before the first separator and holds none; the value is the trimmed text after it, later separators kept |
| GenericTable.Bisect | document-extraction-tool-v4/netlify/functions/extract.js:347-353 | with m pieces of `split(' ')`, the first half holds the first floor(m/2) pieces and the second half the rest. With two or more pieces the halves glued with a space give the phrase back. A phrase without spaces becomes an empty key and the whole phrase |
| GenericTable.KeyValue | document-extraction-tool-v4/netlify/functions/extract.js:324-354 | every row has two cells. When `:` is present the key holds no `:`. Failing that, when `=` is present the key holds no `=`. Failing both, when a non-leading `-` is present the key holds no `-`. `GenericTable.KeyValueUses`, `GenericTable.KeyValueShort` and `GenericTable.KeyValueLong` give the row in each case |
| GenericTable.CreateGenericTable | document-extraction-tool-v4/netlify/functions/extract.js:313-356 | headers Key and Value, one two-cell row per key phrase, at most ten rows |
| GenericTable.KeyValueUses | document-extraction-tool-v4/netlify/functions/extract.js:326-339 | `:` beats `=` beats a non-leading `-`: the row of a phrase is its split at the first of them that it holds |
| GenericTable.KeyValueShort | document-extraction-tool-v4/netlify/functions/extract.js:341-344 | a phrase under 30 code units with no usable separator is the key, untrimmed, with an empty value |
| GenericTable.KeyValueLong | document-extraction-tool-v4/netlify/functions/extract.js:346-353 | a phrase of 30 or more code units with no usable separator is cut after the first floor(m/2) of its m `split(' ')` pieces. When it holds a space, the halves joined by a space give it back. Without a space its key is empty and its value is the phrase |
| GenericTable.DashGuardNeverDecides | document-extraction-tool-v4/netlify/functions/extract.js:336 | no key phrase starts with `-`, so the leading-dash guard never changes a row |
| TableBuilder.ParseRows | document-extraction-tool-v4/netlify/functions/extract.js:183 | one row per table line after the first. With at least one expected column every row has exactly that many cells |
| TableBuilder.Build | document-extraction-tool-v4/netlify/functions/extract.js:176-191 | with no table lines the result is the Key/Value table. Otherwise the headers come from the first table line and every later line is a row parsed to the header count. With at least one header the table is rectangular |
| TableBuilder.BuildEmpty | document-extraction-tool-v4/netlify/functions/extract.js:176-191 | empty text gives the Key/Value headers and no rows |
| TableBuilder.ThreeLinesMakeATable | document-extraction-tool-v4/netlify/functions/extract.js:213-221 | with three or more non-blank lines a table is always built: from the first delimited line when at least three are delimited, else from the first line |
| TableBuilder.FirstTenLines | document-extraction-tool-v4/netlify/functions/extract.js:213-221 | when three or more lines are non-blank and fewer than three are table lines, the first line gives the headers. The next nine lines at most give the rows, and every later line is dropped |
| TextTables.CleanLineFacts | document-extraction-tool-v4/netlify/functions/extract.js:203-211 | a line of clean cells joined by the delimiter is non-blank, tabular, free of newlines and splits back into its cells |
| TextTables.TextTableLines | document-extraction-tool-v4/netlify/functions/extract.js:176-179 | the table lines of a delimited table's text are all of its lines |
| TextTables.TextRows | document-extraction-tool-v4/netlify/functions/extract.js:183 | every row line of that text parses back to its row |
| TextTables.BuildRoundTrip | document-extraction-tool-v4/netlify/functions/extract.js:176-191 | a header of non-empty names and equally wide rows are rebuilt exactly. Each is written as one line with one delimiter the resolver picks; cells are trimmed and hold neither the delimiter nor a newline. The first cell of every line is non-empty, and every line has at least three cells, or two when the delimiter is a tab |
| TextTables.TwoCellLine | document-extraction-tool-v4/netlify/functions/extract.js:208-209 | two words joined by one comma or one pipe make a non-blank line that is not a table line |
| TextTables.TwoColumnTableKeepsNineRows | document-extraction-tool-v4/netlify/functions/extract.js:213-221 | a two-column comma or pipe table of words, with at least two rows, is rebuilt with its header but only its first nine rows |
| TextTables.PipeFramed | document-extraction-tool-v4/netlify/functions/extract.js:233-307 | for a line framed by pipes around two names a and b, the header line gives `[a, b]`. As a two-column row it gives an empty first cell, and `a b ` merged into the second |

## Left out

- The HTTP handler, form parsing and file-type detection (extract.js:8-107) are not
  modelled. They are I/O around the pipeline.
- The client page `app.js` is not modelled.
- The PDF and Word decoders are not modelled. `Build` takes the decoded text as its
  input, so the three extractors (extract.js:110-196) are one function. The PDF
  extractor joins page items with spaces and pages with newlines before the pipeline
  sees the text; that joining is left out.
- The `try`/`catch` blocks and their logged errors are left out. The modelled
  functions are total and cannot throw.
- `Math.floor(n / 0)` with zero columns is not modelled as a number. With zero
  columns the distribution loop does not run, and the model takes that branch
  directly.
- `IsSpace` lists the ECMAScript whitespace code points as Dafny characters. Dafny
  characters are Unicode scalar values, so lone surrogate halves in the text are
  not modelled.
- TextTables.BuildRoundTrip: it covers tables whose cells are trimmed and free of
  the delimiter and of newlines. Every line must have a non-empty first cell and at
  least three cells, or two with a tab. Lines made only of whitespace-run or word
  separators are not covered. Two-column comma and pipe tables are excluded because
  their lines are not table lines; `TextTables.TwoColumnTableKeepsNineRows` states
  what happens to them instead.
- Delimiters.SpacedPadded: padding of exactly one whitespace character at an end is
  not covered. The split keeps it inside the first or last cell, and `trim` removes
  it there; only padding that is empty or a run of two or more is stated.
