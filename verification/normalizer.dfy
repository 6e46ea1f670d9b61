/**
 The row normalizer, `parseTableRow` (netlify/functions/extract.js): split one
 line into cells, spread its words over the columns when no delimiter helps,
 then pad with empty cells or merge the surplus into the last cell.
 */
module RowNormalizer {
  import opened Seqs
  import opened JsString
  import opened Delimiters

  /** `i * per`, built by repeated addition so that proofs about groups stay linear. */
  function Offset(i: nat, per: nat): nat
  {
    if i == 0 then 0 else Offset(i - 1, per) + per
  }

  lemma {:induction false} OffsetIsProduct(i: nat, per: nat)
    ensures Offset(i, per) == i * per
  {
    if i > 0 {
      OffsetIsProduct(i - 1, per);
      assert i * per == (i - 1) * per + per;
    }
  }

  lemma {:induction false} OffsetMono(i: nat, j: nat, per: nat)
    requires i <= j
    ensures Offset(i, per) <= Offset(j, per)
    decreases j
  {
    if i < j {
      OffsetMono(i, j - 1, per);
    }
  }

  /** `k` consecutive groups of `per` words, the last group taking every remaining word;
      each group joined with single spaces. */
  function Chunks(words: seq<string>, k: nat, per: nat): (cells: seq<string>)
    requires k >= 1 && Offset(k - 1, per) <= |words|
    ensures |cells| == k
    decreases k
  {
    if k == 1 then [Join(words, " ")]
    else [Join(words[..per], " ")] + Chunks(words[per..], k - 1, per)
  }

  lemma ChunkBound(n: nat, k: nat)
    requires k >= 1
    ensures Offset(k - 1, n / k) <= Offset(k, n / k) <= n
    ensures k < n ==> n / k >= 1
  {
    OffsetIsProduct(k, n / k);
    assert k * (n / k) + n % k == n;
  }

  /** The distribution loop of `parseTableRow`: `wordsPerColumn = floor(n / k)` and
      column `i` takes the words from `i * wordsPerColumn`, the last column up to the
      end. With no columns the loop does not run. */
  function Distribute(words: seq<string>, k: nat): (cells: seq<string>)
    ensures |cells| == k
  {
    if k == 0 then []
    else
      ChunkBound(|words|, k);
      Chunks(words, k, |words| / k)
  }

  lemma ChunksTail(words: seq<string>, k: nat, per: nat)
    requires k >= 2 && Offset(k - 1, per) <= |words|
    ensures per <= |words| && Offset(k - 2, per) <= |words| - per
    ensures Chunks(words, k, per)[0] == Join(words[..per], " ")
    ensures Chunks(words, k, per)[1..] == Chunks(words[per..], k - 1, per)
  {
    OffsetMono(1, k - 1, per);
  }

  /** Past the first group, the cells of `Chunks` are those of the remaining words. */
  lemma ChunksShift(words: seq<string>, k: nat, per: nat, i: nat)
    requires k >= 2 && Offset(k - 1, per) <= |words| && 1 <= i < k
    ensures per <= |words| && Offset(k - 2, per) <= |words| - per
    ensures Chunks(words, k, per)[i] == Chunks(words[per..], k - 1, per)[i - 1]
  {
    ChunksTail(words, k, per);
  }

  /** Cell `i` of `Chunks`, other than the last, is the group the source's loop
      computes for column `i`. */
  lemma {:induction false} ChunksMiddle(words: seq<string>, k: nat, per: nat, i: nat)
    requires k >= 1 && Offset(k - 1, per) <= |words| && i < k - 1
    ensures Offset(i, per) <= Offset(i + 1, per) <= |words|
    ensures Chunks(words, k, per)[i] == Join(words[Offset(i, per)..Offset(i + 1, per)], " ")
    decreases k
  {
    if i == 0 {
      ChunksTail(words, k, per);
      assert words[Offset(0, per)..Offset(1, per)] == words[..per];
    } else {
      ChunksShift(words, k, per, i);
      var tail := words[per..];
      ChunksMiddle(tail, k - 1, per, i - 1);
      DropSlice(words, per, Offset(i - 1, per), Offset(i, per));
    }
  }

  /** The last cell of `Chunks` takes every remaining word. */
  lemma {:induction false} ChunksLast(words: seq<string>, k: nat, per: nat)
    requires k >= 1 && Offset(k - 1, per) <= |words|
    ensures Chunks(words, k, per)[k - 1] == Join(words[Offset(k - 1, per)..], " ")
    decreases k
  {
    if k == 1 {
      assert words[Offset(0, per)..] == words;
    } else {
      ChunksShift(words, k, per, k - 1);
      var tail := words[per..];
      var off := Offset(k - 2, per);
      ChunksLast(tail, k - 1, per);
      assert tail[off..] == words[Offset(k - 1, per)..];
    }
  }

  /** No word is lost or reordered: joining the groups gives the words joined. */
  lemma {:induction false} ChunksJoin(words: seq<string>, k: nat, per: nat)
    requires k >= 1 && per >= 1 && Offset(k, per) <= |words|
    ensures Offset(k - 1, per) <= |words|
    ensures Join(Chunks(words, k, per), " ") == Join(words, " ")
    decreases k
  {
    if k > 1 {
      ChunksJoin(words[per..], k - 1, per);
      JoinAppend([Join(words[..per], " ")], Chunks(words[per..], k - 1, per), " ");
      assert words == words[..per] + words[per..];
      JoinAppend(words[..per], words[per..], " ");
    }
  }

  /** Spreading more words than columns: with `per == floor(n / k)`, at least one,
      column `i` other than the last joins exactly the `per` consecutive words from
      `i * per`, as the source's loop slices them. */
  lemma DistributeColumn(words: seq<string>, k: nat, per: nat, i: nat)
    requires 1 <= k < |words| && per == |words| / k && i < k - 1
    ensures per >= 1
    ensures 0 <= i * per && i * per + per == (i + 1) * per <= |words|
    ensures Distribute(words, k)[i] == Join(words[i * per..(i + 1) * per], " ")
  {
    ChunkBound(|words|, k);
    assert Distribute(words, k) == Chunks(words, k, per);
    ChunksMiddle(words, k, per, i);
    OffsetIsProduct(i, per);
    OffsetIsProduct(i + 1, per);
  }

  /** Spreading more words than columns: the last column takes every word from
      `(k - 1) * per` on. */
  lemma DistributeLast(words: seq<string>, k: nat, per: nat)
    requires 1 <= k < |words| && per == |words| / k
    ensures (k - 1) * per <= |words|
    ensures Distribute(words, k)[k - 1] == Join(words[(k - 1) * per..], " ")
  {
    ChunkBound(|words|, k);
    assert Distribute(words, k) == Chunks(words, k, per);
    ChunksLast(words, k, per);
    OffsetIsProduct(k - 1, per);
  }

  /** Spreading loses no word and keeps their order: joining the columns with spaces
      gives the words joined with spaces. */
  lemma DistributeWords(words: seq<string>, k: nat)
    requires 1 <= k < |words|
    ensures Join(Distribute(words, k), " ") == Join(words, " ")
  {
    var per := |words| / k;
    ChunkBound(|words|, k);
    assert Distribute(words, k) == Chunks(words, k, per);
    ChunksJoin(words, k, per);
  }

  /** The word path of `parseTableRow`: exactly as many words as columns, one per
      column; more words, spread; fewer, kept as they are. */
  function WordCells(words: seq<string>, k: nat): (cells: seq<string>)
    ensures |words| <= k ==> cells == words
    ensures |words| > k ==> |cells| == k
  {
    if |words| == k then words
    else if |words| > k then Distribute(words, k)
    else words
  }

  /** The splitting half of `parseTableRow`: tab, pipe or comma pieces are trimmed and
      kept even when empty; otherwise runs of two or more whitespace characters, and
      when that gives fewer than two cells, the words. */
  function SplitRow(line: string, k: nat): (cells: seq<string>)
    ensures '\t' in line ==> |cells| == multiset(line)['\t'] + 1
    ensures '\t' !in line && '|' in line ==> |cells| == multiset(line)['|'] + 1
    ensures '\t' !in line && '|' !in line && ',' in line ==> |cells| == multiset(line)[','] + 1
    ensures '\t' in line || '|' in line || ',' in line ==> forall i :: 0 <= i < |cells| ==> IsTrimmed(cells[i])
  {
    SplitCount(line, '\t');
    SplitCount(line, '|');
    SplitCount(line, ',');
    if '\t' in line then TrimAll(Split(line, '\t'))
    else if '|' in line then TrimAll(Split(line, '|'))
    else if ',' in line then TrimAll(Split(line, ','))
    else
      var cells := SpacedCells(line);
      if |cells| < 2 then WordCells(Words(line), k) else cells
  }

  /** The padding loop and the merge of surplus cells that end `parseTableRow`. */
  function PadOrCollapse(cells: seq<string>, k: nat): (r: seq<string>)
    ensures k >= 1 ==> |r| == k
    ensures k == 0 ==> r == cells
    ensures |cells| <= k ==> r[..|cells|] == cells && forall i :: |cells| <= i < |r| ==> r[i] == ""
    ensures 1 <= k < |cells| ==> r[..k - 1] == cells[..k - 1] && r[k - 1] == Join(cells[k - 1..], " ")
  {
    var padded := if |cells| < k then cells + seq(k - |cells|, _ => "") else cells;
    if |padded| > k && k > 0 then padded[..k - 1] + [Join(padded[k - 1..], " ")]
    else padded
  }

  /** Padding or merging a second time changes nothing. */
  lemma PadOrCollapseIdempotent(cells: seq<string>, k: nat)
    ensures PadOrCollapse(PadOrCollapse(cells, k), k) == PadOrCollapse(cells, k)
  {
  }

  /** With surplus cells, the first `k - 1` are kept and the rest merged into one. */
  lemma CollapseShape(cells: seq<string>, k: nat)
    requires 1 <= k < |cells|
    ensures PadOrCollapse(cells, k) == cells[..k - 1] + [Join(cells[k - 1..], " ")]
  {
  }

  /** Joining a row split into a head and its merged tail gives the whole row joined. */
  lemma JoinMerged(cells: seq<string>, m: nat)
    requires m < |cells|
    ensures Join(cells[..m] + [Join(cells[m..], " ")], " ") == Join(cells, " ")
  {
    var head := cells[..m];
    var tail := cells[m..];
    if m > 0 {
      assert cells == head + tail;
      JoinAppend(head, tail, " ");
      JoinAppend(head, [Join(tail, " ")], " ");
    } else {
      assert head + [Join(tail, " ")] == [Join(cells, " ")];
    }
  }

  /** Merging surplus cells loses no text: the row joined with spaces is unchanged. */
  lemma CollapseKeepsText(cells: seq<string>, k: nat)
    requires 1 <= k < |cells|
    ensures Join(PadOrCollapse(cells, k), " ") == Join(cells, " ")
  {
    CollapseShape(cells, k);
    JoinMerged(cells, k - 1);
  }

  /** `parseTableRow(line, expectedColumns)`. */
  function ParseTableRow(line: string, k: nat): (r: seq<string>)
    ensures k >= 1 ==> |r| == k
  {
    PadOrCollapse(SplitRow(line, k), k)
  }

  /** With no expected columns nothing is coerced: tab, pipe and comma rows keep all
      their pieces, and a row that falls to the word path comes out empty. */
  lemma ZeroColumns(line: string)
    ensures '\t' in line ==> ParseTableRow(line, 0) == TrimAll(Split(line, '\t'))
    ensures '\t' !in line && '|' in line ==> ParseTableRow(line, 0) == TrimAll(Split(line, '|'))
    ensures '\t' !in line && '|' !in line && ',' in line ==>
              ParseTableRow(line, 0) == TrimAll(Split(line, ','))
    ensures '\t' !in line && '|' !in line && ',' !in line && |SpacedCells(line)| < 2 ==>
              ParseTableRow(line, 0) == []
  {
  }

  /** A row on the word path with more words than columns: the row is the word
      distribution itself, and it holds all the words in order. */
  lemma WordRow(line: string, k: nat)
    requires '\t' !in line && '|' !in line && ',' !in line && |SpacedCells(line)| < 2
    requires 1 <= k < |Words(line)|
    ensures ParseTableRow(line, k) == Distribute(Words(line), k)
    ensures Join(ParseTableRow(line, k), " ") == Join(Words(line), " ")
  {
    DistributeWords(Words(line), k);
  }

  /** A row on the word path with exactly as many words as columns: one word per cell. */
  lemma WordPerColumn(line: string, k: nat)
    requires '\t' !in line && '|' !in line && ',' !in line && |SpacedCells(line)| < 2
    requires |Words(line)| == k
    ensures ParseTableRow(line, k) == Words(line)
  {
  }

  /** Row round trip: trimmed pieces joined by the delimiter the resolver picks are
      split back into exactly those pieces, empty ones included, before the padding
      or merging to `k` cells. */
  lemma RowRoundTrip(cells: seq<string>, d: char, k: nat)
    requires |cells| >= 2 && PicksDelimiter(cells, d)
    requires forall i :: 0 <= i < |cells| ==> IsTrimmed(cells[i]) && d !in cells[i]
    ensures SplitRow(Join(cells, [d]), k) == cells
    ensures ParseTableRow(Join(cells, [d]), k) == PadOrCollapse(cells, k)
  {
    JoinedLineDelimiter(cells, d);
    forall i | 0 <= i < |cells| {
      TrimTrimmed(cells[i]);
    }
    assert TrimAll(cells) == cells;
  }

  /** Round trip of the multi-space path of a row: two or more non-empty trimmed cells
      without a run of two whitespace characters, aligned by runs of spaces of any
      widths, with no tab, pipe or comma, split back into exactly those cells before
      padding or merging. */
  lemma SpacedRowRoundTrip(cells: seq<string>, seps: seq<string>, k: nat)
    requires |cells| >= 2 && |seps| + 1 == |cells| && RunSeps(seps, 2)
    requires forall i :: 0 <= i < |seps| ==> '\t' !in seps[i]
    requires forall i :: 0 <= i < |cells| ==>
               RunCell(cells[i], 2) && '\t' !in cells[i] && '|' !in cells[i] && ',' !in cells[i]
    ensures SplitRow(JoinWith(cells, seps), k) == cells
    ensures ParseTableRow(JoinWith(cells, seps), k) == PadOrCollapse(cells, k)
  {
    SeparatorsPlain(seps);
    JoinWithFree(cells, seps, '\t');
    JoinWithFree(cells, seps, '|');
    JoinWithFree(cells, seps, ',');
    SpacedRoundTrip(cells, seps);
  }
}
