/**
 The JavaScript string primitives the table-extraction code relies on, over
 strings as `seq<char>`: `trim()`, `split` on one character, `split` on a
 regular expression `/\s{k,}/` (a run of at least `k` whitespace characters),
 `join` and the UTF-16 `length`. `IndexOf`, the position of the first occurrence of
 a character, is a helper for stating where `split` cuts.
 */
module JsString {

  /** The characters matched by `\s` and removed by `trim()`: the ECMAScript
      WhiteSpace and LineTerminator code points. */
  predicate IsSpace(c: char)
  {
    || c == '\t' || c == '\n' || c == '\U{0B}' || c == '\U{0C}' || c == '\r' || c == ' '
    || c == '\U{A0}' || c == '\U{1680}' || ('\U{2000}' <= c <= '\U{200A}')
    || c == '\U{2028}' || c == '\U{2029}' || c == '\U{202F}' || c == '\U{205F}'
    || c == '\U{3000}' || c == '\U{FEFF}'
  }

  predicate AllSpace(s: string)
  {
    forall i :: 0 <= i < |s| ==> IsSpace(s[i])
  }

  predicate NoSpace(s: string)
  {
    forall i :: 0 <= i < |s| ==> !IsSpace(s[i])
  }

  /** Neither end of `s` is whitespace: what `trim()` guarantees. */
  predicate IsTrimmed(s: string)
  {
    |s| == 0 || (!IsSpace(s[0]) && !IsSpace(s[|s| - 1]))
  }

  /** `s.length`: the number of UTF-16 code units, two for a character outside the BMP. */
  function Utf16Length(s: string): (n: nat)
    ensures |s| <= n <= 2 * |s|
    ensures n == |s| <==> forall i :: 0 <= i < |s| ==> s[i] as int <= 0xFFFF
  {
    if |s| == 0 then 0
    else (if s[0] as int > 0xFFFF then 2 else 1) + Utf16Length(s[1..])
  }

  /** Length of the whitespace run at the start of `s`. */
  function SpaceRun(s: string): (n: nat)
    ensures n <= |s|
    ensures AllSpace(s[..n])
    ensures n < |s| ==> !IsSpace(s[n])
  {
    if |s| > 0 && IsSpace(s[0]) then
      var n := 1 + SpaceRun(s[1..]);
      assert forall i :: 1 <= i < n ==> s[..n][i] == s[1..][..n - 1][i - 1];
      n
    else 0
  }

  lemma {:induction false} SpaceRunAtLeast(s: string, k: nat)
    requires k <= |s| && AllSpace(s[..k])
    ensures SpaceRun(s) >= k
    decreases k
  {
    if k > 0 {
      assert s[1..][..k - 1] == s[..k][1..];
      SpaceRunAtLeast(s[1..], k - 1);
    }
  }

  /** `s` without its trailing whitespace. */
  function TrimEnd(s: string): (r: string)
    ensures |r| <= |s| && r == s[..|r|]
    ensures AllSpace(s[|r|..])
    ensures |r| > 0 ==> !IsSpace(r[|r| - 1])
  {
    if |s| > 0 && IsSpace(s[|s| - 1]) then
      var r := TrimEnd(s[..|s| - 1]);
      assert s[|r|..] == s[..|s| - 1][|r|..] + [s[|s| - 1]];
      r
    else s
  }

  /** `s.trim()`: the part of `s` between its leading and its trailing whitespace. */
  function Trim(s: string): (r: string)
    ensures SpaceRun(s) + |r| <= |s|
    ensures r == s[SpaceRun(s)..SpaceRun(s) + |r|]
    ensures AllSpace(s[SpaceRun(s) + |r|..])
    ensures IsTrimmed(r)
  {
    var n := SpaceRun(s);
    var r := TrimEnd(s[n..]);
    assert s[n + |r|..] == s[n..][|r|..];
    r
  }

  /** A string is blank, i.e. `trim().length == 0`, exactly when it is all whitespace. */
  lemma TrimEmptyIffAllSpace(s: string)
    ensures |Trim(s)| == 0 <==> AllSpace(s)
  {
    var n := SpaceRun(s);
    if |Trim(s)| == 0 {
      SuffixStart(s, n);
      assert s[..n] == s;
    } else {
      assert !IsSpace(s[n]);
    }
  }

  /** Trimming is idempotent. */
  lemma TrimTrimmed(s: string)
    requires IsTrimmed(s)
    ensures Trim(s) == s
  {
    assert SpaceRun(s) == 0;
    assert s[0..] == s;
  }

  /** A whitespace suffix starting inside `s` starts with whitespace. */
  lemma SuffixStart(s: string, m: nat)
    requires m <= |s| && AllSpace(s[m..])
    ensures m < |s| ==> IsSpace(s[m])
  {
    if m < |s| {
      assert s[m..][0] == s[m];
    }
  }

  /** A whitespace prefix covering all of a non-empty `s` ends with whitespace. */
  lemma WholeRun(s: string, n: nat)
    requires n <= |s| && AllSpace(s[..n])
    ensures n == |s| && |s| > 0 ==> IsSpace(s[|s| - 1])
  {
    if n == |s| && |s| > 0 {
      assert s[..n][|s| - 1] == s[|s| - 1];
    }
  }

  lemma SpaceInSuffix(s: string, m: nat, j: nat)
    requires m <= j < |s| && AllSpace(s[m..])
    ensures IsSpace(s[j])
  {
    assert s[m..][j - m] == s[j];
  }

  /** Trimming removes exactly the whitespace padding around a trimmed core. */
  lemma TrimPadded(left: string, core: string, right: string)
    requires AllSpace(left) && AllSpace(right) && |core| > 0 && IsTrimmed(core)
    ensures Trim(left + core + right) == core
  {
    var s := left + core + right;
    assert s[|left|] == core[0];
    assert SpaceRun(s) == |left|;
    var n := |left|;
    var r := Trim(s);
    assert |r| >= |core| by {
      if |r| < |core| {
        SpaceInSuffix(s, n + |r|, n + |core| - 1);
      }
    }
    assert |r| <= |core|;
    assert s[n..n + |core|] == core;
  }

  lemma TrimEmpty()
    ensures Trim("") == ""
  {
  }

  /** One space on each side of a trimmed non-empty string is trimmed away. */
  lemma TrimSpaced(a: string)
    requires |a| > 0 && IsTrimmed(a)
    ensures Trim(" " + a + " ") == a
  {
    TrimPadded(" ", a, " ");
  }

  /** A character of `Trim(s)` is a character of `s`. */
  lemma TrimChars(s: string, c: char)
    requires c !in s
    ensures c !in Trim(s)
  {
  }

  /** Add one character to the front of the first piece. */
  function Prepend(c: char, pieces: seq<string>): seq<string>
    requires |pieces| > 0
  {
    [[c] + pieces[0]] + pieces[1..]
  }

  /** `s.split(c)` for a one-character separator: the pieces between occurrences of `c`,
      including empty ones; never an empty array. */
  function Split(s: string, c: char): (r: seq<string>)
    ensures |r| >= 1
    ensures forall i :: 0 <= i < |r| ==> c !in r[i]
    decreases |s|
  {
    if |s| == 0 then [""]
    else
      var rest := Split(s[1..], c);
      if s[0] == c then [""] + rest
      else Prepend(s[0], rest)
  }

  /** The split has one piece more than `s` has occurrences of `c`. */
  lemma {:induction false} SplitCount(s: string, c: char)
    ensures |Split(s, c)| == multiset(s)[c] + 1
    decreases |s|
  {
    if |s| > 0 {
      SplitCount(s[1..], c);
      assert s == [s[0]] + s[1..];
    }
  }

  /** `parts.join(sep)`. */
  function Join(parts: seq<string>, sep: string): string
  {
    if |parts| == 0 then ""
    else if |parts| == 1 then parts[0]
    else parts[0] + sep + Join(parts[1..], sep)
  }

  /** Joining two non-empty groups is joining each and gluing them with the separator. */
  lemma {:induction false} JoinAppend(a: seq<string>, b: seq<string>, sep: string)
    requires |a| > 0 && |b| > 0
    ensures Join(a + b, sep) == Join(a, sep) + sep + Join(b, sep)
    decreases |a|
  {
    if |a| > 1 {
      assert (a + b)[1..] == a[1..] + b;
      JoinAppend(a[1..], b, sep);
    } else {
      assert (a + b)[1..] == b;
    }
  }

  lemma JoinCons(head: string, rest: seq<string>, sep: string)
    requires |rest| > 0
    ensures Join([head] + rest, sep) == head + sep + Join(rest, sep)
  {
    assert ([head] + rest)[1..] == rest;
  }

  /** Adding a character to the first piece adds it to the front of the join. */
  lemma JoinPrepend(x: char, pieces: seq<string>, sep: string)
    requires |pieces| > 0
    ensures Join(Prepend(x, pieces), sep) == [x] + Join(pieces, sep)
  {
    if |pieces| > 1 {
      JoinCons([x] + pieces[0], pieces[1..], sep);
    }
  }

  /** Cells glued by separators of their own: `seps[i]` sits between `cells[i]` and
      `cells[i + 1]`, so the gaps of a space-aligned line can differ in width. */
  function JoinWith(cells: seq<string>, seps: seq<string>): string
    requires |seps| + 1 == |cells|
    decreases |seps|
  {
    if |seps| == 0 then cells[0]
    else cells[0] + (seps[0] + JoinWith(cells[1..], seps[1..]))
  }

  /** `n` copies of one separator. */
  function Repeat(sep: string, n: nat): (r: seq<string>)
    ensures |r| == n && forall i :: 0 <= i < n ==> r[i] == sep
  {
    if n == 0 then [] else [sep] + Repeat(sep, n - 1)
  }

  /** `join` is `JoinWith` with the one separator in every gap. */
  lemma {:induction false} JoinIsJoinWith(cells: seq<string>, sep: string)
    requires |cells| >= 1
    ensures Join(cells, sep) == JoinWith(cells, Repeat(sep, |cells| - 1))
    decreases |cells|
  {
    if |cells| > 1 {
      var seps := Repeat(sep, |cells| - 1);
      JoinIsJoinWith(cells[1..], sep);
      assert seps[1..] == Repeat(sep, |cells| - 2);
      assert cells[0] + sep + Join(cells[1..], sep) == cells[0] + (sep + Join(cells[1..], sep));
    }
  }

  /** The glued text starts with the first cell when that cell is non-empty. */
  lemma JoinWithHead(cells: seq<string>, seps: seq<string>)
    requires |seps| + 1 == |cells| && |cells[0]| > 0
    ensures |JoinWith(cells, seps)| > 0 && JoinWith(cells, seps)[0] == cells[0][0]
  {
  }

  /** A character in no cell and no separator is not in the glued text. */
  lemma {:induction false} JoinWithFree(cells: seq<string>, seps: seq<string>, x: char)
    requires |seps| + 1 == |cells|
    requires forall i :: 0 <= i < |cells| ==> x !in cells[i]
    requires forall i :: 0 <= i < |seps| ==> x !in seps[i]
    ensures x !in JoinWith(cells, seps)
    decreases |seps|
  {
    if |seps| > 0 {
      JoinWithFree(cells[1..], seps[1..], x);
    }
  }

  /** Every separator is a whitespace run of at least `k`. */
  predicate RunSeps(seps: seq<string>, k: nat)
  {
    forall i :: 0 <= i < |seps| ==> AllSpace(seps[i]) && |seps[i]| >= k
  }

  /** One step of the split: the first character either starts a new piece or joins
      the first piece. */
  lemma SplitStep(s: string, c: char)
    requires |s| > 0
    ensures s[0] == c ==> Split(s, c) == [""] + Split(s[1..], c)
    ensures s[0] != c ==> Split(s, c) == Prepend(s[0], Split(s[1..], c))
  {
  }

  /** `s.split(c).join(c)` gives back `s`. */
  lemma {:induction false} SplitJoin(s: string, c: char)
    ensures Join(Split(s, c), [c]) == s
    decreases |s|
  {
    if |s| > 0 {
      SplitJoin(s[1..], c);
      var rest := Split(s[1..], c);
      SplitStep(s, c);
      if s[0] == c {
        JoinCons("", rest, [c]);
        assert [c] + s[1..] == s;
      } else {
        JoinPrepend(s[0], rest, [c]);
        assert [s[0]] + s[1..] == s;
      }
    }
  }

  /** A string without the separator is one piece. */
  lemma {:induction false} SplitNone(a: string, c: char)
    requires c !in a
    ensures Split(a, c) == [a]
    decreases |a|
  {
    if |a| > 0 {
      SplitNone(a[1..], c);
      SplitStep(a, c);
      assert [a[0]] + a[1..] == a;
    }
  }

  /** The text before the first separator is the first piece; the rest splits on. */
  lemma {:induction false} SplitLead(a: string, c: char, b: string)
    requires c !in a
    ensures Split(a + [c] + b, c) == [a] + Split(b, c)
    decreases |a|
  {
    if |a| == 0 {
      assert (a + [c] + b)[1..] == b;
    } else {
      SplitLead(a[1..], c, b);
      assert (a + [c] + b)[1..] == a[1..] + [c] + b;
      assert [a[0]] + a[1..] == a;
    }
  }

  /** Joining pieces free of the separator and splitting again gives the pieces back. */
  lemma {:induction false} JoinSplit(parts: seq<string>, c: char)
    requires |parts| >= 1
    requires forall i :: 0 <= i < |parts| ==> c !in parts[i]
    ensures Split(Join(parts, [c]), c) == parts
    decreases |parts|
  {
    if |parts| == 1 {
      SplitNone(parts[0], c);
    } else {
      JoinSplit(parts[1..], c);
      SplitLead(parts[0], c, Join(parts[1..], [c]));
      assert [parts[0]] + parts[1..] == parts;
    }
  }

  /** A character that is neither the separator nor in any piece is not in the join. */
  lemma {:induction false} JoinFree(parts: seq<string>, sep: string, x: char)
    requires x !in sep
    requires forall i :: 0 <= i < |parts| ==> x !in parts[i]
    ensures x !in Join(parts, sep)
    decreases |parts|
  {
    if |parts| > 1 {
      JoinFree(parts[1..], sep, x);
    }
  }

  /** The position of the first occurrence of `c` in `s`, a helper for stating where
      `split` cuts. */
  function IndexOf(s: string, c: char): (i: nat)
    requires c in s
    ensures i < |s| && s[i] == c && c !in s[..i]
  {
    if s[0] == c then 0
    else
      var i := 1 + IndexOf(s[1..], c);
      assert s[..i] == [s[0]] + s[1..][..i - 1];
      i
  }

  /** Splitting on `c`: the first piece is the text before the first `c`, and the other
      pieces, joined back with `c`, are all the text after it. */
  lemma {:induction false} SplitAtFirst(s: string, c: char)
    requires c in s
    ensures Split(s, c)[0] == s[..IndexOf(s, c)]
    ensures Join(Split(s, c)[1..], [c]) == s[IndexOf(s, c) + 1..]
    decreases |s|
  {
    var rest := Split(s[1..], c);
    if s[0] == c {
      SplitJoin(s[1..], c);
      assert Split(s, c) == [""] + rest;
      assert ([""] + rest)[1..] == rest;
    } else {
      SplitAtFirst(s[1..], c);
      var i := IndexOf(s[1..], c);
      assert IndexOf(s, c) == i + 1;
      assert Split(s, c) == Prepend(s[0], rest);
      assert Prepend(s[0], rest)[1..] == rest[1..];
      assert s[..i + 1] == [s[0]] + s[1..][..i];
      assert s[i + 2..] == s[1..][i + 1..];
    }
  }

  /** A run of at least `k` whitespace characters starts at index `i` of `s`. */
  predicate RunAt(s: string, i: nat, k: nat)
  {
    i + k <= |s| && AllSpace(s[i..i + k])
  }

  predicate HasRun(s: string, k: nat)
  {
    exists i: nat :: i <= |s| && RunAt(s, i, k)
  }

  /** `s.split(/\s{k,}/)`: the separators are the maximal whitespace runs of length at
      least `k`. The regular-expression split scans left to right and its greedy match
      always starts at the first character of a run, so a run shorter than `k` stays in
      its piece and a longer one is consumed whole. */
  function SplitRuns(s: string, k: nat): (r: seq<string>)
    requires k >= 1
    ensures |r| >= 1
    decreases |s|
  {
    if |s| == 0 then [""]
    else if SpaceRun(s) >= k then [""] + SplitRuns(s[SpaceRun(s)..], k)
    else Prepend(s[0], SplitRuns(s[1..], k))
  }

  /** A run of `k` at the very start makes the leading run at least `k` long. */
  lemma RunAtStart(s: string, k: nat)
    ensures RunAt(s, 0, k) ==> SpaceRun(s) >= k
  {
    if RunAt(s, 0, k) {
      assert s[..k] == s[0..k];
      SpaceRunAtLeast(s, k);
    }
  }

  /** A run in the tail is a run of the whole string, one position later. */
  lemma RunFromTail(s: string, k: nat, i: nat)
    requires |s| > 0 && RunAt(s[1..], i, k)
    ensures RunAt(s, i + 1, k) && HasRun(s, k)
  {
    assert s[1..][i..i + k] == s[i + 1..i + 1 + k];
    var j: nat := i + 1;
    assert j <= |s| && RunAt(s, j, k);
  }

  /** A run after the first position is a run of the tail, one position earlier. */
  lemma RunToTail(s: string, k: nat, i: nat)
    requires 0 < i && RunAt(s, i, k)
    ensures RunAt(s[1..], i - 1, k) && HasRun(s[1..], k)
  {
    assert s[1..][i - 1..i - 1 + k] == s[i..i + k];
    var j: nat := i - 1;
    assert j <= |s[1..]| && RunAt(s[1..], j, k);
  }

  /** When `s` does not start with a run of `k`, its runs are those of its tail. */
  lemma RunShift(s: string, k: nat)
    requires |s| > 0 && SpaceRun(s) < k
    ensures HasRun(s, k) <==> HasRun(s[1..], k)
  {
    RunAtStart(s, k);
    if HasRun(s, k) {
      var i: nat :| i <= |s| && RunAt(s, i, k);
      RunToTail(s, k, i);
    }
    RunInTail(s, k);
  }

  /** The regular-expression split yields more than one piece exactly when `s` holds a
      whitespace run of length `k`. */
  lemma {:induction false} SplitRunsSeveral(s: string, k: nat)
    requires k >= 1
    ensures |SplitRuns(s, k)| > 1 <==> HasRun(s, k)
    decreases |s|
  {
    if |s| > 0 {
      var n := SpaceRun(s);
      SplitRunsStep(s, k);
      if n >= k {
        assert s[0..k] == s[..n][..k];
        assert RunAt(s, 0, k);
      } else {
        SplitRunsSeveral(s[1..], k);
        RunShift(s, k);
      }
    }
  }

  /** One step of the regular-expression split: a leading run of at least `k` is a
      separator, otherwise the first character joins the first piece. */
  lemma SplitRunsStep(s: string, k: nat)
    requires k >= 1 && |s| > 0
    ensures SpaceRun(s) >= k ==> SplitRuns(s, k) == [""] + SplitRuns(s[SpaceRun(s)..], k)
    ensures SpaceRun(s) < k ==> SplitRuns(s, k) == Prepend(s[0], SplitRuns(s[1..], k))
  {
  }

  /** Pieces without whitespace, all non-empty except perhaps the first. */
  predicate Wordlike(r: seq<string>)
  {
    && (forall i :: 0 <= i < |r| ==> NoSpace(r[i]))
    && (forall i :: 1 <= i < |r| ==> |r[i]| > 0)
  }

  lemma WordlikeSeparator(r: seq<string>)
    requires Wordlike(r) && |r| > 0 && |r[0]| > 0
    ensures Wordlike([""] + r)
  {
    assert forall i :: 1 <= i < |r| + 1 ==> ([""] + r)[i] == r[i - 1];
  }

  lemma WordlikePrepend(x: char, r: seq<string>)
    requires Wordlike(r) && |r| > 0 && !IsSpace(x)
    ensures Wordlike(Prepend(x, r)) && |Prepend(x, r)[0]| > 0
  {
    var p := Prepend(x, r);
    assert forall j :: 1 <= j < |r[0]| + 1 ==> p[0][j] == r[0][j - 1];
    assert forall i :: 1 <= i < |r| ==> p[i] == r[i];
  }

  /** Splitting on `/\s+/` a string with no trailing whitespace: no piece holds whitespace,
      and only the first piece can be empty, exactly when `s` is empty or starts with
      whitespace. */
  lemma {:induction false} WordPieces(s: string)
    requires |s| == 0 || !IsSpace(s[|s| - 1])
    ensures Wordlike(SplitRuns(s, 1))
    ensures |SplitRuns(s, 1)[0]| == 0 <==> |s| == 0 || IsSpace(s[0])
    decreases |s|
  {
    if |s| > 0 {
      var n := SpaceRun(s);
      SplitRunsStep(s, 1);
      if IsSpace(s[0]) {
        WholeRun(s, n);
        assert s[n..][|s[n..]| - 1] == s[|s| - 1];
        WordPieces(s[n..]);
        WordlikeSeparator(SplitRuns(s[n..], 1));
      } else {
        assert s[1..] == [] || s[1..][|s[1..]| - 1] == s[|s| - 1];
        WordPieces(s[1..]);
        WordlikePrepend(s[0], SplitRuns(s[1..], 1));
      }
    }
  }

  /** `s.trim().split(/\s+/)` of a non-blank `s`: non-empty words without whitespace. */
  lemma WordsOfNonBlank(s: string)
    requires |Trim(s)| > 0
    ensures forall i :: 0 <= i < |SplitRuns(Trim(s), 1)| ==>
              |SplitRuns(Trim(s), 1)[i]| > 0 && NoSpace(SplitRuns(Trim(s), 1)[i])
  {
    WordPieces(Trim(s));
  }

  /** A string without whitespace holds no whitespace run. */
  lemma NoSpaceNoRun(s: string, k: nat)
    requires k >= 1 && NoSpace(s)
    ensures !HasRun(s, k)
  {
    forall j: nat | j <= |s|
      ensures !RunAt(s, j, k)
    {
      if j + k <= |s| {
        assert s[j..j + k][0] == s[j];
      }
    }
  }

  /** Words round trip: non-empty words without whitespace, joined by single spaces,
      split on `/\s+/` into exactly those words. */
  lemma WordsJoin(words: seq<string>)
    requires |words| >= 1
    requires forall i :: 0 <= i < |words| ==> |words[i]| > 0 && NoSpace(words[i])
    ensures SplitRuns(Join(words, " "), 1) == words
  {
    forall i | 0 <= i < |words|
      ensures RunCell(words[i], 1)
    {
      NoSpaceNoRun(words[i], 1);
    }
    assert AllSpace(" ");
    RunsJoin(words, " ", 1);
  }

  /** A whitespace run cannot reach past a character that is not whitespace. */
  lemma {:induction false} SpaceRunStops(s: string, j: nat)
    requires j < |s| && !IsSpace(s[j])
    ensures SpaceRun(s) <= j
    decreases j
  {
    if j > 0 && IsSpace(s[0]) {
      assert s[1..][j - 1] == s[j];
      SpaceRunStops(s[1..], j - 1);
    }
  }

  /** A cell of a split on `/\s{k,}/` that survives the round trip: non-empty, trimmed,
      and holding no whitespace run of length `k`; shorter runs inside are allowed. */
  predicate RunCell(cell: string, k: nat)
  {
    |cell| > 0 && IsTrimmed(cell) && !HasRun(cell, k)
  }

  /** A run in the tail is a run of the whole string. */
  lemma RunInTail(s: string, k: nat)
    requires |s| > 0
    ensures HasRun(s[1..], k) ==> HasRun(s, k)
  {
    if HasRun(s[1..], k) {
      var i: nat :| i <= |s[1..]| && RunAt(s[1..], i, k);
      RunFromTail(s, k, i);
    }
  }

  /** A run at the start of `w + t` stops before the last character of `w` when that
      character is not whitespace, so it is a run of `w`. */
  lemma RunInPrefix(w: string, t: string, k: nat)
    requires |w| > 0 && !IsSpace(w[|w| - 1])
    ensures SpaceRun(w + t) >= k ==> HasRun(w, k)
  {
    var s := w + t;
    var n := SpaceRun(s);
    assert s[|w| - 1] == w[|w| - 1];
    SpaceRunStops(s, |w| - 1);
    if n >= k {
      assert forall i :: 0 <= i < k ==> w[0..k][i] == s[..n][i];
      var j: nat := 0;
      assert RunAt(w, j, k);
    }
  }

  /** Putting an element in front of a concatenation. */
  lemma ConsAppend<T>(x: T, s: seq<T>, t: seq<T>)
    requires |s| > 0 && s[0] == x
    ensures [x] + (s[1..] + t) == s + t
  {
    assert [x] + s[1..] == s;
  }

  /** Putting an element in front of three concatenated parts. */
  lemma ConsConcat<T>(x: T, a: seq<T>, b: seq<T>, c: seq<T>)
    ensures [x] + (a + b + c) == [x] + a + b + c
  {
  }

  /** A leading cell without a run of `k` is glued to the first piece of what follows. */
  lemma {:induction false} SplitRunsCell(w: string, t: string, k: nat)
    requires k >= 1 && !HasRun(w, k) && (|w| == 0 || !IsSpace(w[|w| - 1]))
    ensures SplitRuns(w + t, k) == [w + SplitRuns(t, k)[0]] + SplitRuns(t, k)[1..]
    decreases |w|
  {
    if |w| > 0 {
      var s := w + t;
      var r := SplitRuns(t, k);
      var tail := SplitRuns(w[1..] + t, k);
      RunInPrefix(w, t, k);
      assert SpaceRun(s) < k;
      assert s[0] == w[0] && s[1..] == w[1..] + t;
      SplitRunsStep(s, k);
      assert SplitRuns(s, k) == [[w[0]] + tail[0]] + tail[1..];
      RunInTail(w, k);
      assert |w[1..]| == 0 || w[1..][|w[1..]| - 1] == w[|w| - 1];
      SplitRunsCell(w[1..], t, k);
      assert tail[0] == w[1..] + r[0] && tail[1..] == r[1..];
      ConsAppend(w[0], w, r[0]);
    } else {
      var r := SplitRuns(t, k);
      assert w + t == t && w + r[0] == r[0];
      assert r == [r[0]] + r[1..];
    }
  }

  /** A whitespace separator of length at least `k` before a non-whitespace character is
      one separator of `/\s{k,}/`. */
  lemma SeparatorThenCell(sep: string, rest: string, k: nat)
    requires k >= 1 && AllSpace(sep) && |sep| >= k
    requires |rest| > 0 && !IsSpace(rest[0])
    ensures SplitRuns(sep + rest, k) == [""] + SplitRuns(rest, k)
  {
    var t := sep + rest;
    assert t[..|sep|] == sep;
    SpaceRunAtLeast(t, |sep|);
    assert t[|sep|] == rest[0];
    SpaceRunStops(t, |sep|);
    SplitRunsStep(t, k);
    assert t[|sep|..] == rest;
  }

  /** The pieces of cells without a run of `k`, joined by whitespace separators of
      length at least `k` and followed by `t`: the cells, the last one glued to the
      first piece of `t`, then the other pieces of `t`. */
  function JoinedPieces(cells: seq<string>, t: string, k: nat): seq<string>
    requires k >= 1 && |cells| >= 1
  {
    cells[..|cells| - 1] + [cells[|cells| - 1] + SplitRuns(t, k)[0]] + SplitRuns(t, k)[1..]
  }

  /** When the text after the last cell splits into an empty first piece and then `g`,
      the pieces are the cells followed by `g`. */
  lemma JoinedPiecesGap(cells: seq<string>, t: string, k: nat, g: seq<string>)
    requires k >= 1 && |cells| >= 1 && SplitRuns(t, k) == [""] + g
    ensures JoinedPieces(cells, t, k) == cells + g
  {
    var n := |cells|;
    assert cells[n - 1] + "" == cells[n - 1];
    assert cells[..n - 1] + [cells[n - 1]] == cells;
  }

  /** A cell without a run of `k`, then a separator, then text starting with a
      non-whitespace character: the cell is the first piece. */
  lemma CellThenSeparator(cell: string, sep: string, u: string, k: nat)
    requires k >= 1 && RunCell(cell, k) && AllSpace(sep) && |sep| >= k
    requires |u| > 0 && !IsSpace(u[0])
    ensures SplitRuns(cell + (sep + u), k) == [cell] + SplitRuns(u, k)
  {
    SeparatorThenCell(sep, u, k);
    SplitRunsCell(cell, sep + u, k);
    assert cell + "" == cell;
    var r := SplitRuns(sep + u, k);
    assert r[0] == "" && r[1..] == SplitRuns(u, k);
  }

  /** The joined pieces of a longer list start with its first cell. */
  lemma JoinedPiecesCons(cells: seq<string>, t: string, k: nat)
    requires k >= 1 && |cells| >= 2
    ensures [cells[0]] + JoinedPieces(cells[1..], t, k) == JoinedPieces(cells, t, k)
  {
    var n := |cells|;
    var r := SplitRuns(t, k);
    var front := cells[1..][..n - 2];
    var mid := [cells[n - 1] + r[0]];
    assert JoinedPieces(cells[1..], t, k) == front + mid + r[1..];
    ConsConcat(cells[0], front, mid, r[1..]);
    assert [cells[0]] + front == cells[..n - 1];
  }

  /** Splitting cells without a run of `k`, each gap a whitespace run of at least `k`,
      followed by `t`, gives the cells back, the last one glued to the first piece of
      `t`. */
  lemma {:induction false} RunsJoinThen(cells: seq<string>, seps: seq<string>, k: nat, t: string)
    requires k >= 1 && |seps| + 1 == |cells| && RunSeps(seps, k)
    requires forall i :: 0 <= i < |cells| ==> RunCell(cells[i], k)
    ensures SplitRuns(JoinWith(cells, seps) + t, k) == JoinedPieces(cells, t, k)
    decreases |cells|
  {
    if |cells| == 1 {
      SplitRunsCell(cells[0], t, k);
      assert cells[..0] == [];
    } else {
      var rest := JoinWith(cells[1..], seps[1..]);
      assert SplitRuns(JoinWith(cells, seps) + t, k) == [cells[0]] + SplitRuns(rest + t, k) by {
        JoinWithHead(cells[1..], seps[1..]);
        assert JoinWith(cells, seps) + t == cells[0] + (seps[0] + (rest + t));
        CellThenSeparator(cells[0], seps[0], rest + t, k);
      }
      RunsJoinThen(cells[1..], seps[1..], k, t);
      JoinedPiecesCons(cells, t, k);
    }
  }

  /** Round trip of `split(/\s{k,}/)`: cells without a run of `k`, each gap a whitespace
      run of at least `k` of its own width, split back into exactly those cells. */
  lemma RunsJoinWith(cells: seq<string>, seps: seq<string>, k: nat)
    requires k >= 1 && |seps| + 1 == |cells| && RunSeps(seps, k)
    requires forall i :: 0 <= i < |cells| ==> RunCell(cells[i], k)
    ensures SplitRuns(JoinWith(cells, seps), k) == cells
  {
    var line := JoinWith(cells, seps);
    assert SplitRuns(line + "", k) == JoinedPieces(cells, "", k) by {
      RunsJoinThen(cells, seps, k, "");
    }
    assert JoinedPieces(cells, "", k) == cells by {
      JoinedPiecesGap(cells, "", k, []);
      assert cells + [] == cells;
    }
    assert line + "" == line;
  }

  /** The same round trip for `join` with one separator repeated in every gap. */
  lemma RunsJoin(cells: seq<string>, sep: string, k: nat)
    requires k >= 1 && |cells| >= 1 && AllSpace(sep) && |sep| >= k
    requires forall i :: 0 <= i < |cells| ==> RunCell(cells[i], k)
    ensures SplitRuns(Join(cells, sep), k) == cells
  {
    JoinIsJoinWith(cells, sep);
    RunsJoinWith(cells, Repeat(sep, |cells| - 1), k);
  }

  /** A whitespace string of length at least `k` is one separator between two empty
      pieces. */
  lemma RunOnly(s: string, k: nat)
    requires k >= 1 && AllSpace(s) && |s| >= k
    ensures SplitRuns(s, k) == ["", ""]
  {
    assert s[..|s|] == s;
    SpaceRunAtLeast(s, |s|);
    SplitRunsStep(s, k);
    assert s[|s|..] == "";
  }

  /** The joined text starts with the first part when that part is non-empty. */
  lemma JoinHead(parts: seq<string>, sep: string)
    requires |parts| >= 1 && |parts[0]| > 0
    ensures |Join(parts, sep)| > 0 && Join(parts, sep)[0] == parts[0][0]
  {
  }

  /** The joined text ends with the last part when that part is non-empty. */
  lemma {:induction false} JoinLast(parts: seq<string>, sep: string)
    requires |parts| >= 1 && |parts[|parts| - 1]| > 0
    ensures var j := Join(parts, sep);
      |j| > 0 && j[|j| - 1] == parts[|parts| - 1][|parts[|parts| - 1]| - 1]
    decreases |parts|
  {
    if |parts| > 1 {
      JoinLast(parts[1..], sep);
    }
  }
}
