/**
 The Key/Value fallback `createGenericTable` (netlify/functions/extract.js):
 used when no line of the text looks tabular.
 */
module GenericTable {
  import opened Seqs
  import opened JsString
  import opened TableResult
  import opened LineClassifier

  const MaxKeyPhrases: nat := 10

  /** `/[A-Z]/.test(line.charAt(0))`: the first character is an ASCII capital. */
  predicate StartsWithUpper(line: string)
  {
    |line| > 0 && 'A' <= line[0] <= 'Z'
  }

  /** `line.length < 100`, counting UTF-16 code units. */
  predicate IsShort(line: string)
  {
    Utf16Length(line) < 100
  }

  predicate IsKeyPhrase(line: string)
  {
    IsShort(line) && StartsWithUpper(line)
  }

  /** The two filters of the source are one filter by `IsKeyPhrase`, and any prefix of
      its result keeps the order of the lines. */
  lemma KeyPhraseFilters(lines: seq<string>, m: nat)
    requires m <= CountIf(lines, IsKeyPhrase)
    ensures Filter(Filter(lines, IsShort), StartsWithUpper) == Filter(lines, IsKeyPhrase)
    ensures IsSubsequence(Filter(lines, IsKeyPhrase)[..m], lines)
  {
    FilterFilter(lines, IsShort, StartsWithUpper, IsKeyPhrase);
    PrefixOfSubsequence(Filter(lines, IsKeyPhrase), lines, m);
  }

  /** The first ten lines that are shorter than 100 and start with a capital, in order. */
  function FirstKeyPhrases(lines: seq<string>): (r: seq<string>)
    ensures |r| == Min(MaxKeyPhrases, CountIf(lines, IsKeyPhrase))
    ensures r == Filter(lines, IsKeyPhrase)[..|r|]
    ensures IsSubsequence(r, lines)
    ensures forall i :: 0 <= i < |r| ==> IsKeyPhrase(r[i])
  {
    var upper := Filter(Filter(lines, IsShort), StartsWithUpper);
    var m := Min(MaxKeyPhrases, CountIf(lines, IsKeyPhrase));
    KeyPhraseFilters(lines, m);
    upper[..m]
  }

  /** The candidate lines: non-blank, shorter than 100, starting with a capital; the
      first ten of them, in order. */
  function KeyPhrases(text: string): (r: seq<string>)
    ensures |r| == Min(MaxKeyPhrases, CountIf(NonBlankLines(text), IsKeyPhrase))
    ensures r == Filter(NonBlankLines(text), IsKeyPhrase)[..|r|]
    ensures IsSubsequence(r, NonBlankLines(text))
    ensures forall i :: 0 <= i < |r| ==> IsKeyPhrase(r[i])
  {
    FirstKeyPhrases(NonBlankLines(text))
  }

  /** `const [key, ...valueParts] = phrase.split(d); [key.trim(), valueParts.join(d).trim()]`. */
  function SplitAtSeparator(phrase: string, d: char): (r: seq<string>)
    requires d in phrase
    ensures |r| == 2
    ensures r[0] == Trim(phrase[..IndexOf(phrase, d)]) && d !in r[0]
    ensures r[1] == Trim(phrase[IndexOf(phrase, d) + 1..])
  {
    var parts := Split(phrase, d);
    SplitAtFirst(phrase, d);
    TrimChars(parts[0], d);
    [Trim(parts[0]), Trim(Join(parts[1..], [d]))]
  }

  /** `phrase.split(' ')` cut at `floor(m / 2)` of its `m` pieces, each half joined with
      single spaces. */
  function Bisect(phrase: string): (r: seq<string>)
    ensures |r| == 2
    ensures |Split(phrase, ' ')| >= 2 ==> r[0] + " " + r[1] == phrase
    ensures |Split(phrase, ' ')| == 1 ==> r == ["", phrase]
    ensures |Split(phrase, ' ')| >= 2 ==>
      Split(r[0], ' ') == Split(phrase, ' ')[..|Split(phrase, ' ')| / 2]
    ensures Split(r[1], ' ') == Split(phrase, ' ')[|Split(phrase, ' ')| / 2..]
  {
    var words := Split(phrase, ' ');
    var mid := |words| / 2;
    assert Join(words, " ") == phrase by {
      SplitJoin(phrase, ' ');
    }
    assert |words| >= 2 ==> Join(words[..mid], " ") + " " + Join(words[mid..], " ") == Join(words, " ") by {
      if |words| >= 2 {
        assert words == words[..mid] + words[mid..];
        JoinAppend(words[..mid], words[mid..], " ");
      }
    }
    assert |words| == 1 ==> words[mid..] == words;
    assert |words| >= 2 ==> Split(Join(words[..mid], " "), ' ') == words[..mid] by {
      if |words| >= 2 {
        JoinSplit(words[..mid], ' ');
      }
    }
    JoinSplit(words[mid..], ' ');
    [Join(words[..mid], " "), Join(words[mid..], " ")]
  }

  /** One row of the fallback table. The separator tried first wins: `:`, then `=`,
      then `-` unless the phrase starts with `-`; a short phrase without separator is a
      key with an empty value; a long one is cut in half. */
  function KeyValue(phrase: string): (r: seq<string>)
    ensures |r| == 2
    ensures ':' in phrase ==> ':' !in r[0]
    ensures ':' !in phrase && '=' in phrase ==> '=' !in r[0]
    ensures ':' !in phrase && '=' !in phrase && '-' in phrase && phrase[0] != '-' ==> '-' !in r[0]
  {
    if ':' in phrase then SplitAtSeparator(phrase, ':')
    else if '=' in phrase then SplitAtSeparator(phrase, '=')
    else if '-' in phrase && !(|phrase| > 0 && phrase[0] == '-') then SplitAtSeparator(phrase, '-')
    else if Utf16Length(phrase) < 30 then [phrase, ""]
    else Bisect(phrase)
  }

  /** `createGenericTable`: headers `Key` and `Value`, one two-cell row per key phrase. */
  function CreateGenericTable(text: string): (t: Table)
    ensures t.headers == ["Key", "Value"]
    ensures |t.rows| == |KeyPhrases(text)| <= MaxKeyPhrases
    ensures forall i :: 0 <= i < |t.rows| ==> t.rows[i] == KeyValue(KeyPhrases(text)[i])
    ensures Rectangular(t)
  {
    var phrases := KeyPhrases(text);
    Table(["Key", "Value"], seq(|phrases|, i requires 0 <= i < |phrases| => KeyValue(phrases[i])))
  }

  /** `d` is the separator `KeyValue` uses for `phrase`: the first of `:`, `=` and a
      non-leading `-` that the phrase holds. */
  predicate ChosenSeparator(phrase: string, d: char)
  {
    || (d == ':' && ':' in phrase)
    || (d == '=' && ':' !in phrase && '=' in phrase)
    || (d == '-' && ':' !in phrase && '=' !in phrase && '-' in phrase && phrase[0] != '-')
  }

  /** Separator priority: the row of a phrase is its split at the first of `:`, `=` and
      a non-leading `-` that it holds. */
  lemma KeyValueUses(phrase: string, d: char)
    requires ChosenSeparator(phrase, d)
    ensures d in phrase && KeyValue(phrase) == SplitAtSeparator(phrase, d)
  {
  }

  /** A phrase with no usable separator (no `:`, no `=`, and no `-` or a leading one)
      and under 30 code units is kept whole, untrimmed. */
  lemma KeyValueShort(phrase: string)
    requires ':' !in phrase && '=' !in phrase && ('-' !in phrase || phrase[0] == '-')
    requires Utf16Length(phrase) < 30
    ensures KeyValue(phrase) == [phrase, ""]
  {
  }

  /** A long phrase with no usable separator is cut after the first half (rounded down)
      of its `split(' ')` pieces: the key holds those pieces, the value the rest, and the
      two cells glued with one space give the phrase back. */
  lemma KeyValueLong(phrase: string)
    requires ':' !in phrase && '=' !in phrase && ('-' !in phrase || phrase[0] == '-')
    requires Utf16Length(phrase) >= 30
    ensures ' ' in phrase ==> KeyValue(phrase)[0] + " " + KeyValue(phrase)[1] == phrase
    ensures ' ' in phrase ==>
      Split(KeyValue(phrase)[0], ' ') == Split(phrase, ' ')[..|Split(phrase, ' ')| / 2]
    ensures Split(KeyValue(phrase)[1], ' ') == Split(phrase, ' ')[|Split(phrase, ' ')| / 2..]
    ensures ' ' !in phrase ==> KeyValue(phrase) == ["", phrase]
  {
    SplitCount(phrase, ' ');
  }

  /** No key phrase starts with `-`, so the `!startsWith('-')` guard never decides. */
  lemma DashGuardNeverDecides(text: string)
    ensures forall i :: 0 <= i < |KeyPhrases(text)| ==> KeyPhrases(text)[i][0] != '-'
  {
  }
}
