/**
 Generic sequence helpers shared by the table-extraction model: JavaScript's
 `Array.prototype.filter`, counting, and the "subsequence" relation used to say
 that a selection keeps the input's order.
 */
module Seqs {

  function Min(a: int, b: int): int
  {
    if a <= b then a else b
  }

  /** `a` is obtained from `b` by deleting elements; the survivors keep their order. */
  predicate IsSubsequence<T(==)>(a: seq<T>, b: seq<T>)
    decreases |b|
  {
    || |a| == 0
    || (&& |b| > 0
        && ((a[0] == b[0] && IsSubsequence(a[1..], b[1..])) || IsSubsequence(a, b[1..])))
  }

  /** Number of elements of `s` satisfying `p`. */
  function CountIf<T>(s: seq<T>, p: T -> bool): nat
  {
    if |s| == 0 then 0 else (if p(s[0]) then 1 else 0) + CountIf(s[1..], p)
  }

  /** The elements of `s` satisfying `p`, in their original order. */
  function Filter<T(==, !new)>(s: seq<T>, p: T -> bool): (r: seq<T>)
    ensures |r| == CountIf(s, p) && |r| <= |s|
    ensures forall i :: 0 <= i < |r| ==> p(r[i])
    ensures IsSubsequence(r, s)
  {
    if |s| == 0 then []
    else
      var rest := Filter(s[1..], p);
      if p(s[0]) then
        assert ([s[0]] + rest)[1..] == rest;
        [s[0]] + rest
      else
        rest
  }

  /** The filter keeps every element satisfying `p` as often as it occurs, and nothing else. */
  lemma {:induction false} FilterContents<T(!new)>(s: seq<T>, p: T -> bool)
    ensures forall x :: multiset(Filter(s, p))[x] == if p(x) then multiset(s)[x] else 0
    ensures forall x :: x in Filter(s, p) <==> x in s && p(x)
    decreases |s|
  {
    if |s| > 0 {
      FilterContents(s[1..], p);
      assert s == [s[0]] + s[1..];
    }
  }

  /** Filtering keeps everything when every element passes. */
  lemma {:induction false} FilterAll<T(!new)>(s: seq<T>, p: T -> bool)
    requires forall i :: 0 <= i < |s| ==> p(s[i])
    ensures Filter(s, p) == s
    decreases |s|
  {
    if |s| > 0 {
      FilterAll(s[1..], p);
      assert [s[0]] + s[1..] == s;
    }
  }

  /** Filtering keeps nothing when no element passes. */
  lemma {:induction false} FilterNone<T(!new)>(s: seq<T>, p: T -> bool)
    requires forall i :: 0 <= i < |s| ==> !p(s[i])
    ensures Filter(s, p) == []
    decreases |s|
  {
    if |s| > 0 {
      FilterNone(s[1..], p);
    }
  }

  /** Filtering a concatenation filters each part. */
  lemma {:induction false} FilterAppend<T(!new)>(a: seq<T>, b: seq<T>, p: T -> bool)
    ensures Filter(a + b, p) == Filter(a, p) + Filter(b, p)
    decreases |a|
  {
    if |a| > 0 {
      FilterAppend(a[1..], b, p);
      assert (a + b)[1..] == a[1..] + b;
    } else {
      assert a + b == b;
    }
  }

  /** Every sequence is a subsequence of itself. */
  lemma {:induction false} SubsequenceReflexive<T>(s: seq<T>)
    ensures IsSubsequence(s, s)
    decreases |s|
  {
    if |s| > 0 {
      SubsequenceReflexive(s[1..]);
    }
  }

  /** A prefix of a subsequence is again a subsequence. */
  lemma {:induction false} PrefixOfSubsequence<T>(a: seq<T>, b: seq<T>, m: nat)
    requires IsSubsequence(a, b)
    requires m <= |a|
    ensures IsSubsequence(a[..m], b)
    decreases |b|
  {
    if m > 0 {
      if a[0] == b[0] && IsSubsequence(a[1..], b[1..]) {
        PrefixOfSubsequence(a[1..], b[1..], m - 1);
        assert a[..m][1..] == a[1..][..m - 1];
      } else {
        PrefixOfSubsequence(a, b[1..], m);
      }
    }
  }

  /** A prefix of `s` is a subsequence of `s`. */
  lemma PrefixIsSubsequence<T>(s: seq<T>, m: nat)
    requires m <= |s|
    ensures IsSubsequence(s[..m], s)
  {
    SubsequenceReflexive(s);
    PrefixOfSubsequence(s, s, m);
  }

  /** Two filters in a row are one filter by the conjunction of their predicates. */
  lemma {:induction false} FilterFilter<T(!new)>(s: seq<T>, p: T -> bool, q: T -> bool, both: T -> bool)
    requires forall x :: both(x) == (p(x) && q(x))
    ensures Filter(Filter(s, p), q) == Filter(s, both)
    decreases |s|
  {
    if |s| > 0 {
      FilterFilter(s[1..], p, q, both);
      if p(s[0]) {
        assert ([s[0]] + Filter(s[1..], p))[1..] == Filter(s[1..], p);
      }
    }
  }

  lemma DropSlice<T>(s: seq<T>, m: nat, a: nat, b: nat)
    requires a <= b && m + b <= |s|
    ensures s[m..][a..b] == s[m + a..m + b]
  {
  }
}
