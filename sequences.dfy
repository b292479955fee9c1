/** Generic facts about counting, de-duplicating and ordering the elements of
    a sequence: the vocabulary in which pandas' value_counts, nunique, groupby
    and sort_index are stated by the rest of the model. */
module Sequences {

  /** Number of occurrences of x in xs (one entry of value_counts). */
  function Count<T(==)>(xs: seq<T>, x: T): (n: nat)
    ensures n <= |xs|
    ensures n > 0 <==> x in xs
  {
    if xs == [] then 0 else (if xs[0] == x then 1 else 0) + Count(xs[1..], x)
  }

  /** Counting in [x] + xs counts x, then xs. */
  lemma CountCons<T>(x: T, xs: seq<T>)
    ensures forall y :: Count([x] + xs, y) == (if x == y then 1 else 0) + Count(xs, y)
  {
    assert ([x] + xs)[1..] == xs;
  }

  /** Every element equals x exactly when x is counted |xs| times. */
  lemma {:induction false} CountAll<T>(xs: seq<T>, x: T)
    ensures Count(xs, x) == |xs| <==> forall i :: 0 <= i < |xs| ==> xs[i] == x
  {
    if xs != [] {
      CountAll(xs[1..], x);
      if Count(xs, x) == |xs| {
        forall i | 0 <= i < |xs| ensures xs[i] == x {
          if i > 0 { assert xs[i] == xs[1..][i - 1]; }
        }
      }
      if forall i :: 0 <= i < |xs| ==> xs[i] == x {
        assert forall i :: 0 <= i < |xs[1..]| ==> xs[1..][i] == x by {
          forall i | 0 <= i < |xs[1..]| ensures xs[1..][i] == x {
            assert xs[1..][i] == xs[i + 1];
          }
        }
      }
    }
  }

  /** Two different values share the positions of xs. */
  lemma {:induction false} CountPair<T>(xs: seq<T>, x: T, y: T)
    requires x != y
    ensures Count(xs, x) + Count(xs, y) <= |xs|
  {
    if xs != [] {
      CountPair(xs[1..], x, y);
    }
  }

  ghost predicate NoDup<T>(s: seq<T>) {
    forall i, j :: 0 <= i < j < |s| ==> s[i] != s[j]
  }

  /** The distinct values of xs, each kept at its last occurrence; its length is nunique. */
  function Distinct<T(==,!new)>(xs: seq<T>): (d: seq<T>)
    ensures NoDup(d)
    ensures forall x :: x in d <==> x in xs
  {
    if xs == [] then []
    else if xs[0] in xs[1..] then Distinct(xs[1..])
    else [xs[0]] + Distinct(xs[1..])
  }

  /** A sequence has a single distinct value exactly when it is non-empty and constant. */
  lemma DistinctSingleton<T(!new)>(xs: seq<T>)
    ensures |Distinct(xs)| == 1 <==> xs != [] && forall i :: 0 <= i < |xs| ==> xs[i] == xs[0]
  {
    var d := Distinct(xs);
    if |d| == 1 {
      assert xs[0] in d;
      forall i | 0 <= i < |xs| ensures xs[i] == xs[0] {
        assert xs[i] in d;
      }
    }
    if xs != [] && forall i :: 0 <= i < |xs| ==> xs[i] == xs[0] {
      assert xs[0] in d;
      forall k | 0 <= k < |d| ensures d[k] == xs[0] {
        assert d[k] in xs;
      }
    }
  }

  /** Sum of the counts in xs of the values listed in d. */
  function SumCounts<T(==)>(d: seq<T>, xs: seq<T>): nat {
    if d == [] then 0 else Count(xs, d[0]) + SumCounts(d[1..], xs)
  }

  lemma {:induction false} SumCountsCons<T>(d: seq<T>, a: T, xs: seq<T>)
    ensures SumCounts(d, [a] + xs) == Count(d, a) + SumCounts(d, xs)
  {
    if d != [] {
      assert ([a] + xs)[1..] == xs;
      SumCountsCons(d[1..], a, xs);
    }
  }

  lemma {:induction false} CountNoDup<T>(d: seq<T>, a: T)
    requires NoDup(d) && a in d
    ensures Count(d, a) == 1
  {
    if d[0] == a {
      assert a !in d[1..] by {
        forall j | 0 <= j < |d[1..]| ensures d[1..][j] != a {
          assert d[1..][j] == d[j + 1];
        }
      }
    } else {
      CountNoDup(d[1..], a);
    }
  }

  /** Counting every value of xs once, over a duplicate-free list d that
      covers xs, accounts for every position of xs exactly once. */
  lemma {:induction false} SumCountsCover<T>(d: seq<T>, xs: seq<T>)
    requires NoDup(d)
    requires forall x :: x in xs ==> x in d
    ensures SumCounts(d, xs) == |xs|
  {
    if xs == [] {
      SumCountsEmpty(d);
    } else {
      assert xs == [xs[0]] + xs[1..];
      SumCountsCons(d, xs[0], xs[1..]);
      CountNoDup(d, xs[0]);
      SumCountsCover(d, xs[1..]);
    }
  }

  lemma {:induction false} SumCountsEmpty<T>(d: seq<T>)
    ensures SumCounts(d, []) == 0
  {
    if d != [] { SumCountsEmpty(d[1..]); }
  }

  /** A duplicate-free sequence has as many elements as its set of values. */
  lemma {:induction false} NoDupCard<T>(d: seq<T>)
    requires NoDup(d)
    ensures |set x | x in d| == |d|
  {
    if d != [] {
      NoDupCard(d[1..]);
      assert (set x | x in d) == {d[0]} + (set x | x in d[1..]);
      assert d[0] !in (set x | x in d[1..]) by {
        forall j | 0 <= j < |d[1..]| ensures d[1..][j] != d[0] {
          assert d[1..][j] == d[j + 1];
        }
      }
    }
  }

  ghost predicate Ascending(s: seq<int>) {
    forall i, j :: 0 <= i < j < |s| ==> s[i] < s[j]
  }

  lemma AscendingNoDup(s: seq<int>)
    requires Ascending(s)
    ensures NoDup(s)
  {
  }

  lemma AscendingTail(s: seq<int>)
    requires Ascending(s) && s != []
    ensures Ascending(s[1..])
    ensures forall y :: y in s[1..] ==> s[0] < y
  {
    forall i, j | 0 <= i < j < |s[1..]| ensures s[1..][i] < s[1..][j] {
      assert s[1..][i] == s[i + 1] && s[1..][j] == s[j + 1];
    }
    forall y | y in s[1..] ensures s[0] < y {
      var j :| 0 <= j < |s[1..]| && s[1..][j] == y;
      assert s[j + 1] == y;
    }
  }

  lemma AscendingCons(a: int, t: seq<int>)
    requires Ascending(t)
    requires forall y :: y in t ==> a < y
    ensures Ascending([a] + t)
  {
    var r := [a] + t;
    forall i, j | 0 <= i < j < |r| ensures r[i] < r[j] {
      assert r[j] == t[j - 1] && t[j - 1] in t;
      if i > 0 {
        assert r[i] == t[i - 1];
      }
    }
  }

  /** Inserts x into a strictly ascending sequence, keeping it strictly ascending. */
  function InsertSorted(s: seq<int>, x: int): (r: seq<int>)
    requires Ascending(s)
    ensures Ascending(r)
    ensures forall y :: y in r <==> y in s || y == x
  {
    if s == [] then [x]
    else if x < s[0] then
      AscendingCons(x, s);
      [x] + s
    else if x == s[0] then s
    else
      AscendingTail(s);
      var tail := InsertSorted(s[1..], x);
      assert s == [s[0]] + s[1..];
      AscendingCons(s[0], tail);
      [s[0]] + tail
  }

  /** The distinct values of xs in ascending order (a sorted groupby key set). */
  function SortedDistinct(xs: seq<int>): (r: seq<int>)
    ensures Ascending(r)
    ensures forall y :: y in r <==> y in xs
  {
    if xs == [] then [] else InsertSorted(SortedDistinct(xs[1..]), xs[0])
  }

  /** a is obtained from b by deleting elements, keeping the order of the rest:
      the first element of b is either used for the first element of a or skipped. */
  predicate IsSubsequence<T(==)>(a: seq<T>, b: seq<T>)
    decreases |b|
  {
    if b == [] then a == []
    else (a != [] && a[0] == b[0] && IsSubsequence(a[1..], b[1..])) || IsSubsequence(a, b[1..])
  }

  lemma {:induction false} SubsequenceTransitive<T>(a: seq<T>, b: seq<T>, c: seq<T>)
    requires IsSubsequence(a, b) && IsSubsequence(b, c)
    ensures IsSubsequence(a, c)
    decreases |c|
  {
    if c != [] {
      if IsSubsequence(b, c[1..]) {
        SubsequenceTransitive(a, b, c[1..]);
      } else if a != [] && a[0] == b[0] && IsSubsequence(a[1..], b[1..]) {
        SubsequenceTransitive(a[1..], b[1..], c[1..]);
      } else {
        SubsequenceTransitive(a, b[1..], c[1..]);
      }
    }
  }

  /** Taking one more element of a sequence appends that element. */
  lemma PrefixStep<T>(s: seq<T>, k: nat)
    requires k < |s|
    ensures s[..k + 1] == s[..k] + [s[k]]
  {
  }

  lemma FullPrefix<T>(s: seq<T>)
    ensures s[..|s|] == s
  {
  }
}
