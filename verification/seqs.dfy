/**
 * The array operations every collection of the planner is built from:
 * `filter`, `[...new Set(xs)]`, index removal, and the facts that relate
 * them (order is kept, elements are neither invented nor lost).
 */
module Seqs {

  /** `r` is obtained from `s` by deleting elements, keeping the order of the rest. */
  ghost predicate SubsequenceOf<T>(r: seq<T>, s: seq<T>)
    decreases |s|
  {
    r == [] || (s != [] && ((r[0] == s[0] && SubsequenceOf(r[1..], s[1..])) || SubsequenceOf(r, s[1..])))
  }

  predicate NoDup<T(==)>(s: seq<T>) {
    forall i, j :: 0 <= i < j < |s| ==> s[i] != s[j]
  }

  /** `s.filter(keep)`. */
  function Filter<T(==,!new)>(s: seq<T>, keep: T -> bool): (r: seq<T>)
    ensures |r| <= |s|
    ensures forall x :: x in r <==> x in s && keep(x)
  {
    if s == [] then []
    else
      assert s == [s[0]] + s[1..];
      if keep(s[0]) then [s[0]] + Filter(s[1..], keep) else Filter(s[1..], keep)
  }

  /** Each kept element occurs as often as in `s`; the others not at all. */
  lemma {:induction false} FilterMultiset<T(!new)>(s: seq<T>, keep: T -> bool)
    ensures forall x :: multiset(Filter(s, keep))[x] == if keep(x) then multiset(s)[x] else 0
  {
    if s != [] {
      FilterMultiset(s[1..], keep);
      assert s == [s[0]] + s[1..];
    }
  }

  /** The filtered sequence keeps the order of `s`. */
  lemma {:induction false} FilterSubsequence<T(!new)>(s: seq<T>, keep: T -> bool)
    ensures SubsequenceOf(Filter(s, keep), s)
  {
    if s != [] {
      FilterSubsequence(s[1..], keep);
    }
  }

  /** The number of elements of `s` that satisfy `p`. */
  function Count<T(==,!new)>(s: seq<T>, p: T -> bool): nat {
    |Filter(s, p)|
  }

  /** Every element satisfies `p` or its negation `q`: the two counts add up to the length. */
  lemma {:induction false} CountSplit<T(!new)>(s: seq<T>, p: T -> bool, q: T -> bool)
    requires forall x :: q(x) == !p(x)
    ensures Count(s, p) + Count(s, q) == |s|
  {
    if s != [] {
      CountSplit(s[1..], p, q);
    }
  }

  /** Counting under a stronger predicate never gives more. */
  lemma {:induction false} CountMonotone<T(!new)>(s: seq<T>, p: T -> bool, q: T -> bool)
    requires forall x :: p(x) ==> q(x)
    ensures Count(s, p) <= Count(s, q)
  {
    if s != [] {
      CountMonotone(s[1..], p, q);
    }
  }

  /** Filtering by `p` then by `q` is filtering by their conjunction `both`. */
  lemma {:induction false} FilterFilter<T(!new)>(s: seq<T>, p: T -> bool, q: T -> bool, both: T -> bool)
    requires forall x :: both(x) == (p(x) && q(x))
    ensures Filter(Filter(s, p), q) == Filter(s, both)
  {
    if s != [] {
      FilterFilter(s[1..], p, q, both);
    }
  }

  /** Two filters applied in either order give the same sequence. */
  lemma FilterCommutes<T(!new)>(s: seq<T>, p: T -> bool, q: T -> bool)
    ensures Filter(Filter(s, p), q) == Filter(Filter(s, q), p)
  {
    var both := x => p(x) && q(x);
    FilterFilter(s, p, q, both);
    FilterFilter(s, q, p, both);
  }

  /** Filters with predicates that agree on every element give the same sequence. */
  lemma {:induction false} FilterExt<T(!new)>(s: seq<T>, p: T -> bool, q: T -> bool)
    requires forall x :: p(x) == q(x)
    ensures Filter(s, p) == Filter(s, q)
  {
    if s != [] {
      FilterExt(s[1..], p, q);
    }
  }

  /** Filtering a concatenation filters each part. */
  lemma {:induction false} FilterConcat<T(!new)>(s: seq<T>, t: seq<T>, keep: T -> bool)
    ensures Filter(s + t, keep) == Filter(s, keep) + Filter(t, keep)
  {
    if s == [] {
      assert s + t == t;
    } else {
      var x, rest := s[0], s[1..];
      var head := if keep(x) then [x] else [];
      calc {
        Filter(s + t, keep);
        == { assert s + t == [x] + (rest + t); FilterCons(x, rest + t, keep); }
        head + Filter(rest + t, keep);
        == { FilterConcat(rest, t, keep); }
        head + (Filter(rest, keep) + Filter(t, keep));
        == // concatenation is associative
        (head + Filter(rest, keep)) + Filter(t, keep);
        == { assert s == [x] + rest; FilterCons(x, rest, keep); }
        Filter(s, keep) + Filter(t, keep);
      }
    }
  }

  lemma FilterCons<T(!new)>(x: T, s: seq<T>, keep: T -> bool)
    ensures Filter([x] + s, keep) == (if keep(x) then [x] else []) + Filter(s, keep)
  {
    assert ([x] + s)[0] == x && ([x] + s)[1..] == s;
  }

  /** A filter that keeps every element of `s` returns `s` itself. */
  lemma {:induction false} FilterAll<T(!new)>(s: seq<T>, keep: T -> bool)
    requires forall x :: x in s ==> keep(x)
    ensures Filter(s, keep) == s
  {
    if s != [] {
      FilterAll(s[1..], keep);
    }
  }

  /** Elements of a subsequence are elements of the whole. */
  lemma {:induction false} SubsequenceMembers<T>(r: seq<T>, s: seq<T>)
    requires SubsequenceOf(r, s)
    ensures forall x :: x in r ==> x in s
    decreases |s|
  {
    if r != [] {
      if r[0] == s[0] && SubsequenceOf(r[1..], s[1..]) {
        SubsequenceMembers(r[1..], s[1..]);
        assert r == [r[0]] + r[1..];
      } else {
        SubsequenceMembers(r, s[1..]);
      }
    }
  }

  /** A relation that holds between every earlier and later element of `s`
      still holds in every subsequence of `s`. */
  lemma {:induction false} SubsequencePairwise<T>(r: seq<T>, s: seq<T>, rel: (T, T) -> bool)
    requires SubsequenceOf(r, s)
    requires forall i, j :: 0 <= i < j < |s| ==> rel(s[i], s[j])
    ensures forall i, j :: 0 <= i < j < |r| ==> rel(r[i], r[j])
    decreases |s|
  {
    if r != [] {
      if r[0] == s[0] && SubsequenceOf(r[1..], s[1..]) {
        SubsequencePairwise(r[1..], s[1..], rel);
        SubsequenceMembers(r[1..], s[1..]);
        forall j | 0 < j < |r| ensures rel(r[0], r[j]) {
          assert r[j] in s[1..] by { assert r[j] == r[1..][j - 1]; }
          var k :| 0 <= k < |s[1..]| && s[1..][k] == r[j];
          assert s[k + 1] == r[j];
        }
        forall i, j | 0 < i < j < |r| ensures rel(r[i], r[j]) {
          assert r[i] == r[1..][i - 1] && r[j] == r[1..][j - 1];
        }
      } else {
        SubsequencePairwise(r, s[1..], rel);
      }
    }
  }

  /** The position of the first occurrence of `x` in `s`, or `|s|` if it does not occur. */
  function FirstIndex<T(==)>(s: seq<T>, x: T): (k: nat)
    ensures k <= |s|
    ensures k < |s| <==> x in s
    ensures k < |s| ==> s[k] == x && x !in s[..k]
  {
    if s == [] then 0
    else if s[0] == x then 0
    else
      var k := 1 + FirstIndex(s[1..], x);
      assert k < |s| ==> s[..k] == [s[0]] + s[1..][..k - 1];
      k
  }

  lemma FirstIndexPrefix<T>(s: seq<T>, x: T, n: nat)
    requires n <= |s| && x in s[..n]
    ensures FirstIndex(s, x) == FirstIndex(s[..n], x) < n
  {
    var k := FirstIndex(s[..n], x);
    assert s[..k] == s[..n][..k];
  }

  lemma FirstIndexLast<T>(s: seq<T>, n: nat)
    requires n < |s| && s[n] !in s[..n]
    ensures FirstIndex(s, s[n]) == n
  {
    var k := FirstIndex(s, s[n]);
    assert s[..n][..k] == s[..k] by {
      assert k <= n;
    }
  }

  /** `[...new Set(s)]`: each distinct element once, at its first occurrence. */
  function Dedup<T(==,!new)>(s: seq<T>): (r: seq<T>)
    ensures NoDup(r)
    ensures forall x :: x in r <==> x in s
    ensures |r| <= |s|
    decreases |s|
  {
    if s == [] then []
    else
      var d := Dedup(s[..|s| - 1]);
      assert s == s[..|s| - 1] + [s[|s| - 1]];
      if s[|s| - 1] in d then d else d + [s[|s| - 1]]
  }

  /** The deduplicated elements appear in the order of their first occurrence in `s`. */
  lemma {:induction false} DedupFirstOccurrenceOrder<T(!new)>(s: seq<T>)
    ensures forall i, j :: 0 <= i < j < |Dedup(s)| ==> FirstIndex(s, Dedup(s)[i]) < FirstIndex(s, Dedup(s)[j])
    decreases |s|
  {
    if s != [] {
      var n := |s| - 1;
      var p := s[..n];
      var d := Dedup(p);
      DedupFirstOccurrenceOrder(p);
      var r := Dedup(s);
      assert r == if s[n] in d then d else d + [s[n]];
      forall i, j | 0 <= i < j < |r| ensures FirstIndex(s, r[i]) < FirstIndex(s, r[j]) {
        assert r[i] == d[i];
        FirstIndexPrefix(s, d[i], n);
        if j < |d| {
          assert r[j] == d[j];
          FirstIndexPrefix(s, d[j], n);
        } else {
          assert r[j] == s[n] && s[n] !in p;
          FirstIndexLast(s, n);
        }
      }
    }
  }

  /** `s.filter((_, j) => j !== i)`: drop the element at index `i`, if there is one. */
  function RemoveAt<T>(s: seq<T>, i: int): (r: seq<T>)
    ensures 0 <= i < |s| ==> |r| == |s| - 1
    ensures 0 <= i < |s| ==> forall j :: 0 <= j < i ==> r[j] == s[j]
    ensures 0 <= i < |s| ==> forall j :: i <= j < |r| ==> r[j] == s[j + 1]
    ensures !(0 <= i < |s|) ==> r == s
  {
    if 0 <= i < |s| then s[..i] + s[i + 1..] else s
  }

  /** Removing an element keeps a duplicate-free sequence duplicate-free. */
  lemma RemoveAtNoDup<T>(s: seq<T>, i: int)
    requires NoDup(s)
    ensures NoDup(RemoveAt(s, i))
  {
    var r := RemoveAt(s, i);
    if 0 <= i < |s| {
      forall a, b | 0 <= a < b < |r| ensures r[a] != r[b] {
        var a' := if a < i then a else a + 1;
        var b' := if b < i then b else b + 1;
        assert r[a] == s[a'] && r[b] == s[b'];
      }
    }
  }

  /** A sequence without repeats has as many elements as its set of elements. */
  lemma {:induction false} NoDupCard<T>(s: seq<T>)
    requires NoDup(s)
    ensures |set x | x in s| == |s|
  {
    if s != [] {
      var t := s[1..];
      NoDupCard(t);
      assert (set x | x in s) == (set x | x in t) + {s[0]} by {
        forall x ensures x in s <==> x in t || x == s[0] {
          if x in s && x != s[0] {
            var i :| 0 <= i < |s| && s[i] == x;
            assert t[i - 1] == x;
          }
        }
      }
      assert s[0] !in t by {
        forall j | 0 <= j < |t| ensures t[j] != s[0] {
          assert t[j] == s[j + 1];
        }
      }
    }
  }

  /** `[...new Set(xs)].filter(Boolean)` over strings: each non-empty value once. */
  function DistinctNonEmpty(xs: seq<string>): seq<string> {
    Filter(Dedup(xs), (x: string) => x != "")
  }

  /** Each non-empty value of `xs` is listed exactly once, nothing else is listed,
      and the values come in the order of their first occurrence in `xs`. */
  lemma DistinctNonEmptySpec(xs: seq<string>)
    ensures NoDup(DistinctNonEmpty(xs))
    ensures forall x :: x in DistinctNonEmpty(xs) <==> x in xs && x != ""
    ensures forall i, j :: 0 <= i < j < |DistinctNonEmpty(xs)| ==>
      FirstIndex(xs, DistinctNonEmpty(xs)[i]) < FirstIndex(xs, DistinctNonEmpty(xs)[j])
  {
    var d := Dedup(xs);
    var r := DistinctNonEmpty(xs);
    FilterSubsequence(d, (x: string) => x != "");
    SubsequencePairwise(r, d, (a: string, b: string) => a != b);
    DedupFirstOccurrenceOrder(xs);
    SubsequencePairwise(r, d, (a: string, b: string) => FirstIndex(xs, a) < FirstIndex(xs, b));
  }
}
