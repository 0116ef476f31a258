/**
 * `Array.prototype.sort` with a comparator, as the planner's views use it
 * on freshly filtered copies: a stable insertion sort over a total
 * preorder, proved to return a sorted permutation of its input.
 */
module Sorting {

  /** `leq` relates every pair one way or the other, and chains. */
  ghost predicate TotalPreorder<T(!new)>(leq: (T, T) -> bool) {
    && (forall x, y :: leq(x, y) || leq(y, x))
    && (forall x, y, z :: leq(x, y) && leq(y, z) ==> leq(x, z))
  }

  /** Every earlier element is `leq` every later one. */
  ghost predicate SortedBy<T>(s: seq<T>, leq: (T, T) -> bool) {
    forall i, j :: 0 <= i < j < |s| ==> leq(s[i], s[j])
  }

  /** Puts `x` in front of the first element it is `leq` to. */
  function Insert<T>(x: T, s: seq<T>, leq: (T, T) -> bool): (r: seq<T>)
    ensures |r| == |s| + 1
    ensures multiset(r) == multiset(s) + multiset{x}
  {
    if s == [] || leq(x, s[0]) then [x] + s
    else
      assert s == [s[0]] + s[1..];
      [s[0]] + Insert(x, s[1..], leq)
  }

  lemma {:induction false} InsertSorted<T(!new)>(x: T, s: seq<T>, leq: (T, T) -> bool)
    requires TotalPreorder(leq) && SortedBy(s, leq)
    ensures SortedBy(Insert(x, s, leq), leq)
  {
    if s == [] || leq(x, s[0]) {
      forall z | z in s ensures leq(x, z) {
        var k :| 0 <= k < |s| && s[k] == z;
        if k > 0 {
          assert leq(s[0], s[k]);
        }
      }
      ConsSorted(x, s, leq);
    } else {
      var t := s[1..];
      InsertSorted(x, t, leq);
      var rt := Insert(x, t, leq);
      forall z | z in rt ensures leq(s[0], z) {
        assert z in multiset(rt);
        if z != x {
          assert z in multiset(t);
          var k :| 0 <= k < |t| && t[k] == z;
          assert s[k + 1] == z;
        }
      }
      ConsSorted(s[0], Insert(x, t, leq), leq);
    }
  }

  /** An element `leq` everything in a sorted sequence can go in front of it. */
  lemma ConsSorted<T>(y: T, t: seq<T>, leq: (T, T) -> bool)
    requires SortedBy(t, leq) && forall z :: z in t ==> leq(y, z)
    ensures SortedBy([y] + t, leq)
  {
    var r := [y] + t;
    forall i, j | 0 <= i < j < |r| ensures leq(r[i], r[j]) {
      assert r[j] == t[j - 1];
      if i > 0 {
        assert r[i] == t[i - 1];
      }
    }
  }

  /** The sorted copy of `s`; equal elements keep their input order. */
  function Sort<T(!new)>(s: seq<T>, leq: (T, T) -> bool): (r: seq<T>)
    requires TotalPreorder(leq)
    ensures |r| == |s|
    ensures multiset(r) == multiset(s)
    ensures SortedBy(r, leq)
  {
    if s == [] then []
    else
      var rest := Sort(s[1..], leq);
      InsertSorted(s[0], rest, leq);
      assert s == [s[0]] + s[1..];
      Insert(s[0], rest, leq)
  }

  /** An element is in the sorted copy exactly when it is in the input. */
  lemma SortMembers<T(!new)>(s: seq<T>, leq: (T, T) -> bool, x: T)
    requires TotalPreorder(leq)
    ensures x in Sort(s, leq) <==> x in s
  {
    assert x in Sort(s, leq) <==> x in multiset(Sort(s, leq));
  }

  /** In a sorted sequence, whatever is in the first `n` elements is `leq`
      anything that is not. */
  lemma SortedPrefixBelow<T>(s: seq<T>, leq: (T, T) -> bool, n: nat, t: T, u: T)
    requires SortedBy(s, leq) && n <= |s|
    requires t in s && t !in s[..n] && u in s[..n]
    ensures leq(u, t)
  {
    var k :| 0 <= k < |s| && s[k] == t;
    var j :| 0 <= j < n && s[..n][j] == u;
    assert forall m :: 0 <= m < n ==> s[..n][m] == s[m];
    assert k >= n;
  }
}
