/**
 * Order-preserving selection: what JavaScript's `Array.prototype.filter`
 * (and Prisma's `where` on a relation) returns.
 */
module Subsequences {

  /** `r` can be obtained from `s` by deleting elements, keeping the order of the rest. */
  ghost predicate IsSubsequence<T>(r: seq<T>, s: seq<T>)
    decreases |s|
  {
    |r| == 0 || (|s| > 0 && ((r[0] == s[0] && IsSubsequence(r[1..], s[1..])) || IsSubsequence(r, s[1..])))
  }

  /** The elements of `s` that satisfy `p`, in their original order. */
  function Filter<T>(s: seq<T>, p: T -> bool): (r: seq<T>)
    ensures |r| <= |s|
    ensures forall i :: 0 <= i < |r| ==> p(r[i])
  {
    if |s| == 0 then []
    else if p(s[0]) then [s[0]] + Filter(s[1..], p)
    else Filter(s[1..], p)
  }

  /**
   * What `Filter` keeps, independently of how it is computed: every element
   * satisfying `p` as often as it occurs in `s`, nothing else, and in the
   * order of `s`.
   */
  lemma {:induction false} FilterKeepsExactly<T>(s: seq<T>, p: T -> bool)
    ensures forall x :: x in s && p(x) ==> multiset(Filter(s, p))[x] == multiset(s)[x]
    ensures forall x :: x in Filter(s, p) ==> x in s
    ensures IsSubsequence(Filter(s, p), s)
  {
    if |s| > 0 {
      FilterKeepsExactly(s[1..], p);
      var rest := Filter(s[1..], p);
      assert s == [s[0]] + s[1..];
      assert multiset(s) == multiset([s[0]]) + multiset(s[1..]);
      if p(s[0]) {
        var r := [s[0]] + rest;
        assert r[1..] == rest;
        assert multiset(r) == multiset([s[0]]) + multiset(rest);
      }
    }
  }

  /** An element of `s` is kept exactly when it satisfies `p`. */
  lemma FilterMembership<T>(s: seq<T>, p: T -> bool, x: T)
    ensures x in Filter(s, p) <==> x in s && p(x)
  {
    FilterKeepsExactly(s, p);
    var r := Filter(s, p);
    if x in s && p(x) {
      assert multiset(s)[x] > 0;
      assert multiset(r)[x] > 0;
    }
    if x in r {
      var i :| 0 <= i < |r| && r[i] == x;
      assert p(r[i]);
    }
  }

  lemma FilterCons<T>(s: seq<T>, p: T -> bool)
    requires |s| > 0
    ensures Filter(s, p) == (if p(s[0]) then [s[0]] else []) + Filter(s[1..], p)
  {
  }

  /** Filtering one more element at the end extends the result by that element or by nothing. */
  lemma {:induction false} FilterSnoc<T>(s: seq<T>, x: T, p: T -> bool)
    ensures Filter(s + [x], p) == Filter(s, p) + (if p(x) then [x] else [])
  {
    var tail: seq<T> := if p(x) then [x] else [];
    if |s| == 0 {
      assert s + [x] == [x];
      FilterCons([x], p);
      assert [x][1..] == [];
    } else {
      var sx := s + [x];
      assert sx[0] == s[0];
      assert sx[1..] == s[1..] + [x];
      FilterCons(sx, p);
      FilterCons(s, p);
      FilterSnoc(s[1..], x, p);
      var head: seq<T> := if p(s[0]) then [s[0]] else [];
      calc {
        Filter(sx, p);
        head + Filter(s[1..] + [x], p);
        head + (Filter(s[1..], p) + tail);
        (head + Filter(s[1..], p)) + tail;
        Filter(s, p) + tail;
      }
    }
  }

}
