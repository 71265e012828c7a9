/** List filtering, as the Java streams, the JPA derived queries and the UI's `Array.filter` do it. */
module Seqs {

  /** The elements of `s` that satisfy `p`, in their original order. */
  function Filter<T(==)>(s: seq<T>, p: T -> bool): (r: seq<T>)
    ensures |r| <= |s|
    ensures forall x :: x in r ==> x in s && p(x)
    ensures forall i :: 0 <= i < |s| && p(s[i]) ==> s[i] in r
  {
    if s == [] then []
    else
      var rest := Filter(s[1..], p);
      assert forall i :: 1 <= i < |s| ==> s[i] == s[1..][i - 1];
      (if p(s[0]) then [s[0]] else []) + rest
  }

  /** `a` can be obtained from `b` by deleting elements: its elements occur in `b` in the same order. */
  predicate Subsequence<T(==)>(a: seq<T>, b: seq<T>)
    decreases |b|
  {
    if a == [] then true
    else if b == [] then false
    else if a[0] == b[0] then Subsequence(a[1..], b[1..])
    else Subsequence(a, b[1..])
  }

  /** Filtering keeps the order of the input. */
  lemma {:induction false} FilterIsSubsequence<T>(s: seq<T>, p: T -> bool)
    ensures Subsequence(Filter(s, p), s)
  {
    if s != [] {
      FilterIsSubsequence(s[1..], p);
      var rest := Filter(s[1..], p);
      if p(s[0]) {
        assert Filter(s, p) == [s[0]] + rest;
        assert ([s[0]] + rest)[1..] == rest;
      } else {
        assert Filter(s, p) == rest;
        if rest != [] {
          assert rest[0] in rest;
        }
      }
    }
  }

  /** Filtering twice by the same predicate is filtering once. */
  lemma {:induction false} FilterIdempotent<T>(s: seq<T>, p: T -> bool)
    ensures Filter(Filter(s, p), p) == Filter(s, p)
  {
    if s != [] {
      FilterIdempotent(s[1..], p);
      var rest := Filter(s[1..], p);
      if p(s[0]) {
        assert Filter(s, p) == [s[0]] + rest;
        assert ([s[0]] + rest)[1..] == rest;
      } else {
        assert Filter(s, p) == rest;
      }
    }
  }

  /** Filtering keeps every occurrence of a satisfying element and no occurrence of any other. */
  lemma {:induction false} FilterCounts<T>(s: seq<T>, p: T -> bool, x: T)
    ensures multiset(Filter(s, p))[x] == if p(x) then multiset(s)[x] else 0
  {
    if s != [] {
      FilterCounts(s[1..], p, x);
      assert s == [s[0]] + s[1..];
      assert multiset(s) == multiset([s[0]]) + multiset(s[1..]);
      var rest := Filter(s[1..], p);
      if p(s[0]) {
        assert multiset(Filter(s, p)) == multiset([s[0]]) + multiset(rest);
      } else {
        assert Filter(s, p) == rest;
      }
    }
  }

  /** Two predicates that no element satisfies together give filters with no element in common. */
  lemma FilterDisjoint<T>(s: seq<T>, p: T -> bool, q: T -> bool)
    requires forall x :: !(p(x) && q(x))
    ensures multiset(Filter(s, p)) !! multiset(Filter(s, q))
  {
    forall x
      ensures multiset(Filter(s, p))[x] == 0 || multiset(Filter(s, q))[x] == 0
    {
      FilterCounts(s, p, x);
      FilterCounts(s, q, x);
    }
  }

  /** `.stream().map(f)`: `f` applied to each element, in order. */
  function Map<T, U>(s: seq<T>, f: T -> U): (r: seq<U>)
    ensures |r| == |s|
    ensures forall i :: 0 <= i < |s| ==> r[i] == f(s[i])
  {
    if s == [] then [] else [f(s[0])] + Map(s[1..], f)
  }

  /** Replacing one element by another that the filter treats the same way, and that `f` does not
      tell apart from it, leaves the filtered-and-mapped list unchanged. */
  lemma {:induction false} FilterMapUpdate<T, U>(s: seq<T>, i: int, x: T, p: T -> bool, f: T -> U)
    requires 0 <= i < |s|
    requires p(x) == p(s[i]) && (p(x) ==> f(x) == f(s[i]))
    ensures Map(Filter(s[i := x], p), f) == Map(Filter(s, p), f)
  {
    var t := s[i := x];
    assert t[1..] == if i == 0 then s[1..] else s[1..][i - 1 := x];
    if i > 0 {
      FilterMapUpdate(s[1..], i - 1, x, p, f);
    }
    var head := if p(s[0]) then [s[0]] else [];
    var headT := if p(t[0]) then [t[0]] else [];
    assert Filter(s, p) == head + Filter(s[1..], p);
    assert Filter(t, p) == headT + Filter(t[1..], p);
    MapAppend(head, Filter(s[1..], p), f);
    MapAppend(headT, Filter(t[1..], p), f);
  }

  lemma MapAppend<T, U>(a: seq<T>, b: seq<T>, f: T -> U)
    ensures Map(a + b, f) == Map(a, f) + Map(b, f)
  {
  }
}
