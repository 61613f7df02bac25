/**
 * The array operations the views rely on, on values: `Option` for a
 * possibly absent result, `Array.prototype.filter` (the kept elements in
 * their original order, with its lemmas), and `FirstIndex`, the position
 * `Array.prototype.find` stops at.
 */
module Seqs {

  datatype Option<+T> = None | Some(value: T)

  /** `a` can be obtained from `b` by deleting elements (order is kept). */
  ghost predicate IsSubsequence<T(!new)>(a: seq<T>, b: seq<T>)
    decreases |b|
  {
    a == [] || (b != [] && ((a[0] == b[0] && IsSubsequence(a[1..], b[1..])) || IsSubsequence(a, b[1..])))
  }

  function Filter<T(==,!new)>(s: seq<T>, p: T -> bool): (r: seq<T>)
    ensures |r| <= |s|
    ensures forall x :: x in r <==> x in s && p(x)
    ensures forall x :: multiset(r)[x] == if p(x) then multiset(s)[x] else 0
    ensures IsSubsequence(r, s)
  {
    if s == [] then []
    else
      var rest := Filter(s[1..], p);
      assert s == [s[0]] + s[1..];
      if p(s[0]) then
        var r := [s[0]] + rest;
        assert r[1..] == rest;
        r
      else rest
  }

  lemma {:induction false} SubsequenceCount<T(!new)>(a: seq<T>, b: seq<T>)
    requires IsSubsequence(a, b)
    ensures forall x :: multiset(a)[x] <= multiset(b)[x]
    decreases |b|
  {
    if a == [] {
    } else {
      assert b == [b[0]] + b[1..];
      if a[0] == b[0] && IsSubsequence(a[1..], b[1..]) {
        SubsequenceCount(a[1..], b[1..]);
        assert a == [a[0]] + a[1..];
      } else {
        SubsequenceCount(a, b[1..]);
      }
    }
  }

  /**
   * Filter is the only subsequence of `s` holding exactly the kept elements
   * with their multiplicities: the order of the kept elements is forced.
   */
  lemma {:induction false} FilterUnique<T(!new)>(s: seq<T>, p: T -> bool, r: seq<T>)
    requires IsSubsequence(r, s)
    requires forall x :: multiset(r)[x] == if p(x) then multiset(s)[x] else 0
    ensures r == Filter(s, p)
    decreases |s|
  {
    if s == [] {
      assert r == [];
    } else {
      var x := s[0];
      assert s == [x] + s[1..];
      if r == [] {
        assert multiset(r)[x] == 0;
        assert !p(x);
        FilterUnique(s[1..], p, r);
      } else if r[0] == x && IsSubsequence(r[1..], s[1..]) {
        assert r == [x] + r[1..];
        assert p(x) by { assert multiset(r)[x] > 0; }
        FilterUnique(s[1..], p, r[1..]);
      } else {
        assert IsSubsequence(r, s[1..]);
        SubsequenceCount(r, s[1..]);
        FilterUnique(s[1..], p, r);
      }
    }
  }

  /** Filtering a concatenation filters each part. */
  lemma {:induction false} FilterConcat<T(!new)>(a: seq<T>, b: seq<T>, p: T -> bool)
    ensures Filter(a + b, p) == Filter(a, p) + Filter(b, p)
  {
    if a == [] {
      assert a + b == b;
    } else {
      assert (a + b)[1..] == a[1..] + b;
      FilterConcat(a[1..], b, p);
    }
  }

  /** Filtering an element in front of a sequence. */
  lemma FilterCons<T(!new)>(a: T, t: seq<T>, p: T -> bool)
    ensures Filter([a] + t, p) == (if p(a) then [a] else []) + Filter(t, p)
  {
    assert ([a] + t)[0] == a && ([a] + t)[1..] == t;
  }

  /** A filter that keeps every element returns its input. */
  lemma {:induction false} FilterKeepsAll<T(!new)>(s: seq<T>, p: T -> bool)
    requires forall x :: x in s ==> p(x)
    ensures Filter(s, p) == s
  {
    if s != [] {
      FilterKeepsAll(s[1..], p);
      assert s == [s[0]] + s[1..];
    }
  }

  /** Appending an element the filter drops to a sequence it keeps whole filters back to that sequence. */
  lemma FilterDropsLast<T(!new)>(s: seq<T>, x: T, p: T -> bool)
    requires forall y :: y in s ==> p(y)
    requires !p(x)
    ensures Filter(s + [x], p) == s
  {
    FilterConcat(s, [x], p);
    FilterKeepsAll(s, p);
    FilterCons(x, [], p);
    assert s + [] == s;
  }

  /** The first position whose element satisfies `p`: where `find` stops, None when nothing matches. */
  function FirstIndex<T>(s: seq<T>, p: T -> bool): (r: Option<nat>)
    ensures r.Some? ==> r.value < |s| && p(s[r.value]) && forall j :: 0 <= j < r.value ==> !p(s[j])
    ensures r.None? <==> forall j :: 0 <= j < |s| ==> !p(s[j])
  {
    if s == [] then None
    else if p(s[0]) then Some(0)
    else match FirstIndex(s[1..], p)
      case None => None
      case Some(i) => Some(i + 1)
  }
}
