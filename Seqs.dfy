/** Whole-sequence transforms of the kind pandas applies to a Series: `apply` (Map) and
    boolean-mask selection (Filter), with the facts the comment pipeline relies on. */
module Seqs {

  /** `series.apply(f)`: the same positions, each value transformed. */
  function Map<A, B>(f: A -> B, s: seq<A>): (r: seq<B>)
    ensures |r| == |s|
    ensures forall i :: 0 <= i < |s| ==> r[i] == f(s[i])
  {
    if s == [] then [] else [f(s[0])] + Map(f, s[1..])
  }

  /** `series[series.apply(p)]`: the elements that satisfy `p`, in their original order,
      each as often as it occurs in `s`. */
  function Filter<T(!new)>(p: T -> bool, s: seq<T>): (r: seq<T>)
    ensures |r| <= |s|
    ensures forall x :: x in r <==> x in s && p(x)
    ensures forall x :: multiset(r)[x] == if p(x) then multiset(s)[x] else 0
  {
    if s == [] then []
    else
      assert s == [s[0]] + s[1..];
      (if p(s[0]) then [s[0]] else []) + Filter(p, s[1..])
  }

  /** `a` is obtained from `b` by deleting elements, without reordering the rest. */
  ghost predicate IsSubseq<T>(a: seq<T>, b: seq<T>)
    decreases |b|
  {
    if a == [] then true
    else if b == [] then false
    else (a[0] == b[0] && IsSubseq(a[1..], b[1..])) || IsSubseq(a, b[1..])
  }

  lemma {:induction false} FilterIsSubseq<T(!new)>(p: T -> bool, s: seq<T>)
    ensures IsSubseq(Filter(p, s), s)
  {
    if s != [] {
      FilterIsSubseq(p, s[1..]);
      var r := Filter(p, s);
      if p(s[0]) {
        assert r == [s[0]] + Filter(p, s[1..]);
        assert r[1..] == Filter(p, s[1..]);
      } else {
        assert r == [] + Filter(p, s[1..]);
        assert r == Filter(p, s[1..]);
        assert IsSubseq(r, s[1..]);
      }
    }
  }

  /** Filters that agree on every element give the same result. */
  lemma {:induction false} FilterExt<T(!new)>(p: T -> bool, q: T -> bool, s: seq<T>)
    requires forall x :: x in s ==> p(x) == q(x)
    ensures Filter(p, s) == Filter(q, s)
  {
    if s != [] {
      assert forall x :: x in s[1..] ==> x in s;
      FilterExt(p, q, s[1..]);
    }
  }

  /** Two successive filters are one filter by their conjunction `r`. */
  lemma {:induction false} FilterFuse<T(!new)>(p: T -> bool, q: T -> bool, r: T -> bool, s: seq<T>)
    requires forall x :: x in s ==> r(x) == (p(x) && q(x))
    ensures Filter(q, Filter(p, s)) == Filter(r, s)
  {
    if s != [] {
      assert forall x :: x in s[1..] ==> x in s;
      FilterFuse(p, q, r, s[1..]);
      var rest := Filter(p, s[1..]);
      if p(s[0]) {
        var f := [s[0]] + rest;
        assert Filter(p, s) == f;
        assert f[0] == s[0] && f[1..] == rest;
        assert Filter(q, f) == (if q(s[0]) then [s[0]] else []) + Filter(q, rest);
      } else {
        assert Filter(p, s) == [] + rest == rest;
      }
    }
  }

  /** Successive filters commute. */
  lemma FilterCommute<T(!new)>(p: T -> bool, q: T -> bool, s: seq<T>)
    ensures Filter(q, Filter(p, s)) == Filter(p, Filter(q, s))
  {
    var both := x => p(x) && q(x);
    FilterFuse(p, q, both, s);
    FilterFuse(q, p, both, s);
  }

  /** Four successive filters are one filter by their conjunction `q`. */
  lemma FilterChain4<T(!new)>(p1: T -> bool, p2: T -> bool, p3: T -> bool, p4: T -> bool,
                              q: T -> bool, s: seq<T>)
    requires forall x :: x in s ==> q(x) == (p1(x) && p2(x) && p3(x) && p4(x))
    ensures Filter(p4, Filter(p3, Filter(p2, Filter(p1, s)))) == Filter(q, s)
  {
    var q2 := x => p1(x) && p2(x);
    FilterFuse(p1, p2, q2, s);
    var q3 := x => q2(x) && p3(x);
    FilterFuse(q2, p3, q3, s);
    FilterFuse(q3, p4, q, s);
  }
}
