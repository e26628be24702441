/** Order-keeping filtering of sequences, the way the classifier's filters use it. */
module Sequences {

  /** The elements of `s` that satisfy `p`, in their original order. */
  function Filter<X>(s: seq<X>, p: X -> bool): (r: seq<X>)
    ensures |r| <= |s|
  {
    if |s| == 0 then [] else Keep(s[0], p) + Filter(s[1..], p)
  }

  /** `[x]` if `x` satisfies `p`, else nothing. */
  function Keep<X>(x: X, p: X -> bool): seq<X>
  {
    if p(x) then [x] else []
  }

  /** Filtering an element followed by more elements. */
  lemma FilterCons<X(!new)>(x: X, s: seq<X>, p: X -> bool)
    ensures Filter([x] + s, p) == Keep(x, p) + Filter(s, p)
  {
  }

  /** An element is kept exactly when it occurs in `s` and satisfies `p`. */
  lemma {:induction false} FilterMembers<X(!new)>(s: seq<X>, p: X -> bool)
    ensures forall x :: x in Filter(s, p) <==> x in s && p(x)
  {
    if |s| > 0 {
      FilterMembers(s[1..], p);
      assert s == [s[0]] + s[1..];
    }
  }

  /** Filtering keeps every element that satisfies `p` as often as it occurs, and drops every other. */
  lemma {:induction false} FilterCount<X(!new)>(s: seq<X>, p: X -> bool, x: X)
    ensures multiset(Filter(s, p))[x] == if p(x) then multiset(s)[x] else 0
  {
    if |s| > 0 {
      FilterCount(s[1..], p, x);
      MultisetCons(s);
    }
  }

  /** Filtering a three-element sequence, one element at a time. */
  lemma FilterThree<X(!new)>(a: X, b: X, c: X, p: X -> bool)
    ensures Filter([a, b, c], p) == Keep(a, p) + Keep(b, p) + Keep(c, p)
  {
    FilterCons(a, [b, c], p);
    FilterCons(b, [c], p);
    FilterCons(c, [], p);
    assert [a, b, c] == [a] + [b, c] && [b, c] == [b] + [c] && [c] == [c] + [];
  }

  /** Exactly one of three conditions holds. */
  predicate ExactlyOne(a: bool, b: bool, c: bool)
  {
    (a && !b && !c) || (!a && b && !c) || (!a && !b && c)
  }

  lemma MultisetCons<X>(s: seq<X>)
    requires |s| > 0
    ensures multiset(s) == multiset{s[0]} + multiset(s[1..])
  {
    assert s == [s[0]] + s[1..];
  }

  /** The three filters' results, pooled together. */
  ghost function Pooled<X>(s: seq<X>, p: X -> bool, q: X -> bool, r: X -> bool): multiset<X>
  {
    multiset(Filter(s, p)) + multiset(Filter(s, q)) + multiset(Filter(s, r))
  }

  /** The first element lands in exactly one of the three filters. */
  lemma PooledStep<X>(s: seq<X>, p: X -> bool, q: X -> bool, r: X -> bool)
    requires |s| > 0 && ExactlyOne(p(s[0]), q(s[0]), r(s[0]))
    ensures Pooled(s, p, q, r) == multiset{s[0]} + Pooled(s[1..], p, q, r)
  {
  }

  /**
   When every element satisfies exactly one of three conditions, the three
   filters share the elements out between them.
   */
  lemma {:induction false} FilterPartition<X>(s: seq<X>, p: X -> bool, q: X -> bool, r: X -> bool)
    requires forall i :: 0 <= i < |s| ==> ExactlyOne(p(s[i]), q(s[i]), r(s[i]))
    ensures Pooled(s, p, q, r) == multiset(s)
  {
    if |s| > 0 {
      var tail := s[1..];
      assert forall i :: 0 <= i < |tail| ==> tail[i] == s[i + 1];
      FilterPartition(tail, p, q, r);
      PooledStep(s, p, q, r);
      MultisetCons(s);
    }
  }
}
