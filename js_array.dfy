/** The two array methods the calendar screens build on: `Array.prototype.filter`
    and `Array.prototype.some`, over sequences, with the order-preserving
    sublist relation that a filter's result stands in to its input. */
module JsArray {

  /** `a` can be obtained from `b` by deleting elements, keeping the order. */
  predicate IsSublist<T(==,!new)>(a: seq<T>, b: seq<T>)
    decreases |b|
  {
    if a == [] then true
    else if b == [] then false
    else if a[0] == b[0] then IsSublist(a[1..], b[1..])
    else IsSublist(a, b[1..])
  }

  /** `filter`: the elements of `s` that satisfy `p`, in their original order.
      The ensures clauses pin the result down: it is a sublist of `s`, and it
      holds every satisfying element exactly as often as `s` does and no
      other element. */
  function Filter<T(==,!new)>(p: T -> bool, s: seq<T>): (r: seq<T>)
    ensures IsSublist(r, s)
    ensures |r| <= |s|
    ensures forall x :: x in r <==> x in s && p(x)
    ensures forall x :: multiset(r)[x] == if p(x) then multiset(s)[x] else 0
    decreases |s|
  {
    if s == [] then []
    else
      var rest := Filter(p, s[1..]);
      assert s == [s[0]] + s[1..];
      if p(s[0]) then
        var r := [s[0]] + rest;
        assert r[1..] == rest;
        r
      else rest
  }

  /** `some`: whether an element of `s` satisfies `p`. */
  function Any<T>(p: T -> bool, s: seq<T>): (b: bool)
    ensures b <==> exists i :: 0 <= i < |s| && p(s[i])
    decreases |s|
  {
    if s == [] then false
    else if p(s[0]) then true
    else
      var b := Any(p, s[1..]);
      assert forall i :: 1 <= i < |s| ==> s[i] == s[1..][i - 1];
      b
  }

  /** Filtering with a predicate that every element satisfies returns the
      input unchanged. */
  lemma {:induction false} FilterKeepsAll<T(!new)>(p: T -> bool, s: seq<T>)
    requires forall i :: 0 <= i < |s| ==> p(s[i])
    ensures Filter(p, s) == s
    decreases |s|
  {
    if s != [] {
      FilterKeepsAll(p, s[1..]);
      assert s == [s[0]] + s[1..];
    }
  }

  /** Filtering depends on the predicate only through its values. */
  lemma {:induction false} FilterSamePredicate<T(!new)>(p: T -> bool, q: T -> bool, s: seq<T>)
    requires forall x :: p(x) == q(x)
    ensures Filter(p, s) == Filter(q, s)
    decreases |s|
  {
    if s != [] {
      FilterSamePredicate(p, q, s[1..]);
    }
  }

  /** Filtering twice keeps the elements that satisfy both predicates, in
      order: a chain of `filter` calls is one filter. */
  lemma {:induction false} FilterFilter<T(!new)>(p: T -> bool, q: T -> bool, s: seq<T>)
    ensures Filter(q, Filter(p, s)) == Filter(x => p(x) && q(x), s)
    decreases |s|
  {
    if s != [] {
      FilterFilter(p, q, s[1..]);
      if p(s[0]) {
        assert Filter(p, s)[1..] == Filter(p, s[1..]);
      }
    }
  }

  /** A filter finds something exactly when `some` with the same predicate
      holds. */
  lemma FilterNonEmptyIffAny<T(!new)>(p: T -> bool, s: seq<T>)
    ensures Filter(p, s) != [] <==> Any(p, s)
  {
    var r := Filter(p, s);
    if r != [] {
      assert r[0] in r;
      var i :| 0 <= i < |s| && s[i] == r[0];
    }
    if Any(p, s) {
      var i :| 0 <= i < |s| && p(s[i]);
      assert s[i] in r;
    }
  }
}
