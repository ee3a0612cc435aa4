/**
 * Python's ordering of `str` values and `sorted(set(xs))` over strings.
 *
 * Python compares strings lexicographically by code point; a proper prefix
 * comes first. Dafny's `<` on `char` is the code-point order, so `Less` below
 * is that ordering.
 */
module Strings {

  /** Lexicographic, code-point order: `a < b` in Python. */
  predicate Less(a: string, b: string)
    decreases |a|
  {
    if a == [] then b != []
    else if b == [] then false
    else a[0] < b[0] || (a[0] == b[0] && Less(a[1..], b[1..]))
  }

  lemma {:induction false} LessIrreflexive(a: string)
    ensures !Less(a, a)
    decreases |a|
  {
    if a != [] {
      LessIrreflexive(a[1..]);
    }
  }

  lemma {:induction false} LessTransitive(a: string, b: string, c: string)
    requires Less(a, b) && Less(b, c)
    ensures Less(a, c)
    decreases |a|
  {
    if a != [] && a[0] == b[0] && b[0] == c[0] {
      LessTransitive(a[1..], b[1..], c[1..]);
    }
  }

  /** Any two distinct strings are ordered one way or the other. */
  lemma {:induction false} LessTotal(a: string, b: string)
    requires a != b
    ensures Less(a, b) || Less(b, a)
    decreases |a|
  {
    if a != [] && b != [] && a[0] == b[0] {
      assert a == [a[0]] + a[1..] && b == [b[0]] + b[1..];
      LessTotal(a[1..], b[1..]);
    }
  }

  /** `[x for x in xs if x in ys]`: the elements of `xs` that occur in `ys`, in order. */
  function Keep(xs: seq<string>, ys: seq<string>): (r: seq<string>)
    ensures |r| <= |xs|
    ensures forall y :: y in r <==> y in xs && y in ys
    decreases |xs|
  {
    if xs == [] then []
    else if xs[0] in ys then [xs[0]] + Keep(xs[1..], ys)
    else Keep(xs[1..], ys)
  }

  /** `[x for x in xs if x not in ys]`: the elements of `xs` absent from `ys`, in order. */
  function Drop(xs: seq<string>, ys: seq<string>): (r: seq<string>)
    ensures |r| <= |xs|
    ensures forall y :: y in r <==> y in xs && y !in ys
    decreases |xs|
  {
    if xs == [] then []
    else if xs[0] in ys then Drop(xs[1..], ys)
    else [xs[0]] + Drop(xs[1..], ys)
  }

  /** Every element comes strictly before every later one: sorted, no repeats. */
  predicate StrictlySorted(s: seq<string>)
  {
    forall i, j :: 0 <= i < j < |s| ==> Less(s[i], s[j])
  }

  /** Puts `x` into a strictly sorted sequence, unless it is already there. */
  function Insert(x: string, s: seq<string>): (r: seq<string>)
    requires StrictlySorted(s)
    ensures StrictlySorted(r)
    ensures forall y :: y in r <==> y in s || y == x
    decreases |s|
  {
    if s == [] then [x]
    else if x == s[0] then s
    else if Less(x, s[0]) then
      PrependSorted(x, s);
      [x] + s
    else
      LessTotal(x, s[0]);
      var t := Insert(x, s[1..]);
      assert forall y :: y in s <==> y == s[0] || y in s[1..] by {
        assert s == [s[0]] + s[1..];
      }
      PrependSorted(s[0], t);
      [s[0]] + t
  }

  /** Prepending an element below the first one keeps a sequence strictly sorted. */
  lemma PrependSorted(x: string, s: seq<string>)
    requires StrictlySorted(s)
    requires s == [] || Less(x, s[0]) || forall y :: y in s ==> Less(x, y)
    ensures StrictlySorted([x] + s)
  {
    forall j | 0 < j < |s|
      ensures Less(x, s[j])
    {
      if !(forall y :: y in s ==> Less(x, y)) {
        LessTransitive(x, s[0], s[j]);
      }
    }
  }

  /** `sorted(set(xs))`: the distinct elements of `xs` in ascending order. */
  function SortedSet(xs: seq<string>): (r: seq<string>)
    ensures StrictlySorted(r)
    ensures forall y :: y in r <==> y in xs
    decreases |xs|
  {
    if xs == [] then []
    else
      assert forall y :: y in xs <==> y == xs[0] || y in xs[1..] by {
        assert xs == [xs[0]] + xs[1..];
      }
      Insert(xs[0], SortedSet(xs[1..]))
  }

  /** In a strictly sorted sequence the head is below every other element. */
  lemma HeadBelowRest(s: seq<string>, y: string)
    requires StrictlySorted(s) && s != [] && y in s[1..]
    ensures Less(s[0], y) && y != s[0]
  {
    var i :| 1 <= i < |s| && s[i] == y;
    LessIrreflexive(y);
  }

  lemma SameElementsBothEmpty(s: seq<string>, t: seq<string>)
    requires forall y :: y in s <==> y in t
    ensures s == [] <==> t == []
  {
    if s != [] { assert s[0] in t; }
    if t != [] { assert t[0] in s; }
  }

  /** A strictly sorted sequence is determined by the elements it holds. */
  lemma {:induction false} StrictlySortedUnique(s: seq<string>, t: seq<string>)
    requires StrictlySorted(s) && StrictlySorted(t)
    requires forall y :: y in s <==> y in t
    ensures s == t
    decreases |s|
  {
    SameElementsBothEmpty(s, t);
    if s != [] {
      assert s == [s[0]] + s[1..] && t == [t[0]] + t[1..];
      if s[0] != t[0] {
        assert s[0] in t && t[0] in s;
        assert s[0] in t[1..] && t[0] in s[1..];
        HeadBelowRest(t, s[0]);
        HeadBelowRest(s, t[0]);
        LessTransitive(s[0], t[0], s[0]);
        LessIrreflexive(s[0]);
      }
      forall y
        ensures y in s[1..] <==> y in t[1..]
      {
        if y in s[1..] {
          HeadBelowRest(s, y);
          assert y in t && y != t[0];
        }
        if y in t[1..] {
          HeadBelowRest(t, y);
          assert y in s && y != s[0];
        }
      }
      StrictlySortedUnique(s[1..], t[1..]);
    }
  }
}
