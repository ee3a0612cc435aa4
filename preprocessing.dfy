/**
 * Splitting the columns of a feature table into the categorical group and
 * the numeric group, as the modelling pipeline does before encoding.
 */
module Preprocessing {
  import opened Wrappers
  import Strings
  import Features

  /**
   * `xs` is an order-preserving merge of `a` and `b`: every element of `xs`
   * is taken, in turn, from the front of `a` or from the front of `b`.
   */
  predicate IsInterleaving(xs: seq<string>, a: seq<string>, b: seq<string>)
    decreases |xs|
  {
    if xs == [] then a == [] && b == []
    else
      || (a != [] && a[0] == xs[0] && IsInterleaving(xs[1..], a[1..], b))
      || (b != [] && b[0] == xs[0] && IsInterleaving(xs[1..], a, b[1..]))
  }

  /** `categorical_features or FEATURES_CATEGORICAS`: `None` and `[]` both fall back. */
  function EffectiveCategorical(categoricalFeatures: Option<seq<string>>): (r: seq<string>)
    ensures r != []
    ensures categoricalFeatures == None || categoricalFeatures == Some([]) ==> r == Features.CategoricalFeatures
    ensures categoricalFeatures.Some? && categoricalFeatures.value != [] ==> r == categoricalFeatures.value
  {
    match categoricalFeatures
    case None => Features.CategoricalFeatures
    case Some(given) => if given == [] then Features.CategoricalFeatures else given
  }

  /**
   * Splits `xColumns` into `(cats, nums)`: the columns that are categorical
   * and the rest. Every column goes to exactly one group, each group keeps
   * the order of `xColumns`, and no name lands in both.
   */
  function SplitFeatureGroups(xColumns: seq<string>, categoricalFeatures: Option<seq<string>>)
    : (r: (seq<string>, seq<string>))
    ensures IsInterleaving(xColumns, r.0, r.1)
    ensures |r.0| + |r.1| == |xColumns|
    ensures forall c :: c in r.0 ==> c in EffectiveCategorical(categoricalFeatures)
    ensures forall c :: c in r.1 ==> c !in EffectiveCategorical(categoricalFeatures)
    ensures forall c :: c in r.0 ==> c !in r.1
  {
    var categorical := EffectiveCategorical(categoricalFeatures);
    var cats := Strings.Keep(xColumns, categorical);
    var nums := Strings.Drop(xColumns, cats);
    DropKeptIsDropped(xColumns, categorical);
    KeepDropInterleave(xColumns, categorical);
    InterleavingLength(xColumns, cats, nums);
    (cats, nums)
  }

  /** Filtering by two lists that agree on the elements of `xs` gives the same result. */
  lemma {:induction false} DropAgrees(xs: seq<string>, ys: seq<string>, zs: seq<string>)
    requires forall x :: x in xs ==> (x in ys <==> x in zs)
    ensures Strings.Drop(xs, ys) == Strings.Drop(xs, zs)
    decreases |xs|
  {
    if xs != [] {
      assert xs[0] in xs;
      assert forall x :: x in xs[1..] ==> x in xs;
      DropAgrees(xs[1..], ys, zs);
    }
  }

  /**
   * `[c for c in xs if c not in cats]` with `cats` the categorical columns of
   * `xs` equals filtering `xs` by the categorical list itself.
   */
  lemma DropKeptIsDropped(xs: seq<string>, categorical: seq<string>)
    ensures Strings.Drop(xs, Strings.Keep(xs, categorical)) == Strings.Drop(xs, categorical)
  {
    DropAgrees(xs, Strings.Keep(xs, categorical), categorical);
  }

  /** The two filters by one list merge back into the original, in order. */
  lemma {:induction false} KeepDropInterleave(xs: seq<string>, ys: seq<string>)
    ensures IsInterleaving(xs, Strings.Keep(xs, ys), Strings.Drop(xs, ys))
    decreases |xs|
  {
    if xs != [] {
      KeepDropInterleave(xs[1..], ys);
    }
  }

  /** A merge uses every element of both sides exactly once. */
  lemma {:induction false} InterleavingLength(xs: seq<string>, a: seq<string>, b: seq<string>)
    requires IsInterleaving(xs, a, b)
    ensures |a| + |b| == |xs|
    ensures multiset(a) + multiset(b) == multiset(xs)
    decreases |xs|
  {
    if xs != [] {
      assert xs == [xs[0]] + xs[1..];
      if a != [] && a[0] == xs[0] && IsInterleaving(xs[1..], a[1..], b) {
        InterleavingLength(xs[1..], a[1..], b);
        assert a == [a[0]] + a[1..];
      } else {
        InterleavingLength(xs[1..], a, b[1..]);
        assert b == [b[0]] + b[1..];
      }
    }
  }

  /**
   * The split is the only one possible: any order-preserving merge whose left
   * side holds only categorical names and whose right side holds none is
   * exactly `(cats, nums)`.
   */
  lemma {:induction false} SplitIsUnique(xs: seq<string>, categorical: seq<string>, a: seq<string>, b: seq<string>)
    requires IsInterleaving(xs, a, b)
    requires forall c :: c in a ==> c in categorical
    requires forall c :: c in b ==> c !in categorical
    ensures a == Strings.Keep(xs, categorical)
    ensures b == Strings.Drop(xs, categorical)
    decreases |xs|
  {
    if xs != [] {
      if a != [] && a[0] == xs[0] && IsInterleaving(xs[1..], a[1..], b) {
        assert a[0] in a;
        assert forall c :: c in a[1..] ==> c in a;
        SplitIsUnique(xs[1..], categorical, a[1..], b);
        assert a == [a[0]] + a[1..];
      } else {
        assert b[0] in b;
        assert forall c :: c in b[1..] ==> c in b;
        SplitIsUnique(xs[1..], categorical, a, b[1..]);
        assert b == [b[0]] + b[1..];
      }
    }
  }

  /**
   * `cats` is exactly the categorical columns of `xColumns` and `nums`
   * exactly the others, both in `xColumns` order.
   */
  lemma SplitFeatureGroupsFilters(xColumns: seq<string>, categoricalFeatures: Option<seq<string>>)
    ensures SplitFeatureGroups(xColumns, categoricalFeatures).0
            == Strings.Keep(xColumns, EffectiveCategorical(categoricalFeatures))
    ensures SplitFeatureGroups(xColumns, categoricalFeatures).1
            == Strings.Drop(xColumns, EffectiveCategorical(categoricalFeatures))
  {
    var r := SplitFeatureGroups(xColumns, categoricalFeatures);
    SplitIsUnique(xColumns, EffectiveCategorical(categoricalFeatures), r.0, r.1);
  }
}
