/** The distribution algebra of optur/search_space/distribution.py: containment,
    identity up to the order of choices, and merging. The helpers duplicated at
    optur/utils/search_space_tracker.py:67-139 are the same code and are modelled
    once, here. */
module SearchSpaceDistribution {
  import opened Errors
  import opened Proto

  /** `any(v == x for x in xs)`. */
  function AnyEqual(v: ParameterValue, xs: seq<ParameterValue>): (r: bool)
    ensures r <==> v in xs
  {
    if xs == [] then false else xs[0] == v || AnyEqual(v, xs[1..])
  }

  /** `all(any(x == y for y in ys) for x in xs)`. */
  function AllIn(xs: seq<ParameterValue>, ys: seq<ParameterValue>): (r: bool)
    ensures r <==> forall x :: x in xs ==> x in ys
  {
    if xs == [] then true else AnyEqual(xs[0], ys) && AllIn(xs[1..], ys)
  }

  /** does_distribution_contain_value: whether `v` can be drawn from `d`. Both
      numeric bounds are inclusive; a value of another type is never contained;
      a distribution with no kind set raises. */
  function Contains(d: Distribution, v: ParameterValue): (r: Result<bool>)
    ensures r.Err? <==> d.NoDistribution?
    ensures r.Err? ==> r.error == NotImplemented
    ensures d.IntDistribution? ==> r == Ok(v.IntValue? && d.intLow <= v.intValue <= d.intHigh)
    ensures d.FloatDistribution? ==> r == Ok(v.DoubleValue? && d.floatLow <= v.doubleValue <= d.floatHigh)
    ensures d.CategoricalDistribution? ==> r == Ok(v in d.choices)
    ensures d.FixedDistribution? ==> r == Ok(v in d.values)
  {
    match d
    case IntDistribution(low, high, _) =>
      if !v.IntValue? then Ok(false) else Ok(low <= v.intValue <= high)
    case FloatDistribution(low, high, _) =>
      if !v.DoubleValue? then Ok(false) else Ok(low <= v.doubleValue <= high)
    case CategoricalDistribution(choices) => Ok(AnyEqual(v, choices))
    case FixedDistribution(values) => Ok(AnyEqual(v, values))
    case NoDistribution => Err(NotImplemented)
  }

  /** `all(does_distribution_contain_value(d, v) for v in vs)`: it stops at the
      first value that is not contained, and raises at the first value when `d`
      has no kind. */
  function AllContained(d: Distribution, vs: seq<ParameterValue>): (r: Result<bool>)
    ensures r.Err? <==> d.NoDistribution? && vs != []
    ensures r.Err? ==> r.error == NotImplemented
    ensures r.Ok? ==> (r.value <==> forall v :: v in vs ==> Contains(d, v) == Ok(true))
  {
    if vs == [] then Ok(true)
    else
      var first := Contains(d, vs[0]);
      if first.Err? then Err(first.error)
      else if !first.value then Ok(false)
      else AllContained(d, vs[1..])
  }

  /** The same number of elements, and every element of `xs` occurs in `ys`. */
  ghost predicate SameLengthCovered(xs: seq<ParameterValue>, ys: seq<ParameterValue>) {
    |xs| == |ys| && forall x :: x in xs ==> x in ys
  }

  /** are_identical_distributions: structurally equal, or two categorical (or two
      fixed) distributions whose lists have the same length and whose first list
      only holds elements of the second. */
  function AreIdentical(a: Distribution, b: Distribution): (r: bool)
    ensures r <==>
      || a == b
      || (a.CategoricalDistribution? && b.CategoricalDistribution? && SameLengthCovered(a.choices, b.choices))
      || (a.FixedDistribution? && b.FixedDistribution? && SameLengthCovered(a.values, b.values))
  {
    if a == b then true
    else if a.CategoricalDistribution? && b.CategoricalDistribution?
         && |a.choices| == |b.choices| && AllIn(a.choices, b.choices) then true
    else if a.FixedDistribution? && b.FixedDistribution?
         && |a.values| == |b.values| && AllIn(a.values, b.values) then true
    else false
  }

  predicate NoDuplicates(s: seq<ParameterValue>) {
    forall i, j :: 0 <= i < j < |s| ==> s[i] != s[j]
  }

  /** The elements of `news` that the Fixed/Fixed merge appends, by position:
      `news[i]` is kept exactly when it is neither in `values` nor in `news[..i]`. */
  function NewValues(values: seq<ParameterValue>, news: seq<ParameterValue>): seq<ParameterValue>
    decreases |news|
  {
    if news == [] then []
    else
      var init, last := news[..|news| - 1], news[|news| - 1];
      NewValues(values, init) + (if last in values || last in init then [] else [last])
  }

  /** Only membership in `values` matters to NewValues. */
  lemma {:induction false} NewValuesSameMembers(v1: seq<ParameterValue>, v2: seq<ParameterValue>, news: seq<ParameterValue>)
    requires forall x :: x in v1 <==> x in v2
    ensures NewValues(v1, news) == NewValues(v2, news)
    decreases |news|
  {
    if news != [] {
      NewValuesSameMembers(v1, v2, news[..|news| - 1]);
    }
  }

  /** NewValues read from the front: the first element is kept when it is not in
      `values`, and the rest is filtered against `values` extended by it. */
  lemma {:induction false} NewValuesCons(values: seq<ParameterValue>, a: ParameterValue, t: seq<ParameterValue>)
    ensures NewValues(values, [a] + t) == (if a in values then [] else [a]) + NewValues(values + [a], t)
    decreases |t|
  {
    if t == [] {
      assert ([a] + t)[..0] == [];
    } else {
      var t', x := t[..|t| - 1], t[|t| - 1];
      assert ([a] + t)[..|[a] + t| - 1] == [a] + t';
      assert ([a] + t)[|[a] + t| - 1] == x;
      NewValuesCons(values, a, t');
      assert (x in values || x in [a] + t') <==> (x in values + [a] || x in t');
    }
  }

  /** One step of AppendNew, stated on NewValues. */
  lemma AppendNewStep(values: seq<ParameterValue>, news: seq<ParameterValue>, next: seq<ParameterValue>)
    requires news != []
    requires next == if news[0] in values then values else values + [news[0]]
    ensures values + NewValues(values, news) == next + NewValues(next, news[1..])
  {
    assert news == [news[0]] + news[1..];
    NewValuesCons(values, news[0], news[1..]);
    NewValuesSameMembers(next, values + [news[0]], news[1..]);
  }

  /** The Fixed/Fixed merge: `values` followed, in order, by each element of
      `news` that is not already present. */
  function AppendNew(values: seq<ParameterValue>, news: seq<ParameterValue>): (r: seq<ParameterValue>)
    ensures |values| <= |r| && r[..|values|] == values
    ensures forall x :: x in r <==> x in values || x in news
    ensures (forall x :: x in news ==> x in values) ==> r == values
    ensures NoDuplicates(values) ==> NoDuplicates(r)
    decreases |news|
  {
    if news == [] then values
    else
      var next := if AnyEqual(news[0], values) then values else values + [news[0]];
      assert next[..|values|] == values;
      AppendNew(next, news[1..])
  }

  /** The order AppendNew appends in: the first list, then the second list's
      new values in the second list's order. */
  lemma {:induction false} AppendNewKeepsOrder(values: seq<ParameterValue>, news: seq<ParameterValue>)
    ensures AppendNew(values, news) == values + NewValues(values, news)
    decreases |news|
  {
    if news != [] {
      var next := if AnyEqual(news[0], values) then values else values + [news[0]];
      AppendNewStep(values, news, next);
      AppendNewKeepsOrder(next, news[1..]);
    }
  }

  /** The loop of the Fixed/Fixed branch, which appends to a local list. */
  method MergeFixedValues(a: seq<ParameterValue>, b: seq<ParameterValue>) returns (values: seq<ParameterValue>)
    ensures values == AppendNew(a, b)
  {
    values := a;
    for i := 0 to |b|
      invariant AppendNew(values, b[i..]) == AppendNew(a, b)
    {
      assert b[i..][1..] == b[i + 1..];
      var newV := b[i];
      if !AnyEqual(newV, values) {
        values := values + [newV];
      }
    }
    assert b[|b|..] == [];
  }

  /** merge_distributions as a function of its inputs. */
  function Merged(a: Distribution, b: Distribution): (r: Result<Distribution>)
  {
    if a.FixedDistribution? then
      if b.FixedDistribution? then Ok(FixedDistribution(AppendNew(a.values, b.values)))
      else
        var all := AllContained(b, a.values);
        if all.Err? then Err(all.error)
        else if all.value then Ok(b)
        else Err(InCompatibleSearchSpace)
    else if b.FixedDistribution? then
      var all := AllContained(a, b.values);
      if all.Err? then Err(all.error)
      else if all.value then Ok(a)
      else if AreIdentical(a, b) then Ok(a)
      else Err(InCompatibleSearchSpace)
    else if AreIdentical(a, b) then Ok(a)
    else Err(InCompatibleSearchSpace)
  }

  /** merge_distributions, with the Fixed/Fixed branch built by its loop. */
  method MergeDistributions(a: Distribution, b: Distribution) returns (r: Result<Distribution>)
    ensures r == Merged(a, b)
  {
    if a.FixedDistribution? {
      if b.FixedDistribution? {
        var values := MergeFixedValues(a.values, b.values);
        return Ok(FixedDistribution(values));
      }
      var all := AllContained(b, a.values);
      if all.Err? {
        return Err(all.error);
      }
      if all.value {
        return Ok(b);
      }
      return Err(InCompatibleSearchSpace);
    }
    if b.FixedDistribution? {
      var all := AllContained(a, b.values);
      if all.Err? {
        return Err(all.error);
      }
      if all.value {
        return Ok(a);
      }
    }
    if AreIdentical(a, b) {
      return Ok(a);
    }
    return Err(InCompatibleSearchSpace);
  }

  // ---------------------------------------------------------------------------
  // Properties of identity

  /** Two categorical (or fixed) lists that are permutations of each other are identical. */
  lemma AreIdenticalUpToOrder(xs: seq<ParameterValue>, ys: seq<ParameterValue>)
    requires multiset(xs) == multiset(ys)
    ensures AreIdentical(CategoricalDistribution(xs), CategoricalDistribution(ys))
    ensures AreIdentical(FixedDistribution(xs), FixedDistribution(ys))
  {
    assert |xs| == |multiset(xs)| == |multiset(ys)| == |ys|;
    forall x | x in xs ensures x in ys {
      assert x in multiset(xs);
    }
  }

  /** Numeric distributions are identical only when equal: a different kind, a
      different bound or a different log_scale is never identical. */
  lemma AreIdenticalNumeric(a: Distribution, b: Distribution)
    requires a.IntDistribution? || a.FloatDistribution?
    ensures AreIdentical(a, b) <==> a == b
    ensures AreIdentical(b, a) <==> a == b
  {
  }

  lemma DistinctCardinality(s: seq<ParameterValue>)
    requires NoDuplicates(s)
    ensures |set x | x in s| == |s|
  {
    if s != [] {
      var rest := s[1..];
      DistinctCardinality(rest);
      assert (set x | x in s) == (set x | x in rest) + {s[0]};
      assert s[0] !in rest;
    }
  }

  lemma SubsetCardinality(a: set<ParameterValue>, b: set<ParameterValue>)
    requires a <= b
    ensures |a| <= |b|
    ensures a != b ==> |a| < |b|
    decreases a
  {
    if a != {} {
      var x :| x in a;
      SubsetCardinality(a - {x}, b - {x});
    } else if b != {} {
      var y :| y in b;
      assert |b| >= 1;
    }
  }

  /** A duplicate-free list of the other's length that is covered by the other covers it back. */
  lemma CoveredBack(xs: seq<ParameterValue>, ys: seq<ParameterValue>)
    requires NoDuplicates(xs) && NoDuplicates(ys)
    requires SameLengthCovered(xs, ys)
    ensures SameLengthCovered(ys, xs)
  {
    var sx, sy := set x | x in xs, set y | y in ys;
    DistinctCardinality(xs);
    DistinctCardinality(ys);
    SubsetCardinality(sx, sy);
    assert sx == sy;
    forall y | y in ys ensures y in xs {
      assert y in sy;
    }
  }

  /** Over lists without duplicates, identity is symmetric. */
  lemma AreIdenticalSymmetricWithoutDuplicates(xs: seq<ParameterValue>, ys: seq<ParameterValue>)
    requires NoDuplicates(xs) && NoDuplicates(ys)
    ensures AreIdentical(CategoricalDistribution(xs), CategoricalDistribution(ys))
        <==> AreIdentical(CategoricalDistribution(ys), CategoricalDistribution(xs))
  {
    if SameLengthCovered(xs, ys) {
      CoveredBack(xs, ys);
    }
    if SameLengthCovered(ys, xs) {
      CoveredBack(ys, xs);
    }
  }

  /** With a repeated choice, identity is not symmetric: [1, 1] is identical to
      [1, 2], but [1, 2] is not identical to [1, 1]. */
  lemma AreIdenticalAsymmetricWithDuplicates()
    ensures var xs, ys := [IntValue(1), IntValue(1)], [IntValue(1), IntValue(2)];
      AreIdentical(CategoricalDistribution(xs), CategoricalDistribution(ys))
      && !AreIdentical(CategoricalDistribution(ys), CategoricalDistribution(xs))
  {
    var xs, ys := [IntValue(1), IntValue(1)], [IntValue(1), IntValue(2)];
    assert IntValue(2) in ys && IntValue(2) !in xs;
  }

  // ---------------------------------------------------------------------------
  // Properties of merging

  /** Two fixed distributions merge into a fixed distribution holding the first
      one's values, then the second one's new values in their own order, and so
      exactly the values of both. */
  lemma MergeFixedFixed(a: Distribution, b: Distribution)
    requires a.FixedDistribution? && b.FixedDistribution?
    ensures Merged(a, b).Ok? && Merged(a, b).value.FixedDistribution?
    ensures var vs := Merged(a, b).value.values;
      && vs == a.values + NewValues(a.values, b.values)
      && vs[..|a.values|] == a.values
      && (forall v :: Contains(Merged(a, b).value, v) == Ok(true) <==> v in a.values || v in b.values)
  {
    AppendNewKeepsOrder(a.values, b.values);
  }

  /** A fixed distribution and a non-fixed `d` merge, in either order, into `d`
      exactly when `d` contains every fixed value; otherwise the merge raises. */
  lemma MergeFixedWithOther(f: Distribution, d: Distribution)
    requires f.FixedDistribution? && !d.FixedDistribution?
    ensures Merged(f, d) == Merged(d, f)
    ensures Merged(f, d).Ok? <==> forall v :: v in f.values ==> Contains(d, v) == Ok(true)
    ensures Merged(f, d).Ok? ==> Merged(f, d).value == d
    ensures Merged(f, d).Err? ==>
      Merged(f, d).error == (if d.NoDistribution? then NotImplemented else InCompatibleSearchSpace)
  {
  }

  /** Two non-fixed distributions merge into the first when identical, and raise otherwise. */
  lemma MergeNonFixed(a: Distribution, b: Distribution)
    requires !a.FixedDistribution? && !b.FixedDistribution?
    ensures Merged(a, b) == if AreIdentical(a, b) then Ok(a) else Err(InCompatibleSearchSpace)
  {
  }

  /** Overlapping but different integer ranges do not merge. */
  lemma MergeOverlappingIntRanges()
    ensures Merged(IntDistribution(1, 4, false), IntDistribution(2, 3, false)) == Err(InCompatibleSearchSpace)
  {
  }

  /** Merging a distribution with itself gives it back, for every kind. */
  lemma MergeIdempotent(d: Distribution)
    ensures Merged(d, d) == Ok(d)
  {
  }

  /** A successful merge never invents a distribution: the result is one of the
      inputs unless both are fixed. */
  lemma MergeResultIsAnInput(a: Distribution, b: Distribution)
    requires Merged(a, b).Ok?
    ensures (a.FixedDistribution? && b.FixedDistribution?) || Merged(a, b).value in {a, b}
    ensures a.FixedDistribution? && b.FixedDistribution? ==> Merged(a, b).value.FixedDistribution?
  {
  }

  /** Every value of a fixed input is contained in the merge result. */
  lemma MergeCoversFixedValues(a: Distribution, b: Distribution)
    requires Merged(a, b).Ok?
    ensures a.FixedDistribution? ==> forall v :: v in a.values ==> Contains(Merged(a, b).value, v) == Ok(true)
    ensures b.FixedDistribution? ==> forall v :: v in b.values ==> Contains(Merged(a, b).value, v) == Ok(true)
  {
  }

  /** When the search-space tracker replaces an entry `cur` by `Merged(pdist, cur)`,
      every value `cur` contained is still contained. */
  lemma MergeKeepsContainedValues(pdist: Distribution, cur: Distribution, v: ParameterValue)
    requires !AreIdentical(pdist, cur) && Merged(pdist, cur).Ok?
    requires Contains(cur, v) == Ok(true)
    ensures Contains(Merged(pdist, cur).value, v) == Ok(true)
  {
    MergeCoversFixedValues(pdist, cur);
  }
}
