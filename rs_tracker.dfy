/** src/search_space/tracker.rs: the Rust revision of the search-space tracker.
    A name seen for the first time is tracked as an unknown distribution of the
    value seen; a tracked name is checked against the incoming distribution and
    the process panics on a mismatch. */
module RsTracker {
  import opened Errors
  import opened RsProto
  import RsDistribution

  /** The three hash sets convert_to_hash_set builds: one per value type. */
  datatype HashSets = HashSets(ints: set<int64>, doubles: set<real>, strings: set<string>)

  function Insert(h: HashSets, v: Value): HashSets {
    match v
    case IntValue(i) => h.(ints := h.ints + {i})
    case DoubleValue(d) => h.(doubles := h.doubles + {d})
    case StringValue(s) => h.(strings := h.strings + {s})
  }

  /** convert_to_hash_set as a function: the sets of values of each type, or a
      panic when some element has no value. */
  function ValueSets(a: seq<ParameterValue>): (r: Result<HashSets>)
    ensures r.Err? <==> exists i :: 0 <= i < |a| && a[i].value.None?
    ensures r.Err? ==> r.error == Panic
    ensures r.Ok? ==> forall x :: x in r.value.ints <==> ParameterValue(Some(IntValue(x))) in a
    ensures r.Ok? ==> forall x :: x in r.value.doubles <==> ParameterValue(Some(DoubleValue(x))) in a
    ensures r.Ok? ==> forall x :: x in r.value.strings <==> ParameterValue(Some(StringValue(x))) in a
    decreases |a|
  {
    if a == [] then Ok(HashSets({}, {}, {}))
    else
      var front := a[..|a| - 1];
      var init := ValueSets(front);
      assert a == front + [a[|a| - 1]];
      if init.Err? then init
      else if a[|a| - 1].value.None? then Err(Panic)
      else Ok(Insert(init.value, a[|a| - 1].value.value))
  }

  /** The loop of convert_to_hash_set. */
  method ConvertToHashSet(a: seq<ParameterValue>) returns (r: Result<HashSets>)
    ensures r == ValueSets(a)
  {
    var ints: set<int64>, doubles: set<real>, strings: set<string> := {}, {}, {};
    for i := 0 to |a|
      invariant ValueSets(a[..i]) == Ok(HashSets(ints, doubles, strings))
    {
      assert a[..i + 1][..i] == a[..i];
      match a[i].value
      case Some(IntValue(v)) =>
        ints := ints + {v};
      case Some(DoubleValue(v)) =>
        doubles := doubles + {v};
      case Some(StringValue(v)) =>
        strings := strings + {v};
      case None =>
        return Err(Panic);
    }
    assert a[..|a|] == a;
    return Ok(HashSets(ints, doubles, strings));
  }

  /** Every value of `a` is one of `b`'s when their hash sets agree. */
  lemma EqualSetsCover(a: seq<ParameterValue>, b: seq<ParameterValue>)
    requires ValueSets(a).Ok? && ValueSets(b).Ok? && ValueSets(a).value == ValueSets(b).value
    ensures forall v :: v in a ==> v in b
  {
    var sa := ValueSets(a).value;
    forall v | v in a ensures v in b {
      var i :| 0 <= i < |a| && a[i] == v;
      assert v.value.Some?;
      match v.value.value
      case IntValue(x) => assert x in sa.ints;
      case DoubleValue(x) => assert x in sa.doubles;
      case StringValue(x) => assert x in sa.strings;
    }
  }

  /** Lists holding the same values have the same hash sets. */
  lemma SameValuesEqualSets(a: seq<ParameterValue>, b: seq<ParameterValue>)
    requires ValueSets(a).Ok? && ValueSets(b).Ok?
    requires forall v :: v in a <==> v in b
    ensures ValueSets(a).value == ValueSets(b).value
  {
    var sa, sb := ValueSets(a).value, ValueSets(b).value;
    forall x | x in sa.ints ensures x in sb.ints {
      assert ParameterValue(Some(IntValue(x))) in a;
    }
    forall x | x in sb.ints ensures x in sa.ints {
      assert ParameterValue(Some(IntValue(x))) in b;
    }
    forall x | x in sa.doubles ensures x in sb.doubles {
      assert ParameterValue(Some(DoubleValue(x))) in a;
    }
    forall x | x in sb.doubles ensures x in sa.doubles {
      assert ParameterValue(Some(DoubleValue(x))) in b;
    }
    forall x | x in sa.strings ensures x in sb.strings {
      assert ParameterValue(Some(StringValue(x))) in a;
    }
    forall x | x in sb.strings ensures x in sa.strings {
      assert ParameterValue(Some(StringValue(x))) in b;
    }
    assert sa.ints == sb.ints && sa.doubles == sb.doubles && sa.strings == sb.strings;
  }

  /** With every element carrying a value, equal hash sets mean the two lists
      hold the same values, whatever their order and multiplicity. */
  lemma SameSetsIffSameValues(a: seq<ParameterValue>, b: seq<ParameterValue>)
    requires ValueSets(a).Ok? && ValueSets(b).Ok?
    ensures ValueSets(a).value == ValueSets(b).value <==> forall v :: v in a <==> v in b
  {
    if ValueSets(a).value == ValueSets(b).value {
      EqualSetsCover(a, b);
      EqualSetsCover(b, a);
    }
    if forall v :: v in a <==> v in b {
      SameValuesEqualSets(a, b);
    }
  }

  /** is_equal_parameter_set: panics when either list has an element without a
      value; otherwise compares the lists as sets. */
  function IsEqualParameterSet(a: seq<ParameterValue>, b: seq<ParameterValue>): (r: Result<bool>)
    ensures r.Err? <==> exists i :: (0 <= i < |a| && a[i].value.None?) || (0 <= i < |b| && b[i].value.None?)
    ensures r.Ok? ==> (r.value <==> forall v :: v in a <==> v in b)
  {
    var sa, sb := ValueSets(a), ValueSets(b);
    if sa.Err? then Err(sa.error)
    else if sb.Err? then Err(sb.error)
    else
      SameSetsIffSameValues(a, b);
      Ok(sa.value == sb.value)
  }

  predicate IsUnknown(d: Distribution) {
    d.distribution.Some? && d.distribution.value.UnknownDistribution?
  }

  predicate BothCategorical(d: Distribution, e: Distribution) {
    && d.distribution.Some? && d.distribution.value.CategoricalDistribution?
    && e.distribution.Some? && e.distribution.value.CategoricalDistribution?
  }

  /** One iteration of the inner loop of `sync`, on the tracked space. */
  function SyncParameter(space: SearchSpace, name: string, p: Parameter): (r: Result<SearchSpace>)
    ensures r.Err? ==> r.error == Panic
    ensures r.Ok? ==> r.value.Keys == space.Keys + {name}
    ensures r.Ok? ==> forall k :: k in space && k != name ==> r.value[k] == space[k]
    // A new name is tracked as unknown, whatever distribution the parameter carries.
    ensures name !in space ==> (r.Ok? <==> p.value.Some?)
    ensures name !in space && r.Ok? ==> r.value[name] == RsDistribution.UnknownDistribution(p.value.value)
    // A tracked name needs a distribution.
    ensures name in space && p.distribution.None? ==> r.Err?
    // Two unknowns: the newer replaces the older. One unknown: nothing changes.
    ensures name in space && p.distribution.Some? && IsUnknown(p.distribution.value) && IsUnknown(space[name]) ==>
      r == Ok(space[name := p.distribution.value])
    ensures name in space && p.distribution.Some? && IsUnknown(p.distribution.value) != IsUnknown(space[name]) ==>
      r == Ok(space)
    // Otherwise the entry is only checked: equal choice sets, or equal distributions.
    ensures name in space && p.distribution.Some? && BothCategorical(p.distribution.value, space[name]) ==>
      && (r.Ok? <==> IsEqualParameterSet(p.distribution.value.distribution.value.choices,
                                         space[name].distribution.value.choices) == Ok(true))
      && (r.Ok? ==> r.value == space)
    ensures (&& name in space && p.distribution.Some? && !IsUnknown(p.distribution.value) && !IsUnknown(space[name])
             && !BothCategorical(p.distribution.value, space[name])) ==>
      && (r.Ok? <==> p.distribution.value == space[name])
      && (r.Ok? ==> r.value == space)
  {
    if name in space then
      var oldDist := space[name];
      if p.distribution.None? then Err(Panic)
      else
        var dist := p.distribution.value;
        if IsUnknown(dist) && IsUnknown(oldDist) then Ok(space[name := dist])
        else if IsUnknown(dist) || IsUnknown(oldDist) then Ok(space)
        else if BothCategorical(dist, oldDist) then
          if IsEqualParameterSet(dist.distribution.value.choices, oldDist.distribution.value.choices) == Ok(true)
          then Ok(space)
          else Err(Panic)
        else if dist.distribution == oldDist.distribution then Ok(space)
        else Err(Panic)
    else if p.value.None? then Err(Panic)
    else Ok(space[name := RsDistribution.UnknownDistribution(p.value.value)])
  }

  /** The tracked space after a run of `sync`, and how the run ended. */
  datatype SyncResult = SyncResult(space: SearchSpace, outcome: Outcome)

  function SyncParameters(space: SearchSpace, params: seq<(string, Parameter)>): SyncResult
    decreases |params|
  {
    if params == [] then SyncResult(space, Pass)
    else
      var step := SyncParameter(space, params[0].0, params[0].1);
      if step.Err? then SyncResult(space, Fail(step.error))
      else SyncParameters(step.value, params[1..])
  }

  function ContinueTrials(after: SyncResult, rest: seq<Trial>): SyncResult
    decreases |rest|, 1
  {
    if after.outcome.Fail? then after else SyncTrials(after.space, rest)
  }

  /** `sync` as a function of the tracked space. */
  function SyncTrials(space: SearchSpace, trials: seq<Trial>): SyncResult
    decreases |trials|, 0
  {
    if trials == [] then SyncResult(space, Pass)
    else ContinueTrials(SyncParameters(space, trials[0].parameters), trials[1..])
  }

  function ParameterNames(params: seq<(string, Parameter)>): set<string> {
    set i | 0 <= i < |params| :: params[i].0
  }

  function TrialNames(trials: seq<Trial>): set<string> {
    set i, j | 0 <= i < |trials| && 0 <= j < |trials[i].parameters| :: trials[i].parameters[j].0
  }

  /** No name is dropped; an entry that is not unknown never changes, and an
      unknown entry stays unknown. */
  ghost predicate Stable(before: SearchSpace, after: SearchSpace) {
    && before.Keys <= after.Keys
    && (forall k :: k in before && !IsUnknown(before[k]) ==> after[k] == before[k])
    && (forall k :: k in before && IsUnknown(before[k]) ==> IsUnknown(after[k]))
  }

  /** Every entry outside `before` is unknown. */
  ghost predicate NewEntriesUnknown(before: SearchSpace, after: SearchSpace) {
    forall k :: k in after && k !in before ==> IsUnknown(after[k])
  }

  class SearchSpaceTracker {
    var searchSpace: SearchSpace

    /** SearchSpaceTracker::default: an empty search space. */
    constructor()
      ensures searchSpace == map[]
    {
      searchSpace := map[];
    }

    /** Folds the trials' parameters into the tracked space, in order; a panic
        ends the run. */
    method Sync(trials: seq<Trial>) returns (r: Outcome)
      modifies this
      ensures SyncResult(searchSpace, r) == SyncTrials(old(searchSpace), trials)
    {
      var i := 0;
      while i < |trials|
        invariant 0 <= i <= |trials|
        invariant SyncTrials(old(searchSpace), trials) == SyncTrials(searchSpace, trials[i..])
      {
        assert trials[i..][1..] == trials[i + 1..];
        var params := trials[i].parameters;
        var j := 0;
        while j < |params|
          invariant 0 <= j <= |params|
          invariant SyncTrials(old(searchSpace), trials)
                 == ContinueTrials(SyncParameters(searchSpace, params[j..]), trials[i + 1..])
        {
          assert params[j..][1..] == params[j + 1..];
          var (name, parameter) := params[j];
          if name in searchSpace {
            var oldDist := searchSpace[name];
            match parameter.distribution
            case Some(dist) =>
              if IsUnknown(dist) && IsUnknown(oldDist) {
                searchSpace := searchSpace[name := dist];
              } else if IsUnknown(dist) || IsUnknown(oldDist) {
              } else if BothCategorical(dist, oldDist) {
                if IsEqualParameterSet(dist.distribution.value.choices, oldDist.distribution.value.choices) != Ok(true) {
                  return Fail(Panic);
                }
              } else if dist.distribution != oldDist.distribution {
                return Fail(Panic);
              }
            case None =>
              return Fail(Panic);
          } else {
            if parameter.value.None? {
              return Fail(Panic);
            }
            searchSpace := searchSpace[name := RsDistribution.UnknownDistribution(parameter.value.value)];
          }
          j := j + 1;
        }
        assert params[|params|..] == [];
        i := i + 1;
      }
      assert trials[|trials|..] == [];
      return Pass;
    }
  }

  // ---------------------------------------------------------------------------
  // Properties of sync

  lemma {:induction false} SyncParametersStable(space: SearchSpace, params: seq<(string, Parameter)>)
    ensures Stable(space, SyncParameters(space, params).space)
    ensures NewEntriesUnknown(space, SyncParameters(space, params).space)
    ensures SyncParameters(space, params).outcome.Pass? ==>
      SyncParameters(space, params).space.Keys == space.Keys + ParameterNames(params)
    decreases |params|
  {
    if params != [] {
      var step := SyncParameter(space, params[0].0, params[0].1);
      if step.Ok? {
        SyncParametersStable(step.value, params[1..]);
        assert ParameterNames(params) == {params[0].0} + ParameterNames(params[1..]) by {
          forall n | n in ParameterNames(params) ensures n in {params[0].0} + ParameterNames(params[1..]) {
            var i :| 0 <= i < |params| && params[i].0 == n;
            if i > 0 {
              assert params[1..][i - 1].0 == n;
            }
          }
          forall n | n in ParameterNames(params[1..]) ensures n in ParameterNames(params) {
            var i :| 0 <= i < |params[1..]| && params[1..][i].0 == n;
            assert params[i + 1].0 == n;
          }
        }
      }
    }
  }

  /** A sync never drops a name, never changes an entry that is not unknown,
      keeps unknown entries unknown, and adds only unknown entries, even when it
      panics part-way. */
  lemma {:induction false} SyncTrialsStable(space: SearchSpace, trials: seq<Trial>)
    ensures Stable(space, SyncTrials(space, trials).space)
    ensures NewEntriesUnknown(space, SyncTrials(space, trials).space)
    decreases |trials|
  {
    if trials != [] {
      var after := SyncParameters(space, trials[0].parameters);
      SyncParametersStable(space, trials[0].parameters);
      if after.outcome.Pass? {
        SyncTrialsStable(after.space, trials[1..]);
      }
    }
  }

  lemma TrialNamesCons(trials: seq<Trial>)
    requires trials != []
    ensures TrialNames(trials) == ParameterNames(trials[0].parameters) + TrialNames(trials[1..])
  {
    var rest := trials[1..];
    forall n | n in TrialNames(trials)
      ensures n in ParameterNames(trials[0].parameters) + TrialNames(rest)
    {
      var i, j :| 0 <= i < |trials| && 0 <= j < |trials[i].parameters| && trials[i].parameters[j].0 == n;
      if i > 0 {
        assert rest[i - 1].parameters[j].0 == n;
      }
    }
    forall n | n in TrialNames(rest) ensures n in TrialNames(trials) {
      var i, j :| 0 <= i < |rest| && 0 <= j < |rest[i].parameters| && rest[i].parameters[j].0 == n;
      assert trials[i + 1].parameters[j].0 == n;
    }
  }

  /** A sync that completes tracks exactly the old names plus every name the trials mention. */
  lemma {:induction false} SyncTrialsKeys(space: SearchSpace, trials: seq<Trial>)
    requires SyncTrials(space, trials).outcome.Pass?
    ensures SyncTrials(space, trials).space.Keys == space.Keys + TrialNames(trials)
    decreases |trials|
  {
    if trials != [] {
      var after := SyncParameters(space, trials[0].parameters);
      SyncParametersStable(space, trials[0].parameters);
      SyncTrialsKeys(after.space, trials[1..]);
      TrialNamesCons(trials);
    }
  }

  /** Starting from the default tracker, every tracked entry is an unknown
      distribution, so the categorical and equality checks never see a tracked
      entry that is not unknown. */
  lemma FreshTrackerHoldsOnlyUnknown(trials: seq<Trial>)
    ensures forall k :: k in SyncTrials(map[], trials).space ==> IsUnknown(SyncTrials(map[], trials).space[k])
  {
    SyncTrialsStable(map[], trials);
  }

  /** A trial whose single parameter carries no distribution panics on a name
      already tracked. */
  lemma TrackedNameWithoutDistributionPanics(space: SearchSpace, name: string, v: ParameterValue)
    requires name in space
    ensures SyncTrials(space, [Trial([(name, Parameter(Some(v), None))])]).outcome == Fail(Panic)
  {
    var t := Trial([(name, Parameter(Some(v), None))]);
    assert [t][1..] == [];
    assert SyncParameters(space, t.parameters) == SyncResult(space, Fail(Panic));
  }
}
