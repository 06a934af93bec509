/** optur/utils/search_space_tracker.py: infers a search space from past trials
    by merging, parameter by parameter, the distribution each trial recorded (or
    the one-value fixed distribution of its value) into the tracked entry. */
module SearchSpaceTracker {
  import opened Errors
  import opened Proto
  import opened SearchSpaceDistribution

  /** The distribution a parameter contributes: the recorded one, or a fixed
      distribution holding only its value. */
  function EffectiveDistribution(p: Parameter): (d: Distribution)
    ensures p.distribution.Some? ==> d == p.distribution.value
    ensures p.distribution.None? ==> d.FixedDistribution? && d.values == [p.value]
  {
    if p.distribution.Some? then p.distribution.value else FixedDistribution([p.value])
  }

  /** One iteration of the inner loop of `sync`, on the tracked space. */
  function SyncParameter(space: SearchSpace, name: string, p: Parameter): (r: Result<SearchSpace>)
    ensures r.Err? ==> name in space && !AreIdentical(EffectiveDistribution(p), space[name])
    ensures r.Ok? ==> r.value.Keys == space.Keys + {name}
    ensures r.Ok? ==> forall k :: k in space && k != name ==> r.value[k] == space[k]
    ensures r.Ok? && name !in space ==> r.value[name] == EffectiveDistribution(p)
    ensures r.Ok? && name in space ==>
      forall v :: SearchSpaceDistribution.Contains(space[name], v) == Ok(true) ==>
        SearchSpaceDistribution.Contains(r.value[name], v) == Ok(true)
    ensures r.Ok? && p.distribution.None? ==> SearchSpaceDistribution.Contains(r.value[name], p.value) == Ok(true)
    ensures name in space && AreIdentical(EffectiveDistribution(p), space[name]) ==> r == Ok(space)
    ensures name in space && !AreIdentical(EffectiveDistribution(p), space[name]) ==>
      var m := Merged(EffectiveDistribution(p), space[name]);
      && (r.Ok? <==> m.Ok?)
      && (r.Ok? ==> r.value[name] == m.value)
      && (r.Err? ==> r.error == m.error)
  {
    var pdist := EffectiveDistribution(p);
    if name in space then
      if AreIdentical(pdist, space[name]) then Ok(space)
      else
        var m := Merged(pdist, space[name]);
        if m.Err? then Err(m.error)
        else
          CoversItsEntry(pdist, space[name]);
          MergeCoversFixedValues(pdist, space[name]);
          Ok(space[name := m.value])
    else Ok(space[name := pdist])
  }

  /** A merged entry holds every value the tracked entry held. */
  lemma CoversItsEntry(pdist: Distribution, cur: Distribution)
    requires !AreIdentical(pdist, cur) && Merged(pdist, cur).Ok?
    ensures forall v :: SearchSpaceDistribution.Contains(cur, v) == Ok(true) ==>
      SearchSpaceDistribution.Contains(Merged(pdist, cur).value, v) == Ok(true)
  {
    forall v | SearchSpaceDistribution.Contains(cur, v) == Ok(true)
      ensures SearchSpaceDistribution.Contains(Merged(pdist, cur).value, v) == Ok(true)
    {
      MergeKeepsContainedValues(pdist, cur, v);
    }
  }

  /** The tracked space after a run of `sync`, and how the run ended. An error
      leaves in place every entry written before it. */
  datatype SyncResult = SyncResult(space: SearchSpace, outcome: Outcome)

  /** The inner loop of `sync` over one trial's parameters. */
  function SyncParameters(space: SearchSpace, params: seq<(string, Parameter)>): SyncResult
    decreases |params|
  {
    if params == [] then SyncResult(space, Pass)
    else
      var step := SyncParameter(space, params[0].0, params[0].1);
      if step.Err? then SyncResult(space, Fail(step.error))
      else SyncParameters(step.value, params[1..])
  }

  /** What remains of `sync` once one trial has been processed. */
  function ContinueTrials(after: SyncResult, rest: seq<Trial>): SyncResult
    decreases |rest|, 1
  {
    if after.outcome.Fail? then after else SyncTrials(after.space, rest)
  }

  /** `sync` as a function of the tracked space. */
  function SyncTrials(space: SearchSpace, trials: seq<Trial>): SyncResult
    decreases |trials|, 0
  {
    if trials == [] then SyncResult(space, Pass)
    else ContinueTrials(SyncParameters(space, trials[0].parameters), trials[1..])
  }

  /** The names a trial list mentions. */
  function ParameterNames(params: seq<(string, Parameter)>): set<string> {
    set i | 0 <= i < |params| :: params[i].0
  }

  function TrialNames(trials: seq<Trial>): set<string> {
    set i, j | 0 <= i < |trials| && 0 <= j < |trials[i].parameters| :: trials[i].parameters[j].0
  }

  /** Every value the entry `name` holds before, it holds after. */
  ghost predicate Grows(before: SearchSpace, after: SearchSpace) {
    && before.Keys <= after.Keys
    && forall name, v :: name in before && SearchSpaceDistribution.Contains(before[name], v) == Ok(true) ==>
         SearchSpaceDistribution.Contains(after[name], v) == Ok(true)
  }

  class SearchSpaceTracker {
    const initialSearchSpace: Option<SearchSpace>
    var currentSearchSpace: SearchSpace
    var lastUpdateTime: Option<Timestamp>

    /** Starts from a copy of the given space, or from an empty one, with no timestamp. */
    constructor(searchSpace: Option<SearchSpace>)
      ensures initialSearchSpace == searchSpace
      ensures currentSearchSpace == if searchSpace.Some? then searchSpace.value else map[]
      ensures lastUpdateTime == None
    {
      initialSearchSpace := searchSpace;
      currentSearchSpace := if searchSpace.Some? then searchSpace.value else map[];
      lastUpdateTime := None;
    }

    method UpdateTimestamp(timestamp: Timestamp)
      modifies this
      ensures lastUpdateTime == Some(timestamp)
      ensures currentSearchSpace == old(currentSearchSpace)
    {
      lastUpdateTime := Some(timestamp);
    }

    /** A name that is not tracked admits every value. */
    function Contains(name: string, value: ParameterValue): (r: Result<bool>)
      reads this
      ensures name !in currentSearchSpace ==> r == Ok(true)
      ensures name in currentSearchSpace ==> r == SearchSpaceDistribution.Contains(currentSearchSpace[name], value)
    {
      if name !in currentSearchSpace then Ok(true)
      else SearchSpaceDistribution.Contains(currentSearchSpace[name], value)
    }

    /** Folds the trials' parameters into the tracked space, in order. */
    method Sync(trials: seq<Trial>) returns (r: Outcome)
      modifies this
      ensures SyncResult(currentSearchSpace, r) == SyncTrials(old(currentSearchSpace), trials)
      ensures lastUpdateTime == old(lastUpdateTime)
    {
      var i := 0;
      while i < |trials|
        invariant 0 <= i <= |trials|
        invariant lastUpdateTime == old(lastUpdateTime)
        invariant SyncTrials(old(currentSearchSpace), trials) == SyncTrials(currentSearchSpace, trials[i..])
      {
        assert trials[i..][1..] == trials[i + 1..];
        var params := trials[i].parameters;
        var j := 0;
        while j < |params|
          invariant 0 <= j <= |params|
          invariant lastUpdateTime == old(lastUpdateTime)
          invariant SyncTrials(old(currentSearchSpace), trials)
                 == ContinueTrials(SyncParameters(currentSearchSpace, params[j..]), trials[i + 1..])
        {
          assert params[j..][1..] == params[j + 1..];
          var (name, param) := params[j];
          var pdist := EffectiveDistribution(param);
          if name in currentSearchSpace {
            var curDist := currentSearchSpace[name];
            if !AreIdentical(pdist, curDist) {
              var merged := MergeDistributions(pdist, curDist);
              if merged.Err? {
                return Fail(merged.error);
              }
              currentSearchSpace := currentSearchSpace[name := merged.value];
            }
          } else {
            currentSearchSpace := currentSearchSpace[name := pdist];
          }
          j := j + 1;
        }
        assert params[|params|..] == [];
        i := i + 1;
      }
      assert trials[|trials|..] == [];
      return Pass;
    }
  }

  // ---------------------------------------------------------------------------
  // Properties of sync

  lemma {:induction false} SyncParametersGrows(space: SearchSpace, params: seq<(string, Parameter)>)
    ensures Grows(space, SyncParameters(space, params).space)
    ensures SyncParameters(space, params).outcome.Pass? ==>
      SyncParameters(space, params).space.Keys == space.Keys + ParameterNames(params)
    decreases |params|
  {
    if params != [] {
      var step := SyncParameter(space, params[0].0, params[0].1);
      if step.Ok? {
        SyncParametersGrows(step.value, params[1..]);
        assert ParameterNames(params) == {params[0].0} + ParameterNames(params[1..]) by {
          forall n | n in ParameterNames(params) ensures n in {params[0].0} + ParameterNames(params[1..]) {
            var i :| 0 <= i < |params| && params[i].0 == n;
            if i > 0 {
              assert params[1..][i - 1].0 == n;
            }
          }
          forall n | n in ParameterNames(params[1..]) ensures n in ParameterNames(params) {
            var i :| 0 <= i < |params[1..]| && params[1..][i].0 == n;
            assert params[i + 1].0 == n;
          }
        }
      }
    }
  }

  /** A sync never forgets a name and never narrows an entry, even when it raises. */
  lemma {:induction false} SyncTrialsGrows(space: SearchSpace, trials: seq<Trial>)
    ensures Grows(space, SyncTrials(space, trials).space)
    decreases |trials|
  {
    if trials != [] {
      var after := SyncParameters(space, trials[0].parameters);
      SyncParametersGrows(space, trials[0].parameters);
      if after.outcome.Pass? {
        SyncTrialsGrows(after.space, trials[1..]);
      }
    }
  }

  lemma TrialNamesCons(trials: seq<Trial>)
    requires trials != []
    ensures TrialNames(trials) == ParameterNames(trials[0].parameters) + TrialNames(trials[1..])
  {
    var rest := trials[1..];
    forall n | n in TrialNames(trials)
      ensures n in ParameterNames(trials[0].parameters) + TrialNames(rest)
    {
      var i, j :| 0 <= i < |trials| && 0 <= j < |trials[i].parameters| && trials[i].parameters[j].0 == n;
      if i > 0 {
        assert rest[i - 1].parameters[j].0 == n;
      }
    }
    forall n | n in TrialNames(rest) ensures n in TrialNames(trials) {
      var i, j :| 0 <= i < |rest| && 0 <= j < |rest[i].parameters| && rest[i].parameters[j].0 == n;
      assert trials[i + 1].parameters[j].0 == n;
    }
  }

  /** A sync that completes tracks exactly the names it started with plus every
      name the trials mention. */
  lemma {:induction false} SyncTrialsKeys(space: SearchSpace, trials: seq<Trial>)
    requires SyncTrials(space, trials).outcome.Pass?
    ensures SyncTrials(space, trials).space.Keys == space.Keys + TrialNames(trials)
    decreases |trials|
  {
    if trials != [] {
      var after := SyncParameters(space, trials[0].parameters);
      SyncParametersGrows(space, trials[0].parameters);
      SyncTrialsKeys(after.space, trials[1..]);
      TrialNamesCons(trials);
    }
  }

  lemma {:induction false} SyncParametersAdmitsValues(space: SearchSpace, params: seq<(string, Parameter)>)
    requires SyncParameters(space, params).outcome.Pass?
    ensures forall j :: 0 <= j < |params| && params[j].1.distribution.None? ==>
      && params[j].0 in SyncParameters(space, params).space
      && SearchSpaceDistribution.Contains(SyncParameters(space, params).space[params[j].0], params[j].1.value) == Ok(true)
    decreases |params|
  {
    if params != [] {
      var step := SyncParameter(space, params[0].0, params[0].1);
      var final := SyncParameters(step.value, params[1..]).space;
      SyncParametersAdmitsValues(step.value, params[1..]);
      SyncParametersGrows(step.value, params[1..]);
      forall j | 0 <= j < |params| && params[j].1.distribution.None?
        ensures params[j].0 in final && SearchSpaceDistribution.Contains(final[params[j].0], params[j].1.value) == Ok(true)
      {
        if j > 0 {
          assert params[1..][j - 1] == params[j];
        }
      }
    }
  }

  /** After a sync that completes, every trial's value that came without a
      recorded distribution is admitted by the tracked space. */
  lemma {:induction false} SyncTrialsAdmitsValues(space: SearchSpace, trials: seq<Trial>)
    requires SyncTrials(space, trials).outcome.Pass?
    ensures forall i, j ::
      (0 <= i < |trials| && 0 <= j < |trials[i].parameters| && trials[i].parameters[j].1.distribution.None?) ==>
      && trials[i].parameters[j].0 in SyncTrials(space, trials).space
      && SearchSpaceDistribution.Contains(SyncTrials(space, trials).space[trials[i].parameters[j].0],
           trials[i].parameters[j].1.value) == Ok(true)
    decreases |trials|
  {
    if trials != [] {
      var after := SyncParameters(space, trials[0].parameters);
      var final := SyncTrials(after.space, trials[1..]).space;
      SyncParametersAdmitsValues(space, trials[0].parameters);
      SyncTrialsAdmitsValues(after.space, trials[1..]);
      SyncTrialsGrows(after.space, trials[1..]);
      forall i, j | 0 <= i < |trials| && 0 <= j < |trials[i].parameters|
        && trials[i].parameters[j].1.distribution.None?
        ensures && trials[i].parameters[j].0 in final
                && SearchSpaceDistribution.Contains(final[trials[i].parameters[j].0], trials[i].parameters[j].1.value) == Ok(true)
      {
        if i > 0 {
          assert trials[1..][i - 1] == trials[i];
        }
      }
    }
  }

  /** A trial observing 0.1 and then one observing 1.3 leave the fixed
      distribution [1.3, 0.1] (the newer value comes first, as merge_distributions
      puts its first argument's values first); a later trial that recorded
      Float(0.01, 2.5) for the same name replaces it. */
  lemma SyncPromotesFixedToFloat()
    ensures var x, wid := "x", WorkerId("c", 0);
      var t1 := Trial("t1", "s", wid, Completed, [(x, Parameter(DoubleValue(0.1), None))], Timestamp(0, 0));
      var t2 := Trial("t2", "s", wid, Completed, [(x, Parameter(DoubleValue(1.3), None))], Timestamp(0, 0));
      var t3 := Trial("t3", "s", wid, Completed,
        [(x, Parameter(DoubleValue(2.0), Some(FloatDistribution(0.01, 2.5, false))))], Timestamp(0, 0));
      && SyncTrials(map[], [t1, t2]) == SyncResult(map[x := FixedDistribution([DoubleValue(1.3), DoubleValue(0.1)])], Pass)
      && SyncTrials(map[], [t1, t2, t3]) == SyncResult(map[x := FloatDistribution(0.01, 2.5, false)], Pass)
  {
    var x, wid := "x", WorkerId("c", 0);
    var t1 := Trial("t1", "s", wid, Completed, [(x, Parameter(DoubleValue(0.1), None))], Timestamp(0, 0));
    var t2 := Trial("t2", "s", wid, Completed, [(x, Parameter(DoubleValue(1.3), None))], Timestamp(0, 0));
    var t3 := Trial("t3", "s", wid, Completed,
      [(x, Parameter(DoubleValue(2.0), Some(FloatDistribution(0.01, 2.5, false))))], Timestamp(0, 0));
    var s1 := map[x := FixedDistribution([DoubleValue(0.1)])];
    var s2 := map[x := FixedDistribution([DoubleValue(1.3), DoubleValue(0.1)])];
    var s3 := map[x := FloatDistribution(0.01, 2.5, false)];
    PromotionSteps();
    SyncThroughSteps(map[], s1, s2, t1, t2, []);
    SyncThroughSteps(s1, s2, s3, t2, t3, []);
    SyncSingleParameterTrial(map[], t1, [t2, t3]);
    assert [t1, t2] == [t1, t2] + [] && [t2, t3] == [t2, t3] + [];
    assert [t1, t2, t3] == [t1] + [t2, t3];
    assert SyncTrials(s2, []) == SyncResult(s2, Pass) && SyncTrials(s3, []) == SyncResult(s3, Pass);
  }

  /** Two single-parameter trials whose steps lead from `a` to `b` to `c`. */
  lemma SyncThroughSteps(a: SearchSpace, b: SearchSpace, c: SearchSpace, t: Trial, u: Trial, rest: seq<Trial>)
    requires |t.parameters| == 1 && SyncParameter(a, t.parameters[0].0, t.parameters[0].1) == Ok(b)
    requires |u.parameters| == 1 && SyncParameter(b, u.parameters[0].0, u.parameters[0].1) == Ok(c)
    ensures SyncTrials(a, [t, u] + rest) == SyncTrials(c, rest)
  {
    assert [t, u] + rest == [t] + ([u] + rest);
    SyncSingleParameterTrial(a, t, [u] + rest);
    SyncSingleParameterTrial(b, u, rest);
  }

  /** The three parameter steps of the promotion example. */
  lemma PromotionSteps()
    ensures var x, f1 := "x", FixedDistribution([DoubleValue(0.1)]);
      var f21 := FixedDistribution([DoubleValue(1.3), DoubleValue(0.1)]);
      var fl := FloatDistribution(0.01, 2.5, false);
      && SyncParameter(map[], x, Parameter(DoubleValue(0.1), None)) == Ok(map[x := f1])
      && SyncParameter(map[x := f1], x, Parameter(DoubleValue(1.3), None)) == Ok(map[x := f21])
      && SyncParameter(map[x := f21], x, Parameter(DoubleValue(2.0), Some(fl))) == Ok(map[x := fl])
  {
    PromotionMerges();
    PromotionSecondStep();
    PromotionThirdStep();
  }

  lemma PromotionSecondStep()
    requires var f1, f2 := FixedDistribution([DoubleValue(0.1)]), FixedDistribution([DoubleValue(1.3)]);
      !AreIdentical(f2, f1) && Merged(f2, f1) == Ok(FixedDistribution([DoubleValue(1.3), DoubleValue(0.1)]))
    ensures var x := "x";
      SyncParameter(map[x := FixedDistribution([DoubleValue(0.1)])], x, Parameter(DoubleValue(1.3), None))
        == Ok(map[x := FixedDistribution([DoubleValue(1.3), DoubleValue(0.1)])])
  {
    var x, f1 := "x", FixedDistribution([DoubleValue(0.1)]);
    var f21 := FixedDistribution([DoubleValue(1.3), DoubleValue(0.1)]);
    assert EffectiveDistribution(Parameter(DoubleValue(1.3), None)) == FixedDistribution([DoubleValue(1.3)]);
    assert map[x := f1][x := f21] == map[x := f21];
  }

  lemma PromotionThirdStep()
    requires var f21, fl := FixedDistribution([DoubleValue(1.3), DoubleValue(0.1)]), FloatDistribution(0.01, 2.5, false);
      !AreIdentical(fl, f21) && Merged(fl, f21) == Ok(fl)
    ensures var x, fl := "x", FloatDistribution(0.01, 2.5, false);
      SyncParameter(map[x := FixedDistribution([DoubleValue(1.3), DoubleValue(0.1)])], x, Parameter(DoubleValue(2.0), Some(fl)))
        == Ok(map[x := fl])
  {
    var x, fl := "x", FloatDistribution(0.01, 2.5, false);
    var f21 := FixedDistribution([DoubleValue(1.3), DoubleValue(0.1)]);
    assert map[x := f21][x := fl] == map[x := fl];
  }

  /** The two merges of the promotion example. */
  lemma PromotionMerges()
    ensures var f1, f2 := FixedDistribution([DoubleValue(0.1)]), FixedDistribution([DoubleValue(1.3)]);
      var f21 := FixedDistribution([DoubleValue(1.3), DoubleValue(0.1)]);
      var fl := FloatDistribution(0.01, 2.5, false);
      && !AreIdentical(f2, f1) && Merged(f2, f1) == Ok(f21)
      && !AreIdentical(fl, f21) && Merged(fl, f21) == Ok(fl)
  {
    var f1, f2 := FixedDistribution([DoubleValue(0.1)]), FixedDistribution([DoubleValue(1.3)]);
    assert DoubleValue(1.3) !in f1.values;
    assert AppendNew(f2.values, f1.values) == [DoubleValue(1.3), DoubleValue(0.1)];
  }

  /** A trial with a single parameter whose step succeeds moves the fold on to the next trial. */
  lemma SyncSingleParameterTrial(space: SearchSpace, t: Trial, rest: seq<Trial>)
    requires |t.parameters| == 1 && SyncParameter(space, t.parameters[0].0, t.parameters[0].1).Ok?
    ensures SyncTrials(space, [t] + rest)
         == SyncTrials(SyncParameter(space, t.parameters[0].0, t.parameters[0].1).value, rest)
  {
    var v := SyncParameter(space, t.parameters[0].0, t.parameters[0].1).value;
    assert ([t] + rest)[1..] == rest && ([t] + rest)[0] == t;
    assert t.parameters[1..] == [];
    assert SyncParameters(space, t.parameters) == SyncParameters(v, []) == SyncResult(v, Pass);
  }

  /** Two different integer ranges for the same name raise, and the entry written
      before the conflict stays in place. */
  lemma SyncConflictKeepsEarlierEntries()
    ensures var wid := WorkerId("c", 0);
      var t1 := Trial("t1", "s", wid, Completed,
        [("x", Parameter(IntValue(2), Some(IntDistribution(1, 4, false))))], Timestamp(0, 0));
      var t2 := Trial("t2", "s", wid, Completed,
        [("y", Parameter(IntValue(0), None)), ("x", Parameter(IntValue(2), Some(IntDistribution(2, 3, false))))],
        Timestamp(0, 0));
      SyncTrials(map[], [t1, t2]) == SyncResult(
        map["x" := IntDistribution(1, 4, false), "y" := FixedDistribution([IntValue(0)])],
        Fail(InCompatibleSearchSpace))
  {
    var wid := WorkerId("c", 0);
    var t1 := Trial("t1", "s", wid, Completed,
      [("x", Parameter(IntValue(2), Some(IntDistribution(1, 4, false))))], Timestamp(0, 0));
    var t2 := Trial("t2", "s", wid, Completed,
      [("y", Parameter(IntValue(0), None)), ("x", Parameter(IntValue(2), Some(IntDistribution(2, 3, false))))],
      Timestamp(0, 0));
    var i14, i23 := IntDistribution(1, 4, false), IntDistribution(2, 3, false);
    var s1 := map["x" := i14];
    var s2 := map["x" := i14, "y" := FixedDistribution([IntValue(0)])];
    assert SyncParameters(map[], t1.parameters) == SyncResult(s1, Pass) by {
      assert SyncParameters(s1, t1.parameters[1..]) == SyncResult(s1, Pass);
    }
    MergeOverlappingIntRanges();
    assert !AreIdentical(i23, i14);
    assert SyncParameter(s2, "x", t2.parameters[1].1) == Err(InCompatibleSearchSpace);
    assert SyncParameters(s1, t2.parameters) == SyncResult(s2, Fail(InCompatibleSearchSpace)) by {
      assert SyncParameter(s1, "y", t2.parameters[0].1) == Ok(s2);
      assert t2.parameters[1..] == [("x", Parameter(IntValue(2), Some(i23)))];
      assert SyncParameters(s2, t2.parameters[1..]) == SyncResult(s2, Fail(InCompatibleSearchSpace));
    }
    assert [t1, t2][1..] == [t2];
    assert SyncTrials(map[], [t1, t2]) == SyncTrials(s1, [t2]);
    assert SyncTrials(s1, [t2]) == ContinueTrials(SyncParameters(s1, t2.parameters), []);
  }
}
