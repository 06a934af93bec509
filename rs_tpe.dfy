/** src/samplers/tpe.rs: the Rust TPE sampler. It owns a random fallback, a
    search-space tracker and a univariate density estimator; init resets the
    last two, sync feeds the same trials to all three in order, joint_sample
    proposes nothing yet and sample delegates to the fallback. */
module RsTpe {
  import opened Errors
  import opened RsProto
  import RsTracker
  import RsRandom

  /** The univariate estimator's tables, by key: trial id to row index, and the
      parameter names that have an int or a double kernel. The kernels' numbers
      are not part of this model. */
  datatype Kde = Kde(trialIdToIdx: map<string, nat>, intKernels: set<string>, doubleKernels: set<string>)

  /** UnivariateKDE::default: every table empty. */
  function DefaultKde(): (k: Kde)
    ensures k.trialIdToIdx == map[] && k.intKernels == {} && k.doubleKernels == {}
  {
    Kde(map[], {}, {})
  }

  /** The component calls init and sync make, in order. The fallback's init and
      sync and the estimator's sync have empty bodies; they appear here only as
      calls. */
  datatype Call =
    | FallbackInit(searchSpace: SearchSpace)
    | FallbackSync(trials: seq<Trial>)
    | TrackerSync(trials: seq<Trial>)
    | KdeSync(trials: seq<Trial>)

  class TPESampler {
    var tracker: RsTracker.SearchSpaceTracker
    var kde: Kde
    ghost var calls: seq<Call>

    /** TPESampler::default (and `new`): a fresh tracker with no entries, an
        empty estimator. */
    constructor()
      ensures fresh(tracker) && tracker.searchSpace == map[]
      ensures kde == DefaultKde()
      ensures calls == []
    {
      tracker := new RsTracker.SearchSpaceTracker();
      kde := DefaultKde();
      calls := [];
    }

    /** Initialises the fallback, then replaces the tracker and the estimator
        with fresh defaults. The search space given is only passed to the
        fallback, which ignores it. */
    method Init(searchSpace: SearchSpace)
      modifies this
      ensures calls == old(calls) + [FallbackInit(searchSpace)]
      ensures fresh(tracker) && tracker.searchSpace == map[]
      ensures kde == DefaultKde()
    {
      calls := calls + [FallbackInit(searchSpace)];
      tracker := new RsTracker.SearchSpaceTracker();
      kde := DefaultKde();
    }

    /** Hands the same trials to the fallback, then the tracker, then the
        estimator. A panic in the tracker ends the call before the estimator. */
    method Sync(trials: seq<Trial>) returns (r: Outcome)
      modifies this, tracker
      ensures tracker == old(tracker) && kde == old(kde)
      ensures RsTracker.SyncResult(tracker.searchSpace, r) == RsTracker.SyncTrials(old(tracker.searchSpace), trials)
      ensures calls == old(calls) + [FallbackSync(trials), TrackerSync(trials)]
                                  + (if r.Pass? then [KdeSync(trials)] else [])
    {
      calls := calls + [FallbackSync(trials)];
      r := tracker.Sync(trials);
      calls := calls + [TrackerSync(trials)];
      if r.Fail? {
        return;
      }
      calls := calls + [KdeSync(trials)];
    }

    /** Proposes nothing, whatever is fixed. */
    function JointSample(fixed: Observation): (o: Observation)
      ensures o == RsRandom.JointSample(fixed)
      ensures o.parameters == map[]
    {
      Observation(map[])
    }

    /** Delegates to the fallback random sampler. */
    function Sample(distribution: Distribution, draw: RsRandom.Draw): (r: Result<ParameterValue>)
      requires RsRandom.DrawFits(distribution, draw)
      ensures r == RsRandom.Sample(distribution, draw)
    {
      RsRandom.Sample(distribution, draw)
    }
  }

  /** A TPE sampler's integer samples lie in the distribution's range, as the
      fallback's do, and its float samples in [low, high] when the bounds are
      in order. */
  lemma SampleStaysInRange(s: TPESampler, d: Distribution, draw: RsRandom.Draw)
    requires RsRandom.DrawFits(d, draw) && s.Sample(d, draw).Ok?
    ensures RsRandom.IsInt(d) ==>
      && s.Sample(d, draw).value.value.Some?
      && d.distribution.value.intLow <= s.Sample(d, draw).value.value.value.intValue <= d.distribution.value.intHigh
    ensures RsRandom.IsFloat(d) && d.distribution.value.floatLow <= d.distribution.value.floatHigh ==>
      var x := s.Sample(d, draw).value.value.value.doubleValue;
      d.distribution.value.floatLow <= x <= d.distribution.value.floatHigh
  {
    if RsRandom.IsFloat(d) && d.distribution.value.floatLow <= d.distribution.value.floatHigh {
      RsRandom.FloatSampleInRange(d, draw);
    }
  }

  /** Right after init, a sync that succeeds leaves only entries for the
      parameters seen, each of them unknown-typed. */
  method InitThenSync(s: TPESampler, searchSpace: SearchSpace, trials: seq<Trial>) returns (r: Outcome)
    modifies s
    ensures r.Pass? ==> s.tracker.searchSpace.Keys == RsTracker.TrialNames(trials)
    ensures forall k :: k in s.tracker.searchSpace ==> RsTracker.IsUnknown(s.tracker.searchSpace[k])
  {
    s.Init(searchSpace);
    r := s.Sync(trials);
    RsTracker.FreshTrackerHoldsOnlyUnknown(trials);
    if r.Pass? {
      RsTracker.SyncTrialsKeys(map[], trials);
    }
  }
}
