/** optur/samplers/tpe.py: the Python TPE sampler. It keeps a random fallback
    sampler, a search-space tracker and a sorted view of the trials; sync feeds
    the same trials to all three in order, and joint_sample applies the startup
    threshold and splits the sorted trials in half before the (unfinished)
    density-estimation step. */
module TPE {
  import opened Errors
  import opened Proto
  import Sampler
  import RandomSampler
  import SearchSpaceTracker

  /** The component calls sync makes, in order. */
  datatype Call =
    | FallbackSync(trials: seq<Trial>)
    | SortedTrialsSync(trials: seq<Trial>)
    | TrackerSync(trials: seq<Trial>)

  /** `sorted[:n // 2]` and `sorted[n // 2:]`: the better half D_l and the rest D_g. */
  function Split(sorted: seq<Trial>): (halves: (seq<Trial>, seq<Trial>))
    ensures halves.0 + halves.1 == sorted
    ensures |halves.0| == |sorted| / 2
    ensures |halves.0| <= |halves.1| <= |halves.0| + 1
    ensures (halves.0 != [] && halves.1 != []) <==> |sorted| >= 2
  {
    (sorted[..|sorted| / 2], sorted[|sorted| / 2..])
  }

  class TPESampler {
    /** The inherited Sampler state. */
    const base: Sampler.Sampler
    const tpeConfig: TPESamplerConfig
    const fallback: RandomSampler.RandomSampler
    var tracker: SearchSpaceTracker.SearchSpaceTracker
    ghost var calls: seq<Call>

    /** The sampler's own state and its fallback's are different objects. */
    ghost predicate Separate() {
      base != fallback.base
    }

    /** A fresh TPE sampler for a configuration that selects TPE: a wrapper
        holding the configuration, a fresh fallback, and a tracker with no
        search space. */
    constructor(config: SamplerConfig)
      requires config.Tpe?
      ensures Separate()
      ensures fresh(base) && fresh(fallback) && fresh(fallback.base) && fresh(tracker)
      ensures base.ToSamplerConfig() == config && base.backend == None
      ensures base.lastUpdateTime == Some(Timestamp(0, 0))
      ensures tpeConfig == config.tpe
      ensures fallback.base.ToSamplerConfig() == Random(RandomSamplerConfig) && fallback.base.backend == None
      ensures tracker.initialSearchSpace == None && tracker.currentSearchSpace == map[] && tracker.lastUpdateTime == None
      ensures calls == []
    {
      base := new Sampler.Sampler(config);
      tpeConfig := config.tpe;
      fallback := new RandomSampler.RandomSampler(RandomSamplerConfig);
      tracker := new SearchSpaceTracker.SearchSpaceTracker(None);
      calls := [];
    }

    /** `TPESampler(config)`, with the assertion that the configuration selects
        TPE: it raises AssertionError exactly when it does not. */
    static method Create(config: SamplerConfig) returns (r: Result<TPESampler>)
      ensures r.Err? <==> !config.Tpe?
      ensures r.Err? ==> r.error == AssertionFailed
      ensures r.Ok? ==> && fresh(r.value) && r.value.Separate()
                        && r.value.base.ToSamplerConfig() == config && r.value.tpeConfig == config.tpe
                        && r.value.tracker.currentSearchSpace == map[] && r.value.calls == []
    {
      if !config.Tpe? {
        return Err(AssertionFailed);
      }
      var s := new TPESampler(config);
      return Ok(s);
    }

    /** Replaces the tracker with a fresh one for the given space and clears the
        timestamp, so that the next sync reads every past trial. */
    method SetSearchSpace(searchSpace: Option<SearchSpace>)
      modifies this, base
      ensures fresh(tracker)
      ensures tracker.initialSearchSpace == searchSpace && tracker.lastUpdateTime == None
      ensures tracker.currentSearchSpace == if searchSpace.Some? then searchSpace.value else map[]
      ensures base.lastUpdateTime == None && base.backendSyncs == old(base.backendSyncs)
      ensures calls == old(calls)
    {
      tracker := new SearchSpaceTracker.SearchSpaceTracker(searchSpace);
      base.UpdateTimestamp(None);
    }

    /** Hands the same trials to the fallback sampler, then to the sorted view,
        then to the tracker. The fallback's sync raises while it has no backend,
        and then nothing after it runs. */
    method Sync(trials: seq<Trial>) returns (r: Outcome)
      requires Separate()
      modifies this, fallback.base, tracker
      ensures tracker == old(tracker)
      ensures fallback.base.backend.None? ==>
        && r == Fail(UnInitialized)
        && calls == old(calls) + [FallbackSync(trials)]
        && tracker.currentSearchSpace == old(tracker.currentSearchSpace)
      ensures fallback.base.backend.Some? ==>
        && calls == old(calls) + [FallbackSync(trials), SortedTrialsSync(trials), TrackerSync(trials)]
        && SearchSpaceTracker.SyncResult(tracker.currentSearchSpace, r)
           == SearchSpaceTracker.SyncTrials(old(tracker.currentSearchSpace), trials)
      ensures tracker.lastUpdateTime == old(tracker.lastUpdateTime)
      ensures base.lastUpdateTime == old(base.lastUpdateTime)
    {
      var fallbackOutcome := fallback.base.Sync(trials);
      calls := calls + [FallbackSync(trials)];
      if fallbackOutcome.Fail? {
        return fallbackOutcome;
      }
      calls := calls + [SortedTrialsSync(trials)];
      r := tracker.Sync(trials);
      calls := calls + [TrackerSync(trials)];
    }

    /** joint_sample, given the sorted trials and the number of observations the
        density estimator proposes. Below the startup threshold nothing is
        proposed; past it, both halves of the split must be non-empty, the
        estimator must propose something, and the remaining step raises
        NotImplementedError. */
    function JointSample(fixed: Option<map<string, ParameterValue>>, sorted: seq<Trial>, kdeSampleCount: nat)
      : (r: Result<map<string, ParameterValue>>)
      ensures r.Ok? <==> |sorted| < tpeConfig.nStartupTrials
      ensures r.Ok? ==> r.value == map[]
      ensures r.Err? && |sorted| < 2 ==> r.error == AssertionFailed
      ensures r.Err? && kdeSampleCount == 0 ==> r.error == AssertionFailed
      ensures r.Err? && |sorted| >= 2 && kdeSampleCount > 0 ==> r.error == NotImplemented
    {
      if |sorted| < tpeConfig.nStartupTrials then Ok(map[])
      else
        var (less, greater) := Split(sorted);
        if less == [] || greater == [] then Err(AssertionFailed)
        else if kdeSampleCount == 0 then Err(AssertionFailed)
        else Err(NotImplemented)
    }

    /** Delegates to the fallback random sampler. */
    function Sample(distribution: Distribution, draw: RandomSampler.Draw): (r: Result<ParameterValue>)
      requires RandomSampler.DrawFits(distribution, draw)
      ensures r == RandomSampler.Sample(distribution, draw)
    {
      RandomSampler.Sample(distribution, draw)
    }
  }

  /** A sampler built from a TPE configuration fails its first sync: the fallback
      random sampler has no backend. */
  method TPESyncRaisesUnInitialized(config: SamplerConfig, trials: seq<Trial>) returns (r: Outcome)
    requires config.Tpe?
    ensures r == Fail(UnInitialized)
  {
    var s := new TPESampler(config);
    r := s.Sync(trials);
  }
}
