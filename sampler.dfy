/** optur/samplers/sampler.py: the sampler wrapper. It keeps the timestamp of
    the last sync and the sampler's configuration, and forwards sync,
    joint_sample and sample to its backend, raising UnInitializedError while
    there is none. */
module Sampler {
  import opened Errors
  import opened Proto
  import SamplerBackend

  /** A backend: its `sample`, as the value the `n`-th call returns for a distribution.
      Its `sync` and `joint_sample` are the defaults of SamplerBackend. */
  datatype Backend = Backend(sample: (Distribution, nat) -> ParameterValue)

  class Sampler {
    var lastUpdateTime: Option<Timestamp>
    const samplerConfig: SamplerConfig
    const backend: Option<Backend>
    /** The trial lists the backend has been synced with, in order. */
    ghost var backendSyncs: seq<seq<Trial>>

    /** A fresh sampler: timestamp (0, 0), the given configuration, no backend. */
    constructor(config: SamplerConfig)
      ensures lastUpdateTime == Some(Timestamp(0, 0))
      ensures ToSamplerConfig() == config
      ensures backend == None && backendSyncs == []
    {
      lastUpdateTime := Some(Timestamp(0, 0));
      samplerConfig := config;
      backend := None;
      backendSyncs := [];
    }

    /** A sampler whose subclass has installed a backend. */
    constructor WithBackend(config: SamplerConfig, b: Backend)
      ensures lastUpdateTime == Some(Timestamp(0, 0))
      ensures ToSamplerConfig() == config
      ensures backend == Some(b) && backendSyncs == []
    {
      lastUpdateTime := Some(Timestamp(0, 0));
      samplerConfig := config;
      backend := Some(b);
      backendSyncs := [];
    }

    function ToSamplerConfig(): SamplerConfig {
      samplerConfig
    }

    /** Sets the timestamp and nothing else. */
    method UpdateTimestamp(timestamp: Option<Timestamp>)
      modifies this
      ensures lastUpdateTime == timestamp
      ensures backendSyncs == old(backendSyncs)
    {
      lastUpdateTime := timestamp;
    }

    /** Raises UnInitialized without a backend; otherwise hands the same trials to
        the backend, whose default sync does nothing else. */
    method Sync(trials: seq<Trial>) returns (r: Outcome)
      modifies this
      ensures backend.None? ==> r == Fail(UnInitialized) && backendSyncs == old(backendSyncs)
      ensures backend.Some? ==> r == Pass && backendSyncs == old(backendSyncs) + [trials]
      ensures lastUpdateTime == old(lastUpdateTime)
    {
      if backend.None? {
        return Fail(UnInitialized);
      }
      backendSyncs := backendSyncs + [trials];
      return Pass;
    }

    /** Raises UnInitialized without a backend; otherwise the backend's joint
        sample of the same arguments. `keys` is the order in which the search
        space's keys are visited. */
    method JointSample(fixed: Option<map<string, ParameterValue>>, searchSpace: Option<SearchSpace>, keys: seq<string>)
      returns (r: Result<map<string, ParameterValue>>)
      requires searchSpace.Some? ==> SamplerBackend.Enumerates(keys, searchSpace.value)
      ensures backend.None? ==> r == Err(UnInitialized)
      ensures backend.Some? ==> r == Ok(SamplerBackend.DefaultJointSample(fixed, searchSpace, keys, backend.value.sample))
    {
      if backend.None? {
        return Err(UnInitialized);
      }
      var ret := SamplerBackend.JointSample(fixed, searchSpace, keys, backend.value.sample);
      return Ok(ret);
    }

    /** Raises UnInitialized without a backend; otherwise the backend's sample of
        the same distribution. `call` numbers the draw among the backend's calls. */
    function Sample(distribution: Distribution, call: nat): (r: Result<ParameterValue>)
      ensures backend.None? ==> r == Err(UnInitialized)
      ensures backend.Some? ==> r == Ok(backend.value.sample(distribution, call))
    {
      if backend.None? then Err(UnInitialized) else Ok(backend.value.sample(distribution, call))
    }
  }

  /** Nothing in the sampler installs a backend, so a fresh sampler raises on
      every forwarded call. */
  method FreshSamplerIsUninitialized(config: SamplerConfig, trials: seq<Trial>, d: Distribution)
    returns (synced: Outcome, sampled: Result<ParameterValue>, joint: Result<map<string, ParameterValue>>)
    ensures synced == Fail(UnInitialized)
    ensures sampled == Err(UnInitialized)
    ensures joint == Err(UnInitialized)
  {
    var s := new Sampler(config);
    synced := s.Sync(trials);
    sampled := s.Sample(d, 0);
    joint := s.JointSample(None, None, []);
  }
}
