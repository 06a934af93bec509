/** optur/samplers/random.py: the random sampler. Its `sample` draws from the
    distribution directly; every other operation is the inherited wrapper's. */
module RandomSampler {
  import opened Errors
  import opened Proto
  import SearchSpaceDistribution
  import Sampler

  /** The random draws one call may use: the result of `random.randint(low, high)`,
      of `random.random()`, and the index `random.choice` picks. */
  datatype Draw = Draw(integer: int, unit: real, index: nat)

  /** The ranges the random module guarantees for the draws. */
  predicate DrawFits(d: Distribution, draw: Draw) {
    && (d.IntDistribution? && d.intLow <= d.intHigh ==> d.intLow <= draw.integer <= d.intHigh)
    && 0.0 <= draw.unit < 1.0
    && (d.CategoricalDistribution? && |d.choices| > 0 ==> draw.index < |d.choices|)
  }

  /** `low + (high - low) * u`: the point a fraction `u` of the way from `low` to `high`. */
  function Interpolate(low: real, high: real, u: real): real {
    low + (high - low) * u
  }

  /** In exact arithmetic, a fraction in [0, 1) of the way from `low` to `high`
      lies in [low, high), or is `low` itself when the bounds coincide. */
  lemma InterpolateBounds(low: real, high: real, u: real)
    requires low <= high && 0.0 <= u < 1.0
    ensures low <= Interpolate(low, high, u) <= high
    ensures low < high ==> Interpolate(low, high, u) < high
  {
    var width := high - low;
    assert 0.0 <= width * u by {
      assert 0.0 <= width && 0.0 <= u;
    }
    assert width * u + width * (1.0 - u) == width;
    assert 0.0 <= width * (1.0 - u);
    assert Interpolate(low, high, u) == high - width * (1.0 - u);
    if low < high {
      assert 0.0 < width * (1.0 - u);
    }
  }

  /** RandomSampler.sample. `log_scale` is not consulted. */
  function Sample(d: Distribution, draw: Draw): (r: Result<ParameterValue>)
    requires DrawFits(d, draw)
    ensures d.IntDistribution? ==>
      && (r.Ok? <==> d.intLow <= d.intHigh)
      && (r.Err? ==> r.error == ValueError)
      && (r.Ok? ==> r.value.IntValue? && d.intLow <= r.value.intValue <= d.intHigh)
    ensures d.FloatDistribution? ==>
      r == Ok(DoubleValue(Interpolate(d.floatLow, d.floatHigh, draw.unit)))
    ensures d.CategoricalDistribution? ==>
      && (r.Ok? <==> |d.choices| > 0)
      && (r.Err? ==> r.error == IndexError)
      && (r.Ok? ==> r.value in d.choices)
    ensures !d.IntDistribution? && !d.FloatDistribution? && !d.CategoricalDistribution? ==>
      r == Err(AssertionFailed)
  {
    match d
    case IntDistribution(low, high, _) =>
      if low > high then Err(ValueError) else Ok(IntValue(draw.integer))
    case FloatDistribution(low, high, _) =>
      Ok(DoubleValue(Interpolate(low, high, draw.unit)))
    case CategoricalDistribution(choices) =>
      if |choices| == 0 then Err(IndexError) else Ok(choices[draw.index])
    case _ => Err(AssertionFailed)
  }

  /** A sampled value lies in the distribution it was drawn from (for a float
      distribution, when its bounds are in order). */
  lemma SampleIsContained(d: Distribution, draw: Draw)
    requires DrawFits(d, draw) && Sample(d, draw).Ok?
    requires d.FloatDistribution? ==> d.floatLow <= d.floatHigh
    ensures SearchSpaceDistribution.Contains(d, Sample(d, draw).value) == Ok(true)
  {
    if d.FloatDistribution? {
      InterpolateBounds(d.floatLow, d.floatHigh, draw.unit);
    }
  }

  /** In exact arithmetic, a float draw never reaches the upper bound (the
      rounded double sum may). */
  lemma FloatSampleBelowHigh(d: Distribution, draw: Draw)
    requires d.FloatDistribution? && d.floatLow < d.floatHigh && DrawFits(d, draw)
    ensures Sample(d, draw).value.doubleValue < d.floatHigh
  {
    InterpolateBounds(d.floatLow, d.floatHigh, draw.unit);
  }

  /** Flipping `log_scale` does not change the sample. */
  lemma SampleIgnoresLogScale(d: Distribution, draw: Draw)
    requires (d.IntDistribution? || d.FloatDistribution?) && DrawFits(d, draw)
    ensures DrawFits(d.(logScale := !d.logScale), draw)
    ensures Sample(d.(logScale := !d.logScale), draw) == Sample(d, draw)
  {
  }

  class RandomSampler {
    /** The inherited Sampler state. */
    const base: Sampler.Sampler
    const config: RandomSamplerConfig

    /** Wraps the configuration as SamplerConfig(random=config). */
    constructor(config: RandomSamplerConfig)
      ensures fresh(base)
      ensures base.ToSamplerConfig() == Random(config)
      ensures base.backend == None && base.lastUpdateTime == Some(Timestamp(0, 0)) && base.backendSyncs == []
      ensures this.config == config
    {
      base := new Sampler.Sampler(Random(config));
      this.config := config;
    }
  }

  /** RandomSampler does not override joint_sample, and nothing installs a backend,
      so its joint_sample raises UnInitialized. */
  method RandomJointSampleRaises(config: RandomSamplerConfig, fixed: Option<map<string, ParameterValue>>)
    returns (r: Result<map<string, ParameterValue>>)
    ensures r == Err(UnInitialized)
  {
    var sampler := new RandomSampler(config);
    r := sampler.base.JointSample(fixed, None, []);
  }
}
