/** src/samplers/random.rs: the Rust random sampler. The struct has no state:
    `init` and `sync` do nothing, `joint_sample` proposes nothing, and `sample`
    draws from the distribution directly. */
module RsRandom {
  import opened Errors
  import opened RsProto
  import RandomSampler

  /** The random draws one call may use: the result of `gen_range` over the
      integer range, of `gen::<f64>()`, and the index `gen_range` picks. */
  datatype Draw = Draw(integer: int, unit: real, index: nat)

  predicate IsInt(d: Distribution) {
    d.distribution.Some? && d.distribution.value.IntDistribution?
  }

  predicate IsFloat(d: Distribution) {
    d.distribution.Some? && d.distribution.value.FloatDistribution?
  }

  predicate IsCategorical(d: Distribution) {
    d.distribution.Some? && d.distribution.value.CategoricalDistribution?
  }

  /** `low..high + 1` is a non-empty range whose end does not overflow. */
  predicate IntRangeSamplable(d: Distribution)
    requires IsInt(d)
  {
    d.distribution.value.intLow <= d.distribution.value.intHigh < INT64_MAX
  }

  /** The ranges the generator guarantees for the draws. */
  predicate DrawFits(d: Distribution, draw: Draw) {
    && (IsInt(d) && IntRangeSamplable(d) ==>
          d.distribution.value.intLow <= draw.integer <= d.distribution.value.intHigh)
    && 0.0 <= draw.unit < 1.0
    && (IsCategorical(d) && |d.distribution.value.choices| > 0 ==>
          draw.index < |d.distribution.value.choices|)
  }

  /** RandomSampler::sample. A float draw is `u * (high - low) + low`, the same
      real number as the Python sampler's `low + (high - low) * u`. */
  function Sample(d: Distribution, draw: Draw): (r: Result<ParameterValue>)
    requires DrawFits(d, draw)
    ensures r.Err? ==> r.error == Panic
    ensures d.distribution.None? ==> r.Err?
    ensures d.distribution.Some? && d.distribution.value.UnknownDistribution? ==> r == Ok(ParameterValue(None))
    ensures IsInt(d) ==>
      && (r.Ok? <==> IntRangeSamplable(d))
      && (r.Ok? ==> && r.value.value.Some? && r.value.value.value.IntValue?
                    && d.distribution.value.intLow <= r.value.value.value.intValue <= d.distribution.value.intHigh)
    ensures IsFloat(d) ==>
      r == Ok(ParameterValue(Some(DoubleValue(
        RandomSampler.Interpolate(d.distribution.value.floatLow, d.distribution.value.floatHigh, draw.unit)))))
    ensures IsCategorical(d) ==>
      && (r.Ok? <==> |d.distribution.value.choices| > 0)
      && (r.Ok? ==> r.value in d.distribution.value.choices)
    ensures d.distribution.Some? && d.distribution.value.FixedDistribution? ==>
      && (r.Ok? <==> d.distribution.value.fixedValue.Some?)
      && (r.Ok? ==> r.value == d.distribution.value.fixedValue.value)
  {
    match d.distribution
    case None => Err(Panic)
    case Some(UnknownDistribution(_)) => Ok(ParameterValue(None))
    case Some(IntDistribution(low, high, _)) =>
      if low > high || high == INT64_MAX then Err(Panic)
      else Ok(ParameterValue(Some(IntValue(draw.integer))))
    case Some(FloatDistribution(low, high, _)) =>
      Ok(ParameterValue(Some(DoubleValue(RandomSampler.Interpolate(low, high, draw.unit)))))
    case Some(CategoricalDistribution(choices)) =>
      if |choices| == 0 then Err(Panic) else Ok(choices[draw.index])
    case Some(FixedDistribution(value)) =>
      if value.None? then Err(Panic) else Ok(value.value)
  }

  /** The float draw lies in [low, high] when the bounds are in order. */
  lemma FloatSampleInRange(d: Distribution, draw: Draw)
    requires IsFloat(d) && d.distribution.value.floatLow <= d.distribution.value.floatHigh
    requires DrawFits(d, draw)
    ensures var x := Sample(d, draw).value.value.value.doubleValue;
      d.distribution.value.floatLow <= x <= d.distribution.value.floatHigh
  {
    RandomSampler.InterpolateBounds(d.distribution.value.floatLow, d.distribution.value.floatHigh, draw.unit);
  }

  /** The largest integer range a Rust int distribution can be sampled from ends
      one below i64::MAX: `high + 1` does not fit otherwise. */
  lemma IntRangeEndingAtMaxPanics(low: int64, draw: Draw)
    requires low <= INT64_MAX && 0.0 <= draw.unit < 1.0
    ensures Sample(Distribution(Some(IntDistribution(low, INT64_MAX, false))), draw) == Err(Panic)
  {
  }

  /** RandomSampler::joint_sample: an empty observation, whatever is fixed. */
  function JointSample(fixed: Observation): (o: Observation)
    ensures o.parameters == map[]
  {
    Observation(map[])
  }
}
