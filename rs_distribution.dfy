/** src/search_space/distribution.rs: one constructor per distribution kind. */
module RsDistribution {
  import P = RsProto
  import opened Errors

  function IntDistribution(low: P.int64, high: P.int64, logScale: bool): (d: P.Distribution)
    ensures d.distribution.Some? && d.distribution.value.IntDistribution?
    ensures d.distribution.value.intLow == low && d.distribution.value.intHigh == high
    ensures d.distribution.value.logScale == logScale
  {
    P.Distribution(Some(P.IntDistribution(low, high, logScale)))
  }

  function FloatDistribution(low: real, high: real, logScale: bool): (d: P.Distribution)
    ensures d.distribution.Some? && d.distribution.value.FloatDistribution?
    ensures d.distribution.value.floatLow == low && d.distribution.value.floatHigh == high
    ensures d.distribution.value.logScale == logScale
  {
    P.Distribution(Some(P.FloatDistribution(low, high, logScale)))
  }

  /** The choices are kept as given, in order. */
  function CategoricalDistribution(choices: seq<P.ParameterValue>): (d: P.Distribution)
    ensures d.distribution.Some? && d.distribution.value.CategoricalDistribution?
    ensures d.distribution.value.choices == choices
  {
    P.Distribution(Some(P.CategoricalDistribution(choices)))
  }

  function FixedDistribution(value: P.ParameterValue): (d: P.Distribution)
    ensures d.distribution.Some? && d.distribution.value.FixedDistribution?
    ensures d.distribution.value.fixedValue == Some(value)
  {
    P.Distribution(Some(P.FixedDistribution(Some(value))))
  }

  /** An unknown distribution that has seen exactly the one value. */
  function UnknownDistribution(value: P.ParameterValue): (d: P.Distribution)
    ensures d.distribution.Some? && d.distribution.value.UnknownDistribution?
    ensures d.distribution.value.unknownValues == [value]
  {
    P.Distribution(Some(P.UnknownDistribution([value])))
  }
}
