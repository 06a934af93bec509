/** The prost messages the Rust side of the system works on, as values. Every
    oneof and every optional sub-message is an Option, as prost generates them;
    `int64` fields keep their range. */
module RsProto {
  import opened Errors

  const INT64_MIN: int := -0x8000_0000_0000_0000
  const INT64_MAX: int := 0x7fff_ffff_ffff_ffff

  /** A Rust `i64`. */
  type int64 = x: int | INT64_MIN <= x <= INT64_MAX

  /** The `value` oneof of ParameterValue. */
  datatype Value =
    | IntValue(intValue: int64)
    | DoubleValue(doubleValue: real)
    | StringValue(stringValue: string)

  datatype ParameterValue = ParameterValue(value: Option<Value>)

  /** The `distribution` oneof of Distribution. This schema revision has a single
      optional value in a fixed distribution, and an unknown distribution that
      records the values seen so far. */
  datatype Kind =
    | IntDistribution(intLow: int64, intHigh: int64, logScale: bool)
    | FloatDistribution(floatLow: real, floatHigh: real, logScale: bool)
    | CategoricalDistribution(choices: seq<ParameterValue>)
    | FixedDistribution(fixedValue: Option<ParameterValue>)
    | UnknownDistribution(unknownValues: seq<ParameterValue>)

  datatype Distribution = Distribution(distribution: Option<Kind>)

  /** SearchSpace.distributions. */
  type SearchSpace = map<string, Distribution>

  datatype Parameter = Parameter(value: Option<ParameterValue>, distribution: Option<Distribution>)

  /** The part of a trial the Rust core reads: its parameter map, in the order
      iteration visits it. */
  datatype Trial = Trial(parameters: seq<(string, Parameter)>)

  datatype Observation = Observation(parameters: map<string, ParameterValue>)
}
