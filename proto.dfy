/** The protobuf messages the Python side of the system works on, as values.
    A oneof that may be left unset has an explicit variant for that case; an
    optional sub-message is an Option. Float bounds and double values are reals:
    the core only compares them, adds them and scales them. */
module Proto {
  import opened Errors

  /** google.protobuf.Timestamp. */
  datatype Timestamp = Timestamp(seconds: int, nanos: int)

  /** A timestamp as the clock produces it: the nanosecond part below one second. */
  predicate ValidTimestamp(t: Timestamp) {
    0 <= t.nanos < 1_000_000_000
  }

  /** ParameterValue: a oneof over int, double and string that may be unset. */
  datatype ParameterValue =
    | Unset
    | IntValue(intValue: int)
    | DoubleValue(doubleValue: real)
    | StringValue(stringValue: string)

  /** Distribution: a oneof over four kinds that may be unset. */
  datatype Distribution =
    | NoDistribution
    | FloatDistribution(floatLow: real, floatHigh: real, logScale: bool)
    | IntDistribution(intLow: int, intHigh: int, logScale: bool)
    | CategoricalDistribution(choices: seq<ParameterValue>)
    | FixedDistribution(values: seq<ParameterValue>)

  /** SearchSpace.distributions: parameter name to distribution. */
  type SearchSpace = map<string, Distribution>

  /** A sampled value with the distribution it was drawn from, when one was recorded. */
  datatype Parameter = Parameter(value: ParameterValue, distribution: Option<Distribution>)

  datatype TrialState =
    | Created | Waiting | Running | Completed | PartiallyCompleted
    | PartiallyFailed | Failed | Pruned | UnknownState

  datatype WorkerId = WorkerId(clientId: string, threadId: int)

  /** The fields of a trial message the core reads or writes. `parameters` lists
      the entries of the parameter map in the order iteration visits them. */
  datatype Trial = Trial(
    trialId: string,
    studyId: string,
    workerId: WorkerId,
    lastKnownState: TrialState,
    parameters: seq<(string, Parameter)>,
    lastUpdateTime: Timestamp)

  datatype Direction = Minimize | Maximize

  datatype StudyInfo = StudyInfo(studyId: string, targets: seq<Direction>, lastUpdateTime: Timestamp)

  datatype RandomSamplerConfig = RandomSamplerConfig

  datatype TPESamplerConfig = TPESamplerConfig(nStartupTrials: int, nEiCandidates: int)

  /** SamplerConfig: a oneof selecting the sampler, possibly unset. */
  datatype SamplerConfig =
    | NoSamplerConfig
    | Random(random: RandomSamplerConfig)
    | Tpe(tpe: TPESamplerConfig)
}
