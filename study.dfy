/** optur/study.py: the study object and `_ask`, which brings a sampler up to
    date with the storage and picks the trial waiting for this worker. The
    storage is the in-memory backend. */
module Study {
  import opened Errors
  import opened Proto
  import Sampler
  import InMemoryStorage

  class Study {
    const studyInfo: StudyInfo
    const samplerConfig: SamplerConfig
    const storage: InMemoryStorage.InMemoryStorageBackend
    const sampler: Sampler.Sampler
    const clientId: Option<string>
    var lastUpdateTime: Timestamp

    /** Keeps the study, the storage and the sampler, records the sampler's
        configuration, and starts the timestamp at (0, 0). */
    constructor(studyInfo: StudyInfo, storage: InMemoryStorage.InMemoryStorageBackend,
                sampler: Sampler.Sampler, clientId: Option<string>)
      ensures this.studyInfo == studyInfo && this.storage == storage && this.sampler == sampler
      ensures this.clientId == clientId
      ensures samplerConfig == sampler.ToSamplerConfig()
      ensures lastUpdateTime == Timestamp(0, 0)
    {
      this.studyInfo := studyInfo;
      this.samplerConfig := sampler.ToSamplerConfig();
      this.storage := storage;
      this.sampler := sampler;
      this.clientId := clientId;
      this.lastUpdateTime := Timestamp(0, 0);
    }
  }

  /** A trial waiting to be run by the given worker. */
  predicate WaitsFor(t: Trial, workerId: WorkerId) {
    t.lastKnownState == Waiting && t.workerId == workerId
  }

  /** `t` is the first of the trials that waits for the worker. */
  predicate IsFirstWaiting(trials: seq<Trial>, workerId: WorkerId, t: Trial) {
    exists i :: 0 <= i < |trials| && trials[i] == t && WaitsFor(t, workerId)
      && forall k :: 0 <= k < i ==> !WaitsFor(trials[k], workerId)
  }

  /** The search loop of `_ask`: the first trial waiting for this worker, if any. */
  method SelectInitialTrial(trials: seq<Trial>, workerId: WorkerId) returns (r: Option<Trial>)
    ensures r.None? <==> forall k :: 0 <= k < |trials| ==> !WaitsFor(trials[k], workerId)
    ensures r.Some? ==> IsFirstWaiting(trials, workerId, r.value)
  {
    r := None;
    var i := 0;
    while i < |trials|
      invariant 0 <= i <= |trials|
      invariant r.None?
      invariant forall k :: 0 <= k < i ==> !WaitsFor(trials[k], workerId)
    {
      if WaitsFor(trials[i], workerId) {
        r := Some(trials[i]);
        return;
      }
      i := i + 1;
    }
  }

  /** The storage and sampler calls `_ask` makes, in order. */
  datatype Event =
    | ReadTimestamp(timestamp: Timestamp)
    | FetchTrials(studyId: string, since: Option<Timestamp>)
    | SamplerSync(trials: seq<Trial>)
    | SetSamplerTimestamp(timestamp: Timestamp)

  /** `_ask`: reads the clock, fetches the trials written since the sampler's
      timestamp, syncs the sampler with exactly those, moves its timestamp to
      the clock reading, and returns the first fetched trial waiting for this
      worker. An error from the storage or the sampler ends the call; with no
      waiting trial the assertion fails. `now` is the clock reading. */
  method Ask(studyId: string, sampler: Sampler.Sampler, storage: InMemoryStorage.InMemoryStorageBackend,
             workerId: WorkerId, now: Timestamp)
    returns (r: Result<Trial>, ghost events: seq<Event>)
    requires storage.Valid() && ValidTimestamp(now) && InMemoryStorage.TimestampToInt(now) >= storage.clock
    modifies sampler, storage
    ensures storage.Valid()
    ensures storage.studyOrder == old(storage.studyOrder)
    ensures storage.studies == old(storage.studies) && storage.trials == old(storage.trials)
    ensures |events| >= 2 && events[..2] == [ReadTimestamp(now), FetchTrials(studyId, old(sampler.lastUpdateTime))]
    ensures studyId !in storage.studies ==>
      && r == Err(NotFound) && |events| == 2
      && sampler.lastUpdateTime == old(sampler.lastUpdateTime) && sampler.backendSyncs == old(sampler.backendSyncs)
    ensures studyId in storage.studies ==>
      var fetched := InMemoryStorage.TrialsOf(
        InMemoryStorage.Fetched(storage.studies[studyId].sortedTrials, old(sampler.lastUpdateTime)));
      && (sampler.backend.None? ==>
            && r == Err(UnInitialized) && events[2..] == [SamplerSync(fetched)]
            && sampler.lastUpdateTime == old(sampler.lastUpdateTime)
            && sampler.backendSyncs == old(sampler.backendSyncs))
      && (sampler.backend.Some? ==>
            && events[2..] == [SamplerSync(fetched), SetSamplerTimestamp(now)]
            && sampler.lastUpdateTime == Some(now)
            && sampler.backendSyncs == old(sampler.backendSyncs) + [fetched]
            && (r.Err? <==> forall k :: 0 <= k < |fetched| ==> !WaitsFor(fetched[k], workerId))
            && (r.Err? ==> r.error == AssertionFailed)
            && (r.Ok? ==> IsFirstWaiting(fetched, workerId, r.value)))
  {
    var newTimestamp := storage.GetCurrentTimestamp(now);
    events := [ReadTimestamp(newTimestamp)];
    var since := sampler.lastUpdateTime;
    var fetched := storage.GetTrials(Some(studyId), since);
    events := events + [FetchTrials(studyId, since)];
    if fetched.Err? {
      return Err(fetched.error), events;
    }
    var trials := fetched.value;
    var synced := sampler.Sync(trials);
    events := events + [SamplerSync(trials)];
    if synced.Fail? {
      return Err(synced.error), events;
    }
    sampler.UpdateTimestamp(Some(newTimestamp));
    events := events + [SetSamplerTimestamp(newTimestamp)];
    var initialTrial := SelectInitialTrial(trials, workerId);
    if initialTrial.None? {
      return Err(AssertionFailed), events;
    }
    return Ok(initialTrial.value), events;
  }
}
