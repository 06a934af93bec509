# optur core, modelled in Dafny

This project models the core of optur, a hyper-parameter optimisation library that has a Python side and a Rust side. The model covers:

- **Distribution algebra** (`SearchSpaceDistribution`): value containment, identity of distributions up to the order of choices, and merging.
- **Search-space trackers** (`SearchSpaceTracker`, and `RsTracker` for the Rust revision): infer a search space from past trials. The Rust revision also uses the distribution constructors in `RsDistribution`.
- **Sampler layer**:
  - `SamplerBackend`: the default joint sample.
  - `Sampler`: the wrapper that raises UnInitializedError while it has no backend.
  - `RandomSampler` and `RsRandom`: the random samplers.
  - `TPE` and `RsTpe`: the orchestration of the TPE samplers.
- **Ask coordination** (`Study`): what `_ask` does, and in which order.
- **In-memory storage backend** (`InMemoryStorage`): its dictionaries, per-study write lists, compaction and timestamp search.

Shared shapes:

- `Errors` holds the error taxonomy, with `Option`, `Result` and `Outcome`. A raised Python exception or a Rust panic is an `Err`/`Fail` value.
- `Proto` holds the Python protobuf messages as datatypes.
- `RsProto` holds the Rust (prost) messages.

How state is modelled:

- Objects whose fields the source assigns are classes: the trackers, the samplers, the study, and the storage backend.
- Loops in the source are methods with loops, and each is proved equal to a function that states what the loop computes.
- Random draws and clock readings are inputs, with the ranges the generator and the clock guarantee.
- Component calls whose only effect is their order are recorded in ghost call logs.
- The iteration order of protobuf maps is an input: a trial's parameters are a sequence of pairs, and the backend's walk over a search space takes a key order.

Two things the Python TPE sampler does as written shape its model:

- `joint_sample` past the startup threshold cannot reach its final `raise NotImplementedError()` (`optur/samplers/tpe.py:54`).
  - As written, `self._sorted_trials.to_list()` at `optur/samplers/tpe.py:39` raises AttributeError first, because `_sorted_trials` is only annotated at `optur/samplers/tpe.py:22`.
  - With `_sorted_trials` assigned, `assert samples` at `optur/samplers/tpe.py:52` would fail, because `FactorizedKDE.sample` (`optur/utils/kernel_density_estimator/factorized_kde.py:16-19`) returns None.
  - The model takes the sorted list and the number of proposals as inputs, so it states the assertion outcomes and the NotImplementedError that a working estimator would reach.
- A Python TPE sampler as written can never finish a `sync`: its fallback random sampler has no backend.

## Model

| member | source | states |
|---|---|---|
| SearchSpaceDistribution.AnyEqual | optur/search_space/distribution.py:24 | `any(v == x for x in xs)` holds exactly when `v` is an element of `xs` |
| SearchSpaceDistribution.AllIn | optur/search_space/distribution.py:40 | the nested all/any holds exactly when every element of the first list occurs in the second |
| SearchSpaceDistribution.Contains | optur/search_space/distribution.py:5-27 | an int distribution contains exactly the int values in [low, high]; a float distribution contains exactly the double values in [low, high]; categorical and fixed containment is list membership; a distribution with no kind raises NotImplementedError, and nothing else raises |
| SearchSpaceDistribution.AllContained | optur/search_space/distribution.py:69 | raises only for a kindless distribution and a non-empty list; otherwise true exactly when every value is contained |
| SearchSpaceDistribution.AreIdentical | optur/search_space/distribution.py:30-48 | identical exactly when structurally equal, or when both are categorical (or both fixed) with lists of the same length whose first list only holds elements of the second |
| SearchSpaceDistribution.AppendNew | optur/search_space/distribution.py:64-67 | the result starts with the first list, holds exactly the elements of both lists, is the first list when nothing is new, and has no duplicates when the first list has none; its order is stated by the next lemma |
| SearchSpaceDistribution.AppendNewKeepsOrder | optur/search_space/distribution.py:64-67 | the result is the first list followed by the second list's new values in the second list's order. A value is new when it is in neither the first list nor earlier in the second; this is `NewValues`, defined by position |
| SearchSpaceDistribution.MergeFixedValues | optur/search_space/distribution.py:64-67 | the copy-and-append loop computes AppendNew of the two value lists |
| SearchSpaceDistribution.MergeDistributions | optur/search_space/distribution.py:51-77 | the statement-by-statement merge equals the merge function, whose properties are the lemmas below |
| SearchSpaceDistribution.AreIdenticalUpToOrder | optur/search_space/distribution.py:35-47 | two categorical (or fixed) lists that are permutations of each other are identical |
| SearchSpaceDistribution.AreIdenticalNumeric | optur/search_space/distribution.py:32-48 | an int or float distribution is identical to another distribution, in either order, exactly when they are equal, so a different bound or log_scale is never identical |
| SearchSpaceDistribution.AreIdenticalSymmetricWithoutDuplicates | optur/search_space/distribution.py:38-47 | over lists without duplicates, identity is symmetric |
| SearchSpaceDistribution.AreIdenticalAsymmetricWithDuplicates | optur/search_space/distribution.py:38-41 | with duplicates it is not: [1, 1] is identical to [1, 2], but not the reverse |
| SearchSpaceDistribution.MergeFixedFixed | optur/search_space/distribution.py:62-68 | two fixed distributions always merge into a fixed one: the first's values, then the second's values that are new (`NewValues`, in the second's order), and every input value is present |
| SearchSpaceDistribution.MergeFixedWithOther | optur/search_space/distribution.py:69-77 | a fixed and a non-fixed distribution merge the same in either order; the merge succeeds exactly when the other contains every fixed value, and then returns the other unchanged; otherwise it raises |
| SearchSpaceDistribution.MergeNonFixed | optur/search_space/distribution.py:75-77 | two non-fixed distributions merge into the first when identical and raise InCompatibleSearchSpaceError otherwise |
| SearchSpaceDistribution.MergeOverlappingIntRanges | optur/search_space/distribution.py:75-77 | Int(1, 4) merged with Int(2, 3) raises |
| SearchSpaceDistribution.MergeIdempotent | optur/search_space/distribution.py:51-77 | merging any distribution with itself gives it back |
| SearchSpaceDistribution.MergeResultIsAnInput | optur/search_space/distribution.py:51-77 | a successful merge returns one of its inputs unless both are fixed, and then returns a fixed distribution |
| SearchSpaceDistribution.MergeCoversFixedValues | optur/search_space/distribution.py:62-74 | every value of a fixed input is contained in a successful merge |
| SearchSpaceDistribution.MergeKeepsContainedValues | optur/search_space/distribution.py:51-77 | when the inputs are not identical, a successful merge contains every value its second input contained, as the tracker's replacement of an entry needs |
| SearchSpaceTracker.EffectiveDistribution | optur/utils/search_space_tracker.py:47-52 | a parameter contributes its recorded distribution, or the fixed distribution holding exactly its value |
| SearchSpaceTracker.SyncParameter | optur/utils/search_space_tracker.py:46-64 | one parameter step: a new name gets its effective distribution; a tracked entry identical to it is left unchanged; a non-identical one is replaced by merge(effective, entry), and the step raises exactly when that merge raises, with its error; no other entry changes; every value of a tracked entry stays contained, and an undeclared value becomes contained |
| SearchSpaceTracker.CoversItsEntry | optur/utils/search_space_tracker.py:55-60 | the merged entry holds every value of the entry it replaces |
| SearchSpaceTracker.SearchSpaceTracker.constructor | optur/utils/search_space_tracker.py:18-23 | the tracked space is the given space, or empty with none; the timestamp is None |
| SearchSpaceTracker.SearchSpaceTracker.UpdateTimestamp | optur/utils/search_space_tracker.py:29-30 | sets the timestamp and leaves the tracked space unchanged |
| SearchSpaceTracker.SearchSpaceTracker.Contains | optur/utils/search_space_tracker.py:36-42 | an untracked name admits every value; a tracked name admits what its distribution contains |
| SearchSpaceTracker.SearchSpaceTracker.Sync | optur/utils/search_space_tracker.py:44-64 | the nested loops leave the space and outcome of the sync fold over the trials, and never change the timestamp |
| SearchSpaceTracker.SyncParametersGrows | optur/utils/search_space_tracker.py:45-64 | one trial's parameters never drop a name, and a sync that completes adds exactly the parameter names |
| SearchSpaceTracker.SyncTrialsGrows | optur/utils/search_space_tracker.py:44-64 | a sync never drops a name, even when it raises part-way |
| SearchSpaceTracker.SyncTrialsKeys | optur/utils/search_space_tracker.py:44-64 | a sync that completes tracks exactly the old names plus every parameter name of the trials |
| SearchSpaceTracker.SyncParametersAdmitsValues | optur/utils/search_space_tracker.py:47-64 | after one trial's parameters, each parameter with no recorded distribution has its value contained in its entry |
| SearchSpaceTracker.SyncTrialsAdmitsValues | optur/utils/search_space_tracker.py:44-64 | after a sync that completes, every parameter with no recorded distribution is tracked with its value contained |
| SearchSpaceTracker.SyncPromotesFixedToFloat | optur/utils/search_space_tracker.py:53-64 | values 0.1 and then 1.3 give Fixed([1.3, 0.1]); a later Float(0.01, 2.5) replaces it |
| SearchSpaceTracker.PromotionMerges | optur/utils/search_space_tracker.py:55-60 | the two merges of that example, each between non-identical distributions |
| SearchSpaceTracker.SyncConflictKeepsEarlierEntries | optur/utils/search_space_tracker.py:56-62 | a conflicting range raises InCompatibleSearchSpaceError, and an entry added earlier in the same sync stays |
| RsDistribution.IntDistribution | src/search_space/distribution.rs:3-13 | an int distribution with exactly the given low, high and log_scale |
| RsDistribution.FloatDistribution | src/search_space/distribution.rs:15-25 | a float distribution with exactly the given low, high and log_scale |
| RsDistribution.CategoricalDistribution | src/search_space/distribution.rs:27-33 | a categorical distribution whose choices are the given list, unchanged and in order |
| RsDistribution.FixedDistribution | src/search_space/distribution.rs:35-41 | a fixed distribution holding Some of the given value |
| RsDistribution.UnknownDistribution | src/search_space/distribution.rs:43-51 | an unknown distribution whose values are exactly the one given value |
| RsTracker.ValueSets | src/search_space/tracker.rs:13-37 | panics exactly when some element has no value; otherwise each set holds exactly the values of its type in the list |
| RsTracker.ConvertToHashSet | src/search_space/tracker.rs:13-37 | the insertion loop computes those sets |
| RsTracker.SameValuesEqualSets | src/search_space/tracker.rs:13-41 | two lists with the same values, ignoring order and multiplicity, give equal sets |
| RsTracker.EqualSetsCover | src/search_space/tracker.rs:13-41 | equal sets mean every value of one list occurs in the other |
| RsTracker.SameSetsIffSameValues | src/search_space/tracker.rs:13-41 | the sets are equal exactly when the lists hold the same values |
| RsTracker.IsEqualParameterSet | src/search_space/tracker.rs:39-41 | panics exactly when some element of either list has no value; otherwise true exactly when the lists hold the same values |
| RsTracker.SyncParameter | src/search_space/tracker.rs:47-89 | one parameter step. A new name is tracked as Unknown([value]), whatever distribution the parameter carries, and panics with no value. A tracked name panics with no distribution. Two unknowns: the newer replaces the older. One unknown: nothing changes. Two categoricals: they must have the same choice sets. Any other pair must be equal. Otherwise the step panics, and no other entry changes |
| RsTracker.SearchSpaceTracker.Sync | src/search_space/tracker.rs:44-92 | the nested loops leave the space and outcome of the sync fold over the trials |
| RsTracker.SyncParametersStable | src/search_space/tracker.rs:45-90 | one trial's parameters never drop a name, never change an entry that is not unknown, keep unknowns unknown and add only unknowns; completing adds exactly the parameter names |
| RsTracker.SyncTrialsStable | src/search_space/tracker.rs:44-92 | the same for a whole sync, even when it panics part-way |
| RsTracker.SyncTrialsKeys | src/search_space/tracker.rs:44-92 | a sync that completes tracks exactly the old names plus every parameter name |
| RsTracker.FreshTrackerHoldsOnlyUnknown | src/search_space/tracker.rs:84-89 | from an empty tracker, every tracked entry is unknown |
| RsTracker.TrackedNameWithoutDistributionPanics | src/search_space/tracker.rs:70-81 | a tracked name whose parameter has no distribution always panics |
| RsTracker.SearchSpaceTracker.constructor | src/samplers/tpe.rs:59 | the default tracker has an empty space |
| SamplerBackend.Unfixed | optur/samplers/backends/backend.py:38-41 | the keys the loop samples are exactly the search-space keys that are not fixed |
| SamplerBackend.JointSample | optur/samplers/backends/backend.py:16-42 | the copy-then-fill loop computes the default joint sample, which is characterised by the two lemmas below |
| SamplerBackend.UnfixedDistinct | optur/samplers/backends/backend.py:38-41 | each unfixed key is sampled once |
| SamplerBackend.FilledKeys | optur/samplers/backends/backend.py:38-41 | the fill adds exactly the unfixed keys |
| SamplerBackend.FilledKeeps | optur/samplers/backends/backend.py:37-41 | an entry the fill does not sample keeps its value |
| SamplerBackend.FilledSamples | optur/samplers/backends/backend.py:38-41 | the j-th sampled key gets the value of the j-th call to sample |
| SamplerBackend.JointSampleKeepsFixed | optur/samplers/backends/backend.py:37-42 | every fixed parameter keeps its value; with no search space the result is the fixed parameters, or empty; otherwise the keys are the fixed keys plus the search-space keys |
| SamplerBackend.JointSampleSamplesUnfixed | optur/samplers/backends/backend.py:38-41 | the sampled keys are exactly the unfixed search-space keys, each sampled once with its own distribution, in order |
| Sampler.Sampler.constructor | optur/samplers/sampler.py:13-16 | the timestamp is (0, 0), the configuration is the one given, and there is no backend |
| Sampler.Sampler.WithBackend | optur/samplers/sampler.py:13-16 | the state of a sampler whose subclass installed a backend |
| Sampler.Sampler.UpdateTimestamp | optur/samplers/sampler.py:25-26 | sets the timestamp and changes nothing else |
| Sampler.Sampler.Sync | optur/samplers/sampler.py:31-43 | raises UnInitializedError without a backend; otherwise hands the same trials to the backend |
| Sampler.Sampler.JointSample | optur/samplers/sampler.py:45-64 | raises UnInitializedError without a backend; otherwise returns the backend's default joint sample of the same arguments |
| Sampler.Sampler.Sample | optur/samplers/sampler.py:66-74 | raises UnInitializedError without a backend; otherwise returns the backend's sample of the same distribution |
| Sampler.FreshSamplerIsUninitialized | optur/samplers/sampler.py:18-19 | nothing installs a backend, so a fresh sampler raises on sync, sample and joint_sample |
| RandomSampler.InterpolateBounds | optur/samplers/random.py:22-29 | a fraction in [0, 1) of the way from low to high lies in [low, high], and, in exact arithmetic, below high when low < high |
| RandomSampler.Sample | optur/samplers/random.py:13-32 | an int draw is an int value in [low, high], and raises ValueError on an empty range; a float draw is low + (high - low) * u; a categorical draw is one of the choices, and raises IndexError with none; any other kind fails the assertion |
| RandomSampler.SampleIsContained | optur/samplers/random.py:13-32 | every sample lies in the distribution it was drawn from (for floats, with ordered bounds) |
| RandomSampler.FloatSampleBelowHigh | optur/samplers/random.py:22-29 | in exact arithmetic, a float draw never reaches the upper bound of a non-degenerate range |
| RandomSampler.SampleIgnoresLogScale | optur/samplers/random.py:15-29 | flipping log_scale does not change an int or float sample |
| RandomSampler.RandomSampler.constructor | optur/samplers/random.py:9-11 | wraps the configuration as SamplerConfig(random=config), with no backend |
| RandomSampler.RandomJointSampleRaises | optur/samplers/sampler.py:60-61 | the random sampler does not override joint_sample, so joint_sample always raises UnInitializedError |
| RsRandom.Sample | src/samplers/random.rs:24-63 | unknown gives a value-less parameter value; int gives an int value in [low, high] and panics unless low <= high < i64::MAX; float gives u * (high - low) + low; categorical gives one of the choices and panics with none; fixed gives its value and panics with none; a missing distribution panics; nothing else panics |
| RsRandom.FloatSampleInRange | src/samplers/random.rs:40-46 | a float sample lies in [low, high] when the bounds are in order |
| RsRandom.IntRangeEndingAtMaxPanics | src/samplers/random.rs:33-39 | an int range ending at i64::MAX always panics, because `high + 1` overflows |
| RsRandom.JointSample | src/samplers/random.rs:17-23 | an empty observation, whatever is fixed |
| TPE.Split | optur/samplers/tpe.py:44-46 | the two halves concatenate to the sorted list, the first has n // 2 trials and the second at most one more, and both are non-empty exactly when n >= 2 |
| TPE.TPESampler.constructor | optur/samplers/tpe.py:15-22 | the wrapper holds the configuration, with no backend; a fresh random fallback, and a fresh tracker with no search space |
| TPE.TPESampler.Create | optur/samplers/tpe.py:15-22 | construction raises AssertionError exactly when the configuration does not select TPE |
| TPE.TPESampler.SetSearchSpace | optur/samplers/tpe.py:24-28 | a fresh tracker built from the argument, and the timestamp set to None |
| TPE.TPESampler.Sync | optur/samplers/tpe.py:30-33 | the same trials go to the fallback, then the sorted view, then the tracker; the fallback's UnInitializedError stops everything after it; the tracker ends as its own sync leaves it |
| TPE.TPESampler.JointSample | optur/samplers/tpe.py:35-54 | proposes nothing below the startup threshold and only then succeeds; past it, fewer than two trials or an estimator that proposes nothing fail an assertion, and otherwise NotImplementedError |
| TPE.TPESampler.Sample | optur/samplers/tpe.py:56-57 | the fallback random sampler's sample |
| TPE.TPESyncRaisesUnInitialized | optur/samplers/tpe.py:19 | a sampler built from a TPE configuration fails its first sync with UnInitializedError |
| RsTpe.DefaultKde | src/samplers/tpe/kde/univariate.rs:17-23 | every estimator table starts empty |
| RsTpe.TPESampler.constructor | src/samplers/tpe.rs:55-63 | a fresh tracker with an empty space, and a default estimator |
| RsTpe.TPESampler.Init | src/samplers/tpe.rs:25-29 | the fallback is initialised first, then the tracker and the estimator are replaced by fresh defaults |
| RsTpe.TPESampler.Sync | src/samplers/tpe.rs:30-34 | the same trials go to the fallback, then the tracker, then the estimator; a tracker panic stops the estimator's sync; the tracker ends as its own sync leaves it |
| RsTpe.TPESampler.JointSample | src/samplers/tpe.rs:35-45 | an empty observation, as the fallback's |
| RsTpe.TPESampler.Sample | src/samplers/tpe.rs:46-52 | the fallback random sampler's sample |
| RsTpe.SampleStaysInRange | src/samplers/tpe.rs:46-52 | the fallback's ranges carry over: int samples lie in [low, high], and so do float samples when the bounds are in order |
| RsTpe.InitThenSync | src/samplers/tpe.rs:25-34 | after init, a sync that completes tracks exactly the names seen, and every entry is unknown |
| InMemoryStorage.TimestampToIntOrder | optur/storages/backends/inmemory.py:23-24 | for nanos in [0, 10^9), the conversion preserves the order of (seconds, nanos) and is one-to-one |
| InMemoryStorage.IndexOf | optur/storages/backends/inmemory.py:38 | the position of a trial id in the dictionary, or -1 exactly when it is absent |
| InMemoryStorage.FirstIndex | optur/storages/backends/inmemory.py:38 | the first write of an id |
| InMemoryStorage.LastIndex | optur/storages/backends/inmemory.py:38 | the last write of an id |
| InMemoryStorage.CompactionIds | optur/storages/backends/inmemory.py:35-38 | the compaction holds each written trial id exactly once, and no other |
| InMemoryStorage.CompactionKeepsLatest | optur/storages/backends/inmemory.py:35-38 | each entry of the compaction is the last write of its id |
| InMemoryStorage.CompactionOrder | optur/storages/backends/inmemory.py:35-38 | the compaction lists the ids in the order of their first writes |
| InMemoryStorage.CompactionHoldsLatest | optur/storages/backends/inmemory.py:35-38 | every written id has its last write in the compaction |
| InMemoryStorage.FirstNotBefore | optur/storages/backends/inmemory.py:110-112 | the first write stamped at or after the bound: every earlier one is stamped before it |
| InMemoryStorage.BisectLeft | optur/storages/backends/inmemory.py:110-112 | the binary search stays in range and, on writes in stamp order, finds the first write stamped at or after the bound |
| InMemoryStorage.TrialsOf | optur/storages/backends/inmemory.py:113 | the stored trials of the writes, in order |
| InMemoryStorage.FetchedNeverOmits | optur/storages/backends/inmemory.py:76-113 | with writes in stamp order, a write stamped at or after the timestamp is never omitted: its id is reported, with its latest write |
| InMemoryStorage.InMemoryStorageBackend.constructor | optur/storages/backends/inmemory.py:44-49 | no studies and no trials |
| InMemoryStorage.InMemoryStorageBackend.GetCurrentTimestamp | optur/storages/backends/inmemory.py:51-54 | returns the clock reading and changes no stored data |
| InMemoryStorage.InMemoryStorageBackend.GetStudies | optur/storages/backends/inmemory.py:56-74 | every stored study's info, in insertion order, whatever the timestamp |
| InMemoryStorage.InMemoryStorageBackend.GetTrials | optur/storages/backends/inmemory.py:76-113 | NotImplementedError without a study id; NotFoundError for an unknown study; otherwise the compaction of all the study's writes, or of those from the first one stamped one nanosecond before the timestamp or later |
| InMemoryStorage.InMemoryStorageBackend.GetTrial | optur/storages/backends/inmemory.py:115-134 | the latest copy exactly when the trial is known and any study given is known; NotFoundError otherwise |
| InMemoryStorage.InMemoryStorageBackend.WriteStudy | optur/storages/backends/inmemory.py:136-158 | stores the study stamped with the clock; a known study keeps its writes, a new one starts with none; trials are untouched |
| InMemoryStorage.InMemoryStorageBackend.WriteTrial | optur/storages/backends/inmemory.py:160-187 | NotFoundError for an unknown study, changing nothing; otherwise stores a stamped copy as the trial's latest and appends exactly one write to its study, touching no other study |
| InMemoryStorage.WriteThenRead | optur/storages/backends/inmemory.py:115-187 | a trial just written is what get_trial returns, and is among the trials get_trials reports since its stamp |
| Study.Study.constructor | optur/study.py:69-89 | keeps the study, storage and sampler, records the sampler's configuration, and starts the timestamp at (0, 0) |
| Study.SelectInitialTrial | optur/study.py:129-133 | the first fetched trial that is WAITING for this worker, or none exactly when no trial is |
| Study.Ask | optur/study.py:114-137 | reads the clock before fetching; fetches the study's trials since the sampler's timestamp; syncs the sampler with exactly those trials; only then sets its timestamp to the reading; returns the first trial waiting for this worker, and fails the assertion with none; storage and sampler errors stop the sequence where they occur, and without a backend the sampler's sync log and timestamp are unchanged; the stored studies, their order and the trials are never changed |

## Left out

- Storage IPC (`optur/storages/storage.py`), the MySQL and POSIX backends, and the multiprocessing plumbing: concurrency and I/O.
- The kernel density estimators and the logit kernels: floating-point `exp`/`ln` arithmetic. `RsTpe.Kde` keeps only the table keys.
- Floating point: doubles are reals. So NaN, infinities, the sign of zero and rounding are not modelled; in particular the rounded double `low + (high - low) * u` may equal `high`, which the exact-arithmetic bounds of `RandomSampler.InterpolateBounds` and `RandomSampler.FloatSampleBelowHigh` exclude. The Rust tracker compares doubles by bit pattern, which the model reads as real equality.
- The random generators and the wall clock are inputs. A draw is given within the range the generator guarantees, and a clock reading is never earlier than the previous one.
- The iteration order of protobuf maps is unspecified. It is an input here: an ordered list of parameters, and a key order for the search space.
- RandomSampler.Sample: `random.randint`, `random.random` and `random.choice` are the draw inputs they return; the draw itself is not modelled.
- RsRandom.Sample: `gen_range` and `gen::<f64>()` are the draw inputs they return; the draw itself is not modelled.
- SamplerBackend.sync: its default body does nothing, so it has no member besides the backend log entry in `Sampler.Sampler.Sync`.
- `Sampler.init`: its body does nothing. It is not modelled; a fresh sampler already has no backend.
- The abstract `sample` of a backend is a function parameter that returns a value. Exceptions it might raise are not modelled.
- RsRandom: `init` and `sync` have empty bodies, and the struct has no state. They appear only as entries in the Rust TPE call log.
- TPE.TPESampler.constructor: it requires a TPE configuration, and `TPE.TPESampler.Create` models the assertion that this check comes from.
- A protobuf TypeError is not modelled. `TPESampler.__init__` passes a whole SamplerConfig to `RandomSampler`, which wraps it again as `SamplerConfig(random=...)`. The fallback is modelled as built from an empty RandomSamplerConfig.
- `TPESampler._sorted_trials` and `_kde` are declared but never assigned, so a real `sync` or `joint_sample` would raise AttributeError (after the fallback's UnInitializedError, in `sync`). `SortedTrials` is empty stubs. The model records the sorted view's sync as a call, and takes the list `to_list` should return as an input to `TPE.TPESampler.JointSample`.
- TPE.TPESampler.JointSample: the step after the estimator's sample (log-probabilities and comparison) is missing from the source. The number of observations the estimator proposes is an input.
- The Rust `SearchSpaceTracker::default` is not defined in `tracker.rs`. It is modelled as an empty search space.
- The Rust TPE `init` also takes the study's targets, and these are not modelled.
- A trial id equal to the empty string makes the bisect key `(t - 1, "", None)` compare a trial with None, which raises TypeError. The model orders writes by stamp alone, which matches the source for every non-empty id.
- `get_trial` returns the stored object itself, and `_StudyData` lists are shared by reference. Aliasing between callers and storage is not modelled; updates are on values.
- In `_ask`, the wrapping of the chosen trial into a `Trial` object and the call `sampler.joint_sample(initial_trial)` (`optur/study.py:138-141`) are left out. `Trial` is a stub, and the call passes a trial message where a dictionary of fixed parameters is expected. `Study.Ask` returns the chosen trial.
- The storage in `_ask` is the in-memory backend rather than a storage client.
- Study.Ask: the sampler is the base `Sampler`, so `_ask` is modelled for samplers that inherit `Sampler.sync` (the base class and the random sampler); a subclass's own `sync`, such as the TPE sampler's, is not dispatched to.
- The Rust TPE sampler's `sync` takes `&Vec<Trial>` while the `Sampler` trait in `src/samplers/sampler.rs` declares `Vec<Trial>`, so `src/samplers/tpe.rs` does not compile as written; the model follows the intended call order of `RsTpe.TPESampler.Sync`.
- `optimize`, `_run_trials`, `_run_trial`, `ask`, `tell`, `add_trial` and `enqueue_trial` in `optur/study.py` have empty bodies.
- `optur/samplers/backends/random.py` duplicates the random sampler, but picks its branch by the truthiness of protobuf sub-messages. That is library behaviour outside this model.
