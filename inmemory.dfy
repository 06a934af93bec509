/** optur/storages/backends/inmemory.py: the in-memory storage backend. It keeps
    the studies by id (in insertion order), the latest copy of every trial by id,
    and, per study, an append-only list of every trial write stamped with the
    clock. Reading trials since a timestamp binary-searches that list and keeps
    the latest write of each trial id. */
module InMemoryStorage {
  import opened Errors
  import opened Proto

  /** `seconds * 10**9 + nanos`: the timestamp in nanoseconds. */
  function TimestampToInt(t: Timestamp): int {
    t.seconds * 1_000_000_000 + t.nanos
  }

  /** For clock-produced timestamps the conversion is one-to-one and preserves
      the (seconds, nanos) order. */
  lemma TimestampToIntOrder(a: Timestamp, b: Timestamp)
    requires ValidTimestamp(a) && ValidTimestamp(b)
    ensures TimestampToInt(a) < TimestampToInt(b) <==> a.seconds < b.seconds || (a.seconds == b.seconds && a.nanos < b.nanos)
    ensures TimestampToInt(a) == TimestampToInt(b) <==> a == b
  {
    if a.seconds < b.seconds {
      assert TimestampToInt(a) < (a.seconds + 1) * 1_000_000_000 <= TimestampToInt(b);
    } else if b.seconds < a.seconds {
      assert TimestampToInt(b) < (b.seconds + 1) * 1_000_000_000 <= TimestampToInt(a);
    }
  }

  /** One write of a trial: its stamp as an integer, its id, the stored copy. */
  datatype TrialData = TrialData(timestamp: int, trialId: string, trial: Trial)

  /** A study's info and every trial write for it, oldest first. */
  datatype StudyData = StudyData(studyInfo: StudyInfo, sortedTrials: seq<TrialData>)

  /** The trial ids that occur in a list of writes. */
  function IdSet(s: seq<TrialData>): set<string> {
    set i | 0 <= i < |s| :: s[i].trialId
  }

  /** The position of `id` in an insertion-ordered dictionary of trial writes, or -1. */
  function IndexOf(d: seq<TrialData>, id: string): (i: int)
    ensures -1 <= i < |d|
    ensures i >= 0 ==> d[i].trialId == id
    ensures i == -1 <==> id !in IdSet(d)
  {
    if d == [] then -1
    else if d[0].trialId == id then 0
    else
      var j := IndexOf(d[1..], id);
      assert id in IdSet(d) ==> id in IdSet(d[1..]) by {
        if id in IdSet(d) {
          var k :| 0 <= k < |d| && d[k].trialId == id;
          assert d[1..][k - 1] == d[k];
        }
      }
      assert j >= 0 ==> d[j + 1] == d[1..][j];
      if j == -1 then -1 else j + 1
  }

  /** `d[t.trial_id] = t` on a dictionary that keeps insertion order: the entry
      for the id is replaced where it stands, or appended when there is none. */
  function Assign(d: seq<TrialData>, t: TrialData): seq<TrialData> {
    var i := IndexOf(d, t.trialId);
    if i < 0 then d + [t] else d[i := t]
  }

  /** `_StudyData.compaction`: the values of `{t.trial_id: t for t in s}`, that is
      the assignments of the writes one after the other. */
  function Compaction(s: seq<TrialData>): seq<TrialData>
    decreases |s|
  {
    if s == [] then [] else Assign(Compaction(s[..|s| - 1]), s[|s| - 1])
  }

  predicate DistinctIds(d: seq<TrialData>) {
    forall i, j :: 0 <= i < j < |d| ==> d[i].trialId != d[j].trialId
  }

  /** The first write of `id` in `s`. */
  function FirstIndex(s: seq<TrialData>, id: string): (i: nat)
    requires id in IdSet(s)
    ensures i < |s| && s[i].trialId == id
    ensures forall k :: 0 <= k < i ==> s[k].trialId != id
  {
    if s[0].trialId == id then 0
    else
      assert id in IdSet(s[1..]) by {
        var k :| 0 <= k < |s| && s[k].trialId == id;
        assert s[1..][k - 1] == s[k];
      }
      1 + FirstIndex(s[1..], id)
  }

  /** The last write of `id` in `s`. */
  function LastIndex(s: seq<TrialData>, id: string): (i: nat)
    requires id in IdSet(s)
    ensures i < |s| && s[i].trialId == id
    ensures forall k :: i < k < |s| ==> s[k].trialId != id
    decreases |s|
  {
    if s[|s| - 1].trialId == id then |s| - 1
    else
      assert id in IdSet(s[..|s| - 1]) by {
        var k :| 0 <= k < |s| && s[k].trialId == id;
        assert s[..|s| - 1][k] == s[k];
      }
      LastIndex(s[..|s| - 1], id)
  }

  lemma IdSetSnoc(p: seq<TrialData>, t: TrialData)
    ensures IdSet(p + [t]) == IdSet(p) + {t.trialId}
  {
    var s := p + [t];
    forall id | id in IdSet(s) ensures id in IdSet(p) + {t.trialId} {
      var k :| 0 <= k < |s| && s[k].trialId == id;
      if k < |p| {
        assert p[k] == s[k];
      }
    }
    forall id | id in IdSet(p) ensures id in IdSet(s) {
      var k :| 0 <= k < |p| && p[k].trialId == id;
      assert s[k] == p[k];
    }
    assert s[|p|] == t;
  }

  /** The first and last writes of an id already written before `t` do not move
      the first write; `t` is the last write of its own id. */
  lemma IndexSnoc(p: seq<TrialData>, t: TrialData, id: string)
    requires id in IdSet(p)
    ensures id in IdSet(p + [t])
    ensures FirstIndex(p + [t], id) == FirstIndex(p, id)
    ensures id != t.trialId ==> LastIndex(p + [t], id) == LastIndex(p, id)
  {
    IdSetSnoc(p, t);
    var s := p + [t];
    var f, f' := FirstIndex(p, id), FirstIndex(s, id);
    assert s[f] == p[f];
    assert f' <= f;
    assert p[f'] == s[f'];
    if id != t.trialId {
      var l, l' := LastIndex(p, id), LastIndex(s, id);
      assert s[l] == p[l];
      assert l' < |p|;
      assert p[l'] == s[l'];
    }
  }

  /** The compaction holds each trial id of the writes once, and no other id. */
  lemma {:induction false} CompactionIds(s: seq<TrialData>)
    ensures DistinctIds(Compaction(s))
    ensures IdSet(Compaction(s)) == IdSet(s)
    decreases |s|
  {
    if s != [] {
      var p, t := s[..|s| - 1], s[|s| - 1];
      assert s == p + [t];
      CompactionIds(p);
      IdSetSnoc(p, t);
      var c := Compaction(p);
      var i := IndexOf(c, t.trialId);
      if i < 0 {
        IdSetSnoc(c, t);
      } else {
        var c' := c[i := t];
        forall id | id in IdSet(c') ensures id in IdSet(c) {
          var k :| 0 <= k < |c'| && c'[k].trialId == id;
          assert c[k].trialId == id;
        }
        forall id | id in IdSet(c) ensures id in IdSet(c') {
          var k :| 0 <= k < |c| && c[k].trialId == id;
          assert c'[k].trialId == id;
        }
      }
    }
  }

  /** Every entry of the compaction is the last write of its id. */
  lemma {:induction false} CompactionKeepsLatest(s: seq<TrialData>)
    ensures forall j :: 0 <= j < |Compaction(s)| ==>
      Compaction(s)[j].trialId in IdSet(s) && Compaction(s)[j] == s[LastIndex(s, Compaction(s)[j].trialId)]
    decreases |s|
  {
    CompactionIds(s);
    if s != [] {
      var p, t := s[..|s| - 1], s[|s| - 1];
      assert s == p + [t];
      CompactionKeepsLatest(p);
      CompactionIds(p);
      IdSetSnoc(p, t);
      var c := Compaction(p);
      var c' := Compaction(s);
      forall j | 0 <= j < |c'| ensures c'[j] == s[LastIndex(s, c'[j].trialId)] {
        if c'[j].trialId != t.trialId {
          assert c'[j] == c[j];
          assert c[j].trialId in IdSet(p);
          IndexSnoc(p, t, c[j].trialId);
          assert p[LastIndex(p, c[j].trialId)] == s[LastIndex(p, c[j].trialId)];
        } else {
          var i := IndexOf(c, t.trialId);
          if i < 0 {
            assert forall k :: 0 <= k < |c| ==> c'[k] == c[k] && c[k].trialId in IdSet(c);
            assert j == |c|;
          } else {
            assert forall k :: 0 <= k < |c| && k != i ==> c'[k] == c[k] && c[k].trialId != c[i].trialId;
            assert j == i;
          }
        }
      }
    }
  }

  /** An assignment keeps the ids in place and appends a new one at the end. */
  lemma AssignIds(c: seq<TrialData>, t: TrialData)
    ensures var a := Assign(c, t);
      && (|a| == |c| || (|a| == |c| + 1 && a[|c|] == t && t.trialId !in IdSet(c)))
      && forall k :: 0 <= k < |c| ==> a[k].trialId == c[k].trialId
  {
  }

  /** The first write of an id not written before `t` is `t`. */
  lemma FirstIndexOfNew(p: seq<TrialData>, t: TrialData)
    requires t.trialId !in IdSet(p)
    ensures t.trialId in IdSet(p + [t])
    ensures FirstIndex(p + [t], t.trialId) == |p|
  {
    IdSetSnoc(p, t);
    var s := p + [t];
    assert forall k :: 0 <= k < |p| ==> s[k] == p[k] && p[k].trialId in IdSet(p);
  }

  /** The entries of `c` are ids written in `s`, listed in the order of their first writes. */
  predicate InFirstWriteOrder(s: seq<TrialData>, c: seq<TrialData>) {
    && (forall j :: 0 <= j < |c| ==> c[j].trialId in IdSet(s))
    && (forall j1, j2 :: 0 <= j1 < j2 < |c| ==> FirstIndex(s, c[j1].trialId) < FirstIndex(s, c[j2].trialId))
  }

  /** Assigning one more write keeps a dictionary of the earlier writes in
      first-write order. */
  lemma AssignKeepsOrder(p: seq<TrialData>, c: seq<TrialData>, t: TrialData)
    requires InFirstWriteOrder(p, c) && IdSet(c) == IdSet(p)
    ensures InFirstWriteOrder(p + [t], Assign(c, t))
  {
    var s, c' := p + [t], Assign(c, t);
    AssignIds(c, t);
    IdSetSnoc(p, t);
    forall j | 0 <= j < |c'| ensures c'[j].trialId in IdSet(s) {
      if j < |c| {
        assert c'[j].trialId == c[j].trialId;
      }
    }
    forall j1, j2 | 0 <= j1 < j2 < |c'|
      ensures FirstIndex(s, c'[j1].trialId) < FirstIndex(s, c'[j2].trialId)
    {
      IndexSnoc(p, t, c[j1].trialId);
      if j2 < |c| {
        IndexSnoc(p, t, c[j2].trialId);
      } else {
        assert c[j1].trialId in IdSet(c);
        FirstIndexOfNew(p, t);
      }
    }
  }

  /** The compaction lists the ids in the order of their first writes. */
  lemma {:induction false} CompactionOrder(s: seq<TrialData>)
    ensures InFirstWriteOrder(s, Compaction(s))
    decreases |s|
  {
    if s != [] {
      var p, t := s[..|s| - 1], s[|s| - 1];
      assert s == p + [t];
      CompactionOrder(p);
      CompactionIds(p);
      AssignKeepsOrder(p, Compaction(p), t);
    }
  }

  /** The writes' stamps never decrease. */
  predicate Sorted(s: seq<TrialData>) {
    forall i, j :: 0 <= i < j < |s| ==> s[i].timestamp <= s[j].timestamp
  }

  /** The first write stamped at or after `bound`, or the end. */
  function FirstNotBefore(s: seq<TrialData>, bound: int): (i: nat)
    ensures i <= |s|
    ensures forall k :: 0 <= k < i ==> s[k].timestamp < bound
    ensures i < |s| ==> s[i].timestamp >= bound
  {
    if s == [] || s[0].timestamp >= bound then 0 else 1 + FirstNotBefore(s[1..], bound)
  }

  /** `bisect.bisect_left(s, (bound, "", None))`: a binary search for the first
      write that does not sort before the key. A write with a stamp below
      `bound` sorts before it; one with a stamp at or above it does not. */
  method BisectLeft(s: seq<TrialData>, bound: int) returns (lo: nat)
    ensures lo <= |s|
    ensures Sorted(s) ==> lo == FirstNotBefore(s, bound)
  {
    lo := 0;
    var hi := |s|;
    while lo < hi
      invariant 0 <= lo <= hi <= |s|
      invariant Sorted(s) ==> forall k :: 0 <= k < lo ==> s[k].timestamp < bound
      invariant Sorted(s) ==> forall k :: hi <= k < |s| ==> s[k].timestamp >= bound
      decreases hi - lo
    {
      var mid := (lo + hi) / 2;
      if s[mid].timestamp < bound {
        lo := mid + 1;
      } else {
        hi := mid;
      }
    }
    if Sorted(s) {
      var f := FirstNotBefore(s, bound);
      assert f < |s| ==> s[f].timestamp >= bound;
      assert lo < |s| ==> s[lo].timestamp >= bound;
    }
  }

  /** The writes get_trials reports for a study: the compaction of all of them
      with no timestamp, otherwise of those from the first one stamped at or after
      one nanosecond before the timestamp. */
  function Fetched(s: seq<TrialData>, timestamp: Option<Timestamp>): seq<TrialData> {
    if timestamp.None? then Compaction(s)
    else Compaction(s[FirstNotBefore(s, TimestampToInt(timestamp.value) - 1)..])
  }

  /** The stored trials of a list of writes. */
  function TrialsOf(d: seq<TrialData>): (r: seq<Trial>)
    ensures |r| == |d| && forall i :: 0 <= i < |d| ==> r[i] == d[i].trial
  {
    if d == [] then [] else [d[0].trial] + TrialsOf(d[1..])
  }

  /** The last write of an id in a suffix is its last write in the whole list. */
  lemma LastIndexSuffix(s: seq<TrialData>, left: nat, id: string)
    requires left <= |s| && id in IdSet(s[left..])
    ensures id in IdSet(s) && LastIndex(s, id) == left + LastIndex(s[left..], id)
  {
    var suffix := s[left..];
    var l := LastIndex(suffix, id);
    assert s[left + l] == suffix[l];
    var L := LastIndex(s, id);
    assert L >= left + l;
    assert suffix[L - left] == s[L];
  }

  /** Every id written has its last write in the compaction. */
  lemma CompactionHoldsLatest(s: seq<TrialData>, id: string)
    requires id in IdSet(s)
    ensures exists j :: 0 <= j < |Compaction(s)| && Compaction(s)[j].trialId == id && Compaction(s)[j] == s[LastIndex(s, id)]
  {
    CompactionIds(s);
    CompactionKeepsLatest(s);
    var c := Compaction(s);
    var j :| 0 <= j < |c| && c[j].trialId == id;
    assert c[j] == s[LastIndex(s, id)];
  }

  /** With stamps in order, a write stamped at or after the timestamp is never
      omitted: its trial id is reported, with the latest write of that id. */
  lemma FetchedNeverOmits(s: seq<TrialData>, t: Timestamp, k: nat)
    requires Sorted(s) && k < |s| && s[k].timestamp >= TimestampToInt(t)
    ensures var f := Fetched(s, Some(t));
      exists j :: 0 <= j < |f| && f[j].trialId == s[k].trialId && f[j] == s[LastIndex(s, s[k].trialId)]
  {
    var left := FirstNotBefore(s, TimestampToInt(t) - 1);
    var suffix := s[left..];
    var id := s[k].trialId;
    assert suffix[k - left] == s[k];
    assert id in IdSet(suffix);
    LastIndexSuffix(s, left, id);
    CompactionHoldsLatest(suffix, id);
    var f := Fetched(s, Some(t));
    assert f == Compaction(suffix);
    var j :| 0 <= j < |f| && f[j].trialId == id && f[j] == suffix[LastIndex(suffix, id)];
    assert f[j] == s[LastIndex(s, id)];
  }

  /** The ids of a study's stored writes; the trial id of a write matches its stored trial. */
  predicate WellFormedWrite(e: TrialData) {
    e.trialId == e.trial.trialId && e.timestamp == TimestampToInt(e.trial.lastUpdateTime)
  }

  predicate DistinctStrings(s: seq<string>) {
    forall i, j :: 0 <= i < j < |s| ==> s[i] != s[j]
  }

  class InMemoryStorageBackend {
    /** The study ids in the order they were first written (the dictionary's order). */
    var studyOrder: seq<string>
    var studies: map<string, StudyData>
    var trials: map<string, Trial>
    /** The latest clock reading, in nanoseconds. */
    ghost var clock: int

    /** The study order lists the studies' keys once each, and every study's
        writes are well formed, in stamp order and not later than the clock. */
    ghost predicate Valid()
      reads this
    {
      && (forall id :: id in studies <==> id in studyOrder)
      && DistinctStrings(studyOrder)
      && (forall id :: id in studies ==> Sorted(studies[id].sortedTrials))
      && (forall id, k :: id in studies && 0 <= k < |studies[id].sortedTrials| ==>
            WellFormedWrite(studies[id].sortedTrials[k]) && studies[id].sortedTrials[k].timestamp <= clock)
    }

    constructor()
      ensures Valid()
      ensures studyOrder == [] && studies == map[] && trials == map[] && clock == 0
    {
      studyOrder := [];
      studies := map[];
      trials := map[];
      clock := 0;
    }

    /** A clock reading: `now`, which may not be earlier than the previous one. */
    method GetCurrentTimestamp(now: Timestamp) returns (t: Timestamp)
      requires Valid() && ValidTimestamp(now) && TimestampToInt(now) >= clock
      modifies this
      ensures Valid()
      ensures t == now && clock == TimestampToInt(now)
      ensures studyOrder == old(studyOrder) && studies == old(studies) && trials == old(trials)
    {
      clock := TimestampToInt(now);
      t := now;
    }

    /** Every stored study's info, whatever the timestamp. */
    method GetStudies(timestamp: Option<Timestamp>) returns (r: seq<StudyInfo>)
      requires Valid()
      ensures |r| == |studyOrder|
      ensures forall i :: 0 <= i < |r| ==> r[i] == studies[studyOrder[i]].studyInfo
      ensures forall id :: id in studies ==> studies[id].studyInfo in r
    {
      r := [];
      for i := 0 to |studyOrder|
        invariant |r| == i
        invariant forall k :: 0 <= k < i ==> r[k] == studies[studyOrder[k]].studyInfo
      {
        r := r + [studies[studyOrder[i]].studyInfo];
      }
      forall id | id in studies ensures studies[id].studyInfo in r {
        var k :| 0 <= k < |studyOrder| && studyOrder[k] == id;
        assert r[k] == studies[id].studyInfo;
      }
    }

    /** NotImplementedError without a study id, NotFoundError for an unknown
        study; otherwise the trials of the latest writes since the timestamp. */
    method GetTrials(studyId: Option<string>, timestamp: Option<Timestamp>) returns (r: Result<seq<Trial>>)
      requires Valid()
      ensures studyId.None? ==> r == Err(NotImplemented)
      ensures studyId.Some? && studyId.value !in studies ==> r == Err(NotFound)
      ensures studyId.Some? && studyId.value in studies ==>
        r == Ok(TrialsOf(Fetched(studies[studyId.value].sortedTrials, timestamp)))
    {
      if studyId.None? {
        return Err(NotImplemented);
      }
      if studyId.value !in studies {
        return Err(NotFound);
      }
      var study := studies[studyId.value];
      var left: nat := 0;
      if timestamp.Some? {
        left := BisectLeft(study.sortedTrials, TimestampToInt(timestamp.value) - 1);
      }
      assert study.sortedTrials[0..] == study.sortedTrials;
      return Ok(TrialsOf(Compaction(study.sortedTrials[left..])));
    }

    /** NotFoundError for an unknown trial, or for a study id given and unknown;
        otherwise the latest copy of the trial. */
    function GetTrial(trialId: string, studyId: Option<string>): (r: Result<Trial>)
      reads this
      ensures r.Ok? <==> trialId in trials && (studyId.Some? ==> studyId.value in studies)
      ensures r.Err? ==> r.error == NotFound
      ensures r.Ok? ==> r.value == trials[trialId]
    {
      if trialId !in trials then Err(NotFound)
      else if studyId.Some? && studyId.value !in studies then Err(NotFound)
      else Ok(trials[trialId])
    }

    /** Stores a copy of the study stamped with the clock. A known study keeps its
        writes; a new one starts with none and goes last in the study order. */
    method WriteStudy(study: StudyInfo, now: Timestamp)
      requires Valid() && ValidTimestamp(now) && TimestampToInt(now) >= clock
      modifies this
      ensures Valid()
      ensures clock == TimestampToInt(now)
      ensures var stamped := study.(lastUpdateTime := now);
        && (study.studyId in old(studies) ==>
              studies == old(studies)[study.studyId := old(studies)[study.studyId].(studyInfo := stamped)]
              && studyOrder == old(studyOrder))
        && (study.studyId !in old(studies) ==>
              studies == old(studies)[study.studyId := StudyData(stamped, [])]
              && studyOrder == old(studyOrder) + [study.studyId])
      ensures trials == old(trials)
    {
      var now' := GetCurrentTimestamp(now);
      var stamped := study.(lastUpdateTime := now');
      if study.studyId in studies {
        studies := studies[study.studyId := studies[study.studyId].(studyInfo := stamped)];
      } else {
        studies := studies[study.studyId := StudyData(stamped, [])];
        studyOrder := studyOrder + [study.studyId];
      }
    }

    /** NotFoundError, changing nothing, when the trial's study is unknown;
        otherwise stores a copy stamped with the clock as the trial's latest copy
        and appends one write of it to its study. */
    method WriteTrial(trial: Trial, now: Timestamp) returns (r: Outcome)
      requires Valid() && ValidTimestamp(now) && TimestampToInt(now) >= clock
      modifies this
      ensures Valid()
      ensures studyOrder == old(studyOrder)
      ensures trial.studyId !in old(studies) ==>
        && r == Fail(NotFound)
        && studies == old(studies) && trials == old(trials) && clock == old(clock)
      ensures trial.studyId in old(studies) ==>
        var stamped := trial.(lastUpdateTime := now);
        var data := old(studies)[trial.studyId];
        && r == Pass
        && clock == TimestampToInt(now)
        && trials == old(trials)[trial.trialId := stamped]
        && studies == old(studies)[trial.studyId := data.(sortedTrials :=
             data.sortedTrials + [TrialData(TimestampToInt(now), trial.trialId, stamped)])]
    {
      if trial.studyId !in studies {
        return Fail(NotFound);
      }
      var study := studies[trial.studyId];
      var now' := GetCurrentTimestamp(now);
      var stamped := trial.(lastUpdateTime := now');
      trials := trials[trial.trialId := stamped];
      var entry := TrialData(TimestampToInt(stamped.lastUpdateTime), stamped.trialId, stamped);
      studies := studies[trial.studyId := study.(sortedTrials := study.sortedTrials + [entry])];
      return Pass;
    }
  }

  /** A trial written to a known study is what get_trial then returns, and what
      get_trials of that study reports for its id when asked for the writes since
      the write's own stamp. */
  method WriteThenRead(storage: InMemoryStorageBackend, trial: Trial, now: Timestamp)
    returns (written: Outcome, read: Result<Trial>, fetched: Result<seq<Trial>>)
    requires storage.Valid() && ValidTimestamp(now) && TimestampToInt(now) >= storage.clock
    requires trial.studyId in storage.studies
    modifies storage
    ensures written == Pass
    ensures read == Ok(trial.(lastUpdateTime := now))
    ensures fetched.Ok? && trial.(lastUpdateTime := now) in fetched.value
  {
    written := storage.WriteTrial(trial, now);
    read := storage.GetTrial(trial.trialId, Some(trial.studyId));
    fetched := storage.GetTrials(Some(trial.studyId), Some(now));
    var s := storage.studies[trial.studyId].sortedTrials;
    var k := |s| - 1;
    FetchedNeverOmits(s, now, k);
    var f := Fetched(s, Some(now));
    var j :| 0 <= j < |f| && f[j].trialId == s[k].trialId && f[j] == s[LastIndex(s, s[k].trialId)];
    assert LastIndex(s, s[k].trialId) == k;
    assert fetched.value[j] == f[j].trial;
  }
}
