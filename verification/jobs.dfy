/** The job registrar of internal/server/mw/job.go. Times are supplied: a time is a
    natural number and 0 stands for the zero time. Identifiers are numbers. */
module Jobs {
  import opened Omr

  type Id = nat

  datatype JobError = ErrJobFinished | ErrJobNotFound | ErrJobIdConflict

  datatype JobResult = JobResult(status: int, headers: seq<(string, string)>, body: string)

  datatype JobDetails = JobDetails(
    id: Id, method_: string, path: string, progress: real,
    started: nat, finished: nat, success: bool, notes: string)

  /** The contents of a registrar. */
  datatype Registry = Registry(jobs: map<Id, JobDetails>, results: map<Id, JobResult>)

  // ----- What each operation does to the contents, and the error it returns

  function Registering(r: Registry, id: Id, method_: string, path: string, now: nat): (Registry, Option<JobError>) {
    if id in r.jobs then (r, Some(ErrJobIdConflict))
    else (r.(jobs := r.jobs[id := JobDetails(id, method_, path, 0.0, now, 0, false, "")]), None)
  }

  function SettingProgress(r: Registry, id: Id, progress: real): (Registry, Option<JobError>) {
    if id !in r.jobs then (r, Some(ErrJobNotFound))
    else if r.jobs[id].finished != 0 then (r, Some(ErrJobFinished))
    else (r.(jobs := r.jobs[id := r.jobs[id].(progress := progress)]), None)
  }

  function WritingNotes(r: Registry, id: Id, notes: string): (Registry, Option<JobError>) {
    if id !in r.jobs then (r, Some(ErrJobNotFound))
    else (r.(jobs := r.jobs[id := r.jobs[id].(notes := notes)]), None)
  }

  /** Without a result nothing happens, and no error is returned. */
  function Finishing(r: Registry, id: Id, success: bool, result: Option<JobResult>,
                     now: nat): (Registry, Option<JobError>) {
    if result.None? then (r, None)
    else if id !in r.jobs then (r, Some(ErrJobNotFound))
    else if r.jobs[id].finished != 0 then (r, Some(ErrJobFinished))
    else
      var job := r.jobs[id].(finished := now, progress := 1.0, success := success);
      (Registry(r.jobs[id := job], r.results[id := result.value]), None)
  }

  predicate Expired(job: JobDetails, age: nat, now: nat) { now > job.started + age }

  function ExpiredIn(jobs: map<Id, JobDetails>, age: nat, now: nat): set<Id> {
    set id | id in jobs && Expired(jobs[id], age, now)
  }

  function Evicting(r: Registry, age: nat, now: nat): Registry {
    var expired := ExpiredIn(r.jobs, age, now);
    Registry(r.jobs - expired, r.results - expired)
  }

  class JobRegistrar {
    var jobs: map<Id, JobDetails>
    var jobResults: map<Id, JobResult>

    ghost function Contents(): Registry
      reads this
    {
      Registry(jobs, jobResults)
    }

    constructor ()
      ensures Contents() == Registry(map[], map[])
    {
      jobs, jobResults := map[], map[];
    }

    method Register(id: Id, method_: string, path: string, now: nat) returns (err: Option<JobError>)
      modifies this
      ensures (Contents(), err) == Registering(old(Contents()), id, method_, path, now)
    {
      if id in jobs { return Some(ErrJobIdConflict); }
      var job := JobDetails(id, method_, path, 0.0, now, 0, false, "");
      jobs := jobs[id := job];
      err := None;
    }

    method SetProgress(id: Id, progress: real) returns (err: Option<JobError>)
      modifies this`jobs
      ensures (Contents(), err) == SettingProgress(old(Contents()), id, progress)
    {
      if id !in jobs { return Some(ErrJobNotFound); }
      var job := jobs[id];
      if job.finished != 0 { return Some(ErrJobFinished); }
      jobs := jobs[id := job.(progress := progress)];
      err := None;
    }

    method WriteNotes(id: Id, notes: string) returns (err: Option<JobError>)
      modifies this`jobs
      ensures (Contents(), err) == WritingNotes(old(Contents()), id, notes)
    {
      if id !in jobs { return Some(ErrJobNotFound); }
      jobs := jobs[id := jobs[id].(notes := notes)];
      err := None;
    }

    method SetFinished(id: Id, success: bool, result: Option<JobResult>, now: nat) returns (err: Option<JobError>)
      modifies this
      ensures (Contents(), err) == Finishing(old(Contents()), id, success, result, now)
    {
      if result.None? { return None; }
      if id !in jobs { return Some(ErrJobNotFound); }
      var job := jobs[id];
      if job.finished != 0 { return Some(ErrJobFinished); }
      jobResults := jobResults[id := result.value];
      job := job.(finished := now);
      job := job.(progress := 1.0);
      jobs := jobs[id := job.(success := success)];
      err := None;
    }

    /** The identifiers of the expired jobs, in the order of the iteration over `jobs`. */
    method CollectExpired(age: nat, now: nat) returns (expired: seq<Id>)
      ensures forall id :: id in expired <==> id in jobs && Expired(jobs[id], age, now)
    {
      expired := [];
      var keys := jobs.Keys;
      while keys != {}
        invariant keys <= jobs.Keys
        invariant forall id :: id in expired <==> id in jobs && id !in keys && Expired(jobs[id], age, now)
        decreases |keys|
      {
        var key :| key in keys;
        if now > jobs[key].started + age { expired := expired + [key]; }
        keys := keys - {key};
      }
    }

    /** Deletes the expired jobs from both maps. */
    method EvictAllOlderThan(age: nat, now: nat)
      modifies this
      ensures Contents() == Evicting(old(Contents()), age, now)
    {
      var expired := CollectExpired(age, now);
      ghost var all := ExpiredIn(jobs, age, now);
      var i := 0;
      while i < |expired|
        invariant 0 <= i <= |expired|
        invariant jobs == Without(old(jobs), expired[..i]) && jobResults == Without(old(jobResults), expired[..i])
      {
        jobs := jobs - {expired[i]};
        jobResults := jobResults - {expired[i]};
        assert expired[..i + 1][..i] == expired[..i];
        i := i + 1;
      }
      assert expired[..i] == expired;
      WithoutAll(old(jobs), expired, all);
      WithoutAll(old(jobResults), expired, all);
    }
  }

  /** Deleting keys one after the other. */
  ghost function Without<V>(m: map<Id, V>, keys: seq<Id>): map<Id, V> {
    if keys == [] then m else Without(m, keys[..|keys| - 1]) - {keys[|keys| - 1]}
  }

  lemma {:induction false} WithoutHas<V>(m: map<Id, V>, keys: seq<Id>, id: Id)
    ensures id in Without(m, keys) <==> id in m && id !in keys
    ensures id in Without(m, keys) ==> Without(m, keys)[id] == m[id]
  {
    if keys != [] {
      WithoutHas(m, keys[..|keys| - 1], id);
      assert keys == keys[..|keys| - 1] + [keys[|keys| - 1]];
    }
  }

  lemma WithoutAll<V>(m: map<Id, V>, keys: seq<Id>, all: set<Id>)
    requires forall id :: id in keys <==> id in all
    ensures Without(m, keys) == m - all
  {
    forall id: Id
      ensures id in Without(m, keys) <==> id in m - all
      ensures id in Without(m, keys) ==> Without(m, keys)[id] == (m - all)[id]
    {
      WithoutHas(m, keys, id);
    }
    hide Without;
  }

  /** `jobRes`, through which a handler reports on its job. */
  function Clamp(progress: real): (p: real)
    ensures 0.0 <= p <= 1.0 && (0.0 <= progress <= 1.0 ==> p == progress)
  {
    var atLeast := if progress < 0.0 then 0.0 else progress;
    if atLeast > 1.0 then 1.0 else atLeast
  }

  method Report(r: JobRegistrar, id: Id, progress: real)
    modifies r`jobs
    ensures r.Contents() == SettingProgress(old(r.Contents()), id, Clamp(progress)).0
  {
    var p := if progress < 0.0 then 0.0 else progress;
    p := if p > 1.0 then 1.0 else p;
    var err := r.SetProgress(id, p);
  }

  predicate Succeeded(status: int) { 200 <= status < 300 }

  /** The end of a job started by `AsyncJob`: its response is the result. */
  method EndAsync(r: JobRegistrar, id: Id, result: JobResult, now: nat)
    modifies r
    ensures r.Contents() == Finishing(old(r.Contents()), id, Succeeded(result.status), Some(result), now).0
  {
    var err := r.SetFinished(id, 200 <= result.status && result.status < 300, Some(result), now);
  }

  /** The end of a job run by `SyncJob`, which passes no result. */
  method EndSync(r: JobRegistrar, id: Id, status: int, now: nat)
    modifies r
    ensures r.Contents() == old(r.Contents())
  {
    var err := r.SetFinished(id, 200 <= status && status < 300, None, now);
  }
}
