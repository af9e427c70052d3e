/** The job registrar over whole runs of its operations. */
module JobsRuns {
  import opened Omr
  import opened Jobs

  /** Progress is reported through `jobRes`; a job ends as `AsyncJob` or as `SyncJob` ends it. */
  datatype Op =
    | Register(id: Id, method_: string, path: string, now: nat)
    | Report(id: Id, progress: real)
    | Note(id: Id, notes: string)
    | EndAsync(id: Id, result: JobResult, now: nat)
    | EndSync(id: Id, status: int, now: nat)
    | Evict(age: nat, now: nat)

  function Step(r: Registry, op: Op): Registry {
    match op
    case Register(id, m, path, now) => Registering(r, id, m, path, now).0
    case Report(id, progress) => SettingProgress(r, id, Clamp(progress)).0
    case Note(id, notes) => WritingNotes(r, id, notes).0
    case EndAsync(id, result, now) => Finishing(r, id, Succeeded(result.status), Some(result), now).0
    case EndSync(id, status, now) => Finishing(r, id, Succeeded(status), None, now).0
    case Evict(age, now) => Evicting(r, age, now)
  }

  function Run(r: Registry, ops: seq<Op>): Registry {
    if ops == [] then r else Step(Run(r, ops[..|ops| - 1]), ops[|ops| - 1])
  }

  /** The clock never shows the zero time. */
  predicate Timed(ops: seq<Op>) {
    forall op :: op in ops ==> (op.EndAsync? ==> op.now > 0)
  }

  const EMPTY := Registry(map[], map[])

  /** A result is cached exactly for the finished jobs, whose progress is 1 and whose
      outcome is that of the cached status; any progress lies between 0 and 1. */
  ghost predicate Inv(r: Registry) {
    && (forall id :: id in r.results <==> id in r.jobs && r.jobs[id].finished != 0)
    && (forall id :: id in r.jobs ==> r.jobs[id].id == id && 0.0 <= r.jobs[id].progress <= 1.0)
    && (forall id :: id in r.results ==> r.jobs[id].progress == 1.0 && r.jobs[id].success == Succeeded(r.results[id].status))
  }

  lemma StepKeeps(r: Registry, op: Op)
    requires Inv(r) && (op.EndAsync? ==> op.now > 0)
    ensures Inv(Step(r, op))
  {
    hide Inv, Finishing, Evicting, Registering, SettingProgress, WritingNotes;
    match op {
      case EndAsync(id, result, now) =>
        FinishingKeeps(r, id, Succeeded(result.status), Some(result), now);
      case EndSync(id, status, now) =>
        FinishingKeeps(r, id, Succeeded(status), None, now);
      case Evict(age, now) =>
        EvictingKeeps(r, age, now);
      case _ =>
        UpdateKeeps(r, op);
    }
  }

  lemma FinishingKeeps(r: Registry, id: Id, success: bool, result: Option<JobResult>, now: nat)
    requires Inv(r) && (result.Some? ==> now > 0 && success == Succeeded(result.value.status))
    ensures Inv(Finishing(r, id, success, result, now).0)
  {
  }

  lemma EvictingKeeps(r: Registry, age: nat, now: nat)
    requires Inv(r)
    ensures Inv(Evicting(r, age, now))
  {
  }

  lemma UpdateKeeps(r: Registry, op: Op)
    requires Inv(r) && (op.Register? || op.Report? || op.Note?)
    ensures Inv(Step(r, op))
  {
    hide Finishing, Evicting;
  }

  lemma {:induction false} InvOverRuns(ops: seq<Op>)
    requires Timed(ops)
    ensures Inv(Run(EMPTY, ops))
  {
    assert Inv(EMPTY);
    hide Inv, Step;
    if ops != [] {
      var n := |ops| - 1;
      assert ops[n] in ops;
      InvOverRuns(ops[..n]);
      StepKeeps(Run(EMPTY, ops[..n]), ops[n]);
    }
  }

  /** Some eviction in the run finds the job expired. */
  predicate Evicted(job: JobDetails, ops: seq<Op>) {
    exists op :: op in ops && op.Evict? && Expired(job, op.age, op.now)
  }

  /** The first operation that ends the job with a result. */
  function FirstEnd(ops: seq<Op>, id: Id): Option<Op> {
    if ops == [] then None
    else
      var before := FirstEnd(ops[..|ops| - 1], id);
      if before.Some? then before
      else if ops[|ops| - 1].EndAsync? && ops[|ops| - 1].id == id then Some(ops[|ops| - 1])
      else None
  }

  /** What a run makes of a registered, unfinished job that it does not evict: the
      first end decides the outcome and the result for good. */
  ghost predicate DecidedByFirstEnd(r: Registry, r': Registry, ops: seq<Op>, id: Id)
    requires id in r.jobs
  {
    Decided(r, r', FirstEnd(ops, id), id)
  }

  ghost predicate Decided(r: Registry, r': Registry, end: Option<Op>, id: Id)
    requires id in r.jobs
  {
    && id in r'.jobs
    && var job, job' := r.jobs[id], r'.jobs[id];
       && job'.id == job.id && job'.method_ == job.method_ && job'.path == job.path && job'.started == job.started
       && if end.None? then job'.finished == 0 && !job'.success && id !in r'.results
          else
            && end.value.EndAsync?
            && job'.finished == end.value.now && job'.success == Succeeded(end.value.result.status) && job'.progress == 1.0
            && id in r'.results && r'.results[id] == end.value.result
  }

  /** The first end after one more operation. */
  function NextEnd(end: Option<Op>, op: Op, id: Id): Option<Op> {
    if end.Some? then end else if op.EndAsync? && op.id == id then Some(op) else None
  }

  lemma FirstEndPush(before: seq<Op>, op: Op, id: Id)
    ensures FirstEnd(before + [op], id) == NextEnd(FirstEnd(before, id), op, id)
  {
    assert (before + [op])[..|before|] == before;
  }

  lemma DecidedStep(r: Registry, mid: Registry, end: Option<Op>, op: Op, id: Id)
    requires id in r.jobs && Decided(r, mid, end, id)
    requires op.Evict? ==> !Expired(r.jobs[id], op.age, op.now)
    requires end.Some? ==> end.value.EndAsync? && end.value.now > 0
    ensures Decided(r, Step(mid, op), NextEnd(end, op, id), id)
  {
  }

  lemma {:induction false} FirstEndMember(ops: seq<Op>, id: Id)
    ensures var end := FirstEnd(ops, id);
            end.Some? ==> end.value in ops && end.value.EndAsync? && end.value.id == id
  {
    if ops != [] { FirstEndMember(ops[..|ops| - 1], id); }
  }

  lemma {:induction false} FirstEndDecides(r: Registry, ops: seq<Op>, id: Id)
    requires id in r.jobs && r.jobs[id].finished == 0 && !r.jobs[id].success && id !in r.results
    requires Timed(ops) && !Evicted(r.jobs[id], ops)
    ensures DecidedByFirstEnd(r, Run(r, ops), ops, id)
  {
    if ops != [] {
      var n := |ops| - 1;
      assert ops[n] in ops && ops == ops[..n] + [ops[n]];
      FirstEndDecides(r, ops[..n], id);
      FirstEndMember(ops[..n], id);
      FirstEndPush(ops[..n], ops[n], id);
      hide Decided, Step, FirstEnd;
      DecidedStep(r, Run(r, ops[..n]), FirstEnd(ops[..n], id), ops[n], id);
    }
  }

  lemma FinishedStep(r: Registry, op: Op, id: Id)
    requires id in r.jobs && r.jobs[id].finished != 0 && id in r.results
    requires op.Evict? ==> !Expired(r.jobs[id], op.age, op.now)
    ensures var r' := Step(r, op);
            && id in r'.jobs && id in r'.results && r'.results[id] == r.results[id]
            && r'.jobs[id] == r.jobs[id].(notes := r'.jobs[id].notes)
  {
  }

  /** A finished job keeps everything but its notes, and its result, until it is evicted. */
  lemma {:induction false} FinishedIsFinal(r: Registry, ops: seq<Op>, id: Id)
    requires id in r.jobs && r.jobs[id].finished != 0 && id in r.results && !Evicted(r.jobs[id], ops)
    ensures var r' := Run(r, ops);
            && id in r'.jobs && id in r'.results && r'.results[id] == r.results[id]
            && r'.jobs[id] == r.jobs[id].(notes := r'.jobs[id].notes)
  {
    if ops != [] {
      var n := |ops| - 1;
      assert ops[n] in ops && ops == ops[..n] + [ops[n]];
      hide Step;
      FinishedIsFinal(r, ops[..n], id);
      FinishedStep(Run(r, ops[..n]), ops[n], id);
    }
  }

  /** The notes written last, and the progress reported last. */
  function LastNote(ops: seq<Op>, id: Id, initial: string): string {
    if ops == [] then initial
    else
      var op := ops[|ops| - 1];
      if op.Note? && op.id == id then op.notes else LastNote(ops[..|ops| - 1], id, initial)
  }

  function LastReport(ops: seq<Op>, id: Id, initial: real): real {
    if ops == [] then initial
    else
      var op := ops[|ops| - 1];
      if op.Report? && op.id == id then Clamp(op.progress) else LastReport(ops[..|ops| - 1], id, initial)
  }

  lemma LatestStep(r: Registry, op: Op, id: Id)
    requires id in r.jobs && (op.EndAsync? ==> op.now > 0) && (op.Evict? ==> !Expired(r.jobs[id], op.age, op.now))
    ensures var r' := Step(r, op);
            && id in r'.jobs && r'.jobs[id].started == r.jobs[id].started
            && r'.jobs[id].notes == (if op.Note? && op.id == id then op.notes else r.jobs[id].notes)
            && (r'.jobs[id].finished == 0 <==> r.jobs[id].finished == 0 && !(op.EndAsync? && op.id == id))
            && (r'.jobs[id].finished == 0 ==>
                  r'.jobs[id].progress == if op.Report? && op.id == id then Clamp(op.progress) else r.jobs[id].progress)
  {
    hide Clamp;
  }

  /** A job shows the notes written last, before or after its end, and the progress
      reported last until its end. */
  lemma {:induction false} LatestIsShown(r: Registry, ops: seq<Op>, id: Id)
    requires id in r.jobs && r.jobs[id].finished == 0 && Timed(ops) && !Evicted(r.jobs[id], ops)
    ensures var r' := Run(r, ops);
            && id in r'.jobs && r'.jobs[id].started == r.jobs[id].started
            && r'.jobs[id].notes == LastNote(ops, id, r.jobs[id].notes)
            && (r'.jobs[id].finished == 0 <==> FirstEnd(ops, id).None?)
            && (FirstEnd(ops, id).None? ==> r'.jobs[id].progress == LastReport(ops, id, r.jobs[id].progress))
  {
    if ops != [] {
      var n := |ops| - 1;
      assert ops[n] in ops && ops == ops[..n] + [ops[n]];
      hide Step, Clamp;
      LatestIsShown(r, ops[..n], id);
      LatestStep(Run(r, ops[..n]), ops[n], id);
    }
  }

  predicate Registers(ops: seq<Op>, id: Id) {
    exists op :: op in ops && op.Register? && op.id == id
  }

  lemma LivesStep(r: Registry, op: Op, id: Id)
    requires !(op.Register? && op.id == id)
    ensures var r' := Step(r, op);
            && (id in r'.jobs <==> id in r.jobs && !(op.Evict? && Expired(r.jobs[id], op.age, op.now)))
            && (id in r'.jobs ==> r'.jobs[id].started == r.jobs[id].started)
  {
  }

  /** Without a new registration, a job is there at the end of a run exactly when no
      eviction found it expired; if it is gone, so is its result. */
  lemma {:induction false} LivesUntilEvicted(r: Registry, ops: seq<Op>, id: Id)
    requires Inv(r) && Timed(ops) && id in r.jobs && !Registers(ops, id)
    ensures var r' := Run(r, ops);
            && Inv(r')
            && (id in r'.jobs <==> !Evicted(r.jobs[id], ops))
            && (id in r'.jobs ==> r'.jobs[id].started == r.jobs[id].started)
            && (id !in r'.jobs ==> id !in r'.results)
  {
    hide Inv;
    if ops != [] {
      hide Step;
      var n := |ops| - 1;
      assert ops[n] in ops && ops == ops[..n] + [ops[n]];
      LivesUntilEvicted(r, ops[..n], id);
      LivesStep(Run(r, ops[..n]), ops[n], id);
      StepKeeps(Run(r, ops[..n]), ops[n]);
      assert Evicted(r.jobs[id], ops)
             <==> Evicted(r.jobs[id], ops[..n]) || (ops[n].Evict? && Expired(r.jobs[id], ops[n].age, ops[n].now));
      if id !in Run(r, ops).jobs { GoneWithResult(Run(r, ops), id); }
    }
  }

  lemma GoneWithResult(r: Registry, id: Id)
    requires Inv(r) && id !in r.jobs
    ensures id !in r.results
  {
  }

  lemma {:induction false} NoEnd(ops: seq<Op>, id: Id)
    requires forall op :: op in ops ==> !(op.EndAsync? && op.id == id)
    ensures FirstEnd(ops, id).None?
  {
    if ops != [] { NoEnd(ops[..|ops| - 1], id); }
  }

  /** A job that is not there cannot be ended, reported on or annotated: the registrar
      says so and stays the same. Registering it then starts a job without a result,
      which its own first end decides, whatever happened to an earlier job of that name. */
  lemma EvictedStartsClean(r: Registry, id: Id, method_: string, path: string, now: nat, ops: seq<Op>)
    requires Inv(r) && id !in r.jobs && Timed(ops)
    requires !Evicted(JobDetails(id, method_, path, 0.0, now, 0, false, ""), ops)
    ensures forall success, result, t :: Finishing(r, id, success, Some(result), t) == (r, Some(ErrJobNotFound))
    ensures forall p :: SettingProgress(r, id, p) == (r, Some(ErrJobNotFound))
    ensures forall notes :: WritingNotes(r, id, notes) == (r, Some(ErrJobNotFound))
    ensures var (r', err) := Registering(r, id, method_, path, now);
            && err == None && id in r'.jobs && r'.jobs[id] == JobDetails(id, method_, path, 0.0, now, 0, false, "")
            && DecidedByFirstEnd(r', Run(r', ops), ops, id)
  {
    GoneWithResult(r, id);
    FirstEndDecides(Registering(r, id, method_, path, now).0, ops, id);
    hide Decided, FirstEnd;
  }

  /** A job that `SyncJob` runs never finishes: it has no result to give. */
  lemma SyncJobNeverFinishes(r: Registry, id: Id, method_: string, path: string, now: nat, ops: seq<Op>)
    requires Inv(r) && id !in r.jobs && Timed(ops)
    requires !Evicted(JobDetails(id, method_, path, 0.0, now, 0, false, ""), ops)
    requires forall op :: op in ops ==> !(op.EndAsync? && op.id == id)
    ensures var r' := Run(Registering(r, id, method_, path, now).0, ops);
            id in r'.jobs && r'.jobs[id].finished == 0 && !r'.jobs[id].success && id !in r'.results
  {
    NoEnd(ops, id);
    EvictedStartsClean(r, id, method_, path, now, ops);
    hide Run, Inv;
  }

  /** An eviction removes exactly the expired jobs, with their results, and leaves the
      other jobs and results as they are. */
  lemma EvictionIsExact(r: Registry, age: nat, now: nat, id: Id)
    requires Inv(r)
    ensures var r' := Evicting(r, age, now);
            && (id in r'.jobs <==> id in r.jobs && now <= r.jobs[id].started + age)
            && (id in r'.results <==> id in r.results && now <= r.jobs[id].started + age)
            && (id in r'.jobs ==> r'.jobs[id] == r.jobs[id])
            && (id in r'.results ==> r'.results[id] == r.results[id])
  {
    assert id in ExpiredIn(r.jobs, age, now) <==> id in r.jobs && now > r.jobs[id].started + age;
  }

  // ----- The whole life of a job, by the places of the operations in the run

  /** The last note of the job is the operation at k, or there is none and k is -1. */
  predicate LastNoteAt(ops: seq<Op>, id: Id, k: int) {
    && -1 <= k < |ops| && (k >= 0 ==> ops[k].Note? && ops[k].id == id)
    && forall i :: k < i < |ops| ==> !(ops[i].Note? && ops[i].id == id)
  }

  predicate LastReportAt(ops: seq<Op>, id: Id, k: int) {
    && -1 <= k < |ops| && (k >= 0 ==> ops[k].Report? && ops[k].id == id)
    && forall i :: k < i < |ops| ==> !(ops[i].Report? && ops[i].id == id)
  }

  /** The first end of the job with a result is the operation at k, or k is the length. */
  predicate FirstEndAt(ops: seq<Op>, id: Id, k: int) {
    && 0 <= k <= |ops| && (k < |ops| ==> ops[k].EndAsync? && ops[k].id == id)
    && forall i :: 0 <= i < k ==> !(ops[i].EndAsync? && ops[i].id == id)
  }

  lemma {:induction false} FindNote(ops: seq<Op>, id: Id, initial: string) returns (k: int)
    ensures LastNoteAt(ops, id, k) && LastNote(ops, id, initial) == if k < 0 then initial else ops[k].notes
  {
    var n := |ops| - 1;
    if ops == [] || (ops[n].Note? && ops[n].id == id) { return n; }
    k := FindNote(ops[..n], id, initial);
    assert forall i :: k < i < n ==> ops[..n][i] == ops[i];
  }

  lemma {:induction false} FindReport(ops: seq<Op>, id: Id, initial: real) returns (k: int)
    ensures LastReportAt(ops, id, k) && LastReport(ops, id, initial) == if k < 0 then initial else Clamp(ops[k].progress)
  {
    hide Clamp;
    var n := |ops| - 1;
    if ops == [] || (ops[n].Report? && ops[n].id == id) { return n; }
    k := FindReport(ops[..n], id, initial);
    assert forall i :: k < i < n ==> ops[..n][i] == ops[i];
  }

  lemma {:induction false} FindEnd(ops: seq<Op>, id: Id) returns (k: int)
    ensures FirstEndAt(ops, id, k) && FirstEnd(ops, id) == if k < |ops| then Some(ops[k]) else None
  {
    k := 0;
    if ops != [] {
      var n := |ops| - 1;
      k := FindEnd(ops[..n], id);
      assert forall i :: 0 <= i < n ==> ops[..n][i] == ops[i];
      if k == n && !(ops[n].EndAsync? && ops[n].id == id) { k := |ops|; }
    }
  }

  lemma {:induction false} RunFrom(r: Registry, op: Op, ops: seq<Op>)
    ensures Run(r, [op] + ops) == Run(Step(r, op), ops)
  {
    hide Step;
    var all := [op] + ops;
    if ops == [] {
      assert all == [op] && [op][..0] == [];
    } else {
      var n := |ops| - 1;
      assert all[..|all| - 1] == [op] + ops[..n] && all[|all| - 1] == ops[n];
      RunFrom(r, op, ops[..n]);
    }
  }

  /** The progress a job shows for a reported one. */
  predicate Shows(shown: real, reported: real) {
    if reported <= 0.0 then shown == 0.0 else if reported >= 1.0 then shown == 1.0 else shown == reported
  }

  /** A job registered under a free identifier, with no eviction later than its start by
      more than the age: what the registrar shows of it after any further operations. */
  lemma WholeJob(r: Registry, start: Op, ops: seq<Op>) returns (note: int, report: int, end: int)
    requires Inv(r) && Timed(ops) && start.Register? && start.id !in r.jobs
    requires forall op :: op in ops && op.Evict? ==> op.now - start.now <= op.age
    ensures var id := start.id;
            LastNoteAt(ops, id, note) && LastReportAt(ops, id, report) && FirstEndAt(ops, id, end)
    ensures var r' := Run(r, [start] + ops);
            && start.id in r'.jobs
            && var job := r'.jobs[start.id];
               && job.id == start.id && job.method_ == start.method_ && job.path == start.path
               && job.started == start.now
               && job.notes == (if note < 0 then "" else ops[note].notes)
               && (end == |ops| ==>
                     && job.finished == 0 && !job.success && start.id !in r'.results
                     && (if report < 0 then job.progress == 0.0 else Shows(job.progress, ops[report].progress)))
               && (end < |ops| ==>
                     && job.finished == ops[end].now && job.progress == 1.0
                     && (job.success <==> 200 <= ops[end].result.status <= 299)
                     && start.id in r'.results && r'.results[start.id] == ops[end].result)
  {
    var id := start.id;
    var r1 := Step(r, start);
    GoneWithResult(r, id);
    assert id in r1.jobs && r1.jobs[id] == JobDetails(id, start.method_, start.path, 0.0, start.now, 0, false, "");
    assert id !in r1.results;
    assert !Evicted(r1.jobs[id], ops);
    hide Inv, Step, Run, FirstEnd, LastNote, LastReport, Evicted, Timed;
    note := FindNote(ops, id, "");
    report := FindReport(ops, id, 0.0);
    end := FindEnd(ops, id);
    RunFrom(r, start, ops);
    FirstEndDecides(r1, ops, id);
    LatestIsShown(r1, ops, id);
  }

  /** An answer that changes no other job than this one, and nothing when it is an error. */
  ghost predicate Confined(r: Registry, answer: (Registry, Option<JobError>), id: Id) {
    var (r', err) := answer;
    && (err.Some? ==> r' == r)
    && (forall other :: other != id && other in r.jobs ==> other in r'.jobs && r'.jobs[other] == r.jobs[other])
    && (forall other :: other != id && other in r.results ==> other in r'.results && r'.results[other] == r.results[other])
    && r'.jobs.Keys <= r.jobs.Keys + {id} && r'.results.Keys <= r.results.Keys + {id}
  }

  /** What is refused, and with which error. Whatever is refused changes nothing, and what
      is done to one job leaves the others and their results alone. */
  lemma RefusedExactly(r: Registry, id: Id, method_: string, path: string, progress: real, notes: string,
                       success: bool, result: JobResult, now: nat)
    ensures var registering := Registering(r, id, method_, path, now);
            var (noting, setting) := (WritingNotes(r, id, notes), SettingProgress(r, id, progress));
            var finishing := Finishing(r, id, success, Some(result), now);
            && Confined(r, registering, id) && Confined(r, noting, id) && Confined(r, setting, id) && Confined(r, finishing, id)
            && (id in r.jobs <==> registering.1 == Some(ErrJobIdConflict))
            && (id !in r.jobs <==> noting.1 == Some(ErrJobNotFound))
            && (id !in r.jobs <==> setting.1 == Some(ErrJobNotFound))
            && (id !in r.jobs <==> finishing.1 == Some(ErrJobNotFound))
            && (id in r.jobs ==>
                  && noting.1 == None
                  && (r.jobs[id].finished != 0 <==> setting.1 == Some(ErrJobFinished))
                  && (r.jobs[id].finished != 0 <==> finishing.1 == Some(ErrJobFinished))
                  && (r.jobs[id].finished == 0 <==> setting.1 == None == finishing.1))
            && (id !in r.jobs <==> registering.1 == None)
  {
  }
}
