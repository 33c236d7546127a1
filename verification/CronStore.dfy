/**
  The persistent store of cron jobs. Every mutation is written through to `crons.json` and rolled back
  when the write fails.
 */
module CronStore {
  import opened Wrappers
  import opened StateFiles
  import opened FieldScanner

  datatype CronJob = CronJob(
    jobId: Id,
    userId: string,
    osUsername: string,
    schedule: string,
    command: string,
    description: string,
    contextId: string,
    createdAt: int,
    updatedAt: int)

  datatype StoreError =
    | InvalidSchedule
    | EmptyCommand
    | NoFreshId
    | InvalidJobId
    | NotFound
    | NotOwner
    | PersistFailed

  // ---- crons.json ----

  type JobsFile = StateFile<CronJob>

  function JobKey(j: CronJob): Id {
    j.jobId
  }

  /** What `load` on a fresh store rebuilds. */
  function Load(file: JobsFile): map<Id, CronJob> {
    LoadMap(file, JobKey)
  }

  ghost predicate KeyedById(m: map<Id, CronJob>) {
    Keyed(m, JobKey)
  }

  lemma AddedIsKeyed(m: map<Id, CronJob>, id: Id, job: CronJob)
    requires KeyedById(m) && ValidId(id) && job.jobId == id
    ensures KeyedById(m[id := job])
  {
  }

  lemma StaysKeyed(m: map<Id, CronJob>, id: Id, job: CronJob)
    requires KeyedById(m) && id in m && job.jobId == m[id].jobId
    ensures KeyedById(m[id := job])
  {
  }

  // ---- What the operations do, as functions on the map ----

  datatype Change = Change(
    schedule: Option<string>,
    command: Option<string>,
    description: Option<string>,
    contextId: Option<string>)

  function OrElse(o: Option<string>, s: string): string {
    if o.Some? then o.value else s
  }

  function Changed(j: CronJob, c: Change, now: int): CronJob {
    j.(schedule := OrElse(c.schedule, j.schedule), command := OrElse(c.command, j.command),
       description := OrElse(c.description, j.description), contextId := OrElse(c.contextId, j.contextId),
       updatedAt := now)
  }

  /** One user's jobs: what `list_for_user` lists. */
  function Owned(m: map<Id, CronJob>, osUsername: string): map<Id, CronJob> {
    map id | id in m && m[id].osUsername == osUsername :: m[id]
  }

  ghost predicate MayTouch(m: map<Id, CronJob>, jobId: Id, osUsername: string) {
    ValidId(jobId) && jobId in m && m[jobId].osUsername == osUsername
  }

  class CronStore {
    var jobs: map<Id, CronJob>
    var file: JobsFile

    /** Durability: the map is always what a fresh store would load, and every entry is under its own valid id. */
    ghost predicate Valid()
      reads this
    {
      KeyedById(jobs) && jobs == Load(file)
    }

    constructor (file: JobsFile)
      ensures Valid() && this.file == file
    {
      this.file := file;
      jobs := map[];
      new;
      if file.Document? {
        EntriesAreKeyed(file.entries, JobKey);
      }
      LoadFile();
    }

    /** `load_locked` into a fresh store. */
    method LoadFile()
      requires jobs == map[]
      modifies `jobs
      ensures jobs == Load(file)
    {
      if file.Unreadable? {
        return;
      }
      for i := 0 to |file.entries|
        invariant jobs == LoadEntries(file.entries[..i], JobKey)
      {
        assert file.entries[..i + 1][..i] == file.entries[..i];
        var e := file.entries[i];
        if e.Record? && ValidId(e.value.jobId) {
          jobs := jobs[e.value.jobId := e.value];
        }
      }
      assert file.entries[..|file.entries|] == file.entries;
    }

    /** `persist_locked`, in whatever order the map is walked; a failure leaves the file as it was. */
    method Persist(ok: bool)
      requires KeyedById(jobs)
      modifies `file
      ensures if ok then Load(file) == jobs else file == old(file)
    {
      var entries: seq<Entry<CronJob>> := [];
      var rest := jobs.Keys;
      while rest != {}
        invariant rest <= jobs.Keys
        invariant AllFrom(entries, jobs, JobKey)
        invariant forall id | id in jobs && id !in rest :: Record(jobs[id]) in entries
      {
        var id :| id in rest;
        entries := entries + [Record(jobs[id])];
        rest := rest - {id};
      }
      if ok {
        file := Document(entries);
        ListedLoadsBack(file, jobs, JobKey);
      }
    }

    /** `add`; `candidates` are the four ids the generator would return. */
    method Add(userId: string, osUsername: string, schedule: string, command: string,
               description: string, contextId: string, candidates: seq<Id>, now: int, persistOk: bool)
      returns (r: Result<CronJob, StoreError>)
      requires Valid() && |candidates| == 4 && forall i | 0 <= i < 4 :: ValidId(candidates[i])
      modifies this
      ensures Valid()
      ensures r.Success? <==> && IsSchedule(schedule) && command != "" && persistOk
                              && exists i | 0 <= i < 4 :: candidates[i] !in old(jobs)
      ensures r.Success? ==>
                && r.value.jobId !in old(jobs) && jobs == old(jobs)[r.value.jobId := r.value]
                && r.value == CronJob(r.value.jobId, userId, osUsername, schedule, command, description,
                                      contextId, now, now)
      ensures r.Failure? ==> jobs == old(jobs)
      ensures r.Success? ==> OpStep(old(jobs), osUsername, AddOp(r.value), jobs)
    {
      hide IsSchedule, ValidId, KeyedById, Load;
      var scheduleOk := ValidSchedule(schedule);
      if !scheduleOk {
        return Failure(InvalidSchedule);
      }
      if command == "" {
        return Failure(EmptyCommand);
      }
      var attempt := 0;
      while attempt < 4 && candidates[attempt] in jobs
        invariant attempt <= 4
        invariant forall k | 0 <= k < attempt :: candidates[k] in jobs
      {
        attempt := attempt + 1;
      }
      if attempt == 4 {
        return Failure(NoFreshId);
      }
      var id := candidates[attempt];
      var c := CronJob(id, userId, osUsername, schedule, command, description, contextId, now, now);
      AddedIsKeyed(jobs, id, c);
      jobs := jobs[id := c];
      Persist(persistOk);
      if !persistOk {
        jobs := jobs - {id};
        assert jobs == old(jobs);
        return Failure(PersistFailed);
      }
      return Success(c);
    }

    method Update(jobId: Id, osUsername: string, change: Change, now: int, persistOk: bool)
      returns (r: Result<CronJob, StoreError>)
      requires Valid()
      modifies this
      ensures Valid()
      ensures r.Success? <==> && MayTouch(old(jobs), jobId, osUsername) && persistOk
                              && (change.schedule.Some? ==> IsSchedule(change.schedule.value))
                              && change.command != Some("")
      ensures r.Success? ==> r.value == Changed(old(jobs)[jobId], change, now) && jobs == old(jobs)[jobId := r.value]
      ensures r.Success? ==>
                var before := old(jobs)[jobId];
                && r.value.jobId == before.jobId && r.value.userId == before.userId
                && r.value.osUsername == before.osUsername
                && r.value.createdAt == before.createdAt && r.value.updatedAt == now
                && r.value.schedule == (if change.schedule.Some? then change.schedule.value else before.schedule)
                && r.value.command == (if change.command.Some? then change.command.value else before.command)
                && r.value.description
                   == (if change.description.Some? then change.description.value else before.description)
                && r.value.contextId == (if change.contextId.Some? then change.contextId.value else before.contextId)
      ensures r.Failure? ==> jobs == old(jobs)
      ensures OpStep(old(jobs), osUsername, UpdateOp(jobId, change, now), jobs)
    {
      hide IsSchedule, ValidId, KeyedById, Load;
      if !ValidId(jobId) {
        return Failure(InvalidJobId);
      }
      if change.schedule.Some? {
        var scheduleOk := ValidSchedule(change.schedule.value);
        if !scheduleOk {
          return Failure(InvalidSchedule);
        }
      }
      if change.command == Some("") {
        return Failure(EmptyCommand);
      }
      if jobId !in jobs {
        return Failure(NotFound);
      }
      if jobs[jobId].osUsername != osUsername {
        return Failure(NotOwner);
      }
      var prev := jobs[jobId];
      var job := prev;
      if change.schedule.Some? {
        job := job.(schedule := change.schedule.value);
      }
      if change.command.Some? {
        job := job.(command := change.command.value);
      }
      if change.description.Some? {
        job := job.(description := change.description.value);
      }
      if change.contextId.Some? {
        job := job.(contextId := change.contextId.value);
      }
      job := job.(updatedAt := now);
      StaysKeyed(jobs, jobId, job);
      jobs := jobs[jobId := job];
      Persist(persistOk);
      if !persistOk {
        jobs := jobs[jobId := prev];
        assert jobs == old(jobs);
        return Failure(PersistFailed);
      }
      return Success(jobs[jobId]);
    }

    method Remove(jobId: Id, osUsername: string, persistOk: bool) returns (r: Result<CronJob, StoreError>)
      requires Valid()
      modifies this
      ensures Valid()
      ensures r.Success? <==> MayTouch(old(jobs), jobId, osUsername) && persistOk
      ensures r.Success? ==> r.value == old(jobs)[jobId] && jobs == old(jobs) - {jobId}
      ensures r.Failure? ==> jobs == old(jobs)
      ensures OpStep(old(jobs), osUsername, RemoveOp(jobId), jobs)
    {
      if !ValidId(jobId) {
        return Failure(InvalidJobId);
      }
      if jobId !in jobs {
        return Failure(NotFound);
      }
      if jobs[jobId].osUsername != osUsername {
        return Failure(NotOwner);
      }
      var removed := jobs[jobId];
      jobs := jobs - {jobId};
      Persist(persistOk);
      if !persistOk {
        jobs := jobs[removed.jobId := removed];
        return Failure(PersistFailed);
      }
      return Success(removed);
    }

    /** `list_for_user`: each of the user's jobs once, in whatever order the map is walked. */
    method ListForUser(osUsername: string) returns (out: seq<CronJob>)
      requires Valid()
      ensures Enumerates(out, Owned(jobs, osUsername))
    {
      hide ValidId, LoadEntries, Enumerates;
      out := [];
      var rest := jobs.Keys;
      NothingEnumerated();
      assert Walked(jobs, osUsername, rest) == map[];
      while rest != {}
        invariant rest <= jobs.Keys
        invariant Enumerates(out, Walked(jobs, osUsername, rest))
      {
        var id :| id in rest;
        ghost var before := Walked(jobs, osUsername, rest);
        rest := rest - {id};
        if jobs[id].osUsername == osUsername {
          assert Walked(jobs, osUsername, rest) == before[id := jobs[id]];
          EnumerateOneMore(out, before, jobs[id]);
          out := out + [jobs[id]];
        } else {
          assert Walked(jobs, osUsername, rest) == before;
        }
      }
      assert Walked(jobs, osUsername, rest) == Owned(jobs, osUsername);
    }
  }

  /** `out` holds each job of `m` exactly once. */
  ghost predicate Enumerates(out: seq<CronJob>, m: map<Id, CronJob>) {
    && (forall i | 0 <= i < |out| :: out[i].jobId in m && m[out[i].jobId] == out[i])
    && (forall id | id in m :: m[id] in out)
    && (forall i, j | 0 <= i < j < |out| :: out[i].jobId != out[j].jobId)
  }

  /** The user's jobs that a walk of the map has passed when `rest` is still to come. */
  ghost function Walked(jobs: map<Id, CronJob>, osUsername: string, rest: set<Id>): map<Id, CronJob> {
    map id | id in jobs && jobs[id].osUsername == osUsername && id !in rest :: jobs[id]
  }

  lemma NothingEnumerated()
    ensures Enumerates([], map[])
  {
  }

  lemma EnumerateOneMore(out: seq<CronJob>, m: map<Id, CronJob>, job: CronJob)
    requires Enumerates(out, m) && job.jobId !in m
    ensures Enumerates(out + [job], m[job.jobId := job])
  {
    var longer := out + [job];
    assert forall c | c in out :: c in longer;
    assert longer[|out|] == job;
  }

  // ---- Runs of one user's operations ----

  datatype Op = AddOp(job: CronJob) | UpdateOp(jobId: Id, change: Change, now: int) | RemoveOp(jobId: Id)

  /** The effect of an operation by `osUsername`: that of the method contracts above, nothing when it fails. */
  ghost predicate OpStep(m: map<Id, CronJob>, osUsername: string, op: Op, m': map<Id, CronJob>) {
    m' == m ||
    match op
    case AddOp(job) => job.jobId !in m && job.osUsername == osUsername && m' == m[job.jobId := job]
    case UpdateOp(jobId, change, now) =>
      MayTouch(m, jobId, osUsername) && m' == m[jobId := Changed(m[jobId], change, now)]
    case RemoveOp(jobId) => MayTouch(m, jobId, osUsername) && m' == m - {jobId}
  }

  /** Isolation: no run of one user's operations changes what any other user lists. */
  lemma {:induction false} RunsAreIsolated(states: seq<map<Id, CronJob>>, user: string, ops: seq<Op>, other: string)
    requires |states| == |ops| + 1 && other != user
    requires forall i | 0 <= i < |ops| :: OpStep(states[i], user, ops[i], states[i + 1])
    ensures Owned(states[|ops|], other) == Owned(states[0], other)
  {
    if ops == [] {
    } else {
      var n := |ops| - 1;
      RunsAreIsolated(states[..n + 1], user, ops[..n], other);
      StepIsIsolated(states[n], user, ops[n], states[n + 1], other);
    }
  }

  lemma StepIsIsolated(m: map<Id, CronJob>, user: string, op: Op, m': map<Id, CronJob>, other: string)
    requires OpStep(m, user, op, m') && other != user
    ensures Owned(m', other) == Owned(m, other)
  {
  }
}
