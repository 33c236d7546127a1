/**
  The cron tools on Linux: each changes the shared store, then the user's metadata file and crontab, and
  `cron_create` takes its store entry back when the rest fails.
 */
module CronOps {
  import opened Wrappers
  import opened Text
  import opened FieldScanner
  import opened StateFiles
  import opened CronStore
  import opened CrontabText

  datatype OpError = NoUser | BadSchedule(error: ScheduleError) | Store(cause: StoreError) | MetaFailed | CrontabFailed

  /** How `crontab -l` went. Its exit code is ignored: one that failed counts for whatever was printed, and one
      that could not be started printed nothing. */
  datatype CrontabRead = Whole | Printed(text: string)

  function TextRead(crontab: string, read: CrontabRead): string {
    if read.Whole? then crontab else read.text
  }

  /** Which of an operation's side effects succeed. */
  datatype Faults = Faults(persistOk: bool, metaOk: bool, read: CrontabRead, crontabOk: bool, rollbackPersistOk: bool)

  lemma IdIsWritable(id: Id)
    requires ValidId(id)
    ensures NewlineFree(id)
  {
    assert !HexChar('\n');
  }

  lemma ScheduleIsWritable(s: string)
    requires IsSchedule(s)
    ensures NewlineFree(s)
  {
    assert !Blank('\n') && !ScheduleChar('\n');
  }

  lemma OthersKeepTheirs(m: map<Id, CronJob>, user: string, op: Op, m': map<Id, CronJob>)
    requires OpStep(m, user, op, m')
    ensures forall other | other != user :: Owned(m', other) == Owned(m, other)
  {
    forall other | other != user
      ensures Owned(m', other) == Owned(m, other)
    {
      StepIsIsolated(m, user, op, m', other);
    }
  }

  lemma IdIsField(id: Id)
    requires ValidId(id)
    ensures IsField(id)
  {
    assert !HexChar(' ') && !HexChar('\t');
    assert id[0] in id;
  }

  /** Loading a store checks no schedule, so one with a newline may come from the file. */
  ghost predicate Clean(m: map<Id, CronJob>, user: string) {
    forall id | id in Owned(m, user) :: NewlineFree(m[id].schedule)
  }

  lemma StepStaysClean(m: map<Id, CronJob>, user: string, op: Op, m': map<Id, CronJob>)
    requires OpStep(m, user, op, m') && Clean(m, user)
    requires op.AddOp? ==> IsSchedule(op.job.schedule)
    requires op.UpdateOp? && op.change.schedule.Some? ==> IsSchedule(op.change.schedule.value)
    ensures Clean(m', user)
  {
    hide IsSchedule, NewlineFree;
    if op.AddOp? {
      ScheduleIsWritable(op.job.schedule);
    } else if op.UpdateOp? && op.change.schedule.Some? {
      ScheduleIsWritable(op.change.schedule.value);
    }
    forall id | id in Owned(m', user)
      ensures NewlineFree(m'[id].schedule)
    {
      assert id in m ==> (id in Owned(m, user) <==> m[id].osUsername == user);
    }
  }

  lemma CleanIffWritable(m: map<Id, CronJob>, user: string, jobs: seq<CronJob>)
    requires KeyedById(m) && Enumerates(jobs, Owned(m, user))
    ensures Clean(m, user) <==> forall i | 0 <= i < |jobs| :: Writable(jobs[i])
  {
    hide NewlineFree, ValidId;
    forall i | 0 <= i < |jobs|
      ensures NewlineFree(jobs[i].jobId)
      ensures m[jobs[i].jobId] == jobs[i] && jobs[i].jobId in Owned(m, user)
    {
      assert jobs[i].jobId in Owned(m, user);
      IdIsWritable(jobs[i].jobId);
    }
    if forall i | 0 <= i < |jobs| :: Writable(jobs[i]) {
      forall id | id in Owned(m, user)
        ensures NewlineFree(m[id].schedule)
      {
        var i :| 0 <= i < |jobs| && jobs[i] == Owned(m, user)[id];
      }
    }
  }

  lemma IdsAreFields(m: map<Id, CronJob>, user: string, jobs: seq<CronJob>)
    requires KeyedById(m) && Enumerates(jobs, Owned(m, user))
    ensures forall i | 0 <= i < |jobs| :: IsField(jobs[i].jobId)
  {
    hide IsField, ValidId;
    forall i | 0 <= i < |jobs|
      ensures IsField(jobs[i].jobId)
    {
      assert jobs[i].jobId in Owned(m, user);
      IdIsField(jobs[i].jobId);
    }
  }

  class CronTools {
    const store: CronStore
    const runner: string
    var crontabs: map<string, string>
    var metas: map<(string, Id), CronJob>

    ghost predicate Valid()
      reads this, store
    {
      store.Valid() && NewlineFree(runner)
    }

    function Crontab(user: string): string
      reads this
    {
      if user in crontabs then crontabs[user] else ""
    }

    /** The user's managed crontab blocks are one per stored job of that user, with its id and schedule. */
    ghost predicate InStep(user: string)
      reads this, store
    {
      exists jobs: seq<CronJob> ::
        Enumerates(jobs, Owned(store.jobs, user)) && Managed(Lines(Crontab(user))) == Blocks(jobs, runner)
    }

    /** What that means to cron: for each of the user's stored jobs, and for no other, a comment with its id and a
        line that names its schedule and then runs the runner with its id. */
    ghost predicate Runs(user: string)
      reads this, store
    {
      exists jobs: seq<CronJob> ::
        Enumerates(jobs, Owned(store.jobs, user)) && CronReads(Managed(Lines(Crontab(user))), jobs, runner)
    }

    ghost function ForeignLines(user: string): seq<string>
      reads this
    {
      Foreign(Lines(Crontab(user)))
    }

    constructor (store: CronStore, runner: string, crontabs: map<string, string>)
      requires store.Valid() && NewlineFree(runner)
      ensures Valid() && this.store == store && this.runner == runner && this.crontabs == crontabs
    {
      this.store, this.runner, this.crontabs, metas := store, runner, crontabs, map[];
    }

    /** After an installation: the managed blocks are the stored jobs exactly when these are clean, and then the
        foreign lines are those of the text that was read. */
    twostate predicate Rewritten(user: string, read: CrontabRead)
      reads this, store
    {
      && (InStep(user) <==> Clean(store.jobs, user))
      && (Clean(store.jobs, user) && IsField(runner) ==> Runs(user))
      && (Clean(store.jobs, user) ==> ForeignLines(user) == Foreign(Lines(TextRead(old(Crontab(user)), read))))
    }

    /** `rebuild_user_schedule`. */
    method RebuildUserSchedule(user: string, jobs: seq<CronJob>, read: CrontabRead, ok: bool) returns (installed: bool)
      requires Valid() && Enumerates(jobs, Owned(store.jobs, user))
      modifies `crontabs
      ensures installed == ok
      ensures installed ==> Rewritten(user, read)
      ensures forall u | u != user :: Crontab(u) == old(Crontab(u))
      ensures !installed ==> crontabs == old(crontabs)
    {
      hide Foreign, Managed, Lines, Blocks, Build, Clean, Enumerates, NewlineFree, Owned, CronReads, IsField;
      var current := TextRead(Crontab(user), read);
      var text := BuildCrontabText(current, jobs, runner);
      BlocksReadBackIff(current, jobs, runner);
      CleanIffWritable(store.jobs, user, jobs);
      if Clean(store.jobs, user) {
        RewriteRoundTrip(current, jobs, runner);
        if IsField(runner) {
          IdsAreFields(store.jobs, user, jobs);
          OutputIsRun(current, jobs, runner);
        }
      }
      if ok {
        crontabs := crontabs[user := text];
        if InStep(user) {
          ghost var other :|
            Enumerates(other, Owned(store.jobs, user)) && Managed(Lines(text)) == Blocks(other, runner);
          RescannedAreWritable(text, other, runner);
          CleanIffWritable(store.jobs, user, other);
        }
      }
      return ok;
    }

    method WriteMeta(j: CronJob, ok: bool) returns (written: bool)
      modifies `metas
      ensures written == ok
      ensures metas == if ok then old(metas)[(j.osUsername, j.jobId) := j] else old(metas)
    {
      if ok {
        metas := metas[(j.osUsername, j.jobId) := j];
      }
      return ok;
    }

    method ApplyJobInstall(j: CronJob, user: string, faults: Faults) returns (error: Option<OpError>)
      requires Valid()
      modifies `metas, `crontabs
      ensures error == None <==> faults.metaOk && faults.crontabOk
      ensures error == None ==> Rewritten(user, faults.read)
      ensures error != None ==> crontabs == old(crontabs) && !error.value.BadSchedule?
      ensures forall u | u != user :: Crontab(u) == old(Crontab(u))
    {
      var written := WriteMeta(j, faults.metaOk);
      if !written {
        return Some(MetaFailed);
      }
      var jobs := store.ListForUser(user);
      var installed := RebuildUserSchedule(user, jobs, faults.read, faults.crontabOk);
      return if installed then None else Some(CrontabFailed);
    }

    /** Nobody else's jobs or crontab are touched, and no schedule with a newline comes in. */
    twostate predicate OnlyConcerns(user: string)
      reads this, store
    {
      && (forall u | u != user :: Owned(store.jobs, u) == old(Owned(store.jobs, u)) && Crontab(u) == old(Crontab(u)))
      && (old(Clean(store.jobs, user)) ==> Clean(store.jobs, user))
    }

    method CronCreate(user: string, userId: string, schedule: string, command: string, description: string,
                      contextId: string, candidates: seq<Id>, now: int, faults: Faults)
      returns (r: Result<CronJob, OpError>)
      requires Valid() && |candidates| == 4 && forall i | 0 <= i < 4 :: ValidId(candidates[i])
      modifies this, store
      ensures Valid() && OnlyConcerns(user)
      ensures r.Success? <==>
                && user != "" && IsSchedule(schedule) && command != ""
                && (exists i | 0 <= i < 4 :: candidates[i] !in old(store.jobs))
                && faults.persistOk && faults.metaOk && faults.crontabOk
      ensures r.Success? ==>
                && Rewritten(user, faults.read)
                && r.value.jobId !in old(store.jobs) && store.jobs == old(store.jobs)[r.value.jobId := r.value]
                && r.value == CronJob(r.value.jobId, userId, user, schedule, command, description, contextId, now, now)
      ensures r.Failure? ==> crontabs == old(crontabs)
      ensures r.Failure? && faults.rollbackPersistOk ==> store.jobs == old(store.jobs)
      ensures r.Failure? && faults.rollbackPersistOk && old(InStep(user)) ==> InStep(user)
    {
      hide IsSchedule, LinuxAccepts, ValidId, Foreign, Managed, Lines, Blocks, Enumerates, CronReads, IsField, OpStep;
      hide Owned, Clean;
      if user == "" {
        return Failure(NoUser);
      }
      var _, error := ValidateScheduleLinux(schedule);
      if error.Some? {
        if IsSchedule(schedule) {
          LinuxAcceptsWhatStoreAccepts(schedule);
        }
        return Failure(BadSchedule(error.value));
      }
      var added := store.Add(userId, user, schedule, command, description, contextId,
                              candidates, now, faults.persistOk);
      if added.Failure? {
        return Failure(Store(added.error));
      }
      var j := added.value;
      ghost var mid := store.jobs;
      StepConcernsOnly(old(store.jobs), user, AddOp(j), mid);
      var failed := ApplyJobInstall(j, user, faults);
      if failed.Some? {
        var _ := store.Remove(j.jobId, user, faults.rollbackPersistOk);
        StepConcernsOnly(mid, user, RemoveOp(j.jobId), store.jobs);
        return Failure(failed.value);
      }
      return Success(j);
    }

    /** No rollback here: a failure after the store was changed leaves the crontab behind it. */
    method CronUpdate(user: string, jobId: Id, change: Change, now: int, faults: Faults)
      returns (r: Result<CronJob, OpError>)
      requires Valid()
      modifies this, store
      ensures Valid() && OnlyConcerns(user)
      ensures r.Success? <==>
                && user != "" && MayTouch(old(store.jobs), jobId, user) && change.command != Some("")
                && (change.schedule.Some? ==> IsSchedule(change.schedule.value))
                && faults.persistOk && faults.metaOk && faults.crontabOk
      ensures r.Success? ==>
                && Rewritten(user, faults.read)
                && r.value == Changed(old(store.jobs)[jobId], change, now)
                && store.jobs == old(store.jobs)[jobId := r.value]
      ensures r.Failure? ==> crontabs == old(crontabs)
    {
      hide IsSchedule, LinuxAccepts, ValidId, Foreign, Managed, Lines, Blocks, Enumerates, CronReads, IsField,
           OpStep, Owned, Clean, MayTouch;
      if user == "" {
        return Failure(NoUser);
      }
      if change.schedule.Some? {
        var _, error := ValidateScheduleLinux(change.schedule.value);
        if error.Some? {
          if IsSchedule(change.schedule.value) {
            LinuxAcceptsWhatStoreAccepts(change.schedule.value);
          }
          return Failure(BadSchedule(error.value));
        }
      }
      var updated := store.Update(jobId, user, change, now, faults.persistOk);
      if updated.Failure? {
        return Failure(Store(updated.error));
      }
      StepConcernsOnly(old(store.jobs), user, UpdateOp(jobId, change, now), store.jobs);
      var failed := ApplyJobInstall(updated.value, user, faults);
      if failed.Some? {
        return Failure(failed.value);
      }
      return Success(updated.value);
    }

    method CronDelete(user: string, jobId: Id, faults: Faults) returns (r: Result<Id, OpError>)
      requires Valid()
      modifies this, store
      ensures Valid() && OnlyConcerns(user)
      ensures r.Success? <==>
                user != "" && MayTouch(old(store.jobs), jobId, user) && faults.persistOk && faults.crontabOk
      ensures r.Success? ==> Rewritten(user, faults.read) && store.jobs == old(store.jobs) - {jobId}
      ensures r.Failure? ==> crontabs == old(crontabs)
    {
      hide IsSchedule, ValidId, Foreign, Managed, Lines, Blocks, Enumerates, CronReads, IsField;
      hide OpStep, Owned, Clean, MayTouch;
      if user == "" {
        return Failure(NoUser);
      }
      var removed := store.Remove(jobId, user, faults.persistOk);
      StepConcernsOnly(old(store.jobs), user, RemoveOp(jobId), store.jobs);
      if removed.Failure? {
        return Failure(Store(removed.error));
      }
      if faults.metaOk {
        metas := metas - {(removed.value.osUsername, removed.value.jobId)};
      }
      var jobs := store.ListForUser(user);
      var installed := RebuildUserSchedule(user, jobs, faults.read, faults.crontabOk);
      if !installed {
        return Failure(CrontabFailed);
      }
      return Success(jobId);
    }
  }

  lemma StepConcernsOnly(m: map<Id, CronJob>, user: string, op: Op, m': map<Id, CronJob>)
    requires OpStep(m, user, op, m')
    requires op.AddOp? ==> IsSchedule(op.job.schedule)
    requires op.UpdateOp? && op.change.schedule.Some? ==> IsSchedule(op.change.schedule.value)
    ensures forall other | other != user :: Owned(m', other) == Owned(m, other)
    ensures Clean(m, user) ==> Clean(m', user)
  {
    hide IsSchedule, OpStep, Owned, Clean;
    OthersKeepTheirs(m, user, op, m');
    if Clean(m, user) {
      StepStaysClean(m, user, op, m');
    }
  }

  /** A reading that failed without printing anything costs the user every foreign line, so after the rewrite
      these are kept exactly when there were none. */
  lemma EmptyReadKeepsForeignIff(crontab: string)
    ensures Foreign(Lines(TextRead(crontab, Printed("")))) == Foreign(Lines(crontab)) <==> Foreign(Lines(crontab)) == []
  {
  }
}
