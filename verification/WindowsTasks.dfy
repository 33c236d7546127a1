/**
  Cron jobs on Windows: the daemon lists the user's scheduled tasks, installs every wanted job with its
  translated flags and removes the tasks that are no longer wanted.
 */
module WindowsTasks {
  import opened Wrappers
  import opened Text
  import opened StateFiles
  import opened CronStore
  import opened CronToSchtasks
  import opened CrontabText
  import opened GrantTemplate

  type Flags = seq<string>

  // ---- Task names ----

  function Folder(shortid: string): string {
    "\\mcp_bridge\\" + shortid
  }

  function Path(shortid: string, jobId: Id): string {
    Folder(shortid) + "\\" + jobId
  }

  lemma PathsAreDistinct(s1: string, id1: Id, s2: string, id2: Id)
    requires ValidShortid(s1) && ValidShortid(s2)
    ensures Path(s1, id1) == Path(s2, id2) ==> s1 == s2 && id1 == id2
  {
    var p1, p2 := Path(s1, id1), Path(s2, id2);
    assert p1[12..20] == s1 && p2[12..20] == s2;
    assert p1[21..] == id1 && p2[21..] == id2;
  }

  /** `shortid_from_username`. */
  function ShortidOf(osUsername: string): Option<string> {
    if |osUsername| == 17 && USER_PREFIX <= osUsername && ValidShortid(osUsername[9..])
    then Some(osUsername[9..])
    else None
  }

  /** Every tenant's username is recognised, and nothing else. */
  lemma TenantsAreRecognised(osUsername: string, shortid: string)
    ensures ShortidOf(osUsername) == Some(shortid) <==> osUsername == "mcp_user_" + shortid && IsShortid(shortid)
  {
    ShortidsAreWritten(shortid);
    hide IsShortid;
    if osUsername == "mcp_user_" + shortid && ValidShortid(shortid) {
      assert osUsername[9..] == shortid;
    }
    if ShortidOf(osUsername) == Some(shortid) {
      assert osUsername == osUsername[..9] + osUsername[9..];
    }
  }

  /** The name of one of this user's job tasks. */
  ghost predicate IsJobPath(shortid: string, path: string) {
    exists id :: ValidId(id) && path == Path(shortid, id)
  }

  // ---- The listing ----

  /** The job id on one CSV line of the listing, with or without the leading backslash of its task name. */
  function IdOfLine(line: string, shortid: string): Option<Id> {
    if line == "" || line[0] != '"' then None
    else
      var end := FindQuote(line, 1);
      if end == |line| then None
      else
        var name := line[1..end];
        var trimmed := if name != "" && name[0] == '\\' then name[1..] else name;
        var fp := (Folder(shortid) + "\\")[1..];
        if |trimmed| > |fp| && fp <= trimmed && ValidId(trimmed[|fp|..]) then Some(trimmed[|fp|..]) else None
  }

  function ListedIds(lines: seq<string>, shortid: string): seq<Id> {
    if lines == [] then [] else IdsOfLine(lines[0], shortid) + ListedIds(lines[1..], shortid)
  }

  function IdsOfLine(line: string, shortid: string): seq<Id> {
    var id := IdOfLine(line, shortid);
    if id.Some? then [id.value] else []
  }

  lemma ListedFirst(line: string, more: seq<string>, shortid: string)
    ensures ListedIds([line] + more, shortid) == IdsOfLine(line, shortid) + ListedIds(more, shortid)
  {
    assert ([line] + more)[1..] == more;
  }

  function LinesAt(text: string, pos: nat): seq<string>
    requires pos <= |text|
  {
    Lines(text[pos..])
  }

  /** The length of the line that starts at `pos`. */
  function LineLength(text: string, pos: nat): (n: nat)
    requires pos <= |text|
    ensures pos + n <= |text|
  {
    LineEnd(text[pos..])
  }

  lemma LinesFrom(text: string, pos: nat)
    requires pos < |text|
    ensures var eol := pos + LineLength(text, pos);
            LinesAt(text, pos) == [text[pos..eol]] + LinesAt(text, if eol == |text| then |text| else eol + 1)
  {
    var rest := text[pos..];
    var n := LineEnd(rest);
    assert text[pos..pos + n] == rest[..n];
    if n == |rest| {
      assert rest[..n] == rest && text[|text|..] == "";
    } else {
      assert rest[n + 1..] == text[pos + n + 1..];
    }
  }

  /** The parsing loop of `handle_cron_list_jobs`. */
  method ParseListing(text: string, shortid: string) returns (ids: seq<Id>)
    ensures ids == ListedIds(Lines(text), shortid)
  {
    hide IdOfLine, LinesAt, ListedIds, LineLength;
    ids := [];
    var pos := 0;
    LinesAtEnds(text, shortid);
    while pos < |text|
      invariant pos <= |text|
      invariant ids + ListedIds(LinesAt(text, pos), shortid) == ListedIds(Lines(text), shortid)
    {
      LinesFrom(text, pos);
      ghost var before := ids;
      var eol := pos + LineLength(text, pos);
      var line := text[pos..eol];
      pos := if eol == |text| then |text| else eol + 1;
      ListedFirst(line, LinesAt(text, pos), shortid);
      var id := IdOfLine(line, shortid);
      if id.Some? {
        ids := ids + [id.value];
      }
      assert ids == before + IdsOfLine(line, shortid);
      ConcatAssociates3(before, IdsOfLine(line, shortid), ListedIds(LinesAt(text, pos), shortid));
    }
  }

  lemma LinesAtEnds(text: string, shortid: string)
    ensures LinesAt(text, 0) == Lines(text)
    ensures ListedIds(LinesAt(text, |text|), shortid) == []
  {
    assert text[0..] == text;
  }

  lemma ConcatAssociates3(a: seq<Id>, b: seq<Id>, c: seq<Id>)
    ensures a + b + c == a + (b + c)
  {
  }

  lemma {:induction false} ListedMembers(lines: seq<string>, shortid: string, id: Id)
    ensures id in ListedIds(lines, shortid) <==> exists i | 0 <= i < |lines| :: IdOfLine(lines[i], shortid) == Some(id)
  {
    hide IdOfLine;
    if lines == [] {
    } else {
      ListedMembers(lines[1..], shortid, id);
      assert forall i | 1 <= i < |lines| :: lines[i] == lines[1..][i - 1];
    }
  }

  /** What schtasks prints for the folder: one CSV line per task in it, in any order, each beginning with the
      task's quoted name; lines that do not begin with a quote may say anything. */
  ghost predicate IsListing(text: string, tasks: map<string, Flags>, shortid: string) {
    var lines := Lines(text);
    && (forall i | 0 <= i < |lines| && lines[i] != "" && lines[i][0] == '"' :: exists path, rest ::
          path in tasks && Folder(shortid) + "\\" <= path && '"' !in path && lines[i] == "\"" + path + "\"" + rest)
    && (forall id | ValidId(id) && Path(shortid, id) in tasks ::
          exists i, rest | 0 <= i < |lines| :: lines[i] == "\"" + Path(shortid, id) + "\"" + rest)
  }

  lemma IdOfTaskLine(path: string, rest: string, shortid: string)
    requires '"' !in path && Folder(shortid) + "\\" <= path
    ensures var id := path[|Folder(shortid)| + 1..];
            && path == Path(shortid, id) == "\\mcp_bridge\\" + shortid + "\\" + id
            && IdOfLine("\"" + path + "\"" + rest, shortid) == if ValidId(id) then Some(id) else None
  {
    var line := "\"" + path + "\"" + rest;
    var prefix := Folder(shortid) + "\\";
    var end := FindQuote(line, 1);
    assert end == |path| + 1 by {
      assert line[|path| + 1] == '"';
      assert forall k | 1 <= k <= |path| :: line[k] == path[k - 1];
    }
    assert line[1..end] == path;
    assert path[1..][|prefix| - 1..] == path[|prefix|..];
    assert prefix[1..] <= path[1..];
    assert path == prefix + path[|prefix|..];
  }

  /** The leading backslash of a task name may be missing. */
  lemma BackslashIsOptional(name: string, rest: string, shortid: string)
    requires '"' !in name && name != "" && name[0] != '\\'
    ensures IdOfLine("\"" + name + "\"" + rest, shortid) == IdOfLine("\"\\" + name + "\"" + rest, shortid)
  {
    var line, longer := "\"" + name + "\"" + rest, "\"\\" + name + "\"" + rest;
    QuoteAfter(name, rest);
    assert longer == "\"" + ("\\" + name) + "\"" + rest;
    QuoteAfter("\\" + name, rest);
    assert ("\\" + name)[1..] == name;
  }

  lemma QuoteAfter(name: string, rest: string)
    requires '"' !in name
    ensures var line := "\"" + name + "\"" + rest;
            FindQuote(line, 1) == |name| + 1 && line[1..|name| + 1] == name
  {
    var line := "\"" + name + "\"" + rest;
    assert line[|name| + 1] == '"';
    assert forall k | 1 <= k <= |name| :: line[k] == name[k - 1];
  }

  /** The parser finds exactly the user's job tasks. */
  lemma ListingIsComplete(text: string, tasks: map<string, Flags>, shortid: string, id: Id)
    requires ValidShortid(shortid) && IsListing(text, tasks, shortid)
    ensures id in ListedIds(Lines(text), shortid) <==> ValidId(id) && Path(shortid, id) in tasks
  {
    var lines := Lines(text);
    ListedMembers(lines, shortid, id);
    if i :| 0 <= i < |lines| && IdOfLine(lines[i], shortid) == Some(id) {
      var path, rest :| path in tasks && Folder(shortid) + "\\" <= path && '"' !in path
                        && lines[i] == "\"" + path + "\"" + rest;
      IdOfTaskLine(path, rest, shortid);
    }
    if ValidId(id) && Path(shortid, id) in tasks {
      var i, rest :| 0 <= i < |lines| && lines[i] == "\"" + Path(shortid, id) + "\"" + rest;
      PathHasNoQuote(shortid, id);
      IdOfTaskLine(Path(shortid, id), rest, shortid);
      assert Path(shortid, id)[|Folder(shortid)| + 1..] == id;
    }
  }

  lemma PathHasNoQuote(shortid: string, id: Id)
    requires ValidShortid(shortid) && ValidId(id)
    ensures '"' !in Path(shortid, id)
  {
    assert '"' !in "\\mcp_bridge\\" && '"' !in "\\";
    assert '"' !in shortid && '"' !in id;
  }

  // ---- Reconciliation ----

  datatype WindowsError = BadUser | ListFailed | Unsupported(error: TranslateError) | InstallFailed

  /** Whether the privileged service answers the listing, and which runs of schtasks work. */
  datatype TaskFaults = TaskFaults(reached: bool, queryOk: bool, createOk: Id -> bool, deleteOk: Id -> bool) {
    /** An unwanted task of this id, if listed, is deleted. */
    predicate Gone(id: Id) {
      queryOk && deleteOk(id)
    }
  }

  predicate Installable(j: CronJob) {
    ValidId(j.jobId) && Translate(j.schedule).Success?
  }

  function FlagsOf(j: CronJob): Flags {
    if Translate(j.schedule).Success? then Translate(j.schedule).value else []
  }

  function JobTasks(shortid: string, jobs: seq<CronJob>): map<string, Flags> {
    if jobs == [] then map[]
    else
      var j := jobs[|jobs| - 1];
      JobTasks(shortid, jobs[..|jobs| - 1])[Path(shortid, j.jobId) := FlagsOf(j)]
  }

  /** The goal: the user's job tasks are replaced by those of the wanted jobs; every other task stays. */
  ghost function Reconciled(tasks: map<string, Flags>, shortid: string, jobs: seq<CronJob>): map<string, Flags> {
    (map path | path in tasks && !IsJobPath(shortid, path) :: tasks[path]) + JobTasks(shortid, jobs)
  }

  /** What a run that reports success leaves: failed queries and deletions are taken for missing tasks. */
  ghost function Rebuilt(tasks: map<string, Flags>, shortid: string, jobs: seq<CronJob>, faults: TaskFaults)
    : map<string, Flags>
  {
    (map path | path in tasks && !Cleared(shortid, faults, path) :: tasks[path]) + JobTasks(shortid, jobs)
  }

  ghost predicate Cleared(shortid: string, faults: TaskFaults, path: string) {
    exists id :: ValidId(id) && path == Path(shortid, id) && faults.Gone(id)
  }

  ghost predicate Wanted(jobs: seq<CronJob>, id: Id) {
    exists i | 0 <= i < |jobs| :: jobs[i].jobId == id
  }

  /** One of the user's tasks that is no longer wanted. */
  ghost predicate Stale(tasks: map<string, Flags>, shortid: string, jobs: seq<CronJob>, id: Id) {
    ValidId(id) && Path(shortid, id) in tasks && !Wanted(jobs, id)
  }

  ghost predicate AllInstallable(jobs: seq<CronJob>) {
    forall i | 0 <= i < |jobs| :: Installable(jobs[i])
  }

  ghost predicate DistinctIds(jobs: seq<CronJob>) {
    forall k, l | 0 <= k < l < |jobs| :: jobs[k].jobId != jobs[l].jobId
  }

  lemma {:induction false} JobTasksPaths(shortid: string, jobs: seq<CronJob>, path: string)
    ensures path in JobTasks(shortid, jobs) <==> exists i | 0 <= i < |jobs| :: path == Path(shortid, jobs[i].jobId)
  {
    hide Path, FlagsOf;
    if jobs == [] {
    } else {
      JobTasksPaths(shortid, jobs[..|jobs| - 1], path);
    }
  }

  lemma JobTasksAreJobPaths(shortid: string, jobs: seq<CronJob>)
    requires AllInstallable(jobs)
    ensures forall path | path in JobTasks(shortid, jobs) :: IsJobPath(shortid, path)
  {
    hide Path, FlagsOf, ValidId, JobTasks, Translate;
    forall path | path in JobTasks(shortid, jobs)
      ensures IsJobPath(shortid, path)
    {
      JobTasksPaths(shortid, jobs, path);
      var i :| 0 <= i < |jobs| && path == Path(shortid, jobs[i].jobId);
      assert Installable(jobs[i]);
    }
  }

  lemma {:induction false} JobTasksFlags(shortid: string, jobs: seq<CronJob>, i: nat)
    requires ValidShortid(shortid) && i < |jobs| && DistinctIds(jobs)
    ensures var path := Path(shortid, jobs[i].jobId);
            path in JobTasks(shortid, jobs) && JobTasks(shortid, jobs)[path] == FlagsOf(jobs[i])
  {
    hide Path, FlagsOf;
    var n := |jobs| - 1;
    if i < n {
      JobTasksFlags(shortid, jobs[..n], i);
      PathsAreDistinct(shortid, jobs[i].jobId, shortid, jobs[n].jobId);
    }
  }

  /** A successful run leaves the wanted ids, each with its translated flags, and of the stale ones exactly those
      that were not listed or could not be deleted. */
  lemma RebuiltMeaning(tasks: map<string, Flags>, shortid: string, jobs: seq<CronJob>, faults: TaskFaults, id: Id)
    requires ValidShortid(shortid) && ValidId(id) && DistinctIds(jobs)
    ensures var after := Rebuilt(tasks, shortid, jobs, faults);
            && (Path(shortid, id) in after <==>
                  Wanted(jobs, id) || (Stale(tasks, shortid, jobs, id) && !faults.Gone(id)))
            && (forall i | 0 <= i < |jobs| && jobs[i].jobId == id :: after[Path(shortid, id)] == FlagsOf(jobs[i]))
            && (Path(shortid, id) in after && !Wanted(jobs, id) ==>
                  after[Path(shortid, id)] == tasks[Path(shortid, id)])
  {
    hide Path, FlagsOf, ValidId, JobTasks;
    var path := Path(shortid, id);
    JobTasksPaths(shortid, jobs, path);
    forall i | 0 <= i < |jobs|
      ensures Path(shortid, jobs[i].jobId) == path ==> jobs[i].jobId == id
      ensures jobs[i].jobId == id ==>
                path in JobTasks(shortid, jobs) && JobTasks(shortid, jobs)[path] == FlagsOf(jobs[i])
    {
      PathsAreDistinct(shortid, jobs[i].jobId, shortid, id);
      JobTasksFlags(shortid, jobs, i);
    }
    ClearedIsGone(shortid, faults, id);
  }

  lemma ClearedIsGone(shortid: string, faults: TaskFaults, id: Id)
    requires ValidShortid(shortid) && ValidId(id)
    ensures Cleared(shortid, faults, Path(shortid, id)) <==> faults.Gone(id)
  {
    hide Path;
    if Cleared(shortid, faults, Path(shortid, id)) {
      var other :| ValidId(other) && Path(shortid, id) == Path(shortid, other) && faults.Gone(other);
      PathsAreDistinct(shortid, id, shortid, other);
    }
  }

  /** A run that reports success has reached the goal exactly when every stale task was listed and deleted. */
  lemma RebuiltIsReconciledIff(tasks: map<string, Flags>, shortid: string, jobs: seq<CronJob>, faults: TaskFaults)
    requires ValidShortid(shortid) && DistinctIds(jobs)
    ensures Rebuilt(tasks, shortid, jobs, faults) == Reconciled(tasks, shortid, jobs) <==>
            forall id | Stale(tasks, shortid, jobs, id) :: faults.queryOk && faults.deleteOk(id)
  {
    hide Path, FlagsOf, ValidId, JobTasks, ValidShortid;
    var after, goal := Rebuilt(tasks, shortid, jobs, faults), Reconciled(tasks, shortid, jobs);
    forall id | Stale(tasks, shortid, jobs, id)
      ensures Path(shortid, id) !in goal
      ensures Path(shortid, id) in after <==> !faults.Gone(id)
    {
      StaleIsNoJobTask(tasks, shortid, jobs, id);
      RebuiltMeaning(tasks, shortid, jobs, faults, id);
    }
    if forall id | Stale(tasks, shortid, jobs, id) :: faults.Gone(id) {
      forall path
        ensures path in after <==> path in goal
        ensures path in after ==> after[path] == goal[path]
      {
        RebuiltAgreesAt(tasks, shortid, jobs, faults, path);
      }
      assert after == goal;
    }
  }

  lemma StaleIsNoJobTask(tasks: map<string, Flags>, shortid: string, jobs: seq<CronJob>, id: Id)
    requires ValidShortid(shortid) && Stale(tasks, shortid, jobs, id)
    ensures IsJobPath(shortid, Path(shortid, id)) && Path(shortid, id) !in JobTasks(shortid, jobs)
  {
    hide Path, JobTasks;
    JobTasksPaths(shortid, jobs, Path(shortid, id));
    forall i | 0 <= i < |jobs| {
      PathsAreDistinct(shortid, jobs[i].jobId, shortid, id);
    }
  }

  lemma RebuiltAgreesAt(tasks: map<string, Flags>, shortid: string, jobs: seq<CronJob>, faults: TaskFaults,
                        path: string)
    requires forall id | Stale(tasks, shortid, jobs, id) :: faults.Gone(id)
    ensures path in tasks && path !in JobTasks(shortid, jobs) ==>
              (Cleared(shortid, faults, path) <==> IsJobPath(shortid, path))
  {
    hide Path, JobTasks, ValidId;
    if path in tasks && path !in JobTasks(shortid, jobs) && IsJobPath(shortid, path) {
      var id :| ValidId(id) && path == Path(shortid, id);
      JobTasksPaths(shortid, jobs, path);
      assert Stale(tasks, shortid, jobs, id);
    }
  }

  /** So each wanted job runs, from its registration on, at the minutes its cron schedule names, exactly unless
      it is a minute step that does not divide the hour and the minute of registration. */
  lemma WantedTasksFire(tasks: map<string, Flags>, shortid: string, jobs: seq<CronJob>, faults: TaskFaults, i: nat,
                        anchor: nat)
    requires ValidShortid(shortid) && DistinctIds(jobs) && i < |jobs| && Installable(jobs[i])
    ensures var path, after, schedule := Path(shortid, jobs[i].jobId), Rebuilt(tasks, shortid, jobs, faults),
                jobs[i].schedule;
            && path in after
            && (FiresAsScheduled(schedule, after[path], anchor) <==>
                   (IsMinuteStep(schedule) ==> Aligned(schedule, anchor)))
  {
    hide Path, Translate, FiresAsScheduled, Aligned, IsMinuteStep, ValidId, ValidShortid;
    RebuiltMeaning(tasks, shortid, jobs, faults, jobs[i].jobId);
    TranslationIsFaithfulIff(jobs[i].schedule, anchor);
  }

  /** Other users' tasks, and everything else on the machine, are untouched. */
  lemma OthersAreUntouched(tasks: map<string, Flags>, shortid: string, jobs: seq<CronJob>, faults: TaskFaults,
                           path: string)
    requires !IsJobPath(shortid, path) && AllInstallable(jobs)
    ensures path in Rebuilt(tasks, shortid, jobs, faults) <==> path in tasks
    ensures path in tasks ==> Rebuilt(tasks, shortid, jobs, faults)[path] == tasks[path]
  {
    JobTasksAreJobPaths(shortid, jobs);
  }

  lemma OtherUsersPathsAreOthers(shortid: string, other: string, id: Id)
    requires ValidShortid(shortid) && ValidShortid(other) && shortid != other
    ensures !IsJobPath(shortid, Path(other, id))
  {
    if IsJobPath(shortid, Path(other, id)) {
      var mine :| ValidId(mine) && Path(other, id) == Path(shortid, mine);
      PathsAreDistinct(shortid, mine, other, id);
    }
  }

  /** Once the goal is reached, another run that reports success changes nothing, whatever fails in it. */
  lemma ReconciliationIsIdempotent(tasks: map<string, Flags>, shortid: string, jobs: seq<CronJob>, faults: TaskFaults)
    requires AllInstallable(jobs)
    ensures var goal := Reconciled(tasks, shortid, jobs); Rebuilt(goal, shortid, jobs, faults) == goal
  {
    hide Path, ValidId, JobTasks;
    JobTasksAreJobPaths(shortid, jobs);
    var goal := Reconciled(tasks, shortid, jobs);
    forall path | path in goal && Cleared(shortid, faults, path)
      ensures path in JobTasks(shortid, jobs)
    {
      assert IsJobPath(shortid, path);
    }
  }

  /** For instance: a failed query keeps every stale task, and the run still reports success. */
  lemma FailedQueryKeepsStale(tasks: map<string, Flags>, shortid: string, jobs: seq<CronJob>, faults: TaskFaults,
                              id: Id)
    requires ValidShortid(shortid) && DistinctIds(jobs) && Stale(tasks, shortid, jobs, id) && !faults.queryOk
    ensures Path(shortid, id) in Rebuilt(tasks, shortid, jobs, faults)
    ensures Rebuilt(tasks, shortid, jobs, faults) != Reconciled(tasks, shortid, jobs)
  {
    RebuiltMeaning(tasks, shortid, jobs, faults, id);
    RebuiltIsReconciledIff(tasks, shortid, jobs, faults);
  }

  class TaskScheduler {
    var tasks: map<string, Flags>

    /** `handle_cron_install_job`: `/F` overwrites a task of the same name. `ready` is everything outside the
        model that has to work: the account, its password, the install directory and schtasks itself. */
    method InstallJob(shortid: string, jobId: Id, flags: Flags, ready: bool) returns (ok: bool)
      modifies this
      ensures ok <==> ValidShortid(shortid) && ValidId(jobId) && ready
      ensures ok ==> "\\mcp_bridge\\" + shortid + "\\" + jobId in tasks
      ensures tasks == if ok then old(tasks)[Path(shortid, jobId) := flags] else old(tasks)
    {
      if !ValidShortid(shortid) || !ValidId(jobId) || !ready {
        return false;
      }
      tasks := tasks[Path(shortid, jobId) := flags];
      return true;
    }

    /** `handle_cron_remove_job`: a deletion that fails is reported like one of a task that does not exist. */
    method RemoveJob(shortid: string, jobId: Id, deleteOk: bool) returns (ok: bool, existed: bool)
      modifies this
      ensures ok <==> ValidShortid(shortid) && ValidId(jobId)
      ensures existed <==> ok && deleteOk && Path(shortid, jobId) in old(tasks)
      ensures tasks == if existed then old(tasks) - {Path(shortid, jobId)} else old(tasks)
    {
      if !ValidShortid(shortid) || !ValidId(jobId) {
        return false, false;
      }
      var path := Path(shortid, jobId);
      if path !in tasks || !deleteOk {
        return true, false;
      }
      tasks := tasks - {path};
      return true, true;
    }

    /** `handle_cron_list_jobs`; a query that fails is taken for a folder that does not exist. */
    method ListJobs(shortid: string, output: string, queryOk: bool) returns (ids: seq<Id>)
      requires ValidShortid(shortid) && (queryOk ==> IsListing(output, tasks, shortid))
      ensures forall id :: id in ids <==> queryOk && ValidId(id) && Path(shortid, id) in tasks
    {
      hide IsListing, Path, ValidId, ListedIds, Lines, ValidShortid;
      ids := [];
      if queryOk {
        ids := ParseListing(output, shortid);
        forall id
          ensures id in ids <==> ValidId(id) && Path(shortid, id) in tasks
        {
          ListingIsComplete(output, tasks, shortid, id);
        }
      }
    }

    /** `rebuild_user_schedule`; `output` is what schtasks printed for the user's folder. */
    method RebuildUserSchedule(osUsername: string, jobs: seq<CronJob>, output: string, faults: TaskFaults)
      returns (r: Result<(), WindowsError>)
      requires ShortidOf(osUsername).Some? && faults.queryOk ==> IsListing(output, tasks, ShortidOf(osUsername).value)
      modifies this
      ensures r.Success? <==> && ShortidOf(osUsername).Some? && faults.reached && AllInstallable(jobs)
                              && forall i | 0 <= i < |jobs| :: faults.createOk(jobs[i].jobId)
      ensures r.Success? ==> tasks == Rebuilt(old(tasks), ShortidOf(osUsername).value, jobs, faults)
      ensures r.Failure? && (r.error.BadUser? || r.error.ListFailed?) ==> tasks == old(tasks)
      ensures r.Failure? && !r.error.BadUser? && !r.error.ListFailed? ==>
                && ShortidOf(osUsername).Some?
                && InstalledUpTo(old(tasks), ShortidOf(osUsername).value, jobs, tasks)
    {
      hide IsListing, Path, ValidId, Translate, JobTasks, ValidShortid;
      var shortidOf := ShortidOf(osUsername);
      if shortidOf.None? {
        return Failure(BadUser);
      }
      if !faults.reached {
        return Failure(ListFailed);
      }
      var shortid := shortidOf.value;
      var onBox := ListJobs(shortid, output, faults.queryOk);
      var wanted := set i | 0 <= i < |jobs| :: jobs[i].jobId;
      r := InstallAll(shortid, jobs, faults);
      if r.Failure? {
        return;
      }
      RemoveUnwanted(shortid, onBox, wanted, faults);
      RemovalFinishes(old(tasks), shortid, jobs, onBox, wanted, faults, tasks);
    }

    /** The first loop: every wanted job is installed, or the first that cannot be stops the run. */
    method InstallAll(shortid: string, jobs: seq<CronJob>, faults: TaskFaults) returns (r: Result<(), WindowsError>)
      requires ValidShortid(shortid)
      modifies this
      ensures r.Success? <==> AllInstallable(jobs) && forall i | 0 <= i < |jobs| :: faults.createOk(jobs[i].jobId)
      ensures r.Success? ==> tasks == old(tasks) + JobTasks(shortid, jobs)
      ensures r.Failure? ==> !r.error.BadUser? && !r.error.ListFailed?
                             && InstalledUpTo(old(tasks), shortid, jobs, tasks)
    {
      hide Path, ValidId, Translate, JobTasks, ValidShortid, FlagsOf, IsJobPath;
      ghost var before := tasks;
      assert JobTasks(shortid, jobs[..0]) == map[] by {
        NoJobTasks(shortid);
      }
      for i := 0 to |jobs|
        invariant AllInstallable(jobs[..i])
        invariant forall k | 0 <= k < i :: faults.createOk(jobs[k].jobId)
        invariant tasks == before + JobTasks(shortid, jobs[..i])
      {
        assert jobs[..i + 1] == jobs[..i] + [jobs[i]];
        JobTasksSnoc(shortid, jobs, i);
        var tr := TranslateSchedule(jobs[i].schedule);
        if tr.Failure? {
          assert !Installable(jobs[i]);
          return Failure(Unsupported(tr.error));
        }
        assert tr.value == FlagsOf(jobs[i]) by {
          FlagsOfInstallable(jobs[i]);
        }
        var ok := InstallJob(shortid, jobs[i].jobId, tr.value, faults.createOk(jobs[i].jobId));
        if !ok {
          return Failure(InstallFailed);
        }
        assert Installable(jobs[i]);
      }
      assert jobs[..|jobs|] == jobs;
      return Success(());
    }

    /** The second loop: tasks no longer in the wanted set. */
    method RemoveUnwanted(shortid: string, onBox: seq<Id>, wanted: set<Id>, faults: TaskFaults)
      requires ValidShortid(shortid) && forall id | id in onBox :: ValidId(id)
      modifies this
      ensures tasks == old(tasks) - (set id | id in onBox && id !in wanted && faults.deleteOk(id) :: Path(shortid, id))
    {
      for i := 0 to |onBox|
        invariant tasks == old(tasks)
                           - (set id | id in onBox[..i] && id !in wanted && faults.deleteOk(id) :: Path(shortid, id))
      {
        hide Path;
        assert onBox[..i + 1] == onBox[..i] + [onBox[i]];
        if onBox[i] !in wanted {
          var _, _ := RemoveJob(shortid, onBox[i], faults.deleteOk(onBox[i]));
        }
      }
      assert onBox[..|onBox|] == onBox;
    }
  }

  /** What a run that stopped part-way leaves: some of the first jobs installed, and nothing removed. */
  ghost predicate InstalledUpTo(before: map<string, Flags>, shortid: string, jobs: seq<CronJob>,
                                after: map<string, Flags>) {
    exists k | 0 <= k <= |jobs| :: AllInstallable(jobs[..k]) && after == before + JobTasks(shortid, jobs[..k])
  }

  lemma StoppedRunSparesOthers(before: map<string, Flags>, shortid: string, jobs: seq<CronJob>,
                               after: map<string, Flags>,
                               path: string)
    requires InstalledUpTo(before, shortid, jobs, after) && !IsJobPath(shortid, path)
    ensures path in after <==> path in before
    ensures path in before ==> after[path] == before[path]
  {
    var k :| 0 <= k <= |jobs| && AllInstallable(jobs[..k]) && after == before + JobTasks(shortid, jobs[..k]);
    JobTasksAreJobPaths(shortid, jobs[..k]);
  }

  lemma NoJobTasks(shortid: string)
    ensures JobTasks(shortid, []) == map[]
  {
  }

  lemma FlagsOfInstallable(j: CronJob)
    requires Translate(j.schedule).Success?
    ensures FlagsOf(j) == Translate(j.schedule).value
  {
  }

  lemma JobTasksSnoc(shortid: string, jobs: seq<CronJob>, i: nat)
    requires i < |jobs|
    ensures JobTasks(shortid, jobs[..i + 1])
         == JobTasks(shortid, jobs[..i])[Path(shortid, jobs[i].jobId) := FlagsOf(jobs[i])]
  {
    assert jobs[..i + 1][..i] == jobs[..i];
  }

  lemma RemovalFinishes(before: map<string, Flags>, shortid: string, jobs: seq<CronJob>, onBox: seq<Id>,
                        wanted: set<Id>, faults: TaskFaults, after: map<string, Flags>)
    requires ValidShortid(shortid)
    requires forall id :: id in onBox <==> faults.queryOk && ValidId(id) && Path(shortid, id) in before
    requires wanted == set i | 0 <= i < |jobs| :: jobs[i].jobId
    requires after == before + JobTasks(shortid, jobs)
                      - (set id | id in onBox && id !in wanted && faults.deleteOk(id) :: Path(shortid, id))
    ensures after == Rebuilt(before, shortid, jobs, faults)
  {
    hide Path, ValidId, JobTasks, ValidShortid, Cleared;
    forall path
      ensures path in after <==> path in Rebuilt(before, shortid, jobs, faults)
      ensures path in after ==> after[path] == Rebuilt(before, shortid, jobs, faults)[path]
    {
      RemovalFinishesAt(before, shortid, jobs, onBox, wanted, faults, path);
    }
  }

  /** A path is removed exactly when it is an installed job path that is not wanted and could be deleted. */
  lemma RemovalFinishesAt(before: map<string, Flags>, shortid: string, jobs: seq<CronJob>, onBox: seq<Id>,
                          wanted: set<Id>, faults: TaskFaults, path: string)
    requires ValidShortid(shortid)
    requires forall id :: id in onBox <==> faults.queryOk && ValidId(id) && Path(shortid, id) in before
    requires wanted == set i | 0 <= i < |jobs| :: jobs[i].jobId
    ensures path in (set id | id in onBox && id !in wanted && faults.deleteOk(id) :: Path(shortid, id)) <==>
              path in before && Cleared(shortid, faults, path) && path !in JobTasks(shortid, jobs)
  {
    hide Path, ValidId, JobTasks, ValidShortid;
    JobTasksPaths(shortid, jobs, path);
    forall a, b | Path(shortid, a) == path && Path(shortid, b) == path
      ensures a == b
    {
      PathsAreDistinct(shortid, a, shortid, b);
    }
    if path in before && Cleared(shortid, faults, path) && path !in JobTasks(shortid, jobs) {
      var id :| ValidId(id) && path == Path(shortid, id) && faults.Gone(id);
      assert id in onBox && id !in wanted;
    }
  }
}
