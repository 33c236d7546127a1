/**
  The grant lifecycle as a state machine. Each lock-protected block, each file replacement and each
  helper call is one step; any number of requests and revocations interleave with the sweeper, and
  the daemon may crash between any two steps.
 */
module GrantProtocol {
  import opened GrantTemplate
  import opened Text
  import opened StateFiles
  import opened GrantFiles

  const MAX_TTL := 86400

  /** Where one call of `request_grant` or `revoke_grant` has got to. */
  datatype Task =
    | Saving(g: Grant, spec: string)
    | WritingSpec(g: Grant, spec: string)
    | Installing(g: Grant, spec: string)
    | Tidying(g: Grant)
    | Undoing(g: Grant)
    | Revoking(id: Id)
    | Forgetting(id: Id)
  {
    function Subject(): Id {
      if Revoking? || Forgetting? then id else g.grantid
    }

    /** The request has picked its id and its helper call has not returned. */
    predicate InFlight() {
      Saving? || WritingSpec? || Installing?
    }
  }

  datatype Sweeper = Asleep | Awake(now: int) | Sweeping(todo: seq<Id>, unlinked: bool)

  datatype Phase = Down | Booting(todo: seq<Id>) | Up

  /** History kept for the statements only: what was rendered for an id, from which templates, and when. */
  datatype Issue = Issue(grant: Grant, spec: string, config: Config, at: int)

  datatype State = State(
    phase: Phase,
    config: Config,
    clock: int,
    mem: map<Id, Grant>,
    files: Files,
    tasks: map<nat, Task>,
    sweeper: Sweeper,
    lastSweep: int,
    issued: map<Id, Issue>,
    inherited: set<Id>,
    orphans: set<Id>)
  {
    function Saved(): map<Id, Grant> {
      Load(files.state)
    }

    /** What a starting daemon loads; a file it cannot open counts as empty. */
    function Loaded(readable: bool): map<Id, Grant> {
      Load(AsRead(files.state, readable))
    }

    /** When the sweep that is about to collect, or the last one that did, read its clock. */
    function SweepStart(): int {
      if sweeper.Awake? then sweeper.now else lastSweep
    }

    /** The ids whose install helper is running; it may outlive the daemon, as one of the `orphans`. */
    function Running(): set<Id> {
      set tid | tid in tasks && tasks[tid].Installing? :: tasks[tid].g.grantid
    }

    function Advance(tid: nat, t: Task): State {
      this.(tasks := tasks[tid := t])
    }

    function Finish(tid: nat): State {
      this.(tasks := tasks - {tid})
    }
  }

  datatype Event =
    | Tick(to: int)
    | Begin(tid: nat, g: Grant, spec: string)
    | Save(tid: nat, ok: bool)
    | WriteSpec(tid: nat, ok: bool)
    | Install(tid: nat, fault: InstallFault, reported: bool)
    | Tidy(tid: nat, ok: bool)
    | Undo(tid: nat, ok: bool)
    | BeginRevoke(tid: nat, id: Id)
    | Unlink(tid: nat, ok: bool)
    | Forget(tid: nat, ok: bool)
    | Wake
    | Collect(todo: seq<Id>)
    | SweepUnlink(ok: bool)
    | SweepForget(ok: bool)
    | Crash
    | Late(id: Id, fault: InstallFault)
    | Boot(ok: bool, readable: bool, seen: set<Id>, todo: seq<Id>, config: Config)
    | BootUnlink(ok: bool)
    | BootDone

  ghost predicate At(s: State, tid: nat) {
    s.phase.Up? && tid in s.tasks
  }

  ghost predicate Step(s: State, e: Event, s': State) {
    var f, f' := s.files, s'.files;
    match e
    case Tick(to) =>
      s.clock <= to && s' == s.(clock := to)
    case Begin(tid, g, spec) =>
      && s.phase.Up? && tid !in s.tasks
      && ValidId(g.grantid) && 1 <= g.expiresAt - s.clock <= MAX_TTL
      && IsRenderedFor(spec, g.shortid, g.templateName, g.captured, s.config)
      && s' == s.Advance(tid, Saving(g, spec)).(issued := s.issued[g.grantid := Issue(g, spec, s.config, s.clock)])
    case Save(tid, ok) =>
      && At(s, tid) && s.tasks[tid].Saving?
      && var Saving(g, spec) := s.tasks[tid];
         var m := s.mem[g.grantid := g];
         && Persisted(f.state, m, ok, f'.state)
         && s' == if ok then s.Advance(tid, WritingSpec(g, spec)).(mem := m, files := f.(state := f'.state))
                  else s.Finish(tid).(mem := s.mem - {g.grantid})
    case WriteSpec(tid, ok) =>
      && At(s, tid) && s.tasks[tid].WritingSpec?
      && var WritingSpec(g, spec) := s.tasks[tid];
         s' == if ok then s.Advance(tid, Installing(g, spec)).(files := f.(specs := f.specs[g.grantid := spec]))
               else s.Advance(tid, Undoing(g))
    case Install(tid, fault, reported) =>
      && At(s, tid) && s.tasks[tid].Installing?
      && var g := s.tasks[tid].g;
         var (h, rc) := InstallGrant(f, g.grantid, fault);
         s' == s.Advance(tid, if rc == 0 && reported then Tidying(g) else Undoing(g)).(files := h)
    case Tidy(tid, ok) =>
      && At(s, tid) && s.tasks[tid].Tidying?
      && s' == s.Finish(tid).(files := if ok then f.(specs := f.specs - {s.tasks[tid].g.grantid}) else f)
    case Undo(tid, ok) =>
      && At(s, tid) && s.tasks[tid].Undoing?
      && var m := s.mem - {s.tasks[tid].g.grantid};
         && Persisted(f.state, m, ok, f'.state)
         && s' == s.Finish(tid).(mem := m, files := f.(state := f'.state))
    case BeginRevoke(tid, id) =>
      && s.phase.Up? && tid !in s.tasks && ValidId(id)
      && s' == s.Advance(tid, Revoking(id))
    case Unlink(tid, ok) =>
      && At(s, tid) && s.tasks[tid].Revoking?
      && var id := s.tasks[tid].id;
         s' == s.Advance(tid, Forgetting(id)).(files := RevokeGrant(f, id, ok).0)
    case Forget(tid, ok) =>
      && At(s, tid) && s.tasks[tid].Forgetting?
      && Forgotten(s, s.tasks[tid].id, ok, s'.mem, f'.state)
      && s' == s.Finish(tid).(mem := s'.mem, files := f.(state := f'.state))
    case Wake =>
      s.phase.Up? && s.sweeper.Asleep? && s' == s.(sweeper := Awake(s.clock))
    case Collect(todo) =>
      && s.phase.Up? && s.sweeper.Awake?
      && (forall id :: id in todo <==> id in s.mem && s.mem[id].expiresAt <= s.sweeper.now)
      && s' == s.(sweeper := if todo == [] then Asleep else Sweeping(todo, false), lastSweep := s.sweeper.now)
    case SweepUnlink(ok) =>
      && s.phase.Up? && s.sweeper.Sweeping? && !s.sweeper.unlinked && s.sweeper.todo != []
      && s' == s.(sweeper := Sweeping(s.sweeper.todo, true), files := RevokeGrant(f, s.sweeper.todo[0], ok).0)
    case SweepForget(ok) =>
      && s.phase.Up? && s.sweeper.Sweeping? && s.sweeper.unlinked && s.sweeper.todo != []
      && Forgotten(s, s.sweeper.todo[0], ok, s'.mem, f'.state)
      && var rest := s.sweeper.todo[1..];
         s' == s.(mem := s'.mem, files := f.(state := f'.state),
                  sweeper := if rest == [] then Asleep else Sweeping(rest, false))
    case Crash =>
      s' == s.(phase := Down, mem := map[], tasks := map[], sweeper := Asleep, orphans := s.orphans + s.Running())
    case Late(id, fault) =>
      && id in s.orphans
      && s' == s.(files := InstallGrant(f, id, fault).0, orphans := s.orphans - {id})
    case Boot(ok, readable, seen, todo, config) =>
      && s.phase.Down? && seen <= Listing(f.sudoers)
      && s'.mem == Survivors(s.Loaded(readable), seen, s.clock)
      && QueuedForRemoval(s.Loaded(readable), seen, s.clock, todo)
      && Persisted(f.state, s'.mem, ok, f'.state)
      && s' == s.(phase := Booting(todo), config := config, mem := s'.mem, files := f.(state := f'.state),
                  lastSweep := s.clock)
    case BootUnlink(ok) =>
      && s.phase.Booting? && s.phase.todo != []
      && s' == s.(phase := Booting(s.phase.todo[1..]), files := RevokeGrant(f, s.phase.todo[0], ok).0)
    case BootDone =>
      s.phase == Booting([]) && s' == s.(phase := Up)
  }

  /** The erase-and-persist block of `revoke_grant`: nothing is written when there was no entry. */
  ghost predicate Forgotten(s: State, id: Id, ok: bool, mem': map<Id, Grant>, state': GrantsFile) {
    && mem' == s.mem - {id}
    && if id in s.mem then Persisted(s.files.state, mem', ok, state') else state' == s.files.state
  }

  /**
    The assumptions: unlinks succeed; a helper that installed says so; ids are fresh; nobody revokes an
    id whose request has not returned; an install finishes before its own grant expires; sweeps (the
    startup reconciliation counts as one) start at most `interval` seconds apart; a startup's listing of the
    sudoers directory misses no hex-named drop-in; and install helpers that outlive the daemon are done before
    the next startup. Reading the state file, persisting, writing the
    spec, installing and tidying up may fail at will.
   */
  ghost predicate Benign(interval: nat, s: State, e: Event) {
    match e
    case Tick(to) =>
      !s.phase.Down? ==>
        && to <= s.SweepStart() + interval
        && forall tid | tid in s.tasks && s.tasks[tid].InFlight() :: to < s.tasks[tid].g.expiresAt
    case Begin(tid, g, spec) =>
      && g.grantid !in s.issued && g.grantid !in s.mem && g.grantid !in s.Saved() && !OnDisk(s.files, g.grantid)
      && (forall t | t in s.tasks :: s.tasks[t].Subject() != g.grantid)
      && (s.sweeper.Sweeping? ==> g.grantid !in s.sweeper.todo)
    case Install(tid, fault, reported) => reported
    case BeginRevoke(tid, id) =>
      forall t | t in s.tasks && s.tasks[t].InFlight() :: s.tasks[t].Subject() != id
    case Unlink(tid, ok) => ok
    case SweepUnlink(ok) => ok
    case BootUnlink(ok) => ok
    case Boot(_, _, seen, _, _) => AllSeen(s.files, seen) && s.orphans == {}
    case _ => true
  }

  // ---- The inductive invariant ----

  ghost predicate Tracked(s: State, id: Id) {
    id in s.mem && id in s.Saved()
  }

  ghost predicate TaskInv(s: State, t: Task) {
    var id := t.Subject();
    && ValidId(id)
    && (t.InFlight() ==>
          && !OnDisk(s.files, id) && s.clock < t.g.expiresAt
          && id in s.issued && s.issued[id].grant == t.g && s.issued[id].spec == t.spec)
    && (t.Saving? ==> id !in s.mem)
    && (t.WritingSpec? || t.Installing? ==> Tracked(s, id))
    && (t.Installing? ==> id in s.files.specs && s.files.specs[id] == t.spec)
    && (t.Undoing? || t.Forgetting? ==> !OnDisk(s.files, id))
  }

  ghost predicate TasksInv(s: State) {
    && (forall tid | tid in s.tasks :: TaskInv(s, s.tasks[tid]))
    && (forall a, b | a in s.tasks && b in s.tasks && a != b && s.tasks[a].InFlight() ::
          s.tasks[a].Subject() != s.tasks[b].Subject())
  }

  ghost predicate SweeperInv(s: State) {
    s.sweeper.Sweeping? ==>
      && s.sweeper.todo != []
      && (s.sweeper.unlinked ==> !OnDisk(s.files, s.sweeper.todo[0]))
      && (forall id | id in s.sweeper.todo ::
            && ValidId(id)
            && (id in s.mem ==> s.mem[id].expiresAt <= s.lastSweep))
      && (forall tid | tid in s.tasks && s.tasks[tid].InFlight() :: s.tasks[tid].Subject() !in s.sweeper.todo)
  }

  ghost predicate ClockInv(interval: nat, s: State) {
    && s.lastSweep <= s.SweepStart() <= s.lastSweep + interval
    && s.SweepStart() <= s.clock <= s.SweepStart() + interval
  }

  /** An installed, tracked grant has not expired as of the last sweep, or that sweep still has it to do. */
  ghost predicate Scheduled(interval: nat, s: State, id: Id)
    requires id in s.mem
  {
    || s.lastSweep < s.mem[id].expiresAt
    || (s.sweeper.Sweeping? && id in s.sweeper.todo && s.lastSweep < s.mem[id].expiresAt + interval)
  }

  ghost predicate IssueInv(s: State, id: Id)
    requires id in s.issued
  {
    var i := s.issued[id];
    && ValidId(id) && i.grant.grantid == id
    && IsRenderedFor(i.spec, i.grant.shortid, i.grant.templateName, i.grant.captured, i.config)
    && 1 <= i.grant.expiresAt - i.at <= MAX_TTL && i.at <= s.clock
    && (id in s.mem ==> s.mem[id] == i.grant)
    && (id in s.Saved() ==> s.Saved()[id] == i.grant)
    && (OnDisk(s.files, id) ==> s.files.sudoers[DropIn(id)] == i.spec)
  }

  /** An install helper that outlived the daemon has not renamed yet and finds the spec rendered for its id. */
  ghost predicate OrphanInv(s: State, id: Id) {
    && ValidId(id) && !OnDisk(s.files, id) && id in s.issued
    && id in s.files.specs && s.files.specs[id] == s.issued[id].spec
  }

  ghost predicate IssuesInv(s: State) {
    && (forall id | id in s.issued :: IssueInv(s, id))
    && (forall id | ValidId(id) && OnDisk(s.files, id) :: id in s.issued || id in s.inherited)
  }

  ghost predicate TrackedInv(interval: nat, s: State) {
    forall id | ValidId(id) && OnDisk(s.files, id) :: Tracked(s, id) && Scheduled(interval, s, id)
  }

  ghost predicate Inv(interval: nat, s: State) {
    && IssuesInv(s) && KeyedById(s.mem)
    && (if s.phase.Down? then forall id | id in s.orphans :: OrphanInv(s, id) else s.orphans == {})
    && (if s.phase.Up? then
          TrackedInv(interval, s) && TasksInv(s) && SweeperInv(s) && ClockInv(interval, s)
        else
          && s.tasks == map[] && s.sweeper.Asleep?
          && (s.phase.Down? ==> s.mem == map[])
          && (s.phase.Booting? ==>
                && ClockInv(interval, s)
                && (forall id | ValidId(id) && OnDisk(s.files, id) && id !in s.phase.todo ::
                      Tracked(s, id) && Scheduled(interval, s, id))))
  }

  // ---- Every step keeps the invariant ----

  lemma FrameIssues(s: State, s': State)
    requires forall id | id in s.issued :: IssueInv(s, id)
    requires s'.issued == s.issued && s.clock <= s'.clock
    requires forall id | id in s'.mem :: id in s.mem && s'.mem[id] == s.mem[id]
    requires forall id | id in s'.Saved() && id in s.issued :: s'.Saved()[id] == s.issued[id].grant
    requires forall id | OnDisk(s'.files, id) ::
               OnDisk(s.files, id) && s'.files.sudoers[DropIn(id)] == s.files.sudoers[DropIn(id)]
    ensures forall id | id in s'.issued :: IssueInv(s', id)
  {
  }

  /** A call moves on: it keeps its subject, does not come back in flight, and nothing it shares with
      the other calls changes for them. */
  lemma TasksAfterAdvance(s: State, tid: nat, t: Task, s': State)
    requires TasksInv(s) && tid in s.tasks && s'.tasks == s.tasks[tid := t]
    requires t.Subject() == s.tasks[tid].Subject() && (t.InFlight() ==> s.tasks[tid].InFlight())
    requires TaskInv(s', t)
    requires forall x | x in s.tasks && x != tid :: TaskInv(s', s.tasks[x])
    ensures TasksInv(s')
  {
  }

  lemma KeepTick(interval: nat, s: State, to: int, s': State)
    requires Inv(interval, s) && Step(s, Tick(to), s') && Benign(interval, s, Tick(to))
    ensures Inv(interval, s')
  {
    FrameIssues(s, s');
  }

  lemma KeepBegin(interval: nat, s: State, tid: nat, g: Grant, spec: string, s': State)
    requires Inv(interval, s) && Step(s, Begin(tid, g, spec), s') && Benign(interval, s, Begin(tid, g, spec))
    ensures Inv(interval, s')
  {
    BeginKeepsIssues(s, tid, g, spec, s');
    BeginKeepsTasks(interval, s, tid, g, spec, s');
    hide DropIn, ValidId, TaskInv, TasksInv, IssueInv, IssuesInv, Load, ClockInv, Scheduled;
    BeginKeepsRest(interval, s, tid, g, spec, s');
    hide TrackedInv, SweeperInv, KeyedById;
  }

  lemma BeginKeepsIssues(s: State, tid: nat, g: Grant, spec: string, s': State)
    requires IssuesInv(s) && Step(s, Begin(tid, g, spec), s')
    requires g.grantid !in s.mem && g.grantid !in s.Saved() && !OnDisk(s.files, g.grantid)
    ensures IssuesInv(s')
  {
    hide DropIn, ValidId, SpecLanguage, IsRenderedFor, Load;
    forall id | id in s'.issued
      ensures IssueInv(s', id)
    {
      if id != g.grantid {
        assert IssueInv(s, id);
      }
    }
  }

  lemma BeginKeepsTasks(interval: nat, s: State, tid: nat, g: Grant, spec: string, s': State)
    requires TasksInv(s) && Step(s, Begin(tid, g, spec), s') && Benign(interval, s, Begin(tid, g, spec))
    ensures TasksInv(s')
  {
    hide DropIn, ValidId, SpecLanguage, IsRenderedFor, Load;
    forall x | x in s.tasks
      ensures TaskInv(s', s.tasks[x])
    {
      assert TaskInv(s, s.tasks[x]);
    }
    assert TaskInv(s', s'.tasks[tid]);
  }

  lemma BeginKeepsRest(interval: nat, s: State, tid: nat, g: Grant, spec: string, s': State)
    requires s.phase.Up? && TrackedInv(interval, s) && SweeperInv(s) && ClockInv(interval, s)
    requires Step(s, Begin(tid, g, spec), s') && Benign(interval, s, Begin(tid, g, spec))
    ensures TrackedInv(interval, s') && SweeperInv(s') && ClockInv(interval, s')
  {
    hide DropIn, ValidId, SpecLanguage, IsRenderedFor, Load;
  }

  lemma KeepSave(interval: nat, s: State, tid: nat, ok: bool, s': State)
    requires Inv(interval, s) && Step(s, Save(tid, ok), s')
    ensures Inv(interval, s')
  {
    if ok {
      KeepSaved(interval, s, tid, s');
    } else {
      assert TaskInv(s, s.tasks[tid]);
      assert s'.mem == s.mem;
      KeepFinish(interval, s, tid, s');
    }
  }

  lemma SavedStep(s: State, tid: nat, s': State)
    requires Step(s, Save(tid, true), s')
    ensures tid in s.tasks && s.tasks[tid].Saving? && s.phase.Up?
    ensures var Saving(g, spec) := s.tasks[tid];
            && Persisted(s.files.state, s.mem[g.grantid := g], true, s'.files.state)
            && s' == s.Advance(tid, WritingSpec(g, spec)).(
                       mem := s.mem[g.grantid := g], files := s.files.(state := s'.files.state))
  {
  }

  lemma KeepSaved(interval: nat, s: State, tid: nat, s': State)
    requires Inv(interval, s) && Step(s, Save(tid, true), s')
    ensures Inv(interval, s')
  {
    hide DropIn, ValidId, SpecLanguage, IsRenderedFor, Step;
    SavedStep(s, tid, s');
    var Saving(g, spec) := s.tasks[tid];
    assert TaskInv(s, s.tasks[tid]);
    assert IssueInv(s, g.grantid);
    SaveLoadRoundTrip(s'.files.state, s'.mem);
    KeepTasksWhenSaved(s, tid, g, spec, s');
    KeepIssuesWhenSaved(s, g, s');
    KeepRestWhenSaved(interval, s, tid, g, spec, s');
    hide TasksInv, IssueInv, SweeperInv, ClockInv, Scheduled, OnDisk, Tracked, KeyedById;
  }

  lemma KeepRestWhenSaved(interval: nat, s: State, tid: nat, g: Grant, spec: string, s': State)
    requires Inv(interval, s) && s.phase.Up? && tid in s.tasks && s.tasks[tid] == Saving(g, spec)
    requires s'.Saved() == s.mem[g.grantid := g]
    requires s' == s.Advance(tid, WritingSpec(g, spec)).(
                     mem := s.mem[g.grantid := g], files := s.files.(state := s'.files.state))
    ensures KeyedById(s'.mem) && SweeperInv(s') && ClockInv(interval, s')
    ensures forall id | ValidId(id) && OnDisk(s'.files, id) :: id in s'.issued || id in s'.inherited
    ensures forall id | ValidId(id) && OnDisk(s'.files, id) :: Tracked(s', id) && Scheduled(interval, s', id)
  {
    hide DropIn, ValidId, IssueInv;
    assert TaskInv(s, s.tasks[tid]);
  }

  lemma KeepTasksWhenSaved(s: State, tid: nat, g: Grant, spec: string, s': State)
    requires TasksInv(s) && tid in s.tasks && s.tasks[tid] == Saving(g, spec)
    requires s'.tasks == s.tasks[tid := WritingSpec(g, spec)]
    requires s'.mem == s.mem[g.grantid := g] == s'.Saved()
    requires s'.issued == s.issued && s'.clock == s.clock
    requires s'.files.sudoers == s.files.sudoers && s'.files.specs == s.files.specs
    ensures TasksInv(s')
  {
    hide DropIn, ValidId;
    assert TaskInv(s, s.tasks[tid]);
    forall x | x in s.tasks && x != tid
      ensures TaskInv(s', s.tasks[x])
    {
      assert TaskInv(s, s.tasks[x]) && s.tasks[x].Subject() != g.grantid;
    }
    TasksAfterAdvance(s, tid, WritingSpec(g, spec), s');
  }

  lemma KeepIssuesWhenSaved(s: State, g: Grant, s': State)
    requires forall id | id in s.issued :: IssueInv(s, id)
    requires g.grantid in s.issued && s.issued[g.grantid].grant == g
    requires s'.mem == s.mem[g.grantid := g] == s'.Saved()
    requires s'.issued == s.issued && s'.clock == s.clock && s'.files.sudoers == s.files.sudoers
    ensures forall id | id in s'.issued :: IssueInv(s', id)
  {
    hide DropIn, ValidId, SpecLanguage, IsRenderedFor;
    forall id | id in s'.issued
      ensures IssueInv(s', id)
    {
      assert IssueInv(s, id);
    }
  }

  lemma WriteSpecStep(s: State, tid: nat, ok: bool, s': State)
    requires Step(s, WriteSpec(tid, ok), s')
    ensures s.phase.Up? && tid in s.tasks && s.tasks[tid].WritingSpec?
    ensures var WritingSpec(g, spec) := s.tasks[tid];
            s' == if ok then s.Advance(tid, Installing(g, spec)).(
                               files := s.files.(specs := s.files.specs[g.grantid := spec]))
                  else s.Advance(tid, Undoing(g))
  {
  }

  lemma KeepWriteSpec(interval: nat, s: State, tid: nat, ok: bool, s': State)
    requires Inv(interval, s) && Step(s, WriteSpec(tid, ok), s')
    ensures Inv(interval, s')
  {
    hide Step, DropIn, ValidId, SpecLanguage, IsRenderedFor;
    WriteSpecStep(s, tid, ok, s');
    var WritingSpec(g, spec) := s.tasks[tid];
    assert TaskInv(s, s.tasks[tid]);
    if ok {
      var s1 := s.(files := s'.files);
      KeepSpecs(interval, s, s1);
      KeepAdvance(interval, s1, tid, Installing(g, spec), s');
    } else {
      KeepAdvance(interval, s, tid, Undoing(g), s');
    }
  }

  /** A call moves on and nothing else changes. */
  lemma KeepAdvance(interval: nat, s: State, tid: nat, t: Task, s': State)
    requires Inv(interval, s) && s.phase.Up? && tid in s.tasks && s' == s.Advance(tid, t)
    requires t.Subject() == s.tasks[tid].Subject() && (t.InFlight() ==> s.tasks[tid].InFlight())
    requires TaskInv(s, t)
    ensures Inv(interval, s')
  {
    hide DropIn, ValidId, SpecLanguage, IsRenderedFor;
    FrameIssues(s, s');
    forall x | x in s.tasks
      ensures TaskInv(s', s.tasks[x])
    {
      assert TaskInv(s, s.tasks[x]);
    }
    TasksAfterAdvance(s, tid, t, s');
  }

  /** Pending spec files change, but not one that an install is about to read. */
  lemma KeepSpecs(interval: nat, s: State, s': State)
    requires Inv(interval, s) && s.phase.Up? && s' == s.(files := s.files.(specs := s'.files.specs))
    requires forall tid | tid in s.tasks && s.tasks[tid].Installing? ::
               var id := s.tasks[tid].g.grantid;
               id in s.files.specs ==> id in s'.files.specs && s'.files.specs[id] == s.files.specs[id]
    ensures Inv(interval, s')
  {
    hide DropIn, ValidId, SpecLanguage, IsRenderedFor;
    FrameIssues(s, s');
    forall x | x in s.tasks
      ensures TaskInv(s', s.tasks[x])
    {
      assert TaskInv(s, s.tasks[x]);
    }
  }

  lemma InstallStep(s: State, tid: nat, fault: InstallFault, s': State)
    requires Step(s, Install(tid, fault, true), s')
    ensures s.phase.Up? && tid in s.tasks && s.tasks[tid].Installing?
    ensures var g := s.tasks[tid].g;
            var (h, rc) := InstallGrant(s.files, g.grantid, fault);
            s' == s.Advance(tid, if rc == 0 then Tidying(g) else Undoing(g)).(files := h)
  {
  }

  lemma KeepInstall(interval: nat, s: State, tid: nat, fault: InstallFault, s': State)
    requires Inv(interval, s) && Step(s, Install(tid, fault, true), s')
    ensures Inv(interval, s')
  {
    hide Step, DropIn, ValidId, SpecLanguage, IsRenderedFor, InstallGrant;
    InstallStep(s, tid, fault, s');
    var id := s.tasks[tid].Subject();
    assert TaskInv(s, s.tasks[tid]);
    InstallEffect(s.files, id, fault);
    InstallKeepsTasks(s, tid, fault, s');
    forall x | x in s'.issued
      ensures IssueInv(s', x)
    {
      assert IssueInv(s, x);
    }
    hide TasksInv, IssueInv;
    InstallKeepsRest(interval, s, tid, fault, s');
    hide SweeperInv, ClockInv, Scheduled, OnDisk, Tracked, KeyedById;
  }

  lemma InstallKeepsRest(interval: nat, s: State, tid: nat, fault: InstallFault, s': State)
    requires Inv(interval, s) && Step(s, Install(tid, fault, true), s')
    ensures s'.phase.Up? && KeyedById(s'.mem) && SweeperInv(s') && ClockInv(interval, s')
    ensures forall id | ValidId(id) && OnDisk(s'.files, id) :: id in s'.issued || id in s'.inherited
    ensures forall id | ValidId(id) && OnDisk(s'.files, id) :: Tracked(s', id) && Scheduled(interval, s', id)
  {
    hide Step, DropIn, ValidId, SpecLanguage, IsRenderedFor, InstallGrant;
    InstallStep(s, tid, fault, s');
    assert TaskInv(s, s.tasks[tid]) && IssueInv(s, s.tasks[tid].Subject());
    InstallEffect(s.files, s.tasks[tid].Subject(), fault);
  }

  lemma InstallKeepsTasks(s: State, tid: nat, fault: InstallFault, s': State)
    requires TasksInv(s) && Step(s, Install(tid, fault, true), s')
    ensures TasksInv(s')
  {
    hide DropIn, ValidId, SpecLanguage, IsRenderedFor, InstallGrant;
    var id := s.tasks[tid].Subject();
    assert TaskInv(s, s.tasks[tid]);
    InstallEffect(s.files, id, fault);
    forall x | x in s.tasks && x != tid
      ensures TaskInv(s', s.tasks[x])
    {
      assert TaskInv(s, s.tasks[x]) && s.tasks[x].Subject() != id;
    }
    TasksAfterAdvance(s, tid, s'.tasks[tid], s');
  }

  lemma KeepTidy(interval: nat, s: State, tid: nat, ok: bool, s': State)
    requires Inv(interval, s) && Step(s, Tidy(tid, ok), s')
    ensures Inv(interval, s')
  {
    var s1 := s.Finish(tid);
    KeepFinish(interval, s, tid, s1);
    KeepSpecs(interval, s1, s');
  }

  /** Erasing an entry whose drop-in is gone, then persisting or failing to. */
  lemma KeepErased(interval: nat, s: State, id: Id, ok: bool, s': State)
    requires Inv(interval, s) && s.phase.Up? && !OnDisk(s.files, id)
    requires forall tid | tid in s.tasks && s.tasks[tid].InFlight() :: s.tasks[tid].Subject() != id
    requires s'.mem == s.mem - {id}
    requires Persisted(s.files.state, s'.mem, ok, s'.files.state) || s'.files.state == s.files.state
    requires s' == s.(mem := s'.mem, files := s.files.(state := s'.files.state))
    ensures Inv(interval, s')
  {
    hide DropIn, ValidId, SpecLanguage, IsRenderedFor, Load;
    if s'.files.state != s.files.state {
      SaveLoadRoundTrip(s'.files.state, s'.mem);
    }
    ErasedKeepsIssues(s, id, s');
    ErasedKeepsTasks(s, id, s');
    hide TasksInv, IssuesInv, TaskInv, IssueInv;
  }

  lemma ErasedKeepsIssues(s: State, id: Id, s': State)
    requires IssuesInv(s) && s'.mem == s.mem - {id} && (s'.Saved() == s'.mem || s'.Saved() == s.Saved())
    requires s' == s.(mem := s'.mem, files := s.files.(state := s'.files.state))
    ensures IssuesInv(s')
  {
    hide DropIn, ValidId, SpecLanguage, IsRenderedFor, Load;
    forall x | x in s.issued && x in s'.Saved()
      ensures s'.Saved()[x] == s.issued[x].grant
    {
      assert IssueInv(s, x);
    }
    FrameIssues(s, s');
  }

  lemma ErasedKeepsTasks(s: State, id: Id, s': State)
    requires TasksInv(s) && s'.mem == s.mem - {id} && (s'.Saved() == s'.mem || s'.Saved() == s.Saved())
    requires forall tid | tid in s.tasks && s.tasks[tid].InFlight() :: s.tasks[tid].Subject() != id
    requires s' == s.(mem := s'.mem, files := s.files.(state := s'.files.state))
    ensures TasksInv(s')
  {
    hide DropIn, ValidId, SpecLanguage, IsRenderedFor, Load;
    forall tid | tid in s'.tasks
      ensures TaskInv(s', s'.tasks[tid])
    {
      assert TaskInv(s, s.tasks[tid]);
    }
  }

  /** Removing a drop-in that no request in flight is about. */
  lemma KeepUnlinked(interval: nat, s: State, id: Id, s': State)
    requires Inv(interval, s) && s.phase.Up?
    requires s' == s.(files := RevokeGrant(s.files, id, true).0)
    ensures Inv(interval, s')
  {
    hide DropIn, ValidId, SpecLanguage, IsRenderedFor, RevokeGrant;
    RevokeEffect(s.files, id, true);
    FrameIssues(s, s');
    forall tid | tid in s'.tasks
      ensures TaskInv(s', s'.tasks[tid])
    {
      assert TaskInv(s, s.tasks[tid]);
    }
  }

  lemma KeepFinish(interval: nat, s: State, tid: nat, s': State)
    requires Inv(interval, s) && s.phase.Up? && s' == s.Finish(tid)
    ensures Inv(interval, s')
  {
    hide DropIn, ValidId, SpecLanguage, IsRenderedFor;
    FrameIssues(s, s');
    assert forall t | t in s'.tasks :: TaskInv(s, s.tasks[t]);
  }

  lemma KeepUndo(interval: nat, s: State, tid: nat, ok: bool, s': State)
    requires Inv(interval, s) && Step(s, Undo(tid, ok), s') && Benign(interval, s, Undo(tid, ok))
    ensures Inv(interval, s')
  {
    assert TaskInv(s, s.tasks[tid]);
    var s1 := s.Finish(tid);
    KeepFinish(interval, s, tid, s1);
    KeepErased(interval, s1, s.tasks[tid].g.grantid, ok, s');
  }

  lemma KeepBeginRevoke(interval: nat, s: State, tid: nat, id: Id, s': State)
    requires Inv(interval, s) && Step(s, BeginRevoke(tid, id), s') && Benign(interval, s, BeginRevoke(tid, id))
    ensures Inv(interval, s')
  {
    hide DropIn, ValidId, SpecLanguage, IsRenderedFor, Load;
    FrameIssues(s, s');
    BeginRevokeKeepsTasks(interval, s, tid, id, s');
    hide TaskInv, TasksInv, IssueInv, KeyedById, OnDisk;
  }

  lemma BeginRevokeKeepsTasks(interval: nat, s: State, tid: nat, id: Id, s': State)
    requires TasksInv(s) && Step(s, BeginRevoke(tid, id), s') && Benign(interval, s, BeginRevoke(tid, id))
    ensures TasksInv(s')
  {
    hide DropIn, ValidId, SpecLanguage, IsRenderedFor, Load;
    forall x | x in s.tasks
      ensures TaskInv(s', s.tasks[x])
    {
      assert TaskInv(s, s.tasks[x]);
    }
    assert TaskInv(s', s'.tasks[tid]);
  }

  lemma KeepUnlink(interval: nat, s: State, tid: nat, ok: bool, s': State)
    requires Inv(interval, s) && Step(s, Unlink(tid, ok), s') && Benign(interval, s, Unlink(tid, ok))
    ensures Inv(interval, s')
  {
    var id := s.tasks[tid].id;
    var s1 := s.(files := s'.files);
    KeepUnlinked(interval, s, id, s1);
    assert TaskInv(s1, s1.tasks[tid]);
    RevokeEffect(s.files, id, true);
    KeepAdvance(interval, s1, tid, Forgetting(id), s');
  }

  lemma KeepForget(interval: nat, s: State, tid: nat, ok: bool, s': State)
    requires Inv(interval, s) && Step(s, Forget(tid, ok), s') && Benign(interval, s, Forget(tid, ok))
    ensures Inv(interval, s')
  {
    assert TaskInv(s, s.tasks[tid]);
    var s1 := s.Finish(tid);
    KeepFinish(interval, s, tid, s1);
    KeepErased(interval, s1, s.tasks[tid].id, ok, s');
  }

  lemma KeepWake(interval: nat, s: State, s': State)
    requires Inv(interval, s) && Step(s, Wake, s')
    ensures Inv(interval, s')
  {
    FrameIssues(s, s');
    KeepTasksAcrossSweep(s, s');
  }

  lemma KeepCollect(interval: nat, s: State, todo: seq<Id>, s': State)
    requires Inv(interval, s) && Step(s, Collect(todo), s')
    ensures Inv(interval, s')
  {
    FrameIssues(s, s');
    KeepTasksAcrossSweep(s, s');
    assert forall tid | tid in s.tasks :: TaskInv(s, s.tasks[tid]);
    assert forall id | ValidId(id) && OnDisk(s.files, id) :: Tracked(s, id) && Scheduled(interval, s, id);
  }

  lemma KeepTasksAcrossSweep(s: State, s': State)
    requires TasksInv(s) && s' == s.(sweeper := s'.sweeper, lastSweep := s'.lastSweep)
    ensures TasksInv(s')
  {
    forall tid | tid in s'.tasks
      ensures TaskInv(s', s'.tasks[tid])
    {
      assert TaskInv(s, s.tasks[tid]);
    }
  }

  lemma KeepSweepUnlink(interval: nat, s: State, ok: bool, s': State)
    requires Inv(interval, s) && Step(s, SweepUnlink(ok), s') && Benign(interval, s, SweepUnlink(ok))
    ensures Inv(interval, s')
  {
    hide DropIn, ValidId, SpecLanguage, IsRenderedFor, RevokeGrant, Load;
    var id := s.sweeper.todo[0];
    assert id in s.sweeper.todo;
    var s1 := s.(files := RevokeGrant(s.files, id, true).0);
    KeepUnlinked(interval, s, id, s1);
    RevokeEffect(s.files, id, true);
    assert s' == s1.(sweeper := Sweeping(s.sweeper.todo, true));
    hide Step, Benign;
    KeepSweeperHalfDone(interval, s1, s');
  }

  lemma KeepSweeperHalfDone(interval: nat, s: State, s': State)
    requires Inv(interval, s) && s.phase.Up? && s.sweeper.Sweeping? && !OnDisk(s.files, s.sweeper.todo[0])
    requires s' == s.(sweeper := Sweeping(s.sweeper.todo, true))
    ensures Inv(interval, s')
  {
    hide DropIn, ValidId, SpecLanguage, IsRenderedFor, Load;
    FrameIssues(s, s');
    KeepTasksAcrossSweep(s, s');
    hide TasksInv, IssuesInv, TaskInv, IssueInv;
  }

  lemma KeepSweeperMovesOn(interval: nat, s: State, id: Id, rest: seq<Id>, s': State)
    requires Inv(interval, s) && s.phase.Up? && !OnDisk(s.files, id)
    requires s.sweeper == Sweeping([id] + rest, true)
    requires s' == s.(sweeper := if rest == [] then Asleep else Sweeping(rest, false))
    ensures Inv(interval, s')
  {
    hide DropIn, ValidId, SpecLanguage, IsRenderedFor;
    FrameIssues(s, s');
    forall tid | tid in s'.tasks
      ensures TaskInv(s', s'.tasks[tid])
    {
      assert TaskInv(s, s.tasks[tid]);
    }
    assert forall x | x in rest :: x in s.sweeper.todo;
  }

  lemma KeepSweepForget(interval: nat, s: State, ok: bool, s': State)
    requires Inv(interval, s) && Step(s, SweepForget(ok), s')
    ensures Inv(interval, s')
  {
    var id, rest := s.sweeper.todo[0], s.sweeper.todo[1..];
    assert id in s.sweeper.todo && s.sweeper.todo == [id] + rest;
    var s1 := s.(mem := s'.mem, files := s'.files);
    KeepErased(interval, s, id, ok, s1);
    KeepSweeperMovesOn(interval, s1, id, rest, s');
  }

  lemma KeepCrash(interval: nat, s: State, s': State)
    requires Inv(interval, s) && Step(s, Crash, s')
    ensures Inv(interval, s')
  {
    hide DropIn, ValidId, SpecLanguage, IsRenderedFor;
    FrameIssues(s, s');
    forall id | id in s'.orphans
      ensures OrphanInv(s', id)
    {
      if id !in s.orphans {
        var tid :| tid in s.tasks && s.tasks[tid].Installing? && s.tasks[tid].g.grantid == id;
        assert TaskInv(s, s.tasks[tid]);
      }
    }
  }

  lemma KeepLate(interval: nat, s: State, id: Id, fault: InstallFault, s': State)
    requires Inv(interval, s) && Step(s, Late(id, fault), s')
    ensures Inv(interval, s')
  {
    hide DropIn, ValidId, SpecLanguage, IsRenderedFor, InstallGrant;
    assert OrphanInv(s, id);
    InstallEffect(s.files, id, fault);
    forall x | x in s'.issued
      ensures IssueInv(s', x)
    {
      assert IssueInv(s, x);
    }
    forall x | x in s'.orphans
      ensures OrphanInv(s', x)
    {
      assert OrphanInv(s, x);
    }
  }

  lemma KeepBoot(interval: nat, s: State, e: Event, s': State)
    requires e.Boot? && Inv(interval, s) && Step(s, e, s') && Benign(interval, s, e)
    ensures Inv(interval, s')
  {
    hide DropIn, ValidId, SpecLanguage, IsRenderedFor, TimesQueued, Listing, Load;
    LoadIsKeyed(AsRead(s.files.state, e.readable));
    NothingLoaded();
    if e.ok {
      SaveLoadRoundTrip(s'.files.state, s'.mem);
    }
    forall id | id in s'.issued
      ensures IssueInv(s', id)
    {
      assert IssueInv(s, id);
    }
    assert KeyedById(s'.mem);
    QueuedIsTheRest(s.files, s.Loaded(e.readable), e.seen, s.clock, e.todo);
    forall id | ValidId(id) && OnDisk(s.files, id) && id !in e.todo
      ensures Tracked(s', id) && Scheduled(interval, s', id)
    {
      assert id in s'.mem;
    }
  }

  lemma NothingLoaded()
    ensures Load(Unreadable) == map[]
  {
  }

  lemma KeepBootUnlink(interval: nat, s: State, s': State)
    requires Inv(interval, s) && Step(s, BootUnlink(true), s')
    ensures Inv(interval, s')
  {
    hide DropIn, ValidId, SpecLanguage, IsRenderedFor, RevokeGrant;
    var id := s.phase.todo[0];
    RevokeEffect(s.files, id, true);
    FrameIssues(s, s');
    assert s.phase.todo == [id] + s'.phase.todo;
  }

  lemma KeepBootDone(interval: nat, s: State, s': State)
    requires Inv(interval, s) && Step(s, BootDone, s')
    ensures Inv(interval, s')
  {
    FrameIssues(s, s');
  }

  lemma StepKeepsInv(interval: nat, s: State, e: Event, s': State)
    requires Inv(interval, s) && Step(s, e, s') && Benign(interval, s, e)
    ensures Inv(interval, s')
  {
    hide DropIn, ValidId, SpecLanguage, IsRenderedFor, Inv;
    match e
    case Tick(to) => KeepTick(interval, s, to, s');
    case Begin(tid, g, spec) => KeepBegin(interval, s, tid, g, spec, s');
    case Save(tid, ok) => KeepSave(interval, s, tid, ok, s');
    case WriteSpec(tid, ok) => KeepWriteSpec(interval, s, tid, ok, s');
    case Install(tid, fault, _) => KeepInstall(interval, s, tid, fault, s');
    case Tidy(tid, ok) => KeepTidy(interval, s, tid, ok, s');
    case Undo(tid, ok) => KeepUndo(interval, s, tid, ok, s');
    case BeginRevoke(tid, id) => KeepBeginRevoke(interval, s, tid, id, s');
    case Unlink(tid, ok) => KeepUnlink(interval, s, tid, ok, s');
    case Forget(tid, ok) => KeepForget(interval, s, tid, ok, s');
    case Wake => KeepWake(interval, s, s');
    case Collect(todo) => KeepCollect(interval, s, todo, s');
    case SweepUnlink(ok) => KeepSweepUnlink(interval, s, ok, s');
    case SweepForget(ok) => KeepSweepForget(interval, s, ok, s');
    case Crash => KeepCrash(interval, s, s');
    case Late(id, fault) => KeepLate(interval, s, id, fault, s');
    case Boot(_, _, _, _, _) => KeepBoot(interval, s, e, s');
    case BootUnlink(_) => KeepBootUnlink(interval, s, s');
    case BootDone => KeepBootDone(interval, s, s');
  }

  // ---- What holds over every run ----

  /** A daemon that is not running, with anything at all in the state file and the sudoers directory. */
  ghost predicate Init(s: State) {
    && s.phase.Down? && s.mem == map[] && s.tasks == map[] && s.sweeper.Asleep?
    && s.issued == map[] && s.inherited == Listing(s.files.sudoers) && s.orphans == {}
  }

  ghost predicate IsRun(interval: nat, states: seq<State>, events: seq<Event>) {
    var n := |events|;
    && |states| == n + 1
    && if n == 0 then Init(states[0])
       else
         && IsRun(interval, states[..n], events[..n - 1])
         && Step(states[n - 1], events[n - 1], states[n])
         && Benign(interval, states[n - 1], events[n - 1])
  }

  lemma InitHoldsInv(interval: nat, s: State)
    requires Init(s)
    ensures Inv(interval, s)
  {
    forall id | ValidId(id) && OnDisk(s.files, id)
      ensures id in s.inherited
    {
      ListingIsOnDisk(s.files, id);
    }
  }

  lemma {:induction false} RunKeepsInv(interval: nat, states: seq<State>, events: seq<Event>)
    requires IsRun(interval, states, events)
    ensures Inv(interval, states[|events|])
  {
    var n := |events|;
    if n == 0 {
      InitHoldsInv(interval, states[0]);
    } else {
      RunKeepsInv(interval, states[..n], events[..n - 1]);
      StepKeepsInv(interval, states[n - 1], events[n - 1], states[n]);
    }
  }

  /** Write-ahead safety: whenever the daemon is up, every installed drop-in has an entry in memory and in
      `grants.json`, in every interleaving, whatever failed to persist or install and after any crashes. */
  lemma WriteAheadSafety(interval: nat, states: seq<State>, events: seq<Event>, id: Id)
    requires IsRun(interval, states, events)
    requires var s := states[|events|]; s.phase.Up? && ValidId(id) && OnDisk(s.files, id)
    ensures Tracked(states[|events|], id)
  {
    RunKeepsInv(interval, states, events);
  }

  /** The sweep that has started but not finished still has this drop-in to remove. */
  ghost predicate SweepOwes(s: State, id: Id) {
    s.sweeper.Awake? || (s.sweeper.Sweeping? && id in s.sweeper.todo)
  }

  /** Bounded lifetime: an installed grant is less than `ttl + interval` old, or the sweep that removes it is
      under way and started when the grant was less than `ttl + interval` old. */
  lemma BoundedLifetime(interval: nat, states: seq<State>, events: seq<Event>, id: Id)
    requires IsRun(interval, states, events)
    requires var s := states[|events|]; s.phase.Up? && ValidId(id) && OnDisk(s.files, id)
    ensures var s := states[|events|];
            && Tracked(s, id)
            && var expiry := s.mem[id].expiresAt;
               && (s.clock < expiry + interval || (SweepOwes(s, id) && s.SweepStart() < expiry + interval))
               && (id in s.issued ==> expiry == s.issued[id].grant.expiresAt <= s.issued[id].at + 86400)
  {
    RunKeepsInv(interval, states, events);
    var s := states[|events|];
    assert Tracked(s, id) && Scheduled(interval, s, id);
    assert id in s.issued ==> IssueInv(s, id);
  }

  /** A finished sweep leaves nothing installed that had expired when it read its clock. */
  lemma SweepIsComplete(interval: nat, states: seq<State>, events: seq<Event>, id: Id)
    requires IsRun(interval, states, events)
    requires var s := states[|events|]; s.phase.Up? && s.sweeper.Asleep? && ValidId(id) && OnDisk(s.files, id)
    ensures var s := states[|events|]; Tracked(s, id) && s.lastSweep < s.mem[id].expiresAt
  {
    RunKeepsInv(interval, states, events);
    assert Scheduled(interval, states[|events|], id);
  }

  /** A sweep removes no drop-in and erases no entry of a grant that has not expired. */
  lemma SweepSparesLiveGrants(interval: nat, states: seq<State>, events: seq<Event>, e: Event, s': State, id: Id)
    requires IsRun(interval, states, events)
    requires Step(states[|events|], e, s') && (e.SweepUnlink? || e.SweepForget?)
    requires var s := states[|events|]; ValidId(id) && id in s.mem && s.mem[id].expiresAt > s.clock
    ensures var s := states[|events|];
            && OnDisk(s'.files, id) == OnDisk(s.files, id)
            && id in s'.mem && s'.mem[id] == s.mem[id]
  {
    var s := states[|events|];
    RunKeepsInv(interval, states, events);
    assert s.sweeper.todo[0] in s.sweeper.todo;
    RevokeEffect(s.files, s.sweeper.todo[0], e.ok);
  }

  /** Every drop-in that was not already there before the run is the line that the shortid, the template and the
      arguments of its own grant were entitled to when it was requested, byte for byte, and that line is in
      the language both validators accept. */
  lemma DropInsAreRendered(interval: nat, states: seq<State>, events: seq<Event>, id: Id)
    requires IsRun(interval, states, events)
    requires var s := states[|events|]; s.phase.Up? && ValidId(id) && OnDisk(s.files, id) && id !in s.inherited
    ensures var s := states[|events|];
            && Tracked(s, id) && id in s.issued
            && var line, g := s.files.sudoers[DropIn(id)], s.mem[id];
               && IsRenderedFor(line, g.shortid, g.templateName, g.captured, s.issued[id].config)
               && SpecLanguage(line)
  {
    RunKeepsInv(interval, states, events);
    assert IssueInv(states[|events|], id);
  }

  // ---- Why each assumption is needed ----

  /** An installed drop-in without an entry: no sweep will collect it, so it stays until a startup lists it or
      somebody revokes its id. */
  ghost predicate Lost(s: State, id: Id) {
    ValidId(id) && OnDisk(s.files, id) && id !in s.mem
  }

  lemma SweepsMissLost(s: State, todo: seq<Id>, s': State, id: Id)
    requires Step(s, Collect(todo), s') && Lost(s, id)
    ensures id !in todo && Lost(s', id)
  {
  }

  lemma RevokingFindsLost(s: State, tid: nat, unlinkOk: bool, s': State)
    requires Step(s, Unlink(tid, unlinkOk), s') && Lost(s, s.tasks[tid].id)
    ensures Lost(s', s.tasks[tid].id) <==> !unlinkOk
  {
    RevokeEffect(s.files, s.tasks[tid].id, unlinkOk);
  }

  /** `revoke_grant` erases the entry whatever the helper returned, so revoking an installed grant loses it
      exactly when the unlink failed. */
  lemma FailedUnlinkLosesTrack(s0: State, s1: State, s2: State, tid: nat, unlinkOk: bool, persistOk: bool)
    requires Step(s0, Unlink(tid, unlinkOk), s1) && Step(s1, Forget(tid, persistOk), s2)
    requires var id := s0.tasks[tid].id; ValidId(id) && OnDisk(s0.files, id)
    ensures var id := s0.tasks[tid].id;
            id !in s2.mem && (Lost(s2, id) <==> !unlinkOk)
  {
    RevokeEffect(s0.files, s0.tasks[tid].id, unlinkOk);
  }

  /** A request that is undone loses its drop-in exactly when the helper had installed it without saying so. */
  lemma UnreportedInstallLosesTrack(s0: State, s1: State, s2: State, tid: nat, fault: InstallFault, reported: bool,
                                    persistOk: bool)
    requires Step(s0, Install(tid, fault, reported), s1) && Step(s1, Undo(tid, persistOk), s2)
    requires ValidId(s0.tasks[tid].g.grantid) && !OnDisk(s0.files, s0.tasks[tid].g.grantid)
    ensures var id := s0.tasks[tid].g.grantid;
            && id !in s2.mem
            && (Lost(s2, id) <==> InstallGrant(s0.files, id, fault).1 == 0)
            && (Lost(s2, id) ==> !reported)
  {
    hide DropIn, ValidId, SpecLanguage, IsRenderedFor, InstallGrant;
    InstallEffect(s0.files, s0.tasks[tid].g.grantid, fault);
  }

  /** Revoking an id whose install is still under way: the unlink comes before the install, the erasing after. */
  lemma RevokeInFlightLosesTrack(s0: State, s1: State, s2: State, s3: State, revoke: nat, request: nat, persistOk: bool)
    requires Step(s0, Unlink(revoke, true), s1) && Step(s1, Install(request, NoFault, true), s2)
    requires Step(s2, Forget(revoke, persistOk), s3)
    requires var g := s0.tasks[request].g;
             && s0.tasks[revoke].id == g.grantid && ValidId(g.grantid)
             && g.grantid in s0.files.specs && SpecLanguage(s0.files.specs[g.grantid])
    ensures Lost(s3, s0.tasks[request].g.grantid)
  {
    hide DropIn, ValidId, SpecLanguage, IsRenderedFor, InstallGrant, RevokeGrant;
    var id := s0.tasks[request].g.grantid;
    RevokeEffect(s0.files, id, true);
    InstallEffect(s1.files, id, NoFault);
  }

  /** The same when the sweeper revokes a grant that expired while its install was still under way. */
  lemma ExpiryInFlightLosesTrack(s0: State, s1: State, s2: State, s3: State, request: nat, persistOk: bool)
    requires Step(s0, SweepUnlink(true), s1) && Step(s1, Install(request, NoFault, true), s2)
    requires Step(s2, SweepForget(persistOk), s3)
    requires var g := s0.tasks[request].g;
             && s0.sweeper.todo[0] == g.grantid && ValidId(g.grantid)
             && g.grantid in s0.files.specs && SpecLanguage(s0.files.specs[g.grantid])
    ensures Lost(s3, s0.tasks[request].g.grantid)
  {
    hide DropIn, ValidId, SpecLanguage, IsRenderedFor, InstallGrant, RevokeGrant;
    var id := s0.tasks[request].g.grantid;
    RevokeEffect(s0.files, id, true);
    InstallEffect(s1.files, id, NoFault);
  }

  /** A start that cannot open the sudoers directory forgets every grant, in memory and in the file, and removes
      nothing: each hex-named drop-in is lost. */
  lemma UnreadableStartLosesTrack(s0: State, s1: State, s2: State, ok: bool, readable: bool,
                                  todo: seq<Id>, config: Config)
    requires Step(s0, Boot(ok, readable, {}, todo, config), s1) && Step(s1, BootDone, s2)
    ensures s2.phase.Up? && s2.mem == map[] && (ok ==> s2.Saved() == map[])
    ensures s2.files.sudoers == s0.files.sudoers
    ensures forall id | ValidId(id) && OnDisk(s0.files, id) :: Lost(s2, id)
  {
    if ok {
      SaveLoadRoundTrip(s1.files.state, map[]);
    }
  }

  /** An install helper that outlived the daemon and renames after the next startup has listed the directory. */
  lemma LateInstallLosesTrack(s0: State, boot: Event, s1: State, s2: State, id: Id)
    requires boot.Boot? && Step(s0, boot, s1) && Step(s1, Late(id, NoFault), s2)
    requires ValidId(id) && !OnDisk(s0.files, id)
    requires id in s0.files.specs && SpecLanguage(s0.files.specs[id])
    ensures Lost(s2, id)
  {
    hide DropIn, ValidId, SpecLanguage, IsRenderedFor, InstallGrant, TimesQueued;
    ListingIsOnDisk(s0.files, id);
    InstallEffect(s1.files, id, NoFault);
  }

  // ---- Crash recovery ----

  /** A startup in which the unlinks and the saving work, from the state the daemon was found in. */
  ghost predicate IsRecovery(states: seq<State>, events: seq<Event>) {
    var n := |events|;
    && |states| == n + 1 && n > 0
    && Step(states[n - 1], events[n - 1], states[n])
    && if n == 1 then states[0].phase.Down? && events[0].Boot? && events[0].ok
       else
         && IsRecovery(states[..n], events[..n - 1])
         && (events[n - 1].Tick? || events[n - 1] == BootUnlink(true) || events[n - 1].BootDone?)
  }

  /** `boot` was the startup's first step. */
  ghost predicate Recovering(s0: State, boot: Event, s: State)
    requires boot.Boot?
  {
    var kept := Survivors(s0.Loaded(boot.readable), boot.seen, s0.clock);
    && s.mem == kept == s.Saved()
    && KeptWereSeen(s0.files, kept, boot.seen)
    && (forall id | OnDisk(s.files, id) ::
          OnDisk(s0.files, id) && s.files.sudoers[DropIn(id)] == s0.files.sudoers[DropIn(id)])
    && (forall id | OnDisk(s0.files, id) && (id in kept || !ValidId(id) || id !in boot.seen) :: OnDisk(s.files, id))
    && (s.phase.Booting? ==>
          && (forall id | id in s.phase.todo :: id in boot.seen && id !in kept)
          && (forall id | Stray(s, boot, id) :: id in s.phase.todo))
    && (s.phase.Up? ==> forall id :: !Stray(s, boot, id))
  }

  ghost predicate Stray(s: State, boot: Event, id: Id)
    requires boot.Boot?
  {
    ValidId(id) && OnDisk(s.files, id) && id in boot.seen && id !in s.mem
  }

  lemma BootStartsRecovering(s0: State, boot: Event, s: State)
    requires boot.Boot? && boot.ok && Step(s0, boot, s)
    ensures Recovering(s0, boot, s)
  {
    hide DropIn, ValidId, TimesQueued, Listing, Load, SpecLanguage, IsRenderedFor;
    LoadIsKeyed(AsRead(s0.files.state, boot.readable));
    SaveLoadRoundTrip(s.files.state, s.mem);
    QueuedIsTheRest(s0.files, s0.Loaded(boot.readable), boot.seen, s0.clock, boot.todo);
  }

  lemma BootUnlinkKeepsRecovering(s0: State, boot: Event, s: State, s': State)
    requires boot.Boot? && Recovering(s0, boot, s) && Step(s, BootUnlink(true), s')
    ensures Recovering(s0, boot, s')
  {
    hide DropIn, ValidId, RevokeGrant, Survivors, Load;
    var id := s.phase.todo[0];
    RevokeEffect(s.files, id, true);
    assert s.phase.todo == [id] + s'.phase.todo && id in s.phase.todo;
    forall x | Stray(s', boot, x)
      ensures x in s'.phase.todo
    {
      assert Stray(s, boot, x);
    }
  }

  lemma NoOpKeepsRecovering(s0: State, boot: Event, s: State, s': State)
    requires boot.Boot? && Recovering(s0, boot, s)
    requires s'.mem == s.mem && s'.files == s.files
    requires s'.phase == s.phase || (s.phase == Booting([]) && s'.phase.Up?)
    ensures Recovering(s0, boot, s')
  {
    hide DropIn, ValidId, Survivors, Load;
    assert forall id :: Stray(s', boot, id) == Stray(s, boot, id);
  }

  lemma {:induction false} RecoveryReconciles(states: seq<State>, events: seq<Event>)
    requires IsRecovery(states, events)
    ensures events[0].Boot? && Recovering(states[0], events[0], states[|events|])
  {
    hide Step, Recovering;
    var n := |events|;
    if n == 1 {
      BootStartsRecovering(states[0], events[0], states[1]);
    } else {
      RecoveryReconciles(states[..n], events[..n - 1]);
      StartupStepKeepsRecovering(states[0], events[0], states[n - 1], events[n - 1], states[n]);
    }
  }

  lemma StartupStepKeepsRecovering(s0: State, boot: Event, s: State, e: Event, s': State)
    requires boot.Boot? && Recovering(s0, boot, s) && Step(s, e, s')
    requires e.Tick? || e == BootUnlink(true) || e.BootDone?
    ensures Recovering(s0, boot, s')
  {
    hide OnDisk, ValidId, SpecLanguage, IsRenderedFor, RevokeGrant, Survivors, Load, Recovering;
    if e.BootUnlink? {
      BootUnlinkKeepsRecovering(s0, boot, s, s');
    } else {
      NoOpKeepsRecovering(s0, boot, s, s');
    }
  }

  /**
    Crash recovery, from any contents whatsoever: afterwards memory and `grants.json` hold the same ids, and the
    hex-named drop-ins are those ids too exactly when none of them escaped the startup's listing. They are
    then the ids that had been persisted, were still installed and had not expired.
   */
  lemma RecoveryTheorem(states: seq<State>, events: seq<Event>, id: Id)
    requires IsRecovery(states, events) && states[|events|].phase.Up?
    ensures events[0].Boot?
    ensures var s0, s, boot := states[0], states[|events|], events[0];
            && s.mem == s.Saved()
            && (id in s.mem <==>
                  boot.readable && id in s0.Saved() && id in boot.seen && s0.Saved()[id].expiresAt > s0.clock)
            && LeftInstalled(s0.files, s.files, s.mem, boot.seen)
            && (Agrees(s.files, s.mem) <==> AllSeen(s0.files, boot.seen))
            && (AllSeen(s0.files, boot.seen) && boot.readable ==>
                  (id in s.mem <==>
                     id in s0.Saved() && OnDisk(s0.files, id) && s0.Saved()[id].expiresAt > s0.clock))
  {
    RecoveryReconciles(states, events);
    hide IsRecovery, Recovering, LeftInstalled, Agrees, AllSeen, OnDisk, Load;
    RecoveredMeaning(states[0], events[0], states[|events|], id);
  }

  lemma RecoveredMeaning(s0: State, boot: Event, s: State, id: Id)
    requires boot.Boot? && Recovering(s0, boot, s) && s.phase.Up?
    ensures s.mem == s.Saved()
    ensures id in s.mem <==>
              boot.readable && id in s0.Saved() && id in boot.seen && s0.Saved()[id].expiresAt > s0.clock
    ensures LeftInstalled(s0.files, s.files, s.mem, boot.seen)
    ensures Agrees(s.files, s.mem) <==> AllSeen(s0.files, boot.seen)
    ensures AllSeen(s0.files, boot.seen) && boot.readable ==>
              (id in s.mem <==> id in s0.Saved() && OnDisk(s0.files, id) && s0.Saved()[id].expiresAt > s0.clock)
  {
    LoadIsKeyed(s0.files.state);
    NothingLoaded();
    hide DropIn, ValidId, Load;
    forall x
      ensures OnDisk(s.files, x) <==> OnDisk(s0.files, x) && (x in s.mem || !ValidId(x) || x !in boot.seen)
    {
      assert !Stray(s, boot, x);
    }
    AgreesIffAllSeen(s0.files, s.files, s.mem, boot.seen);
  }

  /** `grants.hpp` promises that a startup revokes every file named like a drop-in that has no entry: with the
      whole directory listed, one is revoked exactly when its id is 16 lower-case hex digits. */
  lemma StraysAreRevokedIffHex(states: seq<State>, events: seq<Event>, id: Id)
    requires IsRecovery(states, events) && states[|events|].phase.Up?
    requires events[0].Boot? && events[0].seen == Listing(states[0].files.sudoers)
    requires OnDisk(states[0].files, id) && id !in states[0].Saved()
    ensures !OnDisk(states[|events|].files, id) <==> ValidId(id)
  {
    RecoveryTheorem(states, events, id);
    hide IsRecovery, Load;
    ListingIsOnDisk(states[0].files, id);
  }

  /** For instance one with an id in upper case, which the scan does list. */
  lemma UpperCaseStrayStays(states: seq<State>, events: seq<Event>)
    requires IsRecovery(states, events) && states[|events|].phase.Up?
    requires OnDisk(states[0].files, "0123456789ABCDEF")
    ensures OnDisk(states[|events|].files, "0123456789ABCDEF")
    ensures "0123456789ABCDEF" in Listing(states[0].files.sudoers)
  {
    var id := "0123456789ABCDEF";
    assert !HexChar(id[10]);
    RecoveryTheorem(states, events, id);
    ListingIsOnDisk(states[0].files, id);
  }

  // ---- The assumptions are satisfiable ----

  lemma ExtendRun(interval: nat, states: seq<State>, events: seq<Event>, e: Event, s': State)
    requires IsRun(interval, states, events)
    requires Step(states[|events|], e, s') && Benign(interval, states[|events|], e)
    ensures IsRun(interval, states + [s'], events + [e])
  {
    hide Step, Benign, Init;
    var n := |events|;
    assert (states + [s'])[..n + 1] == states && (events + [e])[..n] == events;
  }

  /** The states of a first start on an empty machine followed by one request: booting, up, and one more
      after each step of the request. */
  ghost function FirstRun(g: Grant, spec: string, config: Config, n: nat): State
    requires n <= 7
  {
    var id := g.grantid;
    var empty := Files(Document([]), map[], map[]);
    var up := State(Up, config, 0, map[], empty, map[], Asleep, 0, map[], {}, {});
    if n == 0 then up.(phase := Down)
    else if n == 1 then up.(phase := Booting([]))
    else if n == 2 then up
    else
      var begun := up.Advance(0, Saving(g, spec)).(issued := map[id := Issue(g, spec, config, 0)]);
      if n == 3 then begun
      else
        var saved := empty.(state := Document([Record(g)]));
        var written := saved.(specs := map[id := spec]);
        if n == 4 then begun.Advance(0, WritingSpec(g, spec)).(mem := map[id := g], files := saved)
        else if n == 5 then begun.Advance(0, Installing(g, spec)).(mem := map[id := g], files := written)
        else
          var installed := InstallGrant(written, id, NoFault).0;
          if n == 6 then begun.Advance(0, Tidying(g)).(mem := map[id := g], files := installed)
          else begun.Finish(0).(mem := map[id := g], files := installed.(specs := installed.specs - {id}))
  }

  ghost function FirstEvent(g: Grant, spec: string, config: Config, n: nat): Event
    requires n < 7
  {
    if n == 0 then Boot(true, true, {}, [], config)
    else if n == 1 then BootDone
    else if n == 2 then Begin(0, g, spec)
    else if n == 3 then Save(0, true)
    else if n == 4 then WriteSpec(0, true)
    else if n == 5 then Install(0, NoFault, true)
    else Tidy(0, true)
  }

  ghost predicate FirstStepHolds(interval: nat, g: Grant, spec: string, config: Config, n: nat)
    requires n < 7
  {
    && Step(FirstRun(g, spec, config, n), FirstEvent(g, spec, config, n), FirstRun(g, spec, config, n + 1))
    && Benign(interval, FirstRun(g, spec, config, n), FirstEvent(g, spec, config, n))
  }

  ghost predicate FirstRequest(g: Grant, spec: string, config: Config) {
    && ValidId(g.grantid) && 1 <= g.expiresAt <= MAX_TTL
    && IsRenderedFor(spec, g.shortid, g.templateName, g.captured, config)
  }

  lemma FirstStartSteps(interval: nat, g: Grant, spec: string, config: Config, n: nat)
    requires FirstRequest(g, spec, config) && n < 3
    ensures FirstStepHolds(interval, g, spec, config, n)
  {
    hide DropIn, ValidId, SpecLanguage, IsRenderedFor;
    if n == 0 {
      var s := FirstRun(g, spec, config, 0);
      assert Listing(s.files.sudoers) == {} && s.Saved() == map[];
    }
  }

  lemma FirstSavingSteps(interval: nat, g: Grant, spec: string, config: Config, n: nat)
    requires FirstRequest(g, spec, config) && 3 <= n < 5
    ensures FirstStepHolds(interval, g, spec, config, n)
  {
    hide DropIn, ValidId, SpecLanguage, IsRenderedFor, Load;
  }

  lemma FirstInstallSteps(interval: nat, g: Grant, spec: string, config: Config, n: nat)
    requires FirstRequest(g, spec, config) && 5 <= n < 7
    ensures FirstStepHolds(interval, g, spec, config, n)
  {
    hide DropIn, ValidId, SpecLanguage, IsRenderedFor, Load;
    RenderedIsInstallable(spec, g.shortid, g.templateName, g.captured, config);
    if n == 5 {
      InstallEffect(FirstRun(g, spec, config, 5).files, g.grantid, NoFault);
    } else {
      assert FirstRun(g, spec, config, 7).tasks == map[];
    }
  }

  lemma FirstRunSteps(interval: nat, g: Grant, spec: string, config: Config, n: nat)
    requires FirstRequest(g, spec, config) && n < 7
    ensures FirstStepHolds(interval, g, spec, config, n)
  {
    hide FirstRequest, FirstStepHolds;
    if n < 3 {
      FirstStartSteps(interval, g, spec, config, n);
    } else if n < 5 {
      FirstSavingSteps(interval, g, spec, config, n);
    } else {
      FirstInstallSteps(interval, g, spec, config, n);
    }
  }

  lemma {:induction false} FirstRunIsRun(interval: nat, g: Grant, spec: string, config: Config, n: nat)
    returns (states: seq<State>, events: seq<Event>)
    requires FirstRequest(g, spec, config) && n <= 7
    ensures IsRun(interval, states, events) && |events| == n && states[n] == FirstRun(g, spec, config, n)
  {
    hide Step, Benign, FirstEvent, ValidId, SpecLanguage, IsRenderedFor;
    if n == 0 {
      states, events := [FirstRun(g, spec, config, 0)], [];
      assert Listing(states[0].files.sudoers) == {};
    } else {
      states, events := FirstRunIsRun(interval, g, spec, config, n - 1);
      FirstRunSteps(interval, g, spec, config, n - 1);
      ExtendRun(interval, states, events, FirstEvent(g, spec, config, n - 1), FirstRun(g, spec, config, n));
      states, events := states + [FirstRun(g, spec, config, n)], events + [FirstEvent(g, spec, config, n - 1)];
    }
  }

  /** For every grant and line there is a run under the assumptions that ends with the drop-in installed. */
  lemma InstallIsReachable(interval: nat, g: Grant, spec: string, config: Config)
    returns (states: seq<State>, events: seq<Event>)
    requires FirstRequest(g, spec, config)
    ensures IsRun(interval, states, events)
    ensures var s := states[|events|]; s.phase.Up? && s.tasks == map[] && OnDisk(s.files, g.grantid)
  {
    hide IsRun, ValidId, SpecLanguage, IsRenderedFor;
    RenderedIsInstallable(spec, g.shortid, g.templateName, g.captured, config);
    states, events := FirstRunIsRun(interval, g, spec, config, 7);
    InstallEffect(FirstRun(g, spec, config, 5).files, g.grantid, NoFault);
    assert FirstRun(g, spec, config, 7).tasks == map[];
  }
}
