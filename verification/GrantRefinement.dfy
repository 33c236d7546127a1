/**
  The methods of `GrantManager` refine the protocol: what each of them leaves, run on its own, is where a sequence
  of the protocol's steps ends, with the same failures. So the protocol's theorems speak of the methods too.
 */
module GrantRefinement {
  import opened StateFiles
  import opened GrantTemplate
  import opened GrantFiles
  import opened Grants
  import opened GrantProtocol

  ghost predicate Reaches(s: State, events: seq<Event>, s': State) {
    if events == [] then s' == s
    else
      var before, last := events[..|events| - 1], events[|events| - 1];
      exists mid :: Reaches(s, before, mid) && Step(mid, last, s')
  }

  lemma ReachesOneMore(s: State, events: seq<Event>, mid: State, e: Event, s': State)
    requires Reaches(s, events, mid) && Step(mid, e, s')
    ensures Reaches(s, events + [e], s')
  {
    hide Step;
    assert (events + [e])[..|events|] == events;
  }

  lemma ReachesTwo(s: State, e1: Event, s1: State, e2: Event, s2: State)
    requires Step(s, e1, s1) && Step(s1, e2, s2)
    ensures Reaches(s, [e1, e2], s2)
  {
    hide Step;
    assert Reaches(s, [], s);
    ReachesOneMore(s, [], s, e1, s1);
    assert [] + [e1] == [e1];
    ReachesOneMore(s, [e1], s1, e2, s2);
    assert [e1] + [e2] == [e1, e2];
  }

  lemma ReachesThree(s: State, e1: Event, s1: State, e2: Event, s2: State, e3: Event, s3: State)
    requires Step(s, e1, s1) && Step(s1, e2, s2) && Step(s2, e3, s3)
    ensures Reaches(s, [e1, e2, e3], s3)
  {
    hide Step, Reaches;
    ReachesTwo(s, e1, s1, e2, s2);
    ReachesOneMore(s, [e1, e2], s2, e3, s3);
    assert [e1, e2] + [e3] == [e1, e2, e3];
  }

  lemma {:induction false} ReachesConcat(s: State, a: seq<Event>, mid: State, b: seq<Event>, s': State)
    requires Reaches(s, a, mid) && Reaches(mid, b, s')
    ensures Reaches(s, a + b, s')
  {
    hide Step;
    if b == [] {
      assert a + b == a;
    } else {
      var before, last := b[..|b| - 1], b[|b| - 1];
      var m :| Reaches(mid, before, m) && Step(m, last, s');
      ReachesConcat(s, a, mid, before, m);
      ReachesOneMore(s, a + before, m, last, s');
      assert a + before + [last] == a + b;
    }
  }

  // ---- request_grant ----

  /** From the writing of the spec on, when `install_grant_via_helper` returns `rc`. */
  function HelperEvents(tid: nat, faults: RequestFaults, rc: int): seq<Event> {
    var end := if rc == 0 then Tidy(tid, faults.tidyOk) else Undo(tid, faults.undoPersistOk);
    if !faults.specWriteOk then [WriteSpec(tid, false), end]
    else [WriteSpec(tid, true), Install(tid, faults.install, faults.reported), end]
  }

  /** The request that was begun in `s` with `line`, just before its helper is asked. */
  ghost function SavedState(s: State, tid: nat, g: Grant, line: string, saved: GrantsFile): State {
    s.Advance(tid, WritingSpec(g, line)).(
      mem := s.mem[g.grantid := g],
      files := s.files.(state := saved),
      issued := s.issued[g.grantid := Issue(g, line, s.config, s.clock)])
  }

  ghost predicate CanBegin(s: State, tid: nat, g: Grant, line: string) {
    && s.phase.Up? && tid !in s.tasks && ValidId(g.grantid) && 1 <= g.expiresAt - s.clock <= MAX_TTL
    && IsRenderedFor(line, g.shortid, g.templateName, g.captured, s.config)
  }

  lemma SavingIsSteps(s: State, tid: nat, g: Grant, line: string, saved: GrantsFile)
    requires CanBegin(s, tid, g, line) && Saves(saved, s.mem[g.grantid := g])
    ensures Reaches(s, [Begin(tid, g, line), Save(tid, true)], SavedState(s, tid, g, line, saved))
  {
    hide IsRenderedFor, ValidId, Saves, Reaches;
    var begun := s.Advance(tid, Saving(g, line)).(issued := s.issued[g.grantid := Issue(g, line, s.config, s.clock)]);
    var done := SavedState(s, tid, g, line, saved);
    assert done.tasks == begun.tasks[tid := WritingSpec(g, line)];
    ReachesTwo(s, Begin(tid, g, line), begun, Save(tid, true), done);
  }

  /** `s'` is `s` once the helper has been asked and the call has ended, well or badly. */
  ghost predicate HelperRan(s: State, tid: nat, g: Grant, line: string, faults: RequestFaults, s': State) {
    var (h, rc) := AfterHelper(s.files, g.grantid, line, faults);
    && s'.tasks == s.tasks - {tid}
    && (if rc == 0 then s'.mem == s.mem && s'.files == h
        else && s'.mem == s.mem - {g.grantid}
             && Persisted(h.state, s'.mem, faults.undoPersistOk, s'.files.state)
             && s'.files == h.(state := s'.files.state))
    && s' == s.(mem := s'.mem, files := s'.files, tasks := s'.tasks)
  }

  lemma HelperIsSteps(s: State, tid: nat, g: Grant, line: string, faults: RequestFaults, s': State)
    requires s.phase.Up? && tid in s.tasks && s.tasks[tid] == WritingSpec(g, line)
    requires HelperRan(s, tid, g, line, faults, s')
    ensures Reaches(s, HelperEvents(tid, faults, AfterHelper(s.files, g.grantid, line, faults).1), s')
  {
    hide InstallGrant, Saves, Reaches;
    if faults.specWriteOk {
      WrittenIsSteps(s, tid, g, line, faults, s');
    } else {
      var s1 := s.Advance(tid, Undoing(g));
      assert s1.tasks - {tid} == s.tasks - {tid};
      ReachesTwo(s, WriteSpec(tid, false), s1, Undo(tid, faults.undoPersistOk), s');
    }
  }

  ghost function InstalledState(s: State, tid: nat, g: Grant, faults: RequestFaults): State {
    var (h, rc) := InstallGrant(s.files, g.grantid, faults.install);
    s.Advance(tid, if rc == 0 && faults.reported then Tidying(g) else Undoing(g)).(files := h)
  }

  lemma InstallIsAStep(s: State, tid: nat, g: Grant, faults: RequestFaults)
    requires s.phase.Up? && tid in s.tasks && s.tasks[tid].Installing? && s.tasks[tid].g == g
    ensures Step(s, Install(tid, faults.install, faults.reported), InstalledState(s, tid, g, faults))
  {
    hide InstallGrant;
  }

  lemma WrittenIsSteps(s: State, tid: nat, g: Grant, line: string, faults: RequestFaults, s': State)
    requires s.phase.Up? && tid in s.tasks && s.tasks[tid] == WritingSpec(g, line) && faults.specWriteOk
    requires HelperRan(s, tid, g, line, faults, s')
    ensures Reaches(s, HelperEvents(tid, faults, AfterHelper(s.files, g.grantid, line, faults).1), s')
  {
    hide InstallGrant, Saves, Reaches;
    var rc := AfterHelper(s.files, g.grantid, line, faults).1;
    var s1 := s.Advance(tid, Installing(g, line)).(files := s.files.(specs := s.files.specs[g.grantid := line]));
    var s2 := InstalledState(s1, tid, g, faults);
    assert s2.tasks - {tid} == s.tasks - {tid};
    InstallEffect(s1.files, g.grantid, faults.install);
    InstallIsAStep(s1, tid, g, faults);
    var end := if rc == 0 then Tidy(tid, faults.tidyOk) else Undo(tid, faults.undoPersistOk);
    assert Step(s2, end, s');
    assert Step(s, WriteSpec(tid, true), s1);
    hide Step, AfterHelper, HelperRan, InstalledState;
    ReachesThree(s, WriteSpec(tid, true), s1, Install(tid, faults.install, faults.reported), s2, end, s');
  }

  /** What a request leaves that got as far as saving its entry. */
  lemma RequestIsSteps(s: State, tid: nat, g: Grant, line: string, faults: RequestFaults, saved: GrantsFile,
                       m': map<Id, Grant>, f': Files)
    returns (rc: int)
    requires CanBegin(s, tid, g, line) && g.grantid !in s.mem
    requires Requested(s.config, s.mem, s.files, g, line, faults, saved, m', f')
    ensures Reaches(s, [Begin(tid, g, line), Save(tid, true)] + HelperEvents(tid, faults, rc),
                    s.(mem := m', files := f', issued := s.issued[g.grantid := Issue(g, line, s.config, s.clock)]))
    ensures rc == 0 <==> g.grantid in m'
  {
    hide IsRenderedFor, ValidId, Saves, Reaches, AfterHelper;
    var mid := SavedState(s, tid, g, line, saved);
    var s' := s.(mem := m', files := f', issued := s.issued[g.grantid := Issue(g, line, s.config, s.clock)]);
    SavingIsSteps(s, tid, g, line, saved);
    rc := AfterHelper(mid.files, g.grantid, line, faults).1;
    assert mid.tasks - {tid} == s.tasks;
    assert mid.mem - {g.grantid} == s.mem - {g.grantid};
    HelperIsSteps(mid, tid, g, line, faults, s');
    ReachesConcat(s, [Begin(tid, g, line), Save(tid, true)], mid, HelperEvents(tid, faults, rc), s');
  }

  /** A request whose saving failed, under a fresh id. */
  lemma UnsavedRequestIsSteps(s: State, tid: nat, g: Grant, line: string)
    requires CanBegin(s, tid, g, line) && g.grantid !in s.mem
    ensures Reaches(s, [Begin(tid, g, line), Save(tid, false)],
                    s.(issued := s.issued[g.grantid := Issue(g, line, s.config, s.clock)]))
  {
    hide IsRenderedFor, ValidId, Saves, Reaches;
    var s' := s.(issued := s.issued[g.grantid := Issue(g, line, s.config, s.clock)]);
    var begun := s'.Advance(tid, Saving(g, line));
    assert begun.tasks - {tid} == s.tasks && begun.mem - {g.grantid} == s.mem;
    ReachesTwo(s, Begin(tid, g, line), begun, Save(tid, false), s');
  }

  // ---- revoke_grant ----

  lemma RevokeIsSteps(s: State, tid: nat, id: Id, unlinkOk: bool, persistOk: bool, m': map<Id, Grant>, f': Files)
    requires s.phase.Up? && tid !in s.tasks && ValidId(id)
    requires Revoked(s.mem, s.files, id, unlinkOk, persistOk, m', f')
    ensures Reaches(s, [BeginRevoke(tid, id), Unlink(tid, unlinkOk), Forget(tid, persistOk)],
                    s.(mem := m', files := f'))
  {
    hide ValidId, Saves, Reaches, RevokeGrant;
    var s1 := s.Advance(tid, Revoking(id));
    var s2 := s1.Advance(tid, Forgetting(id)).(files := RevokeGrant(s.files, id, unlinkOk).0);
    RevokeEffect(s.files, id, unlinkOk);
    assert s2.tasks - {tid} == s.tasks;
    ReachesThree(s, BeginRevoke(tid, id), s1, Unlink(tid, unlinkOk), s2, Forget(tid, persistOk),
                 s.(mem := m', files := f'));
  }

  // ---- sweep_expired ----

  /** After reading the clock and collecting `order`, the first `n` revocations. */
  function SweepEvents(order: seq<Id>, unlinkOk: Id -> bool, persistOk: Id -> bool, n: nat): seq<Event>
    requires n <= |order|
  {
    if n == 0 then [Wake, Collect(order)]
    else
      SweepEvents(order, unlinkOk, persistOk, n - 1)
      + [SweepUnlink(unlinkOk(order[n - 1])), SweepForget(persistOk(order[n - 1]))]
  }

  ghost function SweptState(s: State, order: seq<Id>, n: nat, m: map<Id, Grant>, f: Files): State
    requires n <= |order|
  {
    s.(mem := m, files := f, sweeper := if n == |order| then Asleep else Sweeping(order[n..], false),
       lastSweep := s.clock)
  }

  lemma {:induction false} SweepIsStepsUpTo(s: State, order: seq<Id>, unlinkOk: Id -> bool,
                                            persistOk: Id -> bool, n: nat,
                                            m: map<Id, Grant>, f: Files)
    requires s.phase.Up? && s.sweeper.Asleep? && n <= |order|
    requires forall id :: id in order <==> Expired(s.mem, s.clock, id)
    requires RevokedAll(s.mem, s.files, order[..n], unlinkOk, persistOk, m, f)
    ensures Reaches(s, SweepEvents(order, unlinkOk, persistOk, n), SweptState(s, order, n, m, f))
  {
    hide Saves, Reaches, RevokeGrant;
    if n == 0 {
      ReachesTwo(s, Wake, s.(sweeper := Awake(s.clock)), Collect(order), SweptState(s, order, 0, m, f));
    } else {
      assert order[..n][..n - 1] == order[..n - 1];
      var id := order[n - 1];
      var m1, f1 :|
        RevokedAll(s.mem, s.files, order[..n - 1], unlinkOk, persistOk, m1, f1)
        && Revoked(m1, f1, id, unlinkOk(id), persistOk(id), m, f);
      hide RevokedAll;
      SweepIsStepsUpTo(s, order, unlinkOk, persistOk, n - 1, m1, f1);
      var mid := SweptState(s, order, n - 1, m1, f1);
      RevocationIsSteps(mid, unlinkOk(id), persistOk(id), m, f);
      assert order[n - 1..][1..] == order[n..];
      ReachesConcat(s, SweepEvents(order, unlinkOk, persistOk, n - 1), mid,
                    [SweepUnlink(unlinkOk(id)), SweepForget(persistOk(id))], SweptState(s, order, n, m, f));
    }
  }

  lemma RevocationIsSteps(s: State, unlinkOk: bool, persistOk: bool, m': map<Id, Grant>, f': Files)
    requires s.phase.Up? && s.sweeper.Sweeping? && !s.sweeper.unlinked && s.sweeper.todo != []
    requires Revoked(s.mem, s.files, s.sweeper.todo[0], unlinkOk, persistOk, m', f')
    ensures var rest := s.sweeper.todo[1..];
            Reaches(s, [SweepUnlink(unlinkOk), SweepForget(persistOk)],
                    s.(mem := m', files := f', sweeper := if rest == [] then Asleep else Sweeping(rest, false)))
  {
    hide Saves, Reaches, RevokeGrant;
    var todo := s.sweeper.todo;
    var s1 := s.(sweeper := Sweeping(todo, true), files := RevokeGrant(s.files, todo[0], unlinkOk).0);
    RevokeEffect(s.files, todo[0], unlinkOk);
    ReachesTwo(s, SweepUnlink(unlinkOk), s1, SweepForget(persistOk),
               s.(mem := m', files := f', sweeper := if todo[1..] == [] then Asleep else Sweeping(todo[1..], false)));
  }

  lemma SweepIsSteps(s: State, order: seq<Id>, unlinkOk: Id -> bool, persistOk: Id -> bool,
                     m': map<Id, Grant>, f': Files)
    requires s.phase.Up? && s.sweeper.Asleep?
    requires forall id :: id in order <==> Expired(s.mem, s.clock, id)
    requires RevokedAll(s.mem, s.files, order, unlinkOk, persistOk, m', f')
    ensures Reaches(s, SweepEvents(order, unlinkOk, persistOk, |order|),
                    s.(mem := m', files := f', lastSweep := s.clock))
  {
    hide Reaches, RevokedAll;
    assert order[..|order|] == order;
    SweepIsStepsUpTo(s, order, unlinkOk, persistOk, |order|, m', f');
    assert SweptState(s, order, |order|, m', f') == s.(mem := m', files := f', lastSweep := s.clock);
  }

  // ---- Construction and reconcile_at_startup ----

  function BootEvents(boot: Event, unlinkOk: Id -> bool, n: nat): seq<Event>
    requires boot.Boot? && n <= |boot.todo|
  {
    if n == 0 then [boot] else BootEvents(boot, unlinkOk, n - 1) + [BootUnlink(unlinkOk(boot.todo[n - 1]))]
  }

  /** After the first `n` of the queued drop-ins were handed to the helper. */
  ghost function BootedState(s: State, boot: Event, unlinkOk: Id -> bool, saved: GrantsFile, n: nat): State
    requires boot.Boot? && n <= |boot.todo|
  {
    s.(phase := Booting(boot.todo[n..]), config := boot.config,
       mem := Survivors(s.Loaded(boot.readable), boot.seen, s.clock), lastSweep := s.clock,
       files := s.files.(state := saved,
                         sudoers := s.files.sudoers - DropIns(GoneFrom(boot.todo[..n], unlinkOk))))
  }

  ghost predicate CanBoot(s: State, boot: Event, saved: GrantsFile)
    requires boot.Boot?
  {
    var m, kept := s.Loaded(boot.readable), Survivors(s.Loaded(boot.readable), boot.seen, s.clock);
    && s.phase.Down? && boot.seen <= Listing(s.files.sudoers)
    && QueuedForRemoval(m, boot.seen, s.clock, boot.todo)
    && Persisted(s.files.state, kept, boot.ok, saved)
  }

  lemma BootIsAStep(s: State, boot: Event, unlinkOk: Id -> bool, saved: GrantsFile)
    requires boot.Boot? && CanBoot(s, boot, saved)
    ensures Step(s, boot, BootedState(s, boot, unlinkOk, saved, 0))
  {
    hide Saves, Survivors, DropIns, DropIn, GoneFrom, QueuedForRemoval, Load, Listing;
    NoneGone(s.files.sudoers, unlinkOk);
    assert boot.todo[0..] == boot.todo && boot.todo[..0] == [];
  }

  lemma BootUnlinkIsAStep(s: State, boot: Event, unlinkOk: Id -> bool, saved: GrantsFile, n: nat)
    requires boot.Boot? && 1 <= n <= |boot.todo|
    ensures Step(BootedState(s, boot, unlinkOk, saved, n - 1), BootUnlink(unlinkOk(boot.todo[n - 1])),
                 BootedState(s, boot, unlinkOk, saved, n))
  {
    hide Saves, Survivors, DropIns, DropIn, GoneFrom, QueuedForRemoval, Load, Listing;
    var todo, id := boot.todo, boot.todo[n - 1];
    assert todo[..n] == todo[..n - 1] + [id] && todo[n - 1..][1..] == todo[n..] && todo[n - 1..][0] == id;
    GoneFromOneMore(todo[..n - 1], id, unlinkOk);
    OneMoreGone(s.files.sudoers, GoneFrom(todo[..n - 1], unlinkOk), id);
  }

  lemma {:induction false} StartupIsStepsUpTo(s: State, boot: Event, unlinkOk: Id -> bool, saved: GrantsFile, n: nat)
    requires boot.Boot? && CanBoot(s, boot, saved) && n <= |boot.todo|
    ensures Reaches(s, BootEvents(boot, unlinkOk, n), BootedState(s, boot, unlinkOk, saved, n))
  {
    hide Step, CanBoot, BootedState;
    if n == 0 {
      BootIsAStep(s, boot, unlinkOk, saved);
      assert Reaches(s, [], s);
      ReachesOneMore(s, [], s, boot, BootedState(s, boot, unlinkOk, saved, 0));
      assert [] + [boot] == [boot];
    } else {
      StartupIsStepsUpTo(s, boot, unlinkOk, saved, n - 1);
      BootUnlinkIsAStep(s, boot, unlinkOk, saved, n);
      ReachesOneMore(s, BootEvents(boot, unlinkOk, n - 1), BootedState(s, boot, unlinkOk, saved, n - 1),
                     BootUnlink(unlinkOk(boot.todo[n - 1])), BootedState(s, boot, unlinkOk, saved, n));
    }
  }

  /** What construction and reconciliation leave: a manager that is up. */
  lemma StartupIsSteps(s: State, boot: Event, unlinkOk: Id -> bool, saved: GrantsFile)
    requires boot.Boot? && CanBoot(s, boot, saved)
    ensures Reaches(s, BootEvents(boot, unlinkOk, |boot.todo|) + [BootDone],
                    BootedState(s, boot, unlinkOk, saved, |boot.todo|).(phase := Up))
  {
    hide Reaches, CanBoot, DropIns, GoneFrom, Survivors;
    var n := |boot.todo|;
    StartupIsStepsUpTo(s, boot, unlinkOk, saved, n);
    var mid := BootedState(s, boot, unlinkOk, saved, n);
    assert mid.phase == Booting([]);
    ReachesOneMore(s, BootEvents(boot, unlinkOk, n), mid, BootDone, mid.(phase := Up));
  }
}
