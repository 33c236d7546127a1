/**
  `GrantManager` and the setuid helper's two grant commands as they run when nothing interleaves. What each
  method leaves is where a sequence of the protocol's steps ends: `GrantRefinement`.
 */
module Grants {
  import opened Wrappers
  import opened GrantTemplate
  import opened StateFiles
  import opened GrantFiles

  datatype GrantError =
    | BadTtl
    | UnknownTemplate(name: string)
    | RenderFailed(error: RenderError)
    | IllFormedSpec
    | PersistFailed
    | HelperFailed(rc: int)
    | InvalidId

  /** Which of the fallible operations inside one `request_grant` succeed. */
  datatype RequestFaults = RequestFaults(
    persistOk: bool,
    specWriteOk: bool,
    install: InstallFault,
    reported: bool,
    tidyOk: bool,
    undoPersistOk: bool)

  /** The helper gets as far as renaming the drop-in into place. */
  ghost predicate Installs(f: Files, id: Id, line: string, faults: RequestFaults) {
    faults.specWriteOk && faults.install == NoFault && SpecLanguage(line) && !OnDisk(f, id)
  }

  /** The state directory and the sudoers directory. */
  class Disk {
    var state: GrantsFile
    var specs: map<Id, string>
    var sudoers: map<string, string>

    constructor (f: Files)
      ensures View() == f
    {
      state, specs, sudoers := f.state, f.specs, f.sudoers;
    }

    function View(): Files
      reads this
    {
      Files(state, specs, sudoers)
    }
  }

  // ---- The helper ----

  method CmdInstallGrant(disk: Disk, grantid: Id, fault: InstallFault) returns (rc: int)
    modifies disk
    ensures (disk.View(), rc) == InstallGrant(old(disk.View()), grantid, fault)
  {
    if !ValidId(grantid) {
      return 10;
    }
    if grantid !in disk.specs || fault == CannotOpenSpec {
      return 11;
    }
    var buf := disk.specs[grantid];
    if |buf| > 4096 || |buf| == 0 {
      ChecksAreTheLanguage(buf);
      return 13;
    }
    var wellFormed := SpecWellFormed(buf);
    if !wellFormed {
      return 13;
    }
    var tmpPath, finalPath := Staging(grantid), DropIn(grantid);
    DropInNames(grantid, grantid);
    if finalPath in disk.sudoers {
      return 14;
    }
    if fault == CannotStage {
      return 11;
    }
    ghost var before := disk.sudoers;
    disk.sudoers := disk.sudoers[tmpPath := buf];
    if fault == StagingIoError || fault == VisudoRejects || fault == RenameFails {
      disk.sudoers := disk.sudoers - {tmpPath};
      assert disk.sudoers == before - {tmpPath};
      return if fault == VisudoRejects then 13 else 11;
    }
    disk.sudoers := (disk.sudoers - {tmpPath})[finalPath := disk.sudoers[tmpPath]];
    assert disk.sudoers == (before - {tmpPath})[finalPath := buf];
    return 0;
  }

  method CmdRevokeGrant(disk: Disk, grantid: Id, unlinkOk: bool) returns (rc: int)
    modifies disk
    ensures (disk.View(), rc) == RevokeGrant(old(disk.View()), grantid, unlinkOk)
  {
    if !ValidId(grantid) {
      return 10;
    }
    if !unlinkOk {
      return 11;
    }
    disk.sudoers := disk.sudoers - {DropIn(grantid)};
    return 0;
  }

  /** Everything `install_grant_via_helper` does: the pending spec, the helper, and the tidying up. */
  ghost function AfterHelper(f: Files, id: Id, line: string, faults: RequestFaults): (Files, int) {
    if !faults.specWriteOk then (f, -1)
    else
      var (h, rc) := InstallGrant(f.(specs := f.specs[id := line]), id, faults.install);
      if rc == 0 && faults.reported then (if faults.tidyOk then h.(specs := h.specs - {id}) else h, 0)
      else (h, if faults.reported then rc else -1)
  }

  /** What a request leaves that was entitled to `line` and whose entry has been saved, as `saved`. */
  ghost predicate Requested(c: Config, m: map<Id, Grant>, f: Files, g: Grant, line: string, faults: RequestFaults,
                            saved: GrantsFile, m': map<Id, Grant>, f': Files)
  {
    && IsRenderedFor(line, g.shortid, g.templateName, g.captured, c)
    && Saves(saved, m[g.grantid := g])
    && var (h, rc) := AfterHelper(f.(state := saved), g.grantid, line, faults);
       if rc == 0 then m' == m[g.grantid := g] && f' == h
       else && m' == m - {g.grantid}
            && Persisted(h.state, m', faults.undoPersistOk, f'.state)
            && f' == h.(state := f'.state)
  }

  ghost predicate RequestRan(c: Config, m: map<Id, Grant>, f: Files, g: Grant, faults: RequestFaults,
                             m': map<Id, Grant>, f': Files)
  {
    exists saved, line :: Requested(c, m, f, g, line, faults, saved, m', f')
  }

  predicate Expired(m: map<Id, Grant>, now: int, id: Id) {
    id in m && m[id].expiresAt <= now
  }

  class GrantManager {
    var grants: map<Id, Grant>
    const disk: Disk
    const config: Config

    ghost predicate Valid()
      reads this
    {
      KeyedById(grants)
    }

    /** `readable` says whether the state file, if there is one, can be opened. */
    constructor (disk: Disk, config: Config, readable: bool)
      ensures Valid() && this.disk == disk && this.config == config
      ensures grants == Load(AsRead(disk.state, readable))
    {
      this.disk, this.config := disk, config;
      grants := map[];
      new;
      LoadState(readable);
      LoadIsKeyed(disk.state);
      assert map[] + Load(disk.state) == Load(disk.state);
    }

    /** `load_state_locked`: entries of the file override what is in memory. */
    method LoadState(readable: bool)
      modifies this`grants
      ensures grants == old(grants) + Load(AsRead(disk.state, readable))
    {
      if !readable || disk.state.Unreadable? {
        return;
      }
      var entries := disk.state.entries;
      for i := 0 to |entries|
        invariant grants == old(grants) + LoadEntries(entries[..i], GrantKey)
      {
        assert entries[..i + 1][..i] == entries[..i];
        if entries[i].Record? && ValidId(entries[i].value.grantid) {
          grants := grants[entries[i].value.grantid := entries[i].value];
        }
      }
      assert entries[..|entries|] == entries;
    }

    /** `persist_state_locked`, in whatever order the map is walked. */
    method PersistState(ok: bool)
      requires Valid()
      modifies disk`state
      ensures if ok then Saves(disk.state, grants) else disk.state == old(disk.state)
    {
      var entries: seq<Entry<Grant>> := [];
      var rest := grants.Keys;
      while rest != {}
        invariant rest <= grants.Keys
        invariant AllFrom(entries, grants, GrantKey)
        invariant forall id | id in grants && id !in rest :: Record(grants[id]) in entries
      {
        var id :| id in rest;
        entries := entries + [Record(grants[id])];
        rest := rest - {id};
      }
      if ok {
        disk.state := Document(entries);
      }
    }

    /** A line is rendered exactly when the request is entitled to one, and the error says what is missing. */
    method Render(shortid: string, name: string, captured: Captured) returns (r: Result<string, GrantError>)
      ensures r.Success? <==> exists line :: IsRenderedFor(line, shortid, name, captured, config)
      ensures r.Success? ==> IsRenderedFor(r.value, shortid, name, captured, config)
      ensures r.Failure? ==> !r.error.BadTtl? && !r.error.PersistFailed? && !r.error.HelperFailed?
      ensures r == Failure(UnknownTemplate(name)) <==> name != "full_admin" && forall i :: !Named(config, name, i)
      ensures r == Failure(IllFormedSpec) <==>
                && name != "full_admin" && ValidShortid(shortid)
                && exists i, line :: Named(config, name, i) && !SpecLanguage(line)
                                     && IsLineOf(line, shortid, config.templates[i], captured, config)
    {
      hide SpecLanguage, Renders;
      var spec: Result<string, RenderError>;
      if name == FULL_ADMIN {
        spec := RenderFullAdminSpec(shortid);
      } else {
        var i := 0;
        while i < |config.templates| && config.templates[i].name != name
          invariant i <= |config.templates|
          invariant forall k | 0 <= k < i :: config.templates[k].name != name
        {
          i := i + 1;
        }
        if i == |config.templates| {
          return Failure(UnknownTemplate(name));
        }
        assert Named(config, name, i) && forall j | Named(config, name, j) :: j == i;
        spec := RenderSudoersSpec(shortid, config.templates[i], captured, config.matches);
        assert spec.Success? ==> IsLineOf(spec.value, shortid, config.templates[i], captured, config);
      }
      if spec.Failure? {
        return Failure(RenderFailed(spec.error));
      }
      var wellFormed := SpecIsWellFormed(spec.value);
      assert wellFormed ==> IsRenderedFor(spec.value, shortid, name, captured, config);
      assert forall line | IsRenderedFor(line, shortid, name, captured, config) :: line == spec.value;
      return if wellFormed then Success(spec.value) else Failure(IllFormedSpec);
    }

    /**
      A request succeeds exactly when it is entitled to a line and every step works, and then adds exactly one
      entry and one drop-in, holding exactly that line. One that fails under a fresh id leaves memory as it was,
      and before the helper's turn every file too. When the helper fails, the pending spec stays behind, the
      drop-ins are as they were unless it installed without saying so, and the saved entry goes if the second
      saving works.
     */
    method RequestGrant(shortid: string, name: string, captured: Captured, ttl: int,
                        newId: Id, now: int, faults: RequestFaults)
      returns (r: Result<Grant, GrantError>)
      requires Valid() && ValidId(newId)
      modifies this`grants, disk
      ensures Valid()
      ensures r.Success? <==>
                && 1 <= ttl <= 86400 && faults.persistOk && faults.reported
                && exists line :: IsRenderedFor(line, shortid, name, captured, config)
                                  && Installs(old(disk.View()), newId, line, faults)
      ensures r.Success? ==>
                && r.value == Grant(newId, shortid, name, captured, now + ttl)
                && grants == old(grants)[newId := r.value]
                && Saves(disk.state, grants)
                && OnDisk(disk.View(), newId)
                && IsRenderedFor(disk.sudoers[DropIn(newId)], shortid, name, captured, config)
      ensures disk.sudoers - {Staging(newId), DropIn(newId)} == old(disk.sudoers) - {Staging(newId), DropIn(newId)}
      ensures old(OnDisk(disk.View(), newId)) || (r.Failure? && faults.reported) ==>
                disk.sudoers - {Staging(newId)} == old(disk.sudoers) - {Staging(newId)}
      ensures disk.specs - {newId} == old(disk.specs) - {newId}
      ensures r.Success? ==> (newId in disk.specs <==> !faults.tidyOk)
      ensures r.Failure? && newId !in old(grants) ==> grants == old(grants)
      ensures r.Failure? && !r.error.HelperFailed? ==> disk.View() == old(disk.View())
      ensures r.Failure? && r.error.HelperFailed? ==>
                && (if faults.specWriteOk then newId in disk.specs else disk.specs == old(disk.specs))
                && (if faults.undoPersistOk then Load(disk.state) == grants else newId in Load(disk.state))
      ensures r.Success? || r.error.HelperFailed? ==>
                RequestRan(config, old(grants), old(disk.View()), Grant(newId, shortid, name, captured, now + ttl),
                           faults, grants, disk.View())
    {
      hide IsRenderedFor, DropIn, Staging, AfterHelper, Installs, Requested, RequestRan, Load;
      if ttl < 1 || ttl > 86400 {
        return Failure(BadTtl);
      }
      var g := Grant(newId, shortid, name, captured, now + ttl);
      var spec := Render(shortid, name, captured);
      if spec.Failure? {
        return Failure(spec.error);
      }

      ghost var m, f := grants, disk.View();
      grants := grants[newId := g];
      PersistState(faults.persistOk);
      if !faults.persistOk {
        grants := grants - {newId};
        return Failure(PersistFailed);
      }

      ghost var saved := disk.state;
      var rc := InstallGrantViaHelper(newId, spec.value, faults);
      if rc != 0 {
        grants := grants - {newId};
        PersistState(faults.undoPersistOk);
      }
      MakeRequested(config, m, f, g, spec.value, faults, saved, grants, disk.View());
      RequestedEffect(config, m, f, g, spec.value, faults, saved, grants, disk.View());
      RenderedIsUnique(shortid, name, captured, config);
      return if rc == 0 then Success(g) else Failure(HelperFailed(rc));
    }

    /** A helper that could not be started, or whose exit could not be learnt, counts as failed. */
    method InstallGrantViaHelper(id: Id, spec: string, faults: RequestFaults) returns (rc: int)
      requires ValidId(id)
      modifies disk
      ensures (disk.View(), rc) == AfterHelper(old(disk.View()), id, spec, faults)
    {
      hide InstallGrant;
      if !faults.specWriteOk {
        return -1;
      }
      disk.specs := disk.specs[id := spec];
      InstallEffect(disk.View(), id, faults.install);
      rc := CmdInstallGrant(disk, id, faults.install);
      if !faults.reported {
        rc := -1;
      }
      if rc == 0 && faults.tidyOk {
        disk.specs := disk.specs - {id};
      }
    }

    /** The entry goes whether or not the helper removed the drop-in; revoking twice is revoking once. */
    method RevokeGrant(id: Id, unlinkOk: bool, persistOk: bool) returns (r: Result<bool, GrantError>)
      requires Valid()
      modifies this`grants, disk
      ensures Valid()
      ensures !ValidId(id) <==> r == Failure(InvalidId)
      ensures !ValidId(id) ==> grants == old(grants) && disk.View() == old(disk.View())
      ensures ValidId(id) ==>
                && grants == old(grants) - {id}
                && disk.specs == old(disk.specs)
                && disk.sudoers == GrantFiles.RevokeGrant(old(disk.View()), id, unlinkOk).0.sudoers
                && (r == Failure(PersistFailed) <==> id in old(grants) && !persistOk)
                && Revoked(old(grants), old(disk.View()), id, unlinkOk, persistOk, grants, disk.View())
    {
      if !ValidId(id) {
        return Failure(InvalidId);
      }
      var _ := CmdRevokeGrant(disk, id, unlinkOk);
      var existed := id in grants;
      grants := grants - {id};
      if existed {
        PersistState(persistOk);
        if !persistOk {
          return Failure(PersistFailed);
        }
      }
      return Success(existed);
    }

    /** One sweep: exactly the expired entries go, and of the files exactly their drop-ins whose unlink succeeds. */
    method SweepExpired(now: int, unlinkOk: Id -> bool, persistOk: Id -> bool)
      requires Valid()
      modifies this`grants, disk
      ensures Valid()
      ensures grants == map id | id in old(grants) && old(grants)[id].expiresAt > now :: old(grants)[id]
      ensures disk.sudoers
           == old(disk.sudoers) - DropIns(set id | id in old(grants) && Expired(old(grants), now, id) && unlinkOk(id))
      ensures disk.specs == old(disk.specs)
      ensures exists order :: (forall id :: id in order <==> Expired(old(grants), now, id))
                              && RevokedAll(old(grants), old(disk.View()), order, unlinkOk, persistOk,
                                            grants, disk.View())
      ensures (forall id :: persistOk(id)) && old(Load(disk.state) == grants) ==> Load(disk.state) == grants
    {
      hide DropIn, ValidId, DropIns, Revoked, RevokedAll, KeyedById, Load;
      var toRevoke: set<Id> := set id | id in grants && grants[id].expiresAt <= now;
      ghost var all := toRevoke;
      ghost var order: seq<Id> := [];
      ghost var m0, f0 := grants, disk.View();
      NoneRevoked(m0, f0, unlinkOk, persistOk);
      while toRevoke != {}
        invariant Valid() && toRevoke <= all
        invariant forall id :: id in order <==> id in all - toRevoke
        invariant RevokedAll(m0, f0, order, unlinkOk, persistOk, grants, disk.View())
      {
        var id :| id in toRevoke;
        KeysAreValid(m0, id);
        ghost var m, f := grants, disk.View();
        var _ := RevokeGrant(id, unlinkOk(id), persistOk(id));
        RevokedOneMore(m0, f0, order, unlinkOk, persistOk, m, f, id, grants, disk.View());
        order := order + [id];
        toRevoke := toRevoke - {id};
      }
      RevokedAllEffect(m0, f0, order, unlinkOk, persistOk, grants, disk.View());
      assert GoneFrom(order, unlinkOk) == set id | id in m0 && Expired(m0, now, id) && unlinkOk(id) by {
        forall id | id in m0 {
          KeysAreValid(m0, id);
        }
      }
    }

    /** `on_disk_grants`: the ids, hex or not, of the files whose names look like drop-ins. Neither a directory
        that cannot be opened nor a reading that stops early is told apart from the whole. */
    method OnDiskGrants(fault: ScanFault) returns (out: seq<Id>)
      ensures forall i, j | 0 <= i < j < |out| :: out[i] != out[j]
      ensures Scans(disk.sudoers, fault, set id | id in out)
    {
      out := [];
      if fault.CannotOpen? {
        return;
      }
      var rest, read := disk.sudoers.Keys, 0;
      while rest != {} && !(fault.StopsAfter? && read == fault.n)
        invariant rest <= disk.sudoers.Keys
        invariant forall i, j | 0 <= i < j < |out| :: out[i] != out[j]
        invariant forall id :: id in out <==> LooksLikeDropIn(DropIn(id)) && DropIn(id) in disk.sudoers.Keys - rest
      {
        var name :| name in rest;
        if LooksLikeDropIn(name) {
          assert name == DropIn(name[10..]);
          forall id
            ensures DropIn(id) == name <==> id == name[10..]
          {
            DropInNames(id, name[10..]);
          }
          out := out + [name[10..]];
        }
        rest, read := rest - {name}, read + 1;
      }
      forall id
        ensures id in Listing(disk.sudoers) <==> LooksLikeDropIn(DropIn(id)) && DropIn(id) in disk.sudoers
      {
        DropInNames(id, id);
        ListingIsOnDisk(disk.View(), id);
      }
    }

    /** Startup reconciliation; `seen` is what the directory looked like, the two lists are what the daemon logs
        the sizes of. */
    method ReconcileAtStartup(now: int, scan: ScanFault, persistOk: bool, unlinkOk: Id -> bool)
      returns (fromDisk: seq<Id>, fromState: set<Id>, ghost seen: set<Id>)
      requires Valid()
      modifies this`grants, disk
      ensures Valid() && Scans(old(disk.sudoers), scan, seen)
      ensures grants == Survivors(old(grants), seen, now)
      ensures fromState == old(grants).Keys - grants.Keys
      ensures QueuedForRemoval(old(grants), seen, now, fromDisk)
      ensures if persistOk then Saves(disk.state, grants) else disk.state == old(disk.state)
      ensures disk.sudoers
           == old(disk.sudoers) - DropIns(GoneFrom(fromDisk, unlinkOk))
      ensures disk.specs == old(disk.specs)
    {
      hide Listing, DropIn, ValidId, DropIns;
      var onDisk := OnDiskGrants(scan);
      seen := set id | id in onDisk;
      fromDisk, fromState := DropStale(now, onDisk, seen);
      fromDisk := QueueStrays(onDisk, fromDisk);
      PersistState(persistOk);
      RemoveDropIns(fromDisk, unlinkOk);
    }

    /** The second loop of the locked block: whatever is installed without an entry is queued. */
    method QueueStrays(onDisk: seq<Id>, queued: seq<Id>) returns (fromDisk: seq<Id>)
      requires forall i, j | 0 <= i < j < |onDisk| :: onDisk[i] != onDisk[j]
      ensures forall id :: multiset(fromDisk)[id]
                           == multiset(queued)[id] + if id in onDisk && id !in grants then 1 else 0
    {
      fromDisk := queued;
      for i := 0 to |onDisk|
        invariant forall id :: multiset(fromDisk)[id]
                               == multiset(queued)[id] + if id in onDisk[..i] && id !in grants then 1 else 0
      {
        assert onDisk[..i + 1] == onDisk[..i] + [onDisk[i]] && onDisk[i] !in onDisk[..i];
        if onDisk[i] !in grants {
          fromDisk := fromDisk + [onDisk[i]];
        }
      }
      assert onDisk[..|onDisk|] == onDisk;
    }

    /** The first loop of the locked block: entries that expired or never reached the disk are dropped. */
    method DropStale(now: int, onDisk: seq<Id>, ghost listing: set<Id>)
      returns (fromDisk: seq<Id>, fromState: set<Id>)
      requires Valid() && forall id :: id in onDisk <==> id in listing
      modifies this`grants
      ensures Valid() && grants == Survivors(old(grants), listing, now)
      ensures fromState == old(grants).Keys - grants.Keys
      ensures forall id :: multiset(fromDisk)[id]
                           == if id in old(grants) && id in listing && id !in grants then 1 else 0
    {
      hide KeyedById;
      ghost var m := grants;
      SurvivorsAreKeyed(m, listing, now);
      fromDisk, fromState := [], {};
      var rest := grants.Keys;
      while rest != {}
        invariant rest <= m.Keys
        invariant grants == map id | id in m && (id in rest || Live(m, listing, now, id)) :: m[id]
        invariant fromState == set id | id in m && id !in rest && !Live(m, listing, now, id)
        invariant forall id :: multiset(fromDisk)[id]
                               == if id in m && id !in rest && id in listing && !Live(m, listing, now, id) then 1 else 0
      {
        var id :| id in rest;
        var expired := grants[id].expiresAt <= now;
        var onDiskMatch := id in onDisk;
        if expired || !onDiskMatch {
          fromState := fromState + {id};
          if onDiskMatch {
            fromDisk := fromDisk + [id];
          }
          grants := grants - {id};
        }
        rest := rest - {id};
      }
      assert grants == Survivors(m, listing, now);
    }

    method RemoveDropIns(ids: seq<Id>, unlinkOk: Id -> bool)
      modifies disk
      ensures disk.state == old(disk.state) && disk.specs == old(disk.specs)
      ensures disk.sudoers == old(disk.sudoers) - DropIns(GoneFrom(ids, unlinkOk))
    {
      hide DropIn, ValidId, DropIns;
      NoneGone(disk.sudoers, unlinkOk);
      assert ids[..0] == [];
      for i := 0 to |ids|
        invariant disk.state == old(disk.state) && disk.specs == old(disk.specs)
        invariant disk.sudoers == old(disk.sudoers) - DropIns(GoneFrom(ids[..i], unlinkOk))
      {
        assert ids[..i + 1] == ids[..i] + [ids[i]];
        GoneFromOneMore(ids[..i], ids[i], unlinkOk);
        OneMoreGone(old(disk.sudoers), GoneFrom(ids[..i], unlinkOk), ids[i]);
        var _ := CmdRevokeGrant(disk, ids[i], unlinkOk(ids[i]));
      }
      assert ids[..|ids|] == ids;
    }
  }

  /** The helper returns 0 exactly when it installed and said so. The sudoers directory gains exactly the one
      drop-in if it installed, and is otherwise the same up to the staging name; the pending spec stays unless it
      could not be written or was tidied up. */
  lemma HelperEffect(f: Files, id: Id, line: string, faults: RequestFaults)
    requires ValidId(id)
    ensures var (g, rc) := AfterHelper(f, id, line, faults);
            && g.state == f.state
            && (rc == 0 <==> Installs(f, id, line, faults) && faults.reported)
            && g.sudoers - {Staging(id)}
               == (if Installs(f, id, line, faults) then (f.sudoers - {Staging(id)})[DropIn(id) := line]
                   else f.sudoers - {Staging(id)})
            && g.specs == if !faults.specWriteOk then f.specs
                          else if rc == 0 && faults.tidyOk then f.specs - {id}
                          else f.specs[id := line]
  {
    hide SpecLanguage, DropIn, Staging, InstallGrant;
    InstallEffect(f.(specs := f.specs[id := line]), id, faults.install);
    if faults.specWriteOk {
      assert f.specs[id := line] - {id} == f.specs - {id};
    }
  }

  lemma MakeRequested(c: Config, m: map<Id, Grant>, f: Files, g: Grant, line: string, faults: RequestFaults,
                      saved: GrantsFile, m': map<Id, Grant>, f': Files)
    requires IsRenderedFor(line, g.shortid, g.templateName, g.captured, c) && Saves(saved, m[g.grantid := g])
    requires var (h, rc) := AfterHelper(f.(state := saved), g.grantid, line, faults);
             if rc == 0 then m' == m[g.grantid := g] && f' == h
             else && m' == m[g.grantid := g] - {g.grantid}
                  && Persisted(h.state, m', faults.undoPersistOk, f'.state)
                  && f' == h.(state := f'.state)
    ensures Requested(c, m, f, g, line, faults, saved, m', f') && RequestRan(c, m, f, g, faults, m', f')
  {
    hide IsRenderedFor, AfterHelper;
    assert m[g.grantid := g] - {g.grantid} == m - {g.grantid};
  }

  /** What that means for each store. */
  lemma RequestedEffect(c: Config, m: map<Id, Grant>, f: Files, g: Grant, line: string, faults: RequestFaults,
                        saved: GrantsFile, m': map<Id, Grant>, f': Files)
    requires KeyedById(m) && ValidId(g.grantid) && Requested(c, m, f, g, line, faults, saved, m', f')
    ensures var id := g.grantid;
            var ok := Installs(f, id, line, faults) && faults.reported;
            && AfterHelper(f.(state := saved), id, line, faults).1 == 0 <==> ok
    ensures var id := g.grantid;
            var installed := Installs(f, id, line, faults);
            var ok := installed && faults.reported;
            && m' == (if ok then m[id := g] else m - {id})
            && f'.sudoers - {Staging(id), DropIn(id)} == f.sudoers - {Staging(id), DropIn(id)}
            && (installed ==> faults.specWriteOk && !OnDisk(f, id) && OnDisk(f', id) && f'.sudoers[DropIn(id)] == line)
            && (!installed ==> f'.sudoers - {Staging(id)} == f.sudoers - {Staging(id)})
            && f'.specs - {id} == f.specs - {id}
            && (id in f'.specs <==> (if faults.specWriteOk then !(ok && faults.tidyOk) else id in f.specs))
            && (!faults.specWriteOk ==> f'.specs == f.specs)
            && (ok ==> Saves(f'.state, m'))
            && (!ok ==> if faults.undoPersistOk then Load(f'.state) == m' else id in Load(f'.state))
  {
    hide IsRenderedFor, SpecLanguage, DropIn, Staging, AfterHelper, ValidId, Load;
    var id := g.grantid;
    HelperEffect(f.(state := saved), id, line, faults);
    DropInNames(id, id);
    OnlyThese(f.sudoers, f'.sudoers, Staging(id), DropIn(id), line);
    SaveLoadRoundTrip(saved, m[id := g]);
    if Saves(f'.state, m') {
      SaveLoadRoundTrip(f'.state, m');
    }
  }

  lemma OnlyThese(before: map<string, string>, after: map<string, string>, staging: string,
                  dropIn: string, line: string)
    requires after - {staging} == (before - {staging})[dropIn := line] || after - {staging} == before - {staging}
    ensures after - {staging, dropIn} == before - {staging, dropIn}
    ensures after - {staging} == (before - {staging})[dropIn := line] ==> dropIn in after && after[dropIn] == line
  {
    if after - {staging} == (before - {staging})[dropIn := line] {
      assert dropIn in after - {staging} && (after - {staging})[dropIn] == line;
    }
    assert after - {staging, dropIn} == after - {staging} - {dropIn};
    assert before - {staging, dropIn} == before - {staging} - {dropIn};
    assert (before - {staging})[dropIn := line] - {dropIn} == before - {staging} - {dropIn};
  }

  lemma RenderedIsUnique(shortid: string, name: string, captured: Captured, c: Config)
    ensures forall a, b | IsRenderedFor(a, shortid, name, captured, c)
                   && IsRenderedFor(b, shortid, name, captured, c) ::
              a == b
  {
    hide SpecLanguage, Renders;
    assert forall i, j | Named(c, name, i) && Named(c, name, j) :: i == j;
  }

  /**
    Construction then reconciliation, from any contents, with the unlinks and the saving working: the hex-named
    drop-ins, the entries in memory and those in the file are afterwards the same live grants exactly when
    no hex-named drop-in escaped the listing.
   */
  method StartDaemon(disk: Disk, config: Config, now: int, readable: bool, scan: ScanFault)
    returns (manager: GrantManager, ghost seen: set<Id>, ghost todo: seq<Id>)
    modifies disk
    ensures manager.disk == disk && manager.config == config && fresh(manager) && Scans(old(disk.sudoers), scan, seen)
    ensures manager.grants == Load(disk.state) == Survivors(Load(AsRead(old(disk.state), readable)), seen, now)
    ensures LeftInstalled(old(disk.View()), disk.View(), manager.grants, seen)
    ensures QueuedForRemoval(Load(AsRead(old(disk.state), readable)), seen, now, todo)
    ensures Saves(disk.state, manager.grants) && disk.specs == old(disk.specs)
    ensures disk.sudoers == old(disk.sudoers) - DropIns(GoneFrom(todo, _ => true))
    ensures Agrees(disk.View(), manager.grants) <==> AllSeen(old(disk.View()), seen)
  {
    ghost var f := disk.View();
    manager := new GrantManager(disk, config, readable);
    ghost var m := manager.grants;
    ghost var fromState;
    var fromDisk;
    fromDisk, fromState, seen := manager.ReconcileAtStartup(now, scan, true, _ => true);
    todo := fromDisk;
    SaveLoadRoundTrip(disk.state, manager.grants);
    QueuedIsTheRest(f, m, seen, now, fromDisk);
    WithoutDropIns(f, disk.View(), GoneFrom(fromDisk, _ => true));
    AgreesIffAllSeen(f, disk.View(), manager.grants, seen);
  }
}
