/**
  The stores a sudo grant lives in, and what each single operation does to them: the state file
  `grants.json`, the pending `.spec` files and the sudoers directory.
 */
module GrantFiles {
  import opened StateFiles
  import opened GrantTemplate

  datatype Grant = Grant(grantid: Id, shortid: string, templateName: string, captured: Captured, expiresAt: int)

  // ---- grants.json ----

  type GrantsFile = StateFile<Grant>

  function GrantKey(g: Grant): Id {
    g.grantid
  }

  /** What a fresh manager has in memory after reading the file. */
  function Load(file: GrantsFile): map<Id, Grant> {
    LoadMap(file, GrantKey)
  }

  /** The file as it appears to a daemon that may fail to open it. */
  function AsRead(file: GrantsFile, readable: bool): GrantsFile {
    if readable then file else Unreadable
  }

  ghost predicate KeyedById(m: map<Id, Grant>) {
    Keyed(m, GrantKey)
  }

  ghost predicate Saves(file: GrantsFile, m: map<Id, Grant>) {
    Lists(file, m, GrantKey)
  }

  /** `persist_state_locked`: the file is replaced by some ordering of the map, or left alone. */
  ghost predicate Persisted(before: GrantsFile, m: map<Id, Grant>, ok: bool, after: GrantsFile) {
    if ok then Saves(after, m) else after == before
  }

  lemma LoadIsKeyed(file: GrantsFile)
    ensures KeyedById(Load(file))
  {
    if file.Document? {
      EntriesAreKeyed(file.entries, GrantKey);
    }
  }

  /** Saving then loading restores the grants, whatever order they were written in. */
  lemma SaveLoadRoundTrip(file: GrantsFile, m: map<Id, Grant>)
    requires KeyedById(m) && Saves(file, m)
    ensures Load(file) == m
  {
    ListedLoadsBack(file, m, GrantKey);
  }

  // ---- The sudoers directory and the setuid helper ----

  datatype Files = Files(state: GrantsFile, specs: map<Id, string>, sudoers: map<string, string>)

  const DROPIN_PREFIX := "mcp_grant_"

  function DropIn(id: Id): string {
    DROPIN_PREFIX + id
  }

  /** The name under which the helper stages a drop-in before renaming it. */
  function Staging(id: Id): string {
    "." + DROPIN_PREFIX + id + ".tmp"
  }

  predicate OnDisk(f: Files, id: Id) {
    DropIn(id) in f.sudoers
  }

  /** `on_disk_grants` looks at the name's prefix and length only, not at whether the id is hex. */
  predicate LooksLikeDropIn(name: string) {
    DROPIN_PREFIX <= name && |name| == 26
  }

  function Listing(sudoers: map<string, string>): set<Id> {
    set name | name in sudoers && LooksLikeDropIn(name) :: name[10..]
  }

  /** What `on_disk_grants` returns: a directory that cannot be opened looks empty, and a reading that stops
      early looks complete. */
  ghost predicate Scans(sudoers: map<string, string>, fault: ScanFault, seen: set<Id>) {
    && seen <= Listing(sudoers)
    && (fault.NoScanFault? ==> seen == Listing(sudoers))
    && (fault.CannotOpen? ==> seen == {})
  }

  datatype ScanFault = NoScanFault | CannotOpen | StopsAfter(n: nat)

  function DropIns(ids: set<Id>): set<string> {
    set id | id in ids :: DropIn(id)
  }

  lemma DropInNames(id: Id, other: Id)
    ensures DropIn(id) == "mcp_grant_" + id && Staging(id) == ".mcp_grant_" + id + ".tmp"
    ensures DropIn(id)[10..] == id
    ensures DropIn(id) == DropIn(other) ==> id == other
    ensures Staging(id) != DropIn(other)
    ensures |id| == 16 <==> LooksLikeDropIn(DropIn(id))
  {
    assert DropIn(id)[10..] == id && DropIn(other)[10..] == other;
    assert Staging(id)[0] == '.' && DropIn(other)[0] == 'm';
  }

  lemma ListingIsOnDisk(f: Files, id: Id)
    ensures id in Listing(f.sudoers) <==> |id| == 16 && OnDisk(f, id)
    ensures OnDisk(f, id) <==> "mcp_grant_" + id in f.sudoers
  {
    DropInNames(id, id);
    if id in Listing(f.sudoers) {
      var name :| name in f.sudoers && LooksLikeDropIn(name) && name[10..] == id;
      assert name == name[..10] + name[10..];
      assert name == DropIn(id);
    }
  }

  datatype InstallFault = NoFault | CannotOpenSpec | CannotStage | StagingIoError | VisudoRejects | RenameFails

  /** The helper's `install-grant`: the new stores and its exit code. */
  ghost function InstallGrant(f: Files, id: Id, fault: InstallFault): (Files, int) {
    if !ValidId(id) then (f, 10)
    else if id !in f.specs || fault == CannotOpenSpec then (f, 11)
    else if !SpecLanguage(f.specs[id]) then (f, 13)
    else if OnDisk(f, id) then (f, 14)
    else if fault == CannotStage then (f, 11)
    else
      var unstaged := f.(sudoers := f.sudoers - {Staging(id)});
      if fault == StagingIoError || fault == RenameFails then (unstaged, 11)
      else if fault == VisudoRejects then (unstaged, 13)
      else (f.(sudoers := unstaged.sudoers[DropIn(id) := f.specs[id]]), 0)
  }

  /** The helper's `revoke-grant`; a drop-in that is already gone is a success. */
  function RevokeGrant(f: Files, id: Id, unlinkOk: bool): (Files, int) {
    if !ValidId(id) then (f, 10)
    else if !unlinkOk then (f, 11)
    else (f.(sudoers := f.sudoers - {DropIn(id)}), 0)
  }

  /** A successful install adds exactly one drop-in, holding exactly the pending spec and in the language
      of installable lines; a failed one changes no drop-in. Neither touches the other stores or, apart from
      the staging name, any other file. */
  lemma InstallEffect(f: Files, id: Id, fault: InstallFault)
    ensures var (g, rc) := InstallGrant(f, id, fault);
            && g.state == f.state && g.specs == f.specs
            && (forall x | x != id :: OnDisk(g, x) == OnDisk(f, x)
                                      && (OnDisk(f, x) ==> g.sudoers[DropIn(x)] == f.sudoers[DropIn(x)]))
            && (rc == 0 <==> ValidId(id) && id in f.specs && SpecLanguage(f.specs[id]) && !OnDisk(f, id)
                             && fault == NoFault)
            && (rc == 0 ==> OnDisk(g, id) && g.sudoers[DropIn(id)] == f.specs[id])
            && (rc != 0 ==> OnDisk(g, id) == OnDisk(f, id)
                            && (OnDisk(f, id) ==> g.sudoers[DropIn(id)] == f.sudoers[DropIn(id)]))
            && g.sudoers - {Staging(id)}
               == if rc == 0 then (f.sudoers - {Staging(id)})[DropIn(id) := f.specs[id]] else f.sudoers - {Staging(id)}
  {
    forall x {
      DropInNames(id, x);
    }
  }

  /** What the helper's exit codes mean. */
  lemma InstallExitCodes(f: Files, id: Id, fault: InstallFault)
    ensures var rc := InstallGrant(f, id, fault).1;
            var pending := ValidId(id) && id in f.specs && fault != CannotOpenSpec;
            && (rc == 10 <==> !ValidId(id))
            && (rc == 13 <==> pending && (!SpecLanguage(f.specs[id]) || (!OnDisk(f, id) && fault == VisudoRejects)))
            && (rc == 14 <==> pending && SpecLanguage(f.specs[id]) && OnDisk(f, id))
            && (rc == 0 || rc == 10 || rc == 11 || rc == 13 || rc == 14)
    ensures forall ok :: var rc := RevokeGrant(f, id, ok).1;
                         rc == if !ValidId(id) then 10 else if ok then 0 else 11
  {
    hide DropIn, ValidId, SpecLanguage;
  }

  /** Revoking removes at most the one drop-in, and doing it twice is the same as doing it once. */
  lemma RevokeEffect(f: Files, id: Id, unlinkOk: bool)
    ensures var (g, rc) := RevokeGrant(f, id, unlinkOk);
            && g.state == f.state && g.specs == f.specs
            && (forall x | x != id :: OnDisk(g, x) == OnDisk(f, x)
                                      && (OnDisk(f, x) ==> g.sudoers[DropIn(x)] == f.sudoers[DropIn(x)]))
            && (rc == 0 <==> ValidId(id) && unlinkOk)
            && (if rc == 0 then !OnDisk(g, id) else g == f)
            && RevokeGrant(g, id, unlinkOk) == (g, rc)
  {
    forall x {
      DropInNames(id, x);
    }
    var g := RevokeGrant(f, id, unlinkOk).0;
    assert g.sudoers - {DropIn(id)} == if ValidId(id) && unlinkOk then g.sudoers else g.sudoers - {DropIn(id)};
  }

  /** One revocation: the helper's unlink, then the entry is erased and the map saved if there was one. */
  ghost predicate Revoked(m: map<Id, Grant>, f: Files, id: Id, unlinkOk: bool, persistOk: bool,
                          m': map<Id, Grant>, f': Files)
  {
    && m' == m - {id}
    && (if id in m then Persisted(f.state, m', persistOk, f'.state) else f'.state == f.state)
    && f' == RevokeGrant(f, id, unlinkOk).0.(state := f'.state)
  }

  ghost predicate RevokedAll(m: map<Id, Grant>, f: Files, ids: seq<Id>, unlinkOk: Id -> bool, persistOk: Id -> bool,
                             m': map<Id, Grant>, f': Files)
  {
    if ids == [] then m' == m && f' == f
    else
      var rest, id := ids[..|ids| - 1], ids[|ids| - 1];
      exists m1, f1 ::
        RevokedAll(m, f, rest, unlinkOk, persistOk, m1, f1) && Revoked(m1, f1, id, unlinkOk(id), persistOk(id), m', f')
  }

  lemma NoneRevoked(m: map<Id, Grant>, f: Files, unlinkOk: Id -> bool, persistOk: Id -> bool)
    ensures RevokedAll(m, f, [], unlinkOk, persistOk, m, f)
  {
  }

  lemma RevokedOneMore(m: map<Id, Grant>, f: Files, ids: seq<Id>, unlinkOk: Id -> bool, persistOk: Id -> bool,
                       m1: map<Id, Grant>, f1: Files, id: Id, m': map<Id, Grant>, f': Files)
    requires RevokedAll(m, f, ids, unlinkOk, persistOk, m1, f1)
    requires Revoked(m1, f1, id, unlinkOk(id), persistOk(id), m', f')
    ensures RevokedAll(m, f, ids + [id], unlinkOk, persistOk, m', f')
  {
    hide Revoked;
    assert (ids + [id])[..|ids|] == ids;
  }

  lemma NoneGone(sudoers: map<string, string>, unlinkOk: Id -> bool)
    ensures sudoers - DropIns(GoneFrom([], unlinkOk)) == sudoers
  {
  }

  lemma OneMoreGone(sudoers: map<string, string>, gone: set<Id>, id: Id)
    ensures sudoers - DropIns(gone + {id}) == sudoers - DropIns(gone) - {DropIn(id)}
  {
    assert DropIns(gone + {id}) == DropIns(gone) + {DropIn(id)};
  }

  lemma KeysAreValid(m: map<Id, Grant>, id: Id)
    requires KeyedById(m) && id in m
    ensures ValidId(id)
  {
  }

  function GoneFrom(ids: seq<Id>, unlinkOk: Id -> bool): set<Id> {
    set id | id in ids && ValidId(id) && unlinkOk(id)
  }

  lemma GoneFromOneMore(ids: seq<Id>, id: Id, unlinkOk: Id -> bool)
    ensures GoneFrom(ids + [id], unlinkOk)
         == if ValidId(id) && unlinkOk(id) then GoneFrom(ids, unlinkOk) + {id} else GoneFrom(ids, unlinkOk)
  {
  }

  lemma RevokedEffect(m: map<Id, Grant>, f: Files, id: Id, unlinkOk: bool, persistOk: bool,
                      m': map<Id, Grant>, f': Files)
    requires KeyedById(m) && Revoked(m, f, id, unlinkOk, persistOk, m', f')
    ensures KeyedById(m') && m' == m - {id} && f'.specs == f.specs
    ensures f'.sudoers == if ValidId(id) && unlinkOk then f.sudoers - {DropIn(id)} else f.sudoers
    ensures persistOk && Load(f.state) == m ==> Load(f'.state) == m'
  {
    if id in m && persistOk {
      SaveLoadRoundTrip(f'.state, m');
    }
  }

  /** Revoking several grants: the entries go, and of the files the drop-ins whose unlink succeeds. */
  lemma {:induction false} RevokedAllEffect(m: map<Id, Grant>, f: Files, ids: seq<Id>, unlinkOk: Id -> bool,
                                            persistOk: Id -> bool, m': map<Id, Grant>, f': Files)
    requires KeyedById(m) && RevokedAll(m, f, ids, unlinkOk, persistOk, m', f')
    ensures KeyedById(m') && m' == m - (set id | id in ids)
    ensures f'.specs == f.specs
    ensures f'.sudoers == f.sudoers - DropIns(GoneFrom(ids, unlinkOk))
    ensures (forall id :: persistOk(id)) && Load(f.state) == m ==> Load(f'.state) == m'
  {
    hide DropIn, DropIns, ValidId, Load, KeyedById, GoneFrom, Revoked;
    if ids == [] {
      NoneGone(f.sudoers, unlinkOk);
    } else {
      var rest, id := ids[..|ids| - 1], ids[|ids| - 1];
      var m1, f1 :|
        RevokedAll(m, f, rest, unlinkOk, persistOk, m1, f1) && Revoked(m1, f1, id, unlinkOk(id), persistOk(id), m', f');
      RevokedAllEffect(m, f, rest, unlinkOk, persistOk, m1, f1);
      hide RevokedAll;
      assert ids == rest + [id];
      RevokedEffect(m1, f1, id, unlinkOk(id), persistOk(id), m', f');
      GoneFromOneMore(rest, id, unlinkOk);
      OneMoreGone(f.sudoers, GoneFrom(rest, unlinkOk), id);
    }
  }

  lemma WithoutDropIns(f: Files, g: Files, ids: set<Id>)
    requires g.sudoers == f.sudoers - DropIns(ids)
    ensures forall x :: OnDisk(g, x) <==> OnDisk(f, x) && x !in ids
  {
    forall x
      ensures DropIn(x) in DropIns(ids) <==> x in ids
    {
      if DropIn(x) in DropIns(ids) {
        var y :| y in ids && DropIn(x) == DropIn(y);
        DropInNames(x, y);
      }
    }
    hide DropIn, DropIns;
  }

  // ---- Startup reconciliation ----

  predicate Live(m: map<Id, Grant>, listing: set<Id>, now: int, id: Id) {
    id in m && id in listing && m[id].expiresAt > now
  }

  function Survivors(m: map<Id, Grant>, listing: set<Id>, now: int): map<Id, Grant> {
    map id | id in m && Live(m, listing, now, id) :: m[id]
  }

  lemma SurvivorsAreKeyed(m: map<Id, Grant>, listing: set<Id>, now: int)
    requires KeyedById(m)
    ensures KeyedById(Survivors(m, listing, now))
  {
  }

  /** How often reconciliation hands an id to the helper: a grant that is expired but still installed
      is queued once as a dropped entry and again as a drop-in without an entry. */
  function TimesQueued(m: map<Id, Grant>, listing: set<Id>, now: int, id: Id): nat {
    if id !in listing || Live(m, listing, now, id) then 0 else if id in m then 2 else 1
  }

  ghost predicate QueuedForRemoval(m: map<Id, Grant>, listing: set<Id>, now: int, todo: seq<Id>) {
    forall id :: multiset(todo)[id] == TimesQueued(m, listing, now, id)
  }

  /** What is queued is exactly what was listed and does not survive; what survives is installed. */
  lemma QueuedIsTheRest(f: Files, m: map<Id, Grant>, seen: set<Id>, now: int, todo: seq<Id>)
    requires QueuedForRemoval(m, seen, now, todo) && KeyedById(m) && seen <= Listing(f.sudoers)
    ensures var kept := Survivors(m, seen, now);
            && KeptWereSeen(f, kept, seen)
            && (forall id :: id in todo <==> id in seen && id !in kept)
  {
    forall id
      ensures id in todo <==> id in seen && id !in Survivors(m, seen, now)
      ensures id in Survivors(m, seen, now) ==> ValidId(id) && OnDisk(f, id)
    {
      ListingIsOnDisk(f, id);
      assert id in todo <==> multiset(todo)[id] > 0;
    }
  }

  ghost predicate KeptWereSeen(f: Files, kept: map<Id, Grant>, seen: set<Id>) {
    forall id | id in kept :: ValidId(id) && OnDisk(f, id) && id in seen
  }

  /** After a startup an id is still installed if it was and is kept, or cannot be revoked, or was not listed. */
  ghost predicate LeftInstalled(f: Files, g: Files, kept: map<Id, Grant>, seen: set<Id>) {
    forall id :: OnDisk(g, id) <==> OnDisk(f, id) && (id in kept || !ValidId(id) || id !in seen)
  }

  /** No hex-named drop-in escaped the listing. */
  ghost predicate AllSeen(f: Files, seen: set<Id>) {
    forall id | ValidId(id) && OnDisk(f, id) :: id in seen
  }

  /** The hex-named drop-ins are the ids in `m`. */
  ghost predicate Agrees(g: Files, m: map<Id, Grant>) {
    forall id :: ValidId(id) && OnDisk(g, id) <==> id in m
  }

  lemma AgreesIffAllSeen(f: Files, g: Files, kept: map<Id, Grant>, seen: set<Id>)
    requires KeptWereSeen(f, kept, seen) && LeftInstalled(f, g, kept, seen)
    ensures Agrees(g, kept) <==> AllSeen(f, seen)
  {
    hide ValidId, DropIn;
    if AllSeen(f, seen) {
      assert Agrees(g, kept);
    } else {
      var id :| ValidId(id) && OnDisk(f, id) && id !in seen;
      assert OnDisk(g, id) && id !in kept;
    }
  }

  /** For a directory that is read whole or cannot be opened at all, `AllSeen` is something to check beforehand:
      it could be opened or holds no hex-named drop-in. */
  lemma AllSeenIffOpenedOrEmpty(f: Files, fault: ScanFault, seen: set<Id>)
    requires Scans(f.sudoers, fault, seen) && !fault.StopsAfter?
    ensures AllSeen(f, seen) <==> fault.NoScanFault? || forall id | ValidId(id) :: !OnDisk(f, id)
  {
    forall id
      ensures ValidId(id) && OnDisk(f, id) ==> id in Listing(f.sudoers)
    {
      ListingIsOnDisk(f, id);
    }
    if fault.CannotOpen? && AllSeen(f, seen) {
      assert forall id | ValidId(id) && OnDisk(f, id) :: id in seen;
    }
  }
}
