/**
 The registry store over whole runs: admission, containment and activation applied in any order.
 */
module AdmissionRuns {
  import opened Values
  import opened Admission
  import opened AdmissionKeeps

  // ---------------------------------------------------------------- admission keeps the invariant

  lemma SnapshotStays(env: Env, db: Db, after: Db, id: string, admitted: map<Slot, View>, views: set<View>)
    requires SnapshotSound(env, db, id, admitted, views)
    requires id in after.snapshots && after.snapshots[id] == db.snapshots[id]
    requires id in after.entries && after.entries[id] == db.entries[id] && id in after.admissions
    requires Extends(db.contracts, after.contracts)
    ensures SnapshotSound(env, after, id, admitted, views)
  {
    hide Identified;
    forall slot | slot in admitted
      ensures admitted[slot] in views && SlotSound(env, after, slot, admitted[slot], after.entries[id][slot])
    {
      assert SlotSound(env, db, slot, admitted[slot], db.entries[id][slot]);
    }
  }

  lemma SlotOfEntry(env: Env, after: Db, reg: Registry, i: nat, views: set<View>, refSets: set<set<Ref>>)
    requires Strict(env, reg) && Known(env, reg, views, refSets) && i < |reg.entries|
    requires reg.snapshotId in after.entries
    requires Slotted(env, Rows(after.contracts, after.entries[reg.snapshotId]), reg.entries[i])
    ensures var slot := reg.entries[i].slot;
            && slot in Admitting(reg.entries)
            && after.entries[reg.snapshotId][slot] == reg.manifest.refs[i]
            && Admitting(reg.entries)[slot] in views
            && SlotSound(env, after, slot, Admitting(reg.entries)[slot], after.entries[reg.snapshotId][slot])
  {
    FamiliesDistinct(env, reg);
    AdmittingAt(reg.entries, i);
    KnownViews(env, reg, views, refSets);
    hide Admitting, Known, Views, Slots;
  }

  ghost predicate EntrySound(env: Env, after: Db, reg: Registry, i: nat, views: set<View>)
    requires i < |reg.entries| && |reg.manifest.refs| == |reg.entries| && reg.snapshotId in after.entries
  {
    var slots, admitted, slot := after.entries[reg.snapshotId], Admitting(reg.entries), reg.entries[i].slot;
    && slot in admitted && slot in slots && slots[slot] == reg.manifest.refs[i]
    && admitted[slot] in views && SlotSound(env, after, slot, admitted[slot], slots[slot])
  }

  lemma EntriesSound(env: Env, after: Db, reg: Registry, views: set<View>, refSets: set<set<Ref>>)
    requires Strict(env, reg) && Known(env, reg, views, refSets) && reg.snapshotId in after.entries
    requires AllSlotted(env, Rows(after.contracts, after.entries[reg.snapshotId]), reg.entries)
    ensures forall i | 0 <= i < |reg.entries| :: EntrySound(env, after, reg, i, views)
  {
    forall i | 0 <= i < |reg.entries| ensures EntrySound(env, after, reg, i, views) {
      assert Slotted(env, Rows(after.contracts, after.entries[reg.snapshotId]), reg.entries[i]);
      SlotOfEntry(env, after, reg, i, views, refSets);
    }
  }

  lemma SlotValues(env: Env, after: Db, reg: Registry, views: set<View>)
    requires |reg.manifest.refs| == |reg.entries| && reg.snapshotId in after.entries
    requires after.entries[reg.snapshotId].Keys == Slots(reg.entries)
    requires forall i | 0 <= i < |reg.entries| :: EntrySound(env, after, reg, i, views)
    ensures after.entries[reg.snapshotId].Values == RefSet(reg.manifest)
  {
    hide SlotSound, Admitting;
    var slots := after.entries[reg.snapshotId];
    forall r | r in slots.Values ensures r in RefSet(reg.manifest) {
      var slot :| slot in slots && slots[slot] == r;
      var i :| 0 <= i < |reg.entries| && reg.entries[i].slot == slot;
      assert EntrySound(env, after, reg, i, views);
    }
    forall r | r in RefSet(reg.manifest) ensures r in slots.Values {
      var i :| 0 <= i < |reg.manifest.refs| && reg.manifest.refs[i] == r;
      assert EntrySound(env, after, reg, i, views);
    }
  }

  lemma NewSnapshot(env: Env, after: Db, reg: Registry, views: set<View>, refSets: set<set<Ref>>)
    requires Strict(env, reg) && Known(env, reg, views, refSets)
    requires reg.snapshotId in after.snapshots && reg.snapshotId in after.admissions && reg.snapshotId in after.entries
    requires Identified(env, after.snapshots[reg.snapshotId], reg.snapshotId)
    requires RefSet(after.snapshots[reg.snapshotId]) == RefSet(reg.manifest)
    requires after.entries[reg.snapshotId].Keys == Slots(reg.entries)
    requires AllSlotted(env, Rows(after.contracts, after.entries[reg.snapshotId]), reg.entries)
    ensures SnapshotSound(env, after, reg.snapshotId, Admitting(reg.entries), views)
  {
    var id, admitted := reg.snapshotId, Admitting(reg.entries);
    EntriesSound(env, after, reg, views, refSets);
    SlotValues(env, after, reg, views);
    FamiliesDistinct(env, reg);
    AdmittingKeys(reg.entries);
    AdmittingViews(reg.entries);
    assert |reg.manifest.refs| == |reg.entries| && env.crossOk(Views(reg.entries));
    hide Strict, Known, Identified, AllSlotted, Admitting, SlotSound, Views, RefSet;
    forall slot | slot in admitted
      ensures admitted[slot] in views && SlotSound(env, after, slot, admitted[slot], after.entries[id][slot])
    {
      var i :| 0 <= i < |reg.entries| && reg.entries[i].slot == slot;
      assert EntrySound(env, after, reg, i, views);
    }
  }

  /** The stored manifest of an admitted ID names the references the registry names. */
  lemma SameReferences(env: Env, db: Db, reg: Registry, views: set<View>, refSets: set<set<Ref>>)
    requires SnapshotsKnown(env, db, refSets) && CollisionFree(env, views, refSets)
    requires Strict(env, reg) && Known(env, reg, views, refSets)
    requires reg.snapshotId in db.snapshots && Identified(env, db.snapshots[reg.snapshotId], reg.snapshotId)
    ensures RefSet(db.snapshots[reg.snapshotId]) == RefSet(reg.manifest)
  {
    hide Views;
  }

  /** What a first admission leaves behind: the new snapshot, and every earlier row. */
  lemma FirstKeeps(env: Env, db: Db, catalog: Catalog, reg: Registry, views: set<View>, refSets: set<set<Ref>>)
    requires Sound(env, db, catalog, views, refSets) && CollisionFree(env, views, refSets)
    requires reg.strict && Strict(env, reg) && Known(env, reg, views, refSets)
    requires Admit(env, db, reg).Some? && reg.snapshotId !in catalog
    ensures var after := Admit(env, db, reg).value;
            && SnapshotSound(env, after, reg.snapshotId, Admitting(reg.entries), views)
            && RowsSound(env, after.contracts, views) && Extends(db.contracts, after.contracts)
            && Extends(db.snapshots, after.snapshots)
            && after.entries.Keys == db.entries.Keys + {reg.snapshotId}
            && (forall id | id in db.entries :: after.entries[id] == db.entries[id])
            && after.admissions == db.admissions[reg.snapshotId := Admitted]
            && SnapshotsKnown(env, after, refSets)
  {
    hide Strict, Known, CollisionFree, Sound, SnapshotSound, InsertAll, RowsSound, Identified, AllSlotted, Slots,
         Admitting, SnapshotsKnown, Admit, RefSet, Fits;
    var id, after := reg.snapshotId, Admit(env, db, reg).value;
    SoundFacts(env, db, catalog, views, refSets, id);
    SoundKnown(env, db, catalog, reg, views, refSets);
    FirstAdmission(env, db, reg, views, refSets);
    FirstRows(env, db.contracts, reg, views, refSets);
    if id in db.snapshots {
      SameReferences(env, db, reg, views, refSets);
    }
    FirstKnown(env, db, after, reg, views, refSets);
    NewSnapshot(env, after, reg, views, refSets);
  }

  lemma SoundKnown(env: Env, db: Db, catalog: Catalog, reg: Registry, views: set<View>, refSets: set<set<Ref>>)
    requires Sound(env, db, catalog, views, refSets) && Strict(env, reg)
    ensures SnapshotsKnown(env, db, refSets)
    ensures Identified(env, reg.manifest, reg.snapshotId)
  {
  }

  /** The invariant, assembled from what a first admission leaves behind. */
  lemma SoundWith(env: Env, db: Db, after: Db, catalog: Catalog, id: string, admitted: map<Slot, View>,
                  views: set<View>, refSets: set<set<Ref>>)
    requires Sound(env, db, catalog, views, refSets) && id !in catalog
    requires SnapshotSound(env, after, id, admitted, views)
    requires RowsSound(env, after.contracts, views) && Extends(db.contracts, after.contracts)
    requires Extends(db.snapshots, after.snapshots)
    requires after.entries.Keys == db.entries.Keys + {id}
    requires forall other | other in db.entries :: after.entries[other] == db.entries[other]
    requires after.admissions == db.admissions[id := Admitted]
    requires SnapshotsKnown(env, after, refSets)
    ensures Sound(env, after, catalog[id := admitted], views, refSets)
  {
    hide SnapshotsKnown, Identified;
    assert ContractsSound(env, after, views);
    hide ContractsSound, RowsSound;
    var recorded := catalog[id := admitted];
    forall other | other in recorded ensures SnapshotSound(env, after, other, recorded[other], views) {
      if other != id {
        assert SnapshotSound(env, db, other, catalog[other], views);
        SnapshotStays(env, db, after, other, catalog[other], views);
      }
    }
  }

  /** Every admission attempt keeps the invariant; a first one records its views. */
  lemma AdmitKeeps(env: Env, db: Db, catalog: Catalog, reg: Registry, views: set<View>, refSets: set<set<Ref>>)
    requires Sound(env, db, catalog, views, refSets) && CollisionFree(env, views, refSets)
    requires reg.strict ==> Strict(env, reg) && Known(env, reg, views, refSets)
    requires Admit(env, db, reg).Some?
    ensures Sound(env, Admit(env, db, reg).value, Recorded(env, db, catalog, reg), views, refSets)
  {
    var id, after := reg.snapshotId, Admit(env, db, reg).value;
    assert reg.strict;
    if id in catalog {
      ReadmissionIdle(env, db, catalog, reg, views, refSets);
    } else {
      hide Strict, Known, CollisionFree, Sound, SnapshotSound, RowsSound, Admitting, Admit;
      FirstKeeps(env, db, catalog, reg, views, refSets);
      SoundWith(env, db, after, catalog, id, Admitting(reg.entries), views, refSets);
    }
  }

  lemma FirstKnown(env: Env, db: Db, after: Db, reg: Registry, views: set<View>, refSets: set<set<Ref>>)
    requires SnapshotsKnown(env, db, refSets) && Known(env, reg, views, refSets)
    requires after.snapshots == if reg.snapshotId in db.snapshots then db.snapshots
                                else db.snapshots[reg.snapshotId := reg.manifest]
    ensures SnapshotsKnown(env, after, refSets)
  {
    hide Identified;
  }

  // ---------------------------------------------------------------- containment and activation

  function Rank(s: SnapshotState): nat {
    match s
    case Admitted => 0
    case Deprecated => 1
    case Quarantined => 2
    case Revoked => 3
  }

  /** The transition table of `set_snapshot_state`. */
  predicate Allowed(current: SnapshotState, next: SnapshotState) {
    match current
    case Admitted => true
    case Deprecated => next in {Deprecated, Quarantined, Revoked}
    case Quarantined => next in {Quarantined, Revoked}
    case Revoked => next == Revoked
  }

  /** The table is exactly the order of restriction. */
  lemma AllowedIsRank(current: SnapshotState, next: SnapshotState)
    ensures Allowed(current, next) <==> Rank(current) <= Rank(next)
  {
    match current
    case Admitted =>
    case Deprecated =>
    case Quarantined =>
    case Revoked =>
  }

  function SetState(db: Db, id: string, state: SnapshotState): Option<Db> {
    if id !in db.admissions || id !in db.snapshots || !Allowed(db.admissions[id], state) then None
    else Some(db.(admissions := db.admissions[id := state]))
  }

  predicate ValidScope(scope: Scope) {
    (scope.kind == "device" || scope.kind == "user" || scope.kind == "organization") && scope.id != ""
  }

  function Revision(db: Db, scope: Scope): Option<int> {
    if scope in db.activations then Some(db.activations[scope].revision) else None
  }

  /** `usable` says whether the current-usable view lists the snapshot. */
  function Activate(db: Db, scope: Scope, expected: Option<nat>, id: string, usable: bool): Option<Db> {
    var current := Revision(db, scope);
    if !ValidScope(scope) then None
    else if !usable || id !in db.admissions || db.admissions[id] != Admitted then None
    else if current.Some? && current.value < 0 then None
    else if current != expected then None
    else
      var base := if current.Some? then current.value else 0;
      if base + 1 > I64_MAX then None
      else Some(db.(activations := db.activations[scope := Activation(id, base + 1)]))
  }

  // ---------------------------------------------------------------- runs

  datatype Op =
    | AdmitOp(reg: Registry)
    | SetStateOp(id: string, state: SnapshotState)
    | ActivateOp(scope: Scope, expected: Option<nat>, id: string, usable: bool)

  ghost predicate WellLoaded(env: Env, op: Op, views: set<View>, refSets: set<set<Ref>>) {
    op.AdmitOp? && op.reg.strict ==> Strict(env, op.reg) && Known(env, op.reg, views, refSets)
  }

  /** One transaction body on the tables; `None` is an error, which rolls back. */
  ghost function Transact(env: Env, db: Db, op: Op): Option<Db> {
    match op
    case AdmitOp(reg) => Admit(env, db, reg)
    case SetStateOp(id, state) => SetState(db, id, state)
    case ActivateOp(scope, expected, id, usable) => Activate(db, scope, expected, id, usable)
  }

  /** The tables after attempting each call in turn, failures rolled back. */
  ghost function Attempt(env: Env, db: Db, ops: seq<Op>): Db {
    if ops == [] then db
    else
      var before := Attempt(env, db, ops[..|ops| - 1]);
      match Transact(env, before, ops[|ops| - 1])
      case Some(after) => after
      case None => before
  }

  ghost function CatalogAfter(env: Env, db: Db, catalog: Catalog, op: Op): Catalog {
    if op.AdmitOp? then Recorded(env, db, catalog, op.reg) else catalog
  }

  /** The views under which each snapshot of the run was first admitted. */
  ghost function FirstViews(env: Env, db: Db, ops: seq<Op>): Catalog {
    if ops == [] then map[]
    else
      var n := |ops| - 1;
      CatalogAfter(env, Attempt(env, db, ops[..n]), FirstViews(env, db, ops[..n]), ops[n])
  }

  lemma SoundIgnoresStates(env: Env, db: Db, after: Db, catalog: Catalog, views: set<View>, refSets: set<set<Ref>>)
    requires Sound(env, db, catalog, views, refSets)
    requires after == db.(admissions := after.admissions, activations := after.activations)
    requires after.admissions.Keys == db.admissions.Keys
    ensures Sound(env, after, catalog, views, refSets)
  {
    hide Identified;
    forall id | id in catalog ensures SnapshotSound(env, after, id, catalog[id], views) {
      assert SnapshotSound(env, db, id, catalog[id], views);
      SnapshotStays(env, db, after, id, catalog[id], views);
    }
  }

  lemma TransactKeeps(env: Env, db: Db, catalog: Catalog, op: Op, views: set<View>, refSets: set<set<Ref>>)
    requires Sound(env, db, catalog, views, refSets) && CollisionFree(env, views, refSets)
    requires WellLoaded(env, op, views, refSets) && Transact(env, db, op).Some?
    ensures Sound(env, Transact(env, db, op).value, CatalogAfter(env, db, catalog, op), views, refSets)
    ensures forall id | id in catalog :: id in CatalogAfter(env, db, catalog, op)
                                         && CatalogAfter(env, db, catalog, op)[id] == catalog[id]
  {
    hide Admit, CollisionFree, Known, Strict, Sound;
    match op
    case AdmitOp(reg) => AdmitKeeps(env, db, catalog, reg, views, refSets);
    case SetStateOp(id, state) =>
      SoundIgnoresStates(env, db, Transact(env, db, op).value, catalog, views, refSets);
    case ActivateOp(scope, expected, id, usable) =>
      SoundIgnoresStates(env, db, Transact(env, db, op).value, catalog, views, refSets);
  }

  /** A store holding at most unadmitted snapshot rows within the default limit. */
  ghost predicate Fresh(env: Env, db: Db, refSets: set<set<Ref>>) {
    && db == Db(db.snapshots, map[], map[], map[], map[])
    && SnapshotsKnown(env, db, refSets)
  }

  lemma {:induction false} AttemptKeeps(env: Env, db: Db, ops: seq<Op>, views: set<View>, refSets: set<set<Ref>>)
    requires Fresh(env, db, refSets) && CollisionFree(env, views, refSets)
    requires forall i | 0 <= i < |ops| :: WellLoaded(env, ops[i], views, refSets)
    ensures Sound(env, Attempt(env, db, ops), FirstViews(env, db, ops), views, refSets)
  {
    hide CollisionFree, SnapshotsKnown, WellLoaded;
    if ops != [] {
      hide Sound, Fresh;
      var n := |ops| - 1;
      assert forall i | 0 <= i < n :: ops[..n][i] == ops[i];
      AttemptKeeps(env, db, ops[..n], views, refSets);
      var before, catalog := Attempt(env, db, ops[..n]), FirstViews(env, db, ops[..n]);
      if Transact(env, before, ops[n]).Some? {
        TransactKeeps(env, before, catalog, ops[n], views, refSets);
      }
    }
  }

  /** After any run, failures included, every admitted snapshot reopens to contracts with the views
      under which it was first admitted; later calls never change those. */
  lemma HistoryReopens(env: Env, db: Db, ops: seq<Op>, views: set<View>, refSets: set<set<Ref>>, id: string)
    requires Fresh(env, db, refSets) && CollisionFree(env, views, refSets)
    requires forall i | 0 <= i < |ops| :: WellLoaded(env, ops[i], views, refSets)
    ensures id in Attempt(env, db, ops).admissions <==> Open(env, Attempt(env, db, ops), id).Some?
    ensures id in Attempt(env, db, ops).admissions ==>
              var found := Open(env, Attempt(env, db, ops), id).value;
              && id in FirstViews(env, db, ops)
              && found.Keys == FirstViews(env, db, ops)[id].Keys
              && forall slot | slot in found :: ViewOf(found[slot]) == FirstViews(env, db, ops)[id][slot]
  {
    AttemptKeeps(env, db, ops, views, refSets);
    var after, catalog := Attempt(env, db, ops), FirstViews(env, db, ops);
    hide Attempt, FirstViews, CollisionFree, Fresh, WellLoaded;
    if id in after.admissions {
      Reopens(env, after, catalog, views, refSets, id);
    }
  }

  /** First-admitted views survive every continuation of a run. */
  lemma {:induction false} FirstViewsStay(env: Env, db: Db, ops: seq<Op>, k: nat, id: string)
    requires k <= |ops| && id in FirstViews(env, db, ops[..k])
    ensures id in FirstViews(env, db, ops) && FirstViews(env, db, ops)[id] == FirstViews(env, db, ops[..k])[id]
    decreases |ops|
  {
    hide Attempt, CatalogAfter;
    if k == |ops| {
      assert ops[..k] == ops;
    } else {
      var n := |ops| - 1;
      assert ops[..n][..k] == ops[..k];
      FirstViewsStay(env, db, ops[..n], k, id);
      CatalogStays(env, Attempt(env, db, ops[..n]), FirstViews(env, db, ops[..n]), ops[n], id);
    }
  }

  lemma CatalogStays(env: Env, db: Db, catalog: Catalog, op: Op, id: string)
    requires id in catalog
    ensures id in CatalogAfter(env, db, catalog, op) && CatalogAfter(env, db, catalog, op)[id] == catalog[id]
  {
    hide Admit, Admitting;
  }

  /** Once a registry is admitted its snapshot can always be read back, whatever follows. */
  lemma ReadBackSucceeds(env: Env, db: Db, ops: seq<Op>, reg: Registry, views: set<View>, refSets: set<set<Ref>>)
    requires Fresh(env, db, refSets) && CollisionFree(env, views, refSets)
    requires forall i | 0 <= i < |ops| :: WellLoaded(env, ops[i], views, refSets)
    requires WellLoaded(env, AdmitOp(reg), views, refSets)
    requires Admit(env, Attempt(env, db, ops), reg).Some?
    ensures var after := Admit(env, Attempt(env, db, ops), reg).value;
            && Open(env, after, reg.snapshotId).Some?
            && forall i | 0 <= i < |reg.entries| ::
                 var found := Open(env, after, reg.snapshotId).value;
                 reg.entries[i].slot in found && ViewOf(found[reg.entries[i].slot]) == ViewOf(reg.entries[i].contract)
  {
    AttemptKeeps(env, db, ops, views, refSets);
    var before, catalog := Attempt(env, db, ops), FirstViews(env, db, ops);
    var id, after := reg.snapshotId, Admit(env, before, reg).value;
    var recorded := Recorded(env, before, catalog, reg);
    AdmitKeeps(env, before, catalog, reg, views, refSets);
    hide Attempt, FirstViews, Fresh, CollisionFree;
    ReadmittedViews(env, before, catalog, reg, views, refSets);
    Reopens(env, after, recorded, views, refSets, id);
    hide Admit, Recorded, Open, Sound, Strict, Known;
    var found := Open(env, after, id).value;
    forall i | 0 <= i < |reg.entries|
      ensures reg.entries[i].slot in found && ViewOf(found[reg.entries[i].slot]) == ViewOf(reg.entries[i].contract)
    {
      assert reg.entries[i].slot in recorded[id];
    }
  }

  /** The recorded views of an ID are the views of any registry admitted under it. */
  lemma ReadmittedViews(env: Env, db: Db, catalog: Catalog, reg: Registry, views: set<View>, refSets: set<set<Ref>>)
    requires Sound(env, db, catalog, views, refSets) && CollisionFree(env, views, refSets)
    requires Strict(env, reg) && Known(env, reg, views, refSets)
    requires Admit(env, db, reg).Some?
    ensures var recorded := Recorded(env, db, catalog, reg);
            && reg.snapshotId in recorded
            && forall i | 0 <= i < |reg.entries| ::
                 reg.entries[i].slot in recorded[reg.snapshotId]
                 && recorded[reg.snapshotId][reg.entries[i].slot] == ViewOf(reg.entries[i].contract)
  {
    var id := reg.snapshotId;
    var recorded := Recorded(env, db, catalog, reg);
    FamiliesDistinct(env, reg);
    KnownViews(env, reg, views, refSets);
    if id in catalog {
      AlreadySlotted(env, db, catalog, reg, views, refSets);
      assert SnapshotSound(env, db, id, catalog[id], views);
    }
    hide Admit, Strict, Known, Identified, Slots, ContractsSound, SnapshotsKnown;
    forall i | 0 <= i < |reg.entries|
      ensures reg.entries[i].slot in recorded[id]
              && recorded[id][reg.entries[i].slot] == ViewOf(reg.entries[i].contract)
    {
      if id in catalog {
        var slot := reg.entries[i].slot;
        assert Slotted(env, Rows(db.contracts, db.entries[id]), reg.entries[i]);
        assert SlotSound(env, db, slot, catalog[id][slot], db.entries[id][slot]);
      } else {
        AdmittingAt(reg.entries, i);
      }
    }
  }
}
