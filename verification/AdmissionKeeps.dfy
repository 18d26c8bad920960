/**
 Admission keeps every stored row: what one transaction inserts, when it succeeds, and that
 admitting the same snapshot again changes nothing.
 */
module AdmissionKeeps {
  import opened Values
  import opened Admission

  function KeyOf(env: Env, c: Contract): ContractKey {
    ContractKey(c.class_, HashOf(env, c))
  }

  /** Every row of `a` is a row of `b`. */
  ghost predicate Extends<K, V>(a: map<K, V>, b: map<K, V>) {
    forall k | k in a :: k in b && b[k] == a[k]
  }

  ghost predicate Slotted(env: Env, rows: Rows, e: Entry) {
    && KeyOf(env, e.contract) in rows.contracts
    && e.slot in rows.slots && rows.slots[e.slot] == RefOf(env, e.contract)
    && e.slot.major <= I64_MAX
  }

  // ---------------------------------------------------------------- what the inserts do

  lemma InsertOneExtends(env: Env, rows: Rows, e: Entry)
    requires InsertOne(env, rows, e).Some?
    ensures var r := InsertOne(env, rows, e).value;
            && Extends(rows.contracts, r.contracts) && Extends(rows.slots, r.slots)
            && r.slots.Keys == rows.slots.Keys + {e.slot}
            && Slotted(env, r, e)
            && (forall k | k in r.contracts && k !in rows.contracts ::
                  k == KeyOf(env, e.contract) && r.contracts[k] == e.contract)
  {
  }

  function Slots(entries: seq<Entry>): set<Slot> {
    set i | 0 <= i < |entries| :: entries[i].slot
  }

  ghost predicate AllSlotted(env: Env, rows: Rows, entries: seq<Entry>) {
    forall i | 0 <= i < |entries| :: Slotted(env, rows, entries[i])
  }

  /** Contract rows of `after` that `before` lacks come from the entries. */
  ghost predicate FromEntries(env: Env, before: map<ContractKey, Contract>, after: map<ContractKey, Contract>,
                              entries: seq<Entry>)
  {
    forall k | k in after && k !in before :: exists i | 0 <= i < |entries| ::
      k == KeyOf(env, entries[i].contract) && after[k] == entries[i].contract
  }

  lemma SlotsSnoc(entries: seq<Entry>)
    requires entries != []
    ensures Slots(entries) == Slots(entries[..|entries| - 1]) + {entries[|entries| - 1].slot}
  {
    var n := |entries| - 1;
    assert forall i | 0 <= i < n :: entries[..n][i] == entries[i];
    forall s | s in Slots(entries) ensures s in Slots(entries[..n]) + {entries[n].slot} {
      var i :| 0 <= i < |entries| && entries[i].slot == s;
      if i < n { assert entries[..n][i].slot == s; }
    }
  }

  lemma AllSlottedSnoc(env: Env, before: Rows, after: Rows, entries: seq<Entry>)
    requires entries != [] && AllSlotted(env, before, entries[..|entries| - 1])
    requires Extends(before.contracts, after.contracts) && Extends(before.slots, after.slots)
    requires Slotted(env, after, entries[|entries| - 1])
    ensures AllSlotted(env, after, entries)
  {
    hide RefOf, HashOf;
    var n := |entries| - 1;
    forall i | 0 <= i < |entries| ensures Slotted(env, after, entries[i]) {
      if i < n {
        assert entries[..n][i] == entries[i];
        assert Slotted(env, before, entries[..n][i]);
      }
    }
  }

  lemma FromEntriesSnoc(env: Env, first: map<ContractKey, Contract>, before: map<ContractKey, Contract>,
                        after: map<ContractKey, Contract>, entries: seq<Entry>)
    requires entries != [] && FromEntries(env, first, before, entries[..|entries| - 1])
    requires Extends(before, after)
    requires forall k | k in after && k !in before ::
               k == KeyOf(env, entries[|entries| - 1].contract) && after[k] == entries[|entries| - 1].contract
    ensures FromEntries(env, first, after, entries)
  {
    hide KeyOf;
    var n := |entries| - 1;
    forall k | k in after && k !in first
      ensures exists i | 0 <= i < |entries| :: k == KeyOf(env, entries[i].contract) && after[k] == entries[i].contract
    {
      if k in before {
        var i :| 0 <= i < |entries[..n]| && k == KeyOf(env, entries[..n][i].contract) && before[k] == entries[..n][i].contract;
        assert entries[..n][i] == entries[i];
      } else {
        assert k == KeyOf(env, entries[n].contract) && after[k] == entries[n].contract;
      }
    }
  }

  /** Inserting keeps every existing row, adds the entries' rows and nothing else. */
  lemma {:induction false} InsertAllExtends(env: Env, rows: Rows, entries: seq<Entry>)
    requires InsertAll(env, rows, entries).Some?
    ensures var r := InsertAll(env, rows, entries).value;
            && Extends(rows.contracts, r.contracts) && Extends(rows.slots, r.slots)
            && r.slots.Keys == rows.slots.Keys + Slots(entries)
            && AllSlotted(env, r, entries)
            && FromEntries(env, rows.contracts, r.contracts, entries)
  {
    if entries != [] {
      hide InsertOne, Slots, AllSlotted, FromEntries, KeyOf, Slotted;
      var n := |entries| - 1;
      InsertAllExtends(env, rows, entries[..n]);
      var before := InsertAll(env, rows, entries[..n]).value;
      InsertOneExtends(env, before, entries[n]);
      var r := InsertAll(env, rows, entries).value;
      SlotsSnoc(entries);
      AllSlottedSnoc(env, before, r, entries);
      FromEntriesSnoc(env, rows.contracts, before.contracts, r.contracts, entries);
    }
  }

  /** A contract row, old or new, agrees with any contract that hashes to its key. */
  lemma InsertOneSucceeds(env: Env, rows: Rows, e: Entry, views: set<View>, refSets: set<set<Ref>>)
    requires CollisionFree(env, views, refSets) && ViewOf(e.contract) in views
    requires RowsSound(env, rows.contracts, views)
    requires e.slot.major <= I64_MAX
    requires e.slot in rows.slots ==> rows.slots[e.slot] == RefOf(env, e.contract)
    ensures InsertOne(env, rows, e).Some?
    ensures env.recordOk(e.contract) ==> RowsSound(env, InsertOne(env, rows, e).value.contracts, views)
  {
    var key := KeyOf(env, e.contract);
    if key in rows.contracts {
      assert ViewOf(rows.contracts[key]) == ViewOf(e.contract);
    }
  }

  ghost predicate RowsSound(env: Env, contracts: map<ContractKey, Contract>, views: set<View>) {
    forall key | key in contracts :: RowSound(env, key, contracts[key], views)
  }

  ghost predicate RowSound(env: Env, key: ContractKey, c: Contract, views: set<View>) {
    key == KeyOf(env, c) && env.recordOk(c) && ViewOf(c) in views
  }

  /** What the caller and the prior rows must provide for every insert to go through. */
  ghost predicate Insertable(env: Env, slots: map<Slot, Ref>, entries: seq<Entry>, views: set<View>) {
    && (forall i | 0 <= i < |entries| ::
          && ViewOf(entries[i].contract) in views && env.recordOk(entries[i].contract)
          && entries[i].slot.major <= I64_MAX
          && (entries[i].slot in slots ==> slots[entries[i].slot] == RefOf(env, entries[i].contract)))
    && forall i, j | 0 <= i < j < |entries| :: entries[i].slot != entries[j].slot
  }

  lemma {:induction false} InsertAllSucceeds(env: Env, rows: Rows, entries: seq<Entry>, views: set<View>,
                                             refSets: set<set<Ref>>)
    requires CollisionFree(env, views, refSets) && RowsSound(env, rows.contracts, views)
    requires Insertable(env, rows.slots, entries, views)
    ensures InsertAll(env, rows, entries).Some?
    ensures RowsSound(env, InsertAll(env, rows, entries).value.contracts, views)
  {
    if entries != [] {
      hide RowsSound, CollisionFree;
      var n := |entries| - 1;
      assert forall i | 0 <= i < n :: entries[..n][i] == entries[i];
      InsertAllSucceeds(env, rows, entries[..n], views, refSets);
      InsertAllExtends(env, rows, entries[..n]);
      var before := InsertAll(env, rows, entries[..n]).value;
      assert entries[n].slot in before.slots ==> entries[n].slot in rows.slots;
      InsertOneSucceeds(env, before, entries[n], views, refSets);
    }
  }

  /** Inserting rows that are all present already changes none of them. */
  lemma {:induction false} InsertAllIdle(env: Env, rows: Rows, entries: seq<Entry>, views: set<View>, refSets: set<set<Ref>>)
    requires CollisionFree(env, views, refSets) && RowsSound(env, rows.contracts, views)
    requires AllSlotted(env, rows, entries)
    requires forall i | 0 <= i < |entries| :: ViewOf(entries[i].contract) in views
    ensures InsertAll(env, rows, entries) == Some(rows)
  {
    if entries != [] {
      var n := |entries| - 1;
      assert forall i | 0 <= i < n :: entries[..n][i] == entries[i];
      InsertAllIdle(env, rows, entries[..n], views, refSets);
      assert Slotted(env, rows, entries[n]);
      InsertOneSucceeds(env, rows, entries[n], views, refSets);
    }
  }

  // ---------------------------------------------------------------- families

  lemma FamiliesDistinct(env: Env, reg: Registry)
    requires Strict(env, reg)
    ensures forall i, j | 0 <= i < j < |reg.entries| :: reg.entries[i].slot != reg.entries[j].slot
    ensures |Slots(reg.entries)| == |reg.manifest.refs|
  {
    hide Views;
    forall i, j | 0 <= i < j < |reg.entries| ensures reg.entries[i].slot != reg.entries[j].slot {
      assert FamilyOf(env, reg.manifest.refs[i]) != FamilyOf(env, reg.manifest.refs[j]);
    }
    DistinctCount(reg.entries);
  }

  lemma {:induction false} DistinctCount(entries: seq<Entry>)
    requires forall i, j | 0 <= i < j < |entries| :: entries[i].slot != entries[j].slot
    ensures |Slots(entries)| == |entries|
  {
    if entries != [] {
      var n := |entries| - 1;
      DistinctCount(entries[..n]);
      var before := set i | 0 <= i < |entries[..n]| :: entries[..n][i].slot;
      assert entries[n].slot !in before;
      assert Slots(entries) == before + {entries[n].slot};
    }
  }

  // ---------------------------------------------------------------- admitting again

  /** Equal snapshot IDs name equal reference sets, so each entry already has its row. */
  lemma AlreadySlotted(env: Env, db: Db, catalog: Catalog, reg: Registry, views: set<View>, refSets: set<set<Ref>>)
    requires Sound(env, db, catalog, views, refSets) && CollisionFree(env, views, refSets)
    requires Strict(env, reg) && Known(env, reg, views, refSets) && reg.snapshotId in catalog
    ensures var slots := db.entries[reg.snapshotId];
            && slots.Keys == Slots(reg.entries)
            && AllSlotted(env, Rows(db.contracts, slots), reg.entries)
  {
    hide Views, ContractsSound;
    var id := reg.snapshotId;
    var slots, admitted := db.entries[id], catalog[id];
    assert SnapshotSound(env, db, id, admitted, views);
    assert RefSet(db.snapshots[id]) == RefSet(reg.manifest);
    forall i | 0 <= i < |reg.entries| ensures Slotted(env, Rows(db.contracts, slots), reg.entries[i]) {
      var r := reg.manifest.refs[i];
      assert r in RefSet(reg.manifest);
      var slot :| slot in slots && slots[slot] == r;
      assert SlotSound(env, db, slot, admitted[slot], r);
      assert slot == reg.entries[i].slot;
    }
    forall slot | slot in slots ensures exists i | 0 <= i < |reg.entries| :: reg.entries[i].slot == slot {
      assert slots[slot] in RefSet(reg.manifest);
      var i :| 0 <= i < |reg.manifest.refs| && reg.manifest.refs[i] == slots[slot];
      assert SlotSound(env, db, slot, admitted[slot], slots[slot]);
      assert reg.entries[i].slot == slot;
    }
  }

  lemma KnownViews(env: Env, reg: Registry, views: set<View>, refSets: set<set<Ref>>)
    requires Known(env, reg, views, refSets)
    ensures forall i | 0 <= i < |reg.entries| :: ViewOf(reg.entries[i].contract) in views
  {
    forall i | 0 <= i < |reg.entries| ensures ViewOf(reg.entries[i].contract) in views {
      assert ViewOf(reg.entries[i].contract) in Views(reg.entries);
    }
  }

  /** Re-admission under any prose succeeds and changes no stored row. */
  lemma ReadmissionIdle(env: Env, db: Db, catalog: Catalog, reg: Registry, views: set<View>, refSets: set<set<Ref>>)
    requires Sound(env, db, catalog, views, refSets) && CollisionFree(env, views, refSets)
    requires reg.strict && Strict(env, reg) && Known(env, reg, views, refSets) && reg.snapshotId in catalog
    ensures Admit(env, db, reg) == Some(db)
  {
    var id := reg.snapshotId;
    AlreadySlotted(env, db, catalog, reg, views, refSets);
    KnownViews(env, reg, views, refSets);
    FamiliesDistinct(env, reg);
    SoundFacts(env, db, catalog, views, refSets, id);
    hide Sound, Strict, Known, CollisionFree, InsertAll, RowsSound, Identified, AllSlotted, Slots;
    var rows := Rows(db.contracts, db.entries[id]);
    InsertAllIdle(env, rows, reg.entries, views, refSets);
    assert |rows.slots.Keys| == |rows.slots|;
    assert db.entries[id := rows.slots] == db.entries;
  }

  lemma SoundFacts(env: Env, db: Db, catalog: Catalog, views: set<View>, refSets: set<set<Ref>>, id: string)
    requires Sound(env, db, catalog, views, refSets)
    ensures id in catalog ==> id in db.snapshots && id in db.admissions && id in db.entries
                              && Identified(env, db.snapshots[id], id)
    ensures id !in catalog ==> id !in db.entries && id !in db.admissions
    ensures RowsSound(env, db.contracts, views)
  {
    hide Identified;
    if id in catalog { assert SnapshotSound(env, db, id, catalog[id], views); }
  }

  // ---------------------------------------------------------------- admitting for the first time

  function Admitting(entries: seq<Entry>): map<Slot, View> {
    if entries == [] then map[]
    else
      var n := |entries| - 1;
      Admitting(entries[..n])[entries[n].slot := ViewOf(entries[n].contract)]
  }

  lemma {:induction false} AdmittingKeys(entries: seq<Entry>)
    ensures Admitting(entries).Keys == Slots(entries)
  {
    if entries != [] {
      SlotsSnoc(entries);
      hide Slots;
      AdmittingKeys(entries[..|entries| - 1]);
    } else {
      assert Admitting(entries) == map[];
    }
  }

  lemma {:induction false} AdmittingAt(entries: seq<Entry>, i: nat)
    requires i < |entries|
    requires forall i, j | 0 <= i < j < |entries| :: entries[i].slot != entries[j].slot
    ensures entries[i].slot in Admitting(entries) && Admitting(entries)[entries[i].slot] == ViewOf(entries[i].contract)
  {
    var n := |entries| - 1;
    if i < n {
      assert entries[..n][i] == entries[i];
      AdmittingAt(entries[..n], i);
    }
  }

  lemma AdmittingViews(entries: seq<Entry>)
    requires forall i, j | 0 <= i < j < |entries| :: entries[i].slot != entries[j].slot
    ensures Admitting(entries).Values == Views(entries)
  {
    AdmittingKeys(entries);
    forall i | 0 <= i < |entries|
      ensures entries[i].slot in Admitting(entries) && Admitting(entries)[entries[i].slot] == ViewOf(entries[i].contract)
    {
      AdmittingAt(entries, i);
    }
    hide Admitting;
    var all := Admitting(entries);
    forall v | v in all.Values ensures v in Views(entries) {
      var slot :| slot in all && all[slot] == v;
      assert slot in Slots(entries);
      var i :| 0 <= i < |entries| && entries[i].slot == slot;
      assert ViewOf(entries[i].contract) == v;
    }
    forall v | v in Views(entries) ensures v in all.Values {
      var i :| 0 <= i < |entries| && ViewOf(entries[i].contract) == v;
      assert all[entries[i].slot] == v;
    }
  }

  /** The catalogue of first-admitted views after one admission. */
  ghost function Recorded(env: Env, db: Db, catalog: Catalog, reg: Registry): Catalog {
    if Admit(env, db, reg).None? || reg.snapshotId in catalog then catalog
    else catalog[reg.snapshotId := Admitting(reg.entries)]
  }

  /** A strict registry is admitted exactly when its ID is not held by a foreign placeholder and every
      major fits a signed 64-bit column. */
  lemma AdmittedIff(env: Env, db: Db, catalog: Catalog, reg: Registry, views: set<View>, refSets: set<set<Ref>>)
    requires Sound(env, db, catalog, views, refSets) && CollisionFree(env, views, refSets)
    requires reg.strict && Strict(env, reg) && Known(env, reg, views, refSets)
    ensures Admit(env, db, reg).Some? <==>
            && (reg.snapshotId in db.snapshots ==> Identified(env, db.snapshots[reg.snapshotId], reg.snapshotId))
            && Fits(reg.entries)
  {
    var id := reg.snapshotId;
    SoundFacts(env, db, catalog, views, refSets, id);
    if id in catalog {
      ReadmissionIdle(env, db, catalog, reg, views, refSets);
      AlreadySlotted(env, db, catalog, reg, views, refSets);
      assert AllSlotted(env, Rows(db.contracts, db.entries[id]), reg.entries);
      assert forall i | 0 <= i < |reg.entries| :: Slotted(env, Rows(db.contracts, db.entries[id]), reg.entries[i]);
    } else {
      FirstAdmission(env, db, reg, views, refSets);
    }
  }

  lemma MajorsFit(env: Env, rows: Rows, entries: seq<Entry>)
    requires InsertAll(env, rows, entries).Some?
    ensures forall i | 0 <= i < |entries| :: entries[i].slot.major <= I64_MAX
  {
    InsertAllExtends(env, rows, entries);
    var r := InsertAll(env, rows, entries).value;
    hide InsertAll;
    forall i | 0 <= i < |entries| ensures entries[i].slot.major <= I64_MAX {
      assert Slotted(env, r, entries[i]);
    }
  }

  ghost predicate Fits(entries: seq<Entry>) {
    forall i | 0 <= i < |entries| :: entries[i].slot.major <= I64_MAX
  }

  /** The rows a first admission builds, and that it can always build them. */
  lemma FirstRows(env: Env, contracts: map<ContractKey, Contract>, reg: Registry, views: set<View>,
                  refSets: set<set<Ref>>)
    requires RowsSound(env, contracts, views) && CollisionFree(env, views, refSets)
    requires Strict(env, reg) && Known(env, reg, views, refSets)
    ensures InsertAll(env, Rows(contracts, map[]), reg.entries).Some? <==> Fits(reg.entries)
    ensures InsertAll(env, Rows(contracts, map[]), reg.entries).Some? ==>
              var r := InsertAll(env, Rows(contracts, map[]), reg.entries).value;
              && |r.slots| == |reg.manifest.refs|
              && RowsSound(env, r.contracts, views) && Extends(contracts, r.contracts)
              && r.slots.Keys == Slots(reg.entries)
              && AllSlotted(env, r, reg.entries)
  {
    var rows := Rows(contracts, map[]);
    KnownViews(env, reg, views, refSets);
    FamiliesDistinct(env, reg);
    assert forall i | 0 <= i < |reg.entries| :: env.recordOk(reg.entries[i].contract);
    hide Strict, Known, CollisionFree, InsertAll, RowsSound, Identified, AllSlotted, FromEntries, Slots;
    if Fits(reg.entries) {
      InsertAllSucceeds(env, rows, reg.entries, views, refSets);
    }
    if InsertAll(env, rows, reg.entries).Some? {
      MajorsFit(env, rows, reg.entries);
      InsertAllExtends(env, rows, reg.entries);
      var r := InsertAll(env, rows, reg.entries).value;
      assert r.slots.Keys == Slots(reg.entries);
      assert |r.slots.Keys| == |r.slots|;
    }
  }

  /** The tables after a first admission. */
  lemma FirstAdmission(env: Env, db: Db, reg: Registry, views: set<View>, refSets: set<set<Ref>>)
    requires RowsSound(env, db.contracts, views) && CollisionFree(env, views, refSets)
    requires reg.strict && Strict(env, reg) && Known(env, reg, views, refSets)
    requires reg.snapshotId !in db.entries && reg.snapshotId !in db.admissions
    ensures Admit(env, db, reg).Some? <==>
            && (reg.snapshotId in db.snapshots ==> Identified(env, db.snapshots[reg.snapshotId], reg.snapshotId))
            && Fits(reg.entries)
    ensures Admit(env, db, reg).Some? ==>
              var after := Admit(env, db, reg).value;
              var rows := InsertAll(env, Rows(db.contracts, map[]), reg.entries);
              && rows.Some?
              && after == db.(snapshots := if reg.snapshotId in db.snapshots then db.snapshots
                                           else db.snapshots[reg.snapshotId := reg.manifest],
                              admissions := db.admissions[reg.snapshotId := Admitted],
                              contracts := rows.value.contracts,
                              entries := db.entries[reg.snapshotId := rows.value.slots])
  {
    FirstRows(env, db.contracts, reg, views, refSets);
    hide Strict, Known, CollisionFree, InsertAll, RowsSound, Identified, AllSlotted, FromEntries, Slots, Fits;
  }
}
