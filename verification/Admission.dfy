/**
 Content-addressed admission of registry snapshots. Contracts are stored under the hash of their
 semantic view, so prose never decides identity and the first admitted bytes stay.
 */
module Admission {
  import opened Values

  datatype Class = TypeClass | CapabilityClass

  /** One active contract family of a snapshot: class, semantic ID and major version. */
  datatype Slot = Slot(class_: Class, id: string, major: nat)

  /** A contract record; `body` is everything in the semantic view beside identity and version. */
  datatype Contract = Contract(class_: Class, id: string, version: string, body: string, prose: string)

  /** The prose-free semantic view that is hashed. */
  datatype View = View(class_: Class, id: string, version: string, body: string)

  function ViewOf(c: Contract): View {
    View(c.class_, c.id, c.version, c.body)
  }

  /** A manifest reference to a contract by content hash. */
  datatype Ref = Ref(class_: Class, id: string, version: string, hash: string)

  datatype Manifest = Manifest(refs: seq<Ref>, prose: string)

  datatype Entry = Entry(slot: Slot, contract: Contract)

  /** A loaded semantic registry: its snapshot and active contracts in index order. */
  datatype Registry = Registry(snapshotId: string, manifest: Manifest, entries: seq<Entry>, strict: bool)

  datatype Env = Env(
    contractHash: View -> string,
    snapshotHash: set<Ref> -> string,
    major: string -> Option<nat>,
    snapshotOk: Manifest -> bool,        // schema and header checks, prose included
    recordOk: Contract -> bool,          // schema and per-contract checks, prose lengths included
    crossOk: set<View> -> bool           // checks across the contracts of one snapshot
  )

  /** The default contract limit, used whenever stored records are rebuilt. */
  const MAX_CONTRACTS: nat := 4096

  function HashOf(env: Env, c: Contract): string {
    env.contractHash(ViewOf(c))
  }

  function RefOf(env: Env, c: Contract): Ref {
    Ref(c.class_, c.id, c.version, HashOf(env, c))
  }

  function RefSet(m: Manifest): set<Ref> {
    set r | r in m.refs
  }

  function Views(entries: seq<Entry>): set<View> {
    set i | 0 <= i < |entries| :: ViewOf(entries[i].contract)
  }

  /** `verify_snapshot_identity`: the entries name each family once and hash to the snapshot ID. */
  predicate Identified(env: Env, m: Manifest, id: string) {
    && env.snapshotOk(m)
    && (forall i | 0 <= i < |m.refs| :: env.major(m.refs[i].version).Some?)
    && (forall i, j | 0 <= i < j < |m.refs| :: FamilyOf(env, m.refs[i]) != FamilyOf(env, m.refs[j]))
    && env.snapshotHash(RefSet(m)) == id
  }

  function FamilyOf(env: Env, r: Ref): Option<Slot> {
    match env.major(r.version)
    case Some(major) => Some(Slot(r.class_, r.id, major))
    case None => None
  }

  /** What strict loading establishes about every registry it builds: the manifest is rewritten in
      index order with the computed hashes. */
  ghost predicate Strict(env: Env, reg: Registry) {
    && |reg.manifest.refs| == |reg.entries|
    && (forall i | 0 <= i < |reg.entries| ::
          var e := reg.entries[i];
          && reg.manifest.refs[i] == RefOf(env, e.contract)
          && FamilyOf(env, reg.manifest.refs[i]) == Some(e.slot)
          && env.recordOk(e.contract))
    && Identified(env, reg.manifest, reg.snapshotId)
    && env.crossOk(Views(reg.entries))
  }

  datatype SnapshotState = Admitted | Deprecated | Quarantined | Revoked

  datatype ContractKey = ContractKey(class_: Class, hash: string)

  datatype Scope = Scope(kind: string, id: string)

  datatype Activation = Activation(snapshotId: string, revision: int)

  /** The durable tables; entry rows are grouped by their snapshot. */
  datatype Db = Db(
    snapshots: map<string, Manifest>,
    admissions: map<string, SnapshotState>,
    contracts: map<ContractKey, Contract>,
    entries: map<string, map<Slot, Ref>>,
    activations: map<Scope, Activation>
  )

  // ---------------------------------------------------------------- admission

  /** The rows one admission reads and extends. */
  datatype Rows = Rows(contracts: map<ContractKey, Contract>, slots: map<Slot, Ref>)

  /** `insert_contract` then `insert_entry`: existing rows win and must agree. */
  function InsertOne(env: Env, rows: Rows, e: Entry): Option<Rows> {
    var c := e.contract;
    var key := ContractKey(c.class_, HashOf(env, c));
    var contracts := if key in rows.contracts then rows.contracts else rows.contracts[key := c];
    var stored := contracts[key];
    if stored.id != c.id || stored.version != c.version || HashOf(env, stored) != key.hash
       || e.slot.major > I64_MAX then None
    else
      var slots := if e.slot in rows.slots then rows.slots else rows.slots[e.slot := RefOf(env, c)];
      if slots[e.slot] != RefOf(env, c) then None
      else Some(Rows(contracts, slots))
  }

  function InsertAll(env: Env, rows: Rows, entries: seq<Entry>): Option<Rows> {
    if entries == [] then Some(rows)
    else
      var n := |entries| - 1;
      var before := InsertAll(env, rows, entries[..n]);
      if before.None? then None else InsertOne(env, before.value, entries[n])
  }

  /** The transaction of `admit_registry` as a function of the tables; `None` rolls back. */
  function Admit(env: Env, db: Db, reg: Registry): Option<Db> {
    var id := reg.snapshotId;
    if !reg.strict then None
    else if id in db.snapshots && !Identified(env, db.snapshots[id], id) then None
    else
      var slots: map<Slot, Ref> := if id in db.entries then db.entries[id] else map[];
      var rows := InsertAll(env, Rows(db.contracts, slots), reg.entries);
      if rows.None? || |rows.value.slots| != |reg.manifest.refs| then None
      else
        Some(db.(snapshots := if id in db.snapshots then db.snapshots else db.snapshots[id := reg.manifest],
                 admissions := if id in db.admissions then db.admissions else db.admissions[id := Admitted],
                 contracts := rows.value.contracts,
                 entries := db.entries[id := rows.value.slots]))
  }

  // ---------------------------------------------------------------- reopening

  /** The stored contract behind one entry row still carries its identity, version and hash. */
  predicate SlotReadable(env: Env, db: Db, slot: Slot, r: Ref) {
    var key := ContractKey(slot.class_, r.hash);
    && r.class_ == slot.class_ && r.id == slot.id
    && key in db.contracts
    && db.contracts[key].id == r.id && db.contracts[key].version == r.version
    && env.major(r.version) == Some(slot.major)
    && HashOf(env, db.contracts[key]) == r.hash
    && env.recordOk(db.contracts[key])
  }

  /** `open_snapshot_from_connection`: the contracts of an admitted snapshot, by slot. */
  function Open(env: Env, db: Db, id: string): Option<map<Slot, Contract>> {
    if id !in db.snapshots || id !in db.admissions || id !in db.entries then None
    else
      var manifest, slots := db.snapshots[id], db.entries[id];
      if !Identified(env, manifest, id) || |manifest.refs| > MAX_CONTRACTS
         || slots.Values != RefSet(manifest)
         || !(forall slot | slot in slots :: SlotReadable(env, db, slot, slots[slot])) then None
      else
        var found := map slot | slot in slots && ContractKey(slot.class_, slots[slot].hash) in db.contracts ::
                        db.contracts[ContractKey(slot.class_, slots[slot].hash)];
        if env.crossOk(set slot | slot in found :: ViewOf(found[slot])) then Some(found) else None
  }

  // ---------------------------------------------------------------- the invariant

  /** The semantic views under which a snapshot was first admitted. */
  type Catalog = map<string, map<Slot, View>>

  /** Distinct views among those ever hashed have distinct hashes; likewise reference sets. */
  ghost predicate CollisionFree(env: Env, views: set<View>, refSets: set<set<Ref>>) {
    && (forall a, b | a in views && b in views && env.contractHash(a) == env.contractHash(b) :: a == b)
    && (forall a, b | a in refSets && b in refSets && env.snapshotHash(a) == env.snapshotHash(b) :: a == b)
  }

  ghost predicate ContractsSound(env: Env, db: Db, views: set<View>) {
    forall key | key in db.contracts ::
      var c := db.contracts[key];
      key == ContractKey(c.class_, HashOf(env, c)) && env.recordOk(c) && ViewOf(c) in views
  }

  ghost predicate SlotSound(env: Env, db: Db, slot: Slot, v: View, r: Ref) {
    && v.class_ == slot.class_ && v.id == slot.id
    && r == Ref(v.class_, v.id, v.version, env.contractHash(v))
    && env.major(v.version) == Some(slot.major) && slot.major <= I64_MAX
    && ContractKey(slot.class_, r.hash) in db.contracts
  }

  ghost predicate SnapshotSound(env: Env, db: Db, id: string, admitted: map<Slot, View>, views: set<View>)
  {
    && id in db.snapshots && id in db.admissions && id in db.entries
    && Identified(env, db.snapshots[id], id)
    && db.entries[id].Keys == admitted.Keys
    && db.entries[id].Values == RefSet(db.snapshots[id])
    && (forall slot | slot in admitted ::
          admitted[slot] in views && SlotSound(env, db, slot, admitted[slot], db.entries[id][slot]))
    && env.crossOk(admitted.Values)
  }

  /** Rows of the snapshot table, placeholders included, are within the default limit. */
  ghost predicate SnapshotsKnown(env: Env, db: Db, refSets: set<set<Ref>>) {
    forall id | id in db.snapshots && Identified(env, db.snapshots[id], id) ::
      RefSet(db.snapshots[id]) in refSets && |db.snapshots[id].refs| <= MAX_CONTRACTS
  }

  ghost predicate Sound(env: Env, db: Db, catalog: Catalog, views: set<View>, refSets: set<set<Ref>>) {
    && ContractsSound(env, db, views)
    && catalog.Keys == db.admissions.Keys == db.entries.Keys
    && SnapshotsKnown(env, db, refSets)
    && forall id | id in catalog :: SnapshotSound(env, db, id, catalog[id], views)
  }

  /** A registry whose hashed views are among those considered. */
  ghost predicate Known(env: Env, reg: Registry, views: set<View>, refSets: set<set<Ref>>) {
    Views(reg.entries) <= views && RefSet(reg.manifest) in refSets && |reg.manifest.refs| <= MAX_CONTRACTS
  }

  // ---------------------------------------------------------------- every admitted snapshot reopens

  /** An admitted snapshot reopens to contracts with the semantic views it was first admitted with. */
  lemma Reopens(env: Env, db: Db, catalog: Catalog, views: set<View>, refSets: set<set<Ref>>, id: string)
    requires Sound(env, db, catalog, views, refSets) && CollisionFree(env, views, refSets) && id in catalog
    ensures Open(env, db, id).Some?
    ensures var found := Open(env, db, id).value;
            found.Keys == catalog[id].Keys && forall slot | slot in found :: ViewOf(found[slot]) == catalog[id][slot]
  {
    hide Views;
    var admitted, slots := catalog[id], db.entries[id];
    assert SnapshotSound(env, db, id, admitted, views);
    forall slot | slot in slots
      ensures SlotReadable(env, db, slot, slots[slot])
      ensures ViewOf(db.contracts[ContractKey(slot.class_, slots[slot].hash)]) == admitted[slot]
    {
      StoredView(env, db, slot, admitted[slot], slots[slot], views, refSets);
    }
    var found := map slot | slot in slots && ContractKey(slot.class_, slots[slot].hash) in db.contracts ::
                    db.contracts[ContractKey(slot.class_, slots[slot].hash)];
    assert found.Keys == admitted.Keys;
    assert (set slot | slot in found :: ViewOf(found[slot])) == admitted.Values;
  }

  lemma StoredView(env: Env, db: Db, slot: Slot, v: View, r: Ref, views: set<View>, refSets: set<set<Ref>>)
    requires ContractsSound(env, db, views) && CollisionFree(env, views, refSets)
    requires v in views && SlotSound(env, db, slot, v, r)
    ensures SlotReadable(env, db, slot, r)
    ensures ViewOf(db.contracts[ContractKey(slot.class_, r.hash)]) == v
  {
    var key := ContractKey(slot.class_, r.hash);
    var c := db.contracts[key];
    assert key == ContractKey(c.class_, HashOf(env, c)) && ViewOf(c) in views;
  }
}
