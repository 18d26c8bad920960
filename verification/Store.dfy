/** The durable registry store: tables changed in place inside one transaction per call. */
module Store {
  import opened Values
  import opened Ownership
  import opened Admission
  import opened AdmissionRuns

  datatype Failure = NoAuthority | NotAdmitted | Conflict | NotActivatable

  /** A store on one connection: its tables, the lease row, the connection's temporary tables, and the
      write fence it was opened with. While a call holds the write lock nothing else can change these. */
  class RegistryStore {
    const env: Env
    const inMemory: bool
    const guard: Option<Guard>
    var lease: Option<Lease>
    var temp: Option<Temp>
    var snapshots: map<string, Manifest>
    var admissions: map<string, SnapshotState>
    var contracts: map<ContractKey, Contract>
    var entries: map<string, map<Slot, Ref>>
    var activations: map<Scope, Activation>

    ghost function Tables(): Db
      reads this
    {
      Db(snapshots, admissions, contracts, entries, activations)
    }

    /** The store was opened for writing and its fence still passes. */
    predicate Authorised()
      reads this
    {
      guard.Some? && Holds(inMemory, lease, temp, guard.value)
    }

    constructor (env: Env, db: Db, inMemory: bool, guard: Option<Guard>, lease: Option<Lease>, temp: Option<Temp>)
      ensures this.env == env && Tables() == db
      ensures this.inMemory == inMemory && this.guard == guard && this.lease == lease && this.temp == temp
    {
      this.env, this.inMemory, this.guard, this.lease, this.temp := env, inMemory, guard, lease, temp;
      snapshots, admissions, contracts := db.snapshots, db.admissions, db.contracts;
      entries, activations := db.entries, db.activations;
    }

    /** `fence.verify` inside a transaction. */
    method VerifyFence() returns (ok: bool)
      ensures ok == Authorised()
    {
      ok := guard.Some? && Holds(inMemory, lease, temp, guard.value);
    }

    /** `insert_contract`, `insert_entry`: on failure the caller rolls back whatever was written. */
    method Insert(id: string, e: Entry) returns (ok: bool)
      requires id in entries
      modifies this`contracts, this`entries
      ensures ok == InsertOne(env, Rows(old(contracts), old(entries)[id]), e).Some?
      ensures ok ==> var rows := InsertOne(env, Rows(old(contracts), old(entries)[id]), e).value;
                     contracts == rows.contracts && entries == old(entries)[id := rows.slots]
    {
      ok := false;
      var c, hash := e.contract, HashOf(env, e.contract);
      var key := ContractKey(c.class_, hash);
      if key !in contracts {
        contracts := contracts[key := c];
      }
      var stored := contracts[key];
      if stored.id != c.id || stored.version != c.version || HashOf(env, stored) != hash { return; }
      if e.slot.major > I64_MAX { return; }
      if e.slot !in entries[id] {
        entries := entries[id := entries[id][e.slot := RefOf(env, c)]];
      }
      if entries[id][e.slot] != RefOf(env, c) { return; }
      ok := true;
      assert old(entries)[id := old(entries)[id]] == old(entries);
    }

    method InsertEntries(reg: Registry) returns (ok: bool)
      requires reg.snapshotId in entries
      modifies this`contracts, this`entries
      ensures ok == InsertAll(env, Rows(old(contracts), old(entries)[reg.snapshotId]), reg.entries).Some?
      ensures ok ==>
                var rows := InsertAll(env, Rows(old(contracts), old(entries)[reg.snapshotId]), reg.entries).value;
                contracts == rows.contracts && entries == old(entries)[reg.snapshotId := rows.slots]
    {
      hide InsertOne;
      var id := reg.snapshotId;
      ghost var start := Rows(contracts, entries[id]);
      for i := 0 to |reg.entries|
        invariant id in entries
        invariant InsertAll(env, start, reg.entries[..i]) == Some(Rows(contracts, entries[id]))
        invariant entries == old(entries)[id := entries[id]]
      {
        assert reg.entries[..i + 1][..i] == reg.entries[..i];
        ok := Insert(id, reg.entries[i]);
        if !ok {
          InsertFails(env, start, reg.entries, i + 1);
          return;
        }
      }
      assert reg.entries[..|reg.entries|] == reg.entries;
      ok := true;
    }

    /** `admit_registry`: one transaction, then a read-back through the strict builder. */
    method AdmitRegistry(reg: Registry) returns (r: Result<string, Failure>)
      modifies this`snapshots, this`admissions, this`contracts, this`entries
      ensures Tables() == if Authorised() && Admit(env, old(Tables()), reg).Some?
                          then Admit(env, old(Tables()), reg).value else old(Tables())
      ensures r == if guard.None? then Err(NoAuthority)
                   else if !reg.strict then Err(NotAdmitted)
                   else if !Authorised() || Admit(env, old(Tables()), reg).None? then Err(Conflict)
                   else if Open(env, Tables(), reg.snapshotId).Some? then Ok(reg.snapshotId)
                   else Err(NotAdmitted)
    {
      hide InsertAll, Open, Identified, Holds, Admit;
      var id := reg.snapshotId;
      if guard.None? { return Err(NoAuthority); }
      AdmitCases(env, Tables(), reg);
      if !reg.strict { return Err(NotAdmitted); }
      var first := VerifyFence();
      if !first { return Err(Conflict); }
      if id in snapshots && !Identified(env, snapshots[id], id) { return Err(Conflict); }
      var written := WriteRows(reg);
      if !written { return Err(Conflict); }
      if id !in admissions {
        admissions := admissions[id := Admitted];
      }
      var second := VerifyFence();
      assert second;  // under the lock nothing the first check read has changed
      var found := Open(env, Db(snapshots, admissions, contracts, entries, activations), id);
      r := if found.Some? then Ok(id) else Err(NotAdmitted);
    }

    /** The snapshot, contract and entry rows of one admission, restored when an insert or the entry count fails. */
    method WriteRows(reg: Registry) returns (ok: bool)
      modifies this`snapshots, this`contracts, this`entries
      ensures var id := reg.snapshotId;
              var rows := InsertAll(env, StartRows(old(Tables()), id), reg.entries);
              && ok == (rows.Some? && |rows.value.slots| == |reg.manifest.refs|)
              && (ok ==> && snapshots == (if id in old(snapshots) then old(snapshots) else old(snapshots)[id := reg.manifest])
                         && contracts == rows.value.contracts && entries == old(entries)[id := rows.value.slots])
              && (!ok ==> snapshots == old(snapshots) && contracts == old(contracts) && entries == old(entries))
    {
      hide InsertAll;
      var id := reg.snapshotId;
      var savedSnapshots, savedContracts, savedEntries := snapshots, contracts, entries;
      if id !in snapshots {
        snapshots := snapshots[id := reg.manifest];
      }
      if id !in entries {
        entries := entries[id := map[]];
      }
      ok := InsertEntries(reg);
      ok := ok && |entries[id]| == |reg.manifest.refs|;
      if ok {
        assert entries == savedEntries[id := entries[id]];
      } else {
        snapshots, contracts, entries := savedSnapshots, savedContracts, savedEntries;
      }
    }

    /** `set_snapshot_state`. */
    method SetSnapshotState(id: string, state: SnapshotState) returns (r: Result<(), Failure>)
      modifies this`admissions
      ensures r.Ok? <==> && Authorised()
                         && (state == Admitted || state == Deprecated ==> Open(env, old(Tables()), id).Some?)
                         && id in old(admissions) && id in snapshots && Rank(old(admissions)[id]) <= Rank(state)
      ensures admissions == if r.Ok? then old(admissions)[id := state] else old(admissions)
      ensures r.Ok? ==> SetState(old(Tables()), id, state) == Some(Tables())
    {
      hide Open, Holds;
      if id in admissions { AllowedIsRank(admissions[id], state); }
      if guard.None? { return Err(NoAuthority); }
      if state == Admitted || state == Deprecated {
        var found := Open(env, Db(snapshots, admissions, contracts, entries, activations), id);
        if found.None? { return Err(NotAdmitted); }
      }
      var first := VerifyFence();
      if !first { return Err(Conflict); }
      if id !in admissions || id !in snapshots { return Err(NotAdmitted); }
      if !Allowed(admissions[id], state) { return Err(Conflict); }
      admissions := admissions[id := state];
      var second := VerifyFence();
      assert second;  // under the lock nothing the first check read has changed
      r := Ok(());
    }

    /** `activate_default`. */
    method ActivateDefault(scope: Scope, expected: Option<nat>, id: string, usable: bool)
      returns (r: Result<Activation, Failure>)
      modifies this`activations
      ensures r.Ok? <==> && Authorised()
                         && Open(env, old(Tables()), id).Some?
                         && usable && id in admissions && admissions[id] == Admitted
                         && scope.kind in {"device", "user", "organization"} && scope.id != ""
                         && (expected.None? ==> scope !in old(activations))
                         && (expected.Some? ==> && scope in old(activations)
                                                && old(activations)[scope].revision == expected.value < I64_MAX)
      ensures r.Ok? ==> r.value == Activation(id, 1 + if expected.Some? then expected.value else 0)
      ensures activations == if r.Ok? then old(activations)[scope := r.value] else old(activations)
      ensures r.Ok? ==> Activate(old(Tables()), scope, expected, id, usable) == Some(Tables())
    {
      hide Open, Holds;
      if guard.None? { return Err(NoAuthority); }
      if !ValidScope(scope) { return Err(Conflict); }
      var found := Open(env, Db(snapshots, admissions, contracts, entries, activations), id);
      if found.None? { return Err(NotAdmitted); }
      var first := VerifyFence();
      if !first { return Err(Conflict); }
      if !usable || id !in admissions || admissions[id] != Admitted { return Err(NotActivatable); }
      var base := 0;
      if scope in activations {
        base := activations[scope].revision;
        if base < 0 || expected != Some(base) { return Err(Conflict); }
      } else if expected.Some? {
        return Err(Conflict);
      }
      if base + 1 > I64_MAX { return Err(Conflict); }
      activations := activations[scope := Activation(id, base + 1)];
      var second := VerifyFence();
      assert second;  // under the lock nothing the first check read has changed
      r := Ok(activations[scope]);
    }
  }

  /** The rows an admission starts from. */
  function StartRows(db: Db, id: string): Rows {
    Rows(db.contracts, if id in db.entries then db.entries[id] else map[])
  }

  lemma AdmitCases(env: Env, db: Db, reg: Registry)
    ensures var id := reg.snapshotId;
            var rows := InsertAll(env, StartRows(db, id), reg.entries);
            Admit(env, db, reg)
            == if !reg.strict || (id in db.snapshots && !Identified(env, db.snapshots[id], id))
                  || rows.None? || |rows.value.slots| != |reg.manifest.refs| then None
               else Some(db.(snapshots := if id in db.snapshots then db.snapshots else db.snapshots[id := reg.manifest],
                             admissions := if id in db.admissions then db.admissions else db.admissions[id := Admitted],
                             contracts := rows.value.contracts,
                             entries := db.entries[id := rows.value.slots]))
  {
    hide InsertAll, Identified;
  }

  /** A failed insert fails the whole admission. */
  lemma {:induction false} InsertFails(env: Env, rows: Rows, entries: seq<Entry>, k: nat)
    requires k <= |entries| && InsertAll(env, rows, entries[..k]).None?
    ensures InsertAll(env, rows, entries).None?
    decreases |entries|
  {
    hide InsertOne;
    if k == |entries| {
      assert entries[..k] == entries;
    } else {
      assert entries[..|entries| - 1][..k] == entries[..k];
      InsertFails(env, rows, entries[..|entries| - 1], k);
    }
  }
}
