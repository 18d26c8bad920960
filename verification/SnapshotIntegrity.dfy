/**
 What reopening a snapshot establishes about tables that anyone may have altered: the snapshot ID pins the
 contracts, and a stored contract that no longer hashes to its reference is never returned.
 */
module SnapshotIntegrity {
  import opened Values
  import opened Admission

  /** The stored contract that an entry row names. */
  function Named(db: Db, slot: Slot, r: Ref): Option<Contract> {
    var key := ContractKey(slot.class_, r.hash);
    if key in db.contracts then Some(db.contracts[key]) else None
  }

  /** The entry's contract is there, of the entry's family, and hashes to the entry's reference. */
  predicate Genuine(env: Env, slot: Slot, r: Ref, stored: Option<Contract>) {
    && stored.Some? && env.recordOk(stored.value)
    && r == Ref(slot.class_, slot.id, stored.value.version, env.contractHash(ViewOf(stored.value)))
    && stored.value.id == slot.id && env.major(stored.value.version) == Some(slot.major)
  }

  lemma ReadableIff(env: Env, db: Db, slot: Slot, r: Ref)
    ensures SlotReadable(env, db, slot, r) <==> Genuine(env, slot, r, Named(db, slot, r))
  {
  }

  /**
   On any tables, a snapshot opens exactly when it is admitted, its manifest hashes to its ID and names each
   family once, its entries are the manifest's references, each entry's contract is genuine, and together the
   contracts pass the cross checks; and what opens are those contracts.
   */
  lemma OpenIff(env: Env, db: Db, id: string)
    ensures Open(env, db, id).Some? <==>
              && id in db.snapshots && id in db.admissions && id in db.entries
              && Identified(env, db.snapshots[id], id) && |db.snapshots[id].refs| <= MAX_CONTRACTS
              && (forall r :: r in db.snapshots[id].refs <==> exists slot | slot in db.entries[id] :: db.entries[id][slot] == r)
              && (forall slot | slot in db.entries[id] ::
                    Genuine(env, slot, db.entries[id][slot], Named(db, slot, db.entries[id][slot])))
              && env.crossOk(set slot | slot in db.entries[id] && Named(db, slot, db.entries[id][slot]).Some? ::
                               ViewOf(Named(db, slot, db.entries[id][slot]).value))
    ensures Open(env, db, id).Some? ==>
              var found := Open(env, db, id).value;
              && found.Keys == db.entries[id].Keys
              && forall slot | slot in found :: Named(db, slot, db.entries[id][slot]) == Some(found[slot])
  {
    hide Identified, SlotReadable, Genuine;
    if id in db.snapshots && id in db.entries {
      var manifest, slots := db.snapshots[id], db.entries[id];
      ValuesIff(slots, manifest);
      forall slot | slot in slots
        ensures SlotReadable(env, db, slot, slots[slot]) <==> Genuine(env, slot, slots[slot], Named(db, slot, slots[slot]))
      {
        ReadableIff(env, db, slot, slots[slot]);
      }
      var found := map slot | slot in slots && ContractKey(slot.class_, slots[slot].hash) in db.contracts ::
                      db.contracts[ContractKey(slot.class_, slots[slot].hash)];
      FoundViews(db, slots, found);
      if forall slot | slot in slots :: Genuine(env, slot, slots[slot], Named(db, slot, slots[slot])) {
        forall slot | slot in slots ensures Named(db, slot, slots[slot]).Some? {
          GenuineStored(env, slot, slots[slot], Named(db, slot, slots[slot]));
        }
        assert found.Keys == slots.Keys;
      }
    }
  }

  lemma FoundViews(db: Db, slots: map<Slot, Ref>, found: map<Slot, Contract>)
    requires found == map slot | slot in slots && ContractKey(slot.class_, slots[slot].hash) in db.contracts ::
                        db.contracts[ContractKey(slot.class_, slots[slot].hash)]
    ensures (set slot | slot in found :: ViewOf(found[slot]))
         == (set slot | slot in slots && Named(db, slot, slots[slot]).Some? :: ViewOf(Named(db, slot, slots[slot]).value))
  {
    hide ViewOf;
    var a := set slot | slot in found :: ViewOf(found[slot]);
    var b := set slot | slot in slots && Named(db, slot, slots[slot]).Some? :: ViewOf(Named(db, slot, slots[slot]).value);
    forall v | v in a ensures v in b {
      var slot :| slot in found && ViewOf(found[slot]) == v;
      assert Named(db, slot, slots[slot]) == Some(found[slot]);
    }
    forall v | v in b ensures v in a {
      var slot :| slot in slots && Named(db, slot, slots[slot]).Some? && ViewOf(Named(db, slot, slots[slot]).value) == v;
      assert slot in found && found[slot] == Named(db, slot, slots[slot]).value;
    }
  }

  lemma GenuineStored(env: Env, slot: Slot, r: Ref, stored: Option<Contract>)
    requires Genuine(env, slot, r, stored)
    ensures stored.Some?
  {
  }

  lemma ValuesIff(slots: map<Slot, Ref>, m: Manifest)
    ensures slots.Values == RefSet(m) <==>
            forall r :: r in m.refs <==> exists slot | slot in slots :: slots[slot] == r
  {
    if forall r :: r in m.refs <==> exists slot | slot in slots :: slots[slot] == r {
      forall r ensures r in slots.Values <==> r in RefSet(m) {
        if r in slots.Values { var slot :| slot in slots && slots[slot] == r; }
      }
    }
    if slots.Values == RefSet(m) {
      forall r ensures r in m.refs <==> exists slot | slot in slots :: slots[slot] == r {
        assert r in m.refs <==> r in RefSet(m);
        if r in slots.Values { var slot :| slot in slots && slots[slot] == r; }
      }
    }
  }

  /** A stored contract that was altered so that it no longer hashes to its entry's reference keeps the whole
      snapshot from opening. */
  lemma AlteredContractRefused(env: Env, db: Db, id: string, slot: Slot)
    requires id in db.entries && slot in db.entries[id]
    requires var stored := Named(db, slot, db.entries[id][slot]);
             stored.Some? && env.contractHash(ViewOf(stored.value)) != db.entries[id][slot].hash
    ensures Open(env, db, id).None?
  {
    hide Open, Identified;
    OpenIff(env, db, id);
  }

  /** Two different views, or two different sets of references, with one hash. */
  ghost predicate HashCollision(env: Env, one: map<Slot, Contract>, m: Manifest, two: map<Slot, Contract>, n: Manifest) {
    || (exists slot | slot in one && slot in two ::
          ViewOf(one[slot]) != ViewOf(two[slot]) && env.contractHash(ViewOf(one[slot])) == env.contractHash(ViewOf(two[slot])))
    || (RefSet(m) != RefSet(n) && env.snapshotHash(RefSet(m)) == env.snapshotHash(RefSet(n)))
  }

  lemma EntriesAgree(env: Env, a: Db, b: Db, id: string, slot: Slot)
    requires Open(env, a, id).Some? && Open(env, b, id).Some?
    requires RefSet(a.snapshots[id]) == RefSet(b.snapshots[id]) && slot in a.entries[id]
    ensures slot in b.entries[id] && b.entries[id][slot] == a.entries[id][slot]
  {
    OpenIff(env, a, id);
    OpenIff(env, b, id);
    hide Open, Identified;
    var r := a.entries[id][slot];
    assert r in a.snapshots[id].refs;
    assert r in RefSet(a.snapshots[id]);
    assert r in b.snapshots[id].refs;
    var other :| other in b.entries[id] && b.entries[id][other] == r;
    assert Genuine(env, slot, r, Named(a, slot, r)) && Genuine(env, other, r, Named(b, other, r));
  }

  /** Whatever happened to two sets of tables, if both open a snapshot ID they return the same families with the
      same semantic views, or the hashes collide. */
  lemma IdPinsContracts(env: Env, a: Db, b: Db, id: string)
    requires Open(env, a, id).Some? && Open(env, b, id).Some?
    ensures var one, two := Open(env, a, id).value, Open(env, b, id).value;
            || (one.Keys == two.Keys && forall slot | slot in one :: ViewOf(one[slot]) == ViewOf(two[slot]))
            || HashCollision(env, one, a.snapshots[id], two, b.snapshots[id])
  {
    var one, two := Open(env, a, id).value, Open(env, b, id).value;
    OpenIff(env, a, id);
    OpenIff(env, b, id);
    hide Open;
    if RefSet(a.snapshots[id]) == RefSet(b.snapshots[id]) {
      forall slot | slot in one
        ensures slot in two && env.contractHash(ViewOf(one[slot])) == env.contractHash(ViewOf(two[slot]))
      {
        EntriesAgree(env, a, b, id, slot);
        assert Genuine(env, slot, a.entries[id][slot], Some(one[slot])) && Genuine(env, slot, a.entries[id][slot], Some(two[slot]));
      }
      forall slot | slot in two ensures slot in one { EntriesAgree(env, b, a, id, slot); }
    }
  }

  /** On any rows, inserting an entry succeeds exactly when the rows already there agree with it, and adds the
      rows that are missing. */
  lemma InsertOneIff(env: Env, rows: Rows, e: Entry)
    ensures var c, hash := e.contract, env.contractHash(ViewOf(e.contract));
            var key, r := ContractKey(c.class_, hash), Ref(c.class_, c.id, c.version, hash);
            && (InsertOne(env, rows, e).Some? <==>
                  && e.slot.major <= I64_MAX
                  && (key in rows.contracts ==>
                        && rows.contracts[key].id == c.id && rows.contracts[key].version == c.version
                        && env.contractHash(ViewOf(rows.contracts[key])) == hash)
                  && (e.slot in rows.slots ==> rows.slots[e.slot] == r))
            && (InsertOne(env, rows, e).Some? ==>
                  var after := InsertOne(env, rows, e).value;
                  && after.contracts == map[key := c] + rows.contracts
                  && after.slots == map[e.slot := r] + rows.slots)
  {
    var c := e.contract;
    var key := ContractKey(c.class_, HashOf(env, c));
    assert key in rows.contracts ==> map[key := c] + rows.contracts == rows.contracts;
    assert key !in rows.contracts ==> map[key := c] + rows.contracts == rows.contracts[key := c];
    assert e.slot in rows.slots ==> map[e.slot := RefOf(env, c)] + rows.slots == rows.slots;
    assert e.slot !in rows.slots ==> map[e.slot := RefOf(env, c)] + rows.slots == rows.slots[e.slot := RefOf(env, c)];
  }
}
