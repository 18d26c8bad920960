/** Scoped defaults and containment over any run of store calls. */
module Activation {
  import opened Values
  import opened Admission
  import opened AdmissionRuns

  ghost predicate Succeeds(env: Env, db: Db, ops: seq<Op>, i: nat)
    requires i < |ops|
  {
    Transact(env, Attempt(env, db, ops[..i]), ops[i]).Some?
  }

  /** Call `i` of the run is a committed activation of the scope. */
  ghost predicate Activates(env: Env, db: Db, ops: seq<Op>, scope: Scope, i: nat)
    requires i < |ops|
  {
    ops[i].ActivateOp? && ops[i].scope == scope && Succeeds(env, db, ops, i)
  }

  /** How many activations of the scope the run committed. */
  ghost function Count(env: Env, db: Db, ops: seq<Op>, scope: Scope): nat {
    if ops == [] then 0
    else
      var n := |ops| - 1;
      Count(env, db, ops[..n], scope) + if Activates(env, db, ops, scope, n) then 1 else 0
  }

  function AsRevision(count: nat): Option<int> {
    if count == 0 then None else Some(count)
  }

  lemma AdmitKeepsActivations(env: Env, db: Db, reg: Registry)
    requires Admit(env, db, reg).Some?
    ensures Admit(env, db, reg).value.activations == db.activations
    ensures forall id | id in db.admissions ::
              id in Admit(env, db, reg).value.admissions && Admit(env, db, reg).value.admissions[id] == db.admissions[id]
  {
    hide InsertAll, Identified;
  }

  /** A scope's revision is the number of activations committed for it. */
  lemma {:induction false} RevisionIsCount(env: Env, db: Db, ops: seq<Op>, scope: Scope)
    requires db.activations == map[]
    ensures Revision(Attempt(env, db, ops), scope) == AsRevision(Count(env, db, ops, scope))
  {
    if ops != [] {
      hide Admit, ValidScope;
      var n := |ops| - 1;
      RevisionIsCount(env, db, ops[..n], scope);
      var before := Attempt(env, db, ops[..n]);
      if ops[n].AdmitOp? && Admit(env, before, ops[n].reg).Some? {
        AdmitKeepsActivations(env, before, ops[n].reg);
      }
    }
  }

  lemma {:induction false} CountGrows(env: Env, db: Db, ops: seq<Op>, scope: Scope, k: nat)
    requires k <= |ops|
    ensures Count(env, db, ops[..k], scope) <= Count(env, db, ops, scope)
    decreases |ops|
  {
    hide Attempt, Transact;
    if k == |ops| {
      assert ops[..k] == ops;
    } else {
      var n := |ops| - 1;
      assert ops[..n][..k] == ops[..k];
      CountGrows(env, db, ops[..n], scope, k);
    }
  }

  lemma CountSteps(env: Env, db: Db, ops: seq<Op>, scope: Scope, i: nat)
    requires i < |ops| && Activates(env, db, ops, scope, i)
    ensures Count(env, db, ops[..i + 1], scope) == Count(env, db, ops[..i], scope) + 1
  {
    hide Attempt, Transact;
    assert ops[..i + 1][..i] == ops[..i];
    assert Succeeds(env, db, ops[..i + 1], i);
  }

  /** A committed activation expected exactly the number committed before it and left one more. */
  lemma ExpectationMet(env: Env, db: Db, ops: seq<Op>, scope: Scope, i: nat)
    requires db.activations == map[] && i < |ops| && Activates(env, db, ops, scope, i)
    ensures ops[i].expected == AsRevision(Count(env, db, ops[..i], scope))
    ensures Revision(Attempt(env, db, ops[..i + 1]), scope) == Some(Count(env, db, ops[..i], scope) + 1)
  {
    RevisionIsCount(env, db, ops[..i], scope);
    RevisionIsCount(env, db, ops[..i + 1], scope);
    CountSteps(env, db, ops, scope, i);
    hide Attempt, Count;
  }

  /** Two committed activations of one scope never expected the same revision. */
  lemma OncePerExpectation(env: Env, db: Db, ops: seq<Op>, scope: Scope, i: nat, j: nat)
    requires db.activations == map[] && i < j < |ops|
    requires Activates(env, db, ops, scope, i) && Activates(env, db, ops, scope, j)
    ensures ops[i].expected != ops[j].expected
  {
    ExpectationMet(env, db, ops, scope, i);
    ExpectationMet(env, db, ops, scope, j);
    CountSteps(env, db, ops, scope, i);
    assert ops[..j][..i + 1] == ops[..i + 1];
    CountGrows(env, db, ops[..j], scope, i + 1);
    hide Attempt, Count, Activates;
  }

  /** One call never lowers a snapshot's restriction. */
  lemma TransactRaises(env: Env, db: Db, op: Op, id: string)
    requires Transact(env, db, op).Some? && id in db.admissions
    ensures var after := Transact(env, db, op).value;
            id in after.admissions && Rank(db.admissions[id]) <= Rank(after.admissions[id])
  {
    hide Admit;
    match op
    case AdmitOp(reg) => AdmitKeepsActivations(env, db, reg);
    case SetStateOp(target, state) =>
      AllowedIsRank(db.admissions[target], state);
    case ActivateOp(_, _, _, _) =>
  }

  /** Along any run a snapshot once admitted stays, and its restriction only tightens. */
  lemma {:induction false} RestrictionNeverFalls(env: Env, db: Db, ops: seq<Op>, k: nat, id: string)
    requires k <= |ops| && id in Attempt(env, db, ops[..k]).admissions
    ensures id in Attempt(env, db, ops).admissions
    ensures Rank(Attempt(env, db, ops[..k]).admissions[id]) <= Rank(Attempt(env, db, ops).admissions[id])
    decreases |ops|
  {
    hide Transact, Rank;
    if k == |ops| {
      assert ops[..k] == ops;
    } else {
      var n := |ops| - 1;
      assert ops[..n][..k] == ops[..k];
      RestrictionNeverFalls(env, db, ops[..n], k, id);
      var before := Attempt(env, db, ops[..n]);
      if Transact(env, before, ops[n]).Some? {
        TransactRaises(env, before, ops[n], id);
      }
    }
  }

  /** A snapshot withdrawn from ordinary use is never activated afterwards. */
  lemma WithdrawnNeverActivated(env: Env, db: Db, ops: seq<Op>, k: nat, j: nat, id: string)
    requires k <= j < |ops| && id in Attempt(env, db, ops[..k]).admissions
    requires Attempt(env, db, ops[..k]).admissions[id] != Admitted
    ensures ops[j].ActivateOp? && ops[j].id == id ==> !Succeeds(env, db, ops, j)
  {
    assert ops[..j][..k] == ops[..k];
    RestrictionNeverFalls(env, db, ops[..j], k, id);
    hide Attempt, Admit, ValidScope;
  }

  // ---------------------------------------------------------------- what a committed call leaves behind

  /** Call `i` of the run is a committed change of the snapshot's state. */
  ghost predicate Sets(env: Env, db: Db, ops: seq<Op>, id: string, i: nat)
    requires i < |ops|
  {
    ops[i].SetStateOp? && ops[i].id == id && Succeeds(env, db, ops, i)
  }

  lemma AttemptTaken(env: Env, db: Db, ops: seq<Op>, i: nat)
    requires i < |ops|
    ensures Attempt(env, db, ops[..i + 1])
         == match Transact(env, Attempt(env, db, ops[..i]), ops[i])
            case Some(after) => after
            case None => Attempt(env, db, ops[..i])
  {
    hide Transact;
    assert ops[..i + 1][..i] == ops[..i];
  }

  /** A committed change has taken effect when it returns, and the other snapshots keep their states. */
  lemma SetTakesEffect(env: Env, db: Db, ops: seq<Op>, i: nat, id: string)
    requires i < |ops| && Sets(env, db, ops, id, i)
    ensures id in Attempt(env, db, ops[..i]).admissions
    ensures Rank(Attempt(env, db, ops[..i]).admissions[id]) <= Rank(ops[i].state)
    ensures Attempt(env, db, ops[..i + 1]).admissions == Attempt(env, db, ops[..i]).admissions[id := ops[i].state]
  {
    hide Attempt, Rank;
    AttemptTaken(env, db, ops, i);
    var before := Attempt(env, db, ops[..i]);
    AllowedIsRank(before.admissions[id], ops[i].state);
  }

  /** After a committed change the snapshot is at least that restricted in every later state; withdrawn by it,
      the snapshot is never activated again. */
  lemma ContainmentHolds(env: Env, db: Db, ops: seq<Op>, i: nat, j: nat, id: string)
    requires i < j <= |ops| && Sets(env, db, ops, id, i)
    ensures id in Attempt(env, db, ops[..j]).admissions
    ensures Rank(ops[i].state) <= Rank(Attempt(env, db, ops[..j]).admissions[id])
    ensures ops[i].state != Admitted && j < |ops| && ops[j].ActivateOp? && ops[j].id == id ==> !Succeeds(env, db, ops, j)
  {
    hide Attempt, Rank, Transact;
    SetTakesEffect(env, db, ops, i, id);
    assert ops[..j][..i + 1] == ops[..i + 1];
    RestrictionNeverFalls(env, db, ops[..j], i + 1, id);
    if ops[i].state != Admitted && j < |ops| { WithdrawnNeverActivated(env, db, ops, i + 1, j, id); }
  }

  lemma OthersKeepState(env: Env, db: Db, op: Op, id: string)
    requires Transact(env, db, op).Some? && !(op.SetStateOp? && op.id == id)
    ensures id in db.admissions ==>
              id in Transact(env, db, op).value.admissions && Transact(env, db, op).value.admissions[id] == db.admissions[id]
    ensures id !in db.admissions && id in Transact(env, db, op).value.admissions ==>
              Transact(env, db, op).value.admissions[id] == Admitted
  {
    hide InsertAll, Identified;
  }

  /** The state of a snapshot is the one its last committed change named, and `Admitted` before any. */
  lemma {:induction false} StateIsLastSet(env: Env, db: Db, ops: seq<Op>, id: string)
    requires id !in db.admissions && id in Attempt(env, db, ops).admissions
    ensures (forall i | 0 <= i < |ops| :: !Sets(env, db, ops, id, i)) ==> Attempt(env, db, ops).admissions[id] == Admitted
    ensures forall i | 0 <= i < |ops| && Sets(env, db, ops, id, i) && (forall k | i < k < |ops| :: !Sets(env, db, ops, id, k)) ::
              Attempt(env, db, ops).admissions[id] == ops[i].state
  {
    hide Transact, Succeeds;
    var n := |ops| - 1;
    if ops != [] {
      assert ops[..n + 1] == ops;
      AttemptTaken(env, db, ops, n);
      forall i | 0 <= i < n ensures Sets(env, db, ops[..n], id, i) <==> Sets(env, db, ops, id, i) { SetsPrefix(env, db, ops, id, n, i); }
      if Sets(env, db, ops, id, n) {
        SetTakesEffect(env, db, ops, n, id);
      } else {
        var before := Attempt(env, db, ops[..n]);
        NotSet(env, db, ops, id);
        if id in before.admissions { StateIsLastSet(env, db, ops[..n], id); } else { NeverSet(env, db, ops[..n], id); }
      }
    }
  }

  lemma SetsPrefix(env: Env, db: Db, ops: seq<Op>, id: string, n: nat, i: nat)
    requires i < n <= |ops|
    ensures Sets(env, db, ops[..n], id, i) <==> Sets(env, db, ops, id, i)
  {
    hide Transact, Attempt;
    assert ops[..n][..i] == ops[..i];
  }

  /** A last call that does not set the snapshot's state leaves it, or admits it. */
  lemma NotSet(env: Env, db: Db, ops: seq<Op>, id: string)
    requires ops != [] && !Sets(env, db, ops, id, |ops| - 1)
    ensures var before, after := Attempt(env, db, ops[..|ops| - 1]), Attempt(env, db, ops);
            && (id in before.admissions ==> id in after.admissions && after.admissions[id] == before.admissions[id])
            && (id !in before.admissions && id in after.admissions ==> after.admissions[id] == Admitted)
  {
    hide Transact;
    var n := |ops| - 1;
    if Succeeds(env, db, ops, n) { OthersKeepState(env, Attempt(env, db, ops[..n]), ops[n], id); }
  }

  /** Nothing was set for a snapshot that is not admitted. */
  lemma NeverSet(env: Env, db: Db, ops: seq<Op>, id: string)
    requires id !in Attempt(env, db, ops).admissions
    ensures forall i | 0 <= i < |ops| :: !Sets(env, db, ops, id, i)
  {
    hide Transact, Attempt, Succeeds, Rank;
    forall i | 0 <= i < |ops| ensures !Sets(env, db, ops, id, i) {
      if Sets(env, db, ops, id, i) {
        assert ops[..|ops|] == ops;
        ContainmentHolds(env, db, ops, i, |ops|, id);
        assert false;
      }
    }
  }

  /** The default of a scope is the snapshot that its last committed activation named. */
  lemma {:induction false} DefaultIsLast(env: Env, db: Db, ops: seq<Op>, scope: Scope, i: nat)
    requires i < |ops| && Activates(env, db, ops, scope, i)
    requires forall k | i < k < |ops| :: !Activates(env, db, ops, scope, k)
    ensures scope in Attempt(env, db, ops).activations && Attempt(env, db, ops).activations[scope].snapshotId == ops[i].id
    decreases |ops|
  {
    hide Admit, ValidScope;
    var n := |ops| - 1;
    if i < n {
      var front := ops[..n];
      assert forall k | 0 <= k < n :: front[..k] == ops[..k];
      assert forall k | i < k < n :: Activates(env, db, front, scope, k) == Activates(env, db, ops, scope, k);
      assert Activates(env, db, front, scope, i);
      DefaultIsLast(env, db, front, scope, i);
      var before := Attempt(env, db, front);
      if ops[n].AdmitOp? && Admit(env, before, ops[n].reg).Some? { AdmitKeepsActivations(env, before, ops[n].reg); }
      assert !Activates(env, db, ops, scope, n);
    } else {
      assert ops[..i] == ops[..n];
    }
  }
}
