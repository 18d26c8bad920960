/**
 Ownership fencing of the durable store. Claims and writer transactions of any number of connections
 interleave step by step; SQLite's IMMEDIATE lock admits one transaction at a time.
 */
module Fence {
  import opened Values
  import opened Ownership
  import opened Admission
  import opened AdmissionRuns
  import opened Activation

  datatype Call = Call(guard: Guard, op: Op)

  datatype Phase = Entered | Verified | Applied | Rechecked

  datatype Tx = Tx(conn: nat, guard: Guard, op: Op, phase: Phase, work: Db)

  datatype Event = Claimed(epoch: int) | Wrote(under: Option<int>, op: Op)

  datatype State = State(
    inMemory: bool,
    lease: Option<Lease>,
    temps: map<nat, Temp>,
    minted: seq<Token>,
    guards: map<nat, Guard>,
    calls: map<nat, Call>,
    tx: Option<Tx>,
    db: Db,
    history: seq<Event>
  )

  function Start(inMemory: bool, db: Db): State {
    State(inMemory, None, map[], [], map[], map[], None, db, [])
  }

  datatype Action =
    | Claim(conn: nat, locked: bool, owner: string, nonce: string)
    | MarkReady(conn: nat, marker: Marker)
    | Attach(conn: nat, guard: Guard)
    | Prepare(conn: nat, op: Op)
    | Begin(conn: nat)
    | VerifyFirst
    | Body
    | VerifySecond
    | Commit
    | Abort
    | Close(conn: nat)

  function TempOf(s: State, conn: nat): Option<Temp> {
    if conn in s.temps then Some(s.temps[conn]) else None
  }

  /** Whether a guard passes verification on a connection. */
  predicate GuardHolds(s: State, conn: nat, g: Guard) {
    Holds(s.inMemory, s.lease, TempOf(s, conn), g)
  }

  function NextEpoch(lease: Option<Lease>): int {
    if lease.Some? then lease.value.epoch + 1 else 1
  }

  /** Calls that reopen the snapshot before they take the lock. */
  ghost predicate Preflight(env: Env, db: Db, op: Op) {
    match op
    case AdmitOp(_) => true
    case SetStateOp(id, state) => state == Admitted || state == Deprecated ==> Open(env, db, id).Some?
    case ActivateOp(_, _, id, _) => Open(env, db, id).Some?
  }

  function EpochOf(g: Guard): Option<int> {
    match g
    case OwnerGuard(t) => Some(t.epoch)
    case FixtureGuard => None
  }

  /** One step; an action that is not enabled, or fails, leaves no trace but the released lock. */
  ghost function Next(env: Env, s: State, a: Action): State {
    match a
    case Claim(conn, locked, owner, nonce) =>
      if s.tx.Some? || locked == s.inMemory || (!locked && s.lease.Some?) || NextEpoch(s.lease) > I64_MAX then s
      else
        var ready := if conn in s.temps then s.temps[conn].ready else {};
        var epoch := NextEpoch(s.lease);
        s.(lease := Some(Lease(owner, epoch)),
           temps := s.temps[conn := Temp(nonce, ready)],
           minted := s.minted + [Token(locked, owner, epoch, nonce)],
           history := s.history + [Claimed(epoch)])
    case MarkReady(conn, marker) =>
      if conn in s.temps then s.(temps := s.temps[conn := s.temps[conn].(ready := s.temps[conn].ready + {marker})]) else s
    case Attach(conn, guard) =>
      if (guard.OwnerGuard? ==> guard.token in s.minted) && GuardHolds(s, conn, guard)
      then s.(guards := s.guards[conn := guard]) else s
    case Prepare(conn, op) =>
      if conn in s.guards && Preflight(env, s.db, op)
      then s.(calls := s.calls[conn := Call(s.guards[conn], op)]) else s
    case Begin(conn) =>
      if s.tx.None? && conn in s.calls
      then s.(tx := Some(Tx(conn, s.calls[conn].guard, s.calls[conn].op, Entered, s.db)), calls := s.calls - {conn})
      else s
    case VerifyFirst =>
      if s.tx.Some? && s.tx.value.phase == Entered then
        if GuardHolds(s, s.tx.value.conn, s.tx.value.guard) then s.(tx := Some(s.tx.value.(phase := Verified))) else s.(tx := None)
      else s
    case Body =>
      if s.tx.Some? && s.tx.value.phase == Verified then
        match Transact(env, s.tx.value.work, s.tx.value.op)
        case Some(after) => s.(tx := Some(s.tx.value.(phase := Applied, work := after)))
        case None => s.(tx := None)
      else s
    case VerifySecond =>
      if s.tx.Some? && s.tx.value.phase == Applied then
        if GuardHolds(s, s.tx.value.conn, s.tx.value.guard) then s.(tx := Some(s.tx.value.(phase := Rechecked))) else s.(tx := None)
      else s
    case Commit =>
      if s.tx.Some? && s.tx.value.phase == Rechecked then
        s.(tx := None, db := s.tx.value.work,
           history := s.history + [Wrote(EpochOf(s.tx.value.guard), s.tx.value.op)])
      else s
    case Abort => s.(tx := None)
    case Close(conn) =>
      s.(temps := s.temps - {conn}, guards := s.guards - {conn}, calls := s.calls - {conn},
         tx := if s.tx.Some? && s.tx.value.conn == conn then None else s.tx)
  }

  ghost function Run(env: Env, s: State, actions: seq<Action>): State {
    if actions == [] then s
    else Next(env, Run(env, s, actions[..|actions| - 1]), actions[|actions| - 1])
  }

  // ---------------------------------------------------------------- histories

  /** The epoch of the last committed claim. */
  function LatestClaim(h: seq<Event>): Option<int> {
    if h == [] then None
    else match h[|h| - 1]
      case Claimed(epoch) => Some(epoch)
      case Wrote(_, _) => LatestClaim(h[..|h| - 1])
  }

  function Ops(h: seq<Event>): seq<Op> {
    if h == [] then []
    else
      var earlier := Ops(h[..|h| - 1]);
      match h[|h| - 1]
      case Claimed(_) => earlier
      case Wrote(_, op) => earlier + [op]
  }

  /** Each write carries the epoch of the latest claim; each claim raises it. */
  ghost predicate Fenced(h: seq<Event>) {
    h == [] ||
    var earlier := h[..|h| - 1];
    && Fenced(earlier)
    && match h[|h| - 1]
       case Claimed(epoch) => epoch == if LatestClaim(earlier).Some? then LatestClaim(earlier).value + 1 else 1
       case Wrote(epoch, _) => epoch == LatestClaim(earlier)
  }

  /** Every committed write was a successful call on the tables the earlier ones left. */
  ghost predicate Serial(env: Env, db: Db, h: seq<Event>) {
    h == [] ||
    var earlier := h[..|h| - 1];
    && Serial(env, db, earlier)
    && (h[|h| - 1].Wrote? ==> Transact(env, Attempt(env, db, Ops(earlier)), h[|h| - 1].op).Some?)
  }

  // ---------------------------------------------------------------- the invariant

  ghost predicate TokensOrdered(minted: seq<Token>) {
    forall i, j | 0 <= i < j < |minted| :: minted[i].epoch < minted[j].epoch
  }

  ghost predicate LeaseIsLast(s: State) {
    && (s.lease.None? <==> s.minted == [])
    && (s.lease.Some? ==> var t := s.minted[|s.minted| - 1]; s.lease.value == Lease(t.owner, t.epoch))
    && LatestClaim(s.history) == if s.lease.Some? then Some(s.lease.value.epoch) else None
  }

  /** The guard names the current lease, or there is no lease and it is the fixture. */
  predicate Current(s: State, g: Guard) {
    EpochOf(g) == if s.lease.Some? then Some(s.lease.value.epoch) else None
  }

  ghost predicate TxSound(env: Env, s: State) {
    s.tx.Some? ==>
      var t := s.tx.value;
      && (t.phase != Entered ==> GuardHolds(s, t.conn, t.guard))
      && (t.phase == Entered || t.phase == Verified ==> t.work == s.db)
      && (t.phase == Applied || t.phase == Rechecked ==> Transact(env, s.db, t.op) == Some(t.work))
  }

  ghost predicate Safe(env: Env, db: Db, s: State) {
    && TokensOrdered(s.minted) && LeaseIsLast(s)
    && TxSound(env, s)
    && Fenced(s.history)
    && Serial(env, db, s.history)
    && s.db == Attempt(env, db, Ops(s.history))
  }

  lemma HoldsIsCurrent(s: State, conn: nat, g: Guard)
    requires GuardHolds(s, conn, g)
    ensures Current(s, g)
  {
  }

  lemma ClaimKeeps(env: Env, db: Db, s: State, a: Action)
    requires Safe(env, db, s) && a.Claim?
    ensures Safe(env, db, Next(env, s, a))
  {
    hide Attempt, Transact;
    var after := Next(env, s, a);
    if after != s {
      assert after.history[..|s.history|] == s.history;
      assert after.minted[..|s.minted|] == s.minted;
    }
  }

  lemma CommitKeeps(env: Env, db: Db, s: State)
    requires Safe(env, db, s)
    ensures Safe(env, db, Next(env, s, Commit))
  {
    hide Transact, Attempt, Ops, Serial, Fenced, LatestClaim, TokensOrdered;
    var after := Next(env, s, Commit);
    if after != s {
      var t := s.tx.value;
      HoldsIsCurrent(s, t.conn, t.guard);
      HistorySnoc(env, db, s.history, Wrote(EpochOf(t.guard), t.op));
      OpsSnoc(s.history, Wrote(EpochOf(t.guard), t.op));
      AttemptSnoc(env, db, Ops(s.history), t.op);
    }
  }

  lemma HistorySnoc(env: Env, db: Db, h: seq<Event>, e: Event)
    requires Fenced(h) && Serial(env, db, h) && e.Wrote? && e.under == LatestClaim(h)
    requires Transact(env, Attempt(env, db, Ops(h)), e.op).Some?
    ensures Fenced(h + [e]) && Serial(env, db, h + [e]) && LatestClaim(h + [e]) == LatestClaim(h)
  {
    hide Transact, Attempt, Ops;
    assert (h + [e])[..|h|] == h;
  }

  lemma AttemptSnoc(env: Env, db: Db, ops: seq<Op>, op: Op)
    requires Transact(env, Attempt(env, db, ops), op).Some?
    ensures Attempt(env, db, ops + [op]) == Transact(env, Attempt(env, db, ops), op).value
  {
    hide Transact;
    assert (ops + [op])[..|ops|] == ops;
  }

  /** Steps that leave lease, minted owners, tables and history alone need only a sound transaction. */
  lemma QuietKeeps(env: Env, db: Db, s: State, after: State)
    requires Safe(env, db, s) && TxSound(env, after)
    requires Unmoved(s, after)
    ensures Safe(env, db, after)
  {
    hide Attempt, Transact, Fenced, Serial, Ops, LatestClaim, TokensOrdered, TxSound;
  }

  /** Steps of the open transaction itself. */
  predicate Inner(a: Action) {
    a.VerifyFirst? || a.Body? || a.VerifySecond? || a.Abort?
  }

  ghost predicate Unmoved(s: State, after: State) {
    after.lease == s.lease && after.minted == s.minted && after.db == s.db && after.history == s.history
  }

  lemma InnerTx(env: Env, s: State, a: Action)
    requires TxSound(env, s) && Inner(a)
    ensures TxSound(env, Next(env, s, a)) && Unmoved(s, Next(env, s, a))
  {
    hide Transact, Preflight, Holds;
  }

  lemma OuterTx(env: Env, s: State, a: Action)
    requires TxSound(env, s) && !Inner(a) && !a.Claim? && !a.Commit?
    ensures TxSound(env, Next(env, s, a)) && Unmoved(s, Next(env, s, a))
  {
    hide Transact, Preflight;
    match a
    case MarkReady(_, _) =>
    case Attach(_, _) =>
    case Prepare(_, _) =>
    case Begin(_) =>
    case Close(_) =>
  }

  lemma QuietTx(env: Env, s: State, a: Action)
    requires TxSound(env, s) && !a.Claim? && !a.Commit?
    ensures TxSound(env, Next(env, s, a)) && Unmoved(s, Next(env, s, a))
  {
    hide TxSound, Next;
    if Inner(a) { InnerTx(env, s, a); } else { OuterTx(env, s, a); }
  }

  /** Every step of every connection keeps the invariant. */
  lemma NextKeeps(env: Env, db: Db, s: State, a: Action)
    requires Safe(env, db, s)
    ensures Safe(env, db, Next(env, s, a))
  {
    hide Next, Fenced, Serial, Attempt, TxSound, LeaseIsLast, TokensOrdered;
    if a.Claim? {
      ClaimKeeps(env, db, s, a);
    } else if a.Commit? {
      CommitKeeps(env, db, s);
    } else {
      QuietTx(env, s, a);
      QuietKeeps(env, db, s, Next(env, s, a));
    }
  }

  lemma {:induction false} RunKeeps(env: Env, db: Db, inMemory: bool, actions: seq<Action>)
    ensures Safe(env, db, Run(env, Start(inMemory, db), actions))
  {
    if actions != [] {
      hide Safe, Next;
      RunKeeps(env, db, inMemory, actions[..|actions| - 1]);
      NextKeeps(env, db, Run(env, Start(inMemory, db), actions[..|actions| - 1]), actions[|actions| - 1]);
    }
  }

  // ---------------------------------------------------------------- main results

  /** In no reachable state do two owners verify, on whichever connections. */
  lemma OneOwnerVerifies(env: Env, db: Db, inMemory: bool, actions: seq<Action>, c1: nat, t1: Token, c2: nat, t2: Token)
    requires var s := Run(env, Start(inMemory, db), actions);
             t1 in s.minted && t2 in s.minted
             && Verifies(s.inMemory, s.lease, TempOf(s, c1), t1) && Verifies(s.inMemory, s.lease, TempOf(s, c2), t2)
    ensures t1 == t2
  {
    RunKeeps(env, db, inMemory, actions);
    var s := Run(env, Start(inMemory, db), actions);
    hide Run, Fenced, Serial, Attempt, TxSound, LeaseIsLast;
    var i :| 0 <= i < |s.minted| && s.minted[i] == t1;
    var j :| 0 <= j < |s.minted| && s.minted[j] == t2;
  }

  lemma {:induction false} FencedAt(h: seq<Event>, k: nat)
    requires Fenced(h) && k <= |h|
    ensures Fenced(h[..k])
    decreases |h|
  {
    if k == |h| {
      assert h[..k] == h;
    } else {
      assert h[..|h| - 1][..k] == h[..k];
      FencedAt(h[..|h| - 1], k);
    }
  }

  /** The latest claim never falls as the history grows. */
  lemma {:induction false} LatestGrows(h: seq<Event>, k: nat)
    requires Fenced(h) && k <= |h| && LatestClaim(h[..k]).Some?
    ensures LatestClaim(h).Some? && LatestClaim(h[..k]).value <= LatestClaim(h).value
    decreases |h|
  {
    if k == |h| {
      assert h[..k] == h;
    } else {
      assert h[..|h| - 1][..k] == h[..k];
      LatestGrows(h[..|h| - 1], k);
    }
  }

  /** Each committed claim gets a strictly larger epoch than every earlier one. */
  lemma ClaimsIncrease(env: Env, db: Db, inMemory: bool, actions: seq<Action>, i: nat, j: nat)
    requires var h := Run(env, Start(inMemory, db), actions).history;
             i < j < |h| && h[i].Claimed? && h[j].Claimed?
    ensures var h := Run(env, Start(inMemory, db), actions).history; h[i].epoch < h[j].epoch
  {
    RunKeeps(env, db, inMemory, actions);
    var h := Run(env, Start(inMemory, db), actions).history;
    hide Run, Serial, Attempt, TxSound, LeaseIsLast;
    LatestBefore(h, i, j);
    FencedAt(h, j + 1);
    assert h[..j + 1][..j] == h[..j];
  }

  lemma LatestBefore(h: seq<Event>, i: nat, j: nat)
    requires Fenced(h) && i < j < |h| && h[i].Claimed?
    ensures LatestClaim(h[..j]).Some? && h[i].epoch <= LatestClaim(h[..j]).value
  {
    FencedAt(h, j);
    assert LatestClaim(h[..i + 1]) == Some(h[i].epoch);
    assert h[..j][..i + 1] == h[..i + 1];
    LatestGrows(h[..j], i + 1);
  }

  /** Every committed write was made under the latest claim committed before it; writes without an
      owner happen only while no claim has ever committed. */
  lemma WritesAreFenced(env: Env, db: Db, inMemory: bool, actions: seq<Action>, j: nat)
    requires var h := Run(env, Start(inMemory, db), actions).history; j < |h| && h[j].Wrote?
    ensures var h := Run(env, Start(inMemory, db), actions).history; h[j].under == LatestClaim(h[..j])
  {
    RunKeeps(env, db, inMemory, actions);
    var h := Run(env, Start(inMemory, db), actions).history;
    hide Run, Serial, Attempt, TxSound, LeaseIsLast;
    FencedAt(h, j + 1);
    assert h[..j + 1][..j] == h[..j];
  }

  /** Once a claim has committed, no owner of a smaller epoch and no fixture ever commits again. */
  lemma NoStaleWriteCommits(env: Env, db: Db, inMemory: bool, actions: seq<Action>, i: nat, j: nat)
    requires var h := Run(env, Start(inMemory, db), actions).history;
             i < j < |h| && h[i].Claimed? && h[j].Wrote?
    ensures var h := Run(env, Start(inMemory, db), actions).history;
            h[j].under.Some? && h[i].epoch <= h[j].under.value
  {
    RunKeeps(env, db, inMemory, actions);
    WritesAreFenced(env, db, inMemory, actions, j);
    var h := Run(env, Start(inMemory, db), actions).history;
    hide Run, Serial, Attempt, TxSound, LeaseIsLast;
    LatestBefore(h, i, j);
  }

  // ---------------------------------------------------------------- what the tables hold

  /** Committed activations of a scope in a history. */
  function Activations(h: seq<Event>, scope: Scope): nat {
    if h == [] then 0
    else
      var last := h[|h| - 1];
      Activations(h[..|h| - 1], scope) + if last.Wrote? && last.op.ActivateOp? && last.op.scope == scope then 1 else 0
  }

  lemma {:induction false} SerialCount(env: Env, db: Db, h: seq<Event>, scope: Scope)
    requires Serial(env, db, h)
    ensures Count(env, db, Ops(h), scope) == Activations(h, scope)
  {
    hide Attempt, Transact;
    if h != [] {
      var n := |h| - 1;
      SerialCount(env, db, h[..n], scope);
      if h[n].Wrote? {
        var ops, earlier := Ops(h), Ops(h[..n]);
        assert ops[..|ops| - 1] == earlier;
      }
    }
  }

  /** In every reachable state a scope's revision counts the activations committed for it. */
  lemma ReachableRevision(env: Env, db: Db, inMemory: bool, actions: seq<Action>, scope: Scope)
    requires db.activations == map[]
    ensures var s := Run(env, Start(inMemory, db), actions);
            Revision(s.db, scope) == AsRevision(Activations(s.history, scope))
  {
    RunKeeps(env, db, inMemory, actions);
    var s := Run(env, Start(inMemory, db), actions);
    hide Run, Attempt, Fenced, TxSound, LeaseIsLast, TokensOrdered, Serial;
    SerialCount(env, db, s.history, scope);
    RevisionIsCount(env, db, Ops(s.history), scope);
  }

  lemma {:induction false} OpAt(env: Env, db: Db, h: seq<Event>, j: nat)
    requires Serial(env, db, h) && j < |h| && h[j].Wrote?
    ensures var k := |Ops(h[..j])|;
            && k < |Ops(h)| && Ops(h)[k] == h[j].op && Ops(h)[..k] == Ops(h[..j])
            && Succeeds(env, db, Ops(h), k)
    decreases |h|
  {
    hide Attempt, Transact;
    var n := |h| - 1;
    var k := |Ops(h[..j])|;
    if j < n {
      assert h[..n][..j] == h[..j];
      OpAt(env, db, h[..n], j);
      assert Ops(h)[..k] == Ops(h[..n])[..k];
    }
  }

  lemma {:induction false} OpsGrow(h: seq<Event>, i: nat, j: nat)
    requires i < j <= |h| && h[i].Wrote?
    ensures |Ops(h[..i])| < |Ops(h[..j])|
    decreases j
  {
    assert h[..j][..j - 1] == h[..j - 1];
    if i < j - 1 { OpsGrow(h, i, j - 1); }
  }

  /** Under any interleaving at most one activation commits per scope and expected revision. */
  lemma ReachableOncePerExpectation(env: Env, db: Db, inMemory: bool, actions: seq<Action>, i: nat, j: nat)
    requires db.activations == map[]
    requires var h := Run(env, Start(inMemory, db), actions).history;
             && i < j < |h| && h[i].Wrote? && h[j].Wrote? && h[i].op.ActivateOp? && h[j].op.ActivateOp?
             && h[i].op.scope == h[j].op.scope
    ensures var h := Run(env, Start(inMemory, db), actions).history; h[i].op.expected != h[j].op.expected
  {
    RunKeeps(env, db, inMemory, actions);
    var h := Run(env, Start(inMemory, db), actions).history;
    hide Run, Attempt, Fenced, TxSound, LeaseIsLast, TokensOrdered, Serial, Succeeds, Ops;
    OpAt(env, db, h, i);
    OpAt(env, db, h, j);
    OpsGrow(h, i, j);
    var a, b := |Ops(h[..i])|, |Ops(h[..j])|;
    OncePerExpectation(env, db, Ops(h), h[i].op.scope, a, b);
  }

  /** In every reachable state every admitted snapshot reopens with its first-admitted views. */
  lemma ReachableReopens(env: Env, db: Db, inMemory: bool, actions: seq<Action>, views: set<View>,
                         refSets: set<set<Ref>>, id: string)
    requires Fresh(env, db, refSets) && CollisionFree(env, views, refSets)
    requires forall i | 0 <= i < |actions| && actions[i].Prepare? :: WellLoaded(env, actions[i].op, views, refSets)
    ensures var s := Run(env, Start(inMemory, db), actions);
            id in s.db.admissions ==>
              && Open(env, s.db, id).Some?
              && id in FirstViews(env, db, Ops(s.history))
              && var found := Open(env, s.db, id).value;
                 && found.Keys == FirstViews(env, db, Ops(s.history))[id].Keys
                 && forall slot | slot in found :: ViewOf(found[slot]) == FirstViews(env, db, Ops(s.history))[id][slot]
  {
    RunKeeps(env, db, inMemory, actions);
    RunLoaded(env, db, inMemory, actions, views, refSets);
    var s := Run(env, Start(inMemory, db), actions);
    hide Run, Attempt, Fenced, TxSound, LeaseIsLast, TokensOrdered, Serial, Fresh, CollisionFree, WellLoaded, Open, FirstViews;
    HistoryReopens(env, db, Ops(s.history), views, refSets, id);
  }

  /** Calls in flight and committed came from prepared calls. */
  ghost predicate Loaded(env: Env, s: State, views: set<View>, refSets: set<set<Ref>>) {
    && (forall c | c in s.calls :: WellLoaded(env, s.calls[c].op, views, refSets))
    && (s.tx.Some? ==> WellLoaded(env, s.tx.value.op, views, refSets))
    && (forall i | 0 <= i < |Ops(s.history)| :: WellLoaded(env, Ops(s.history)[i], views, refSets))
  }

  /** Where calls in flight come from. */
  lemma NextCalls(env: Env, s: State, a: Action, c: nat)
    requires c in Next(env, s, a).calls
    ensures || (c in s.calls && Next(env, s, a).calls[c] == s.calls[c])
            || (a.Prepare? && Next(env, s, a).calls[c].op == a.op)
  {
    hide Transact, Preflight, GuardHolds;
  }

  lemma NextTxOp(env: Env, s: State, a: Action)
    requires Next(env, s, a).tx.Some?
    ensures || (s.tx.Some? && Next(env, s, a).tx.value.op == s.tx.value.op)
            || (exists c :: c in s.calls && Next(env, s, a).tx.value.op == s.calls[c].op)
  {
    hide Transact, Preflight, GuardHolds;
    if a.Begin? && a.conn in s.calls { assert s.calls[a.conn].op == s.calls[a.conn].op; }
  }

  lemma NextOps(env: Env, s: State, a: Action)
    ensures || Ops(Next(env, s, a).history) == Ops(s.history)
            || (s.tx.Some? && Ops(Next(env, s, a).history) == Ops(s.history) + [s.tx.value.op])
  {
    hide Transact, Preflight, GuardHolds, Ops;
    var after := Next(env, s, a);
    if (a.Commit? || a.Claim?) && after != s { OpsSnoc(s.history, after.history[|s.history|]); }
  }

  lemma NextLoaded(env: Env, s: State, a: Action, views: set<View>, refSets: set<set<Ref>>)
    requires Loaded(env, s, views, refSets)
    requires a.Prepare? ==> WellLoaded(env, a.op, views, refSets)
    ensures Loaded(env, Next(env, s, a), views, refSets)
  {
    hide WellLoaded, Next, Ops;
    var after := Next(env, s, a);
    forall c | c in after.calls ensures WellLoaded(env, after.calls[c].op, views, refSets) { NextCalls(env, s, a, c); }
    if after.tx.Some? { NextTxOp(env, s, a); }
    NextOps(env, s, a);
  }

  lemma OpsSnoc(h: seq<Event>, e: Event)
    ensures Ops(h + [e]) == if e.Wrote? then Ops(h) + [e.op] else Ops(h)
  {
    assert (h + [e])[..|h|] == h;
  }

  lemma {:induction false} RunLoaded(env: Env, db: Db, inMemory: bool, actions: seq<Action>, views: set<View>,
                                     refSets: set<set<Ref>>)
    requires forall i | 0 <= i < |actions| && actions[i].Prepare? :: WellLoaded(env, actions[i].op, views, refSets)
    ensures Loaded(env, Run(env, Start(inMemory, db), actions), views, refSets)
  {
    hide WellLoaded;
    if actions != [] {
      hide Loaded, Next;
      var n := |actions| - 1;
      assert forall i | 0 <= i < n :: actions[..n][i] == actions[i];
      RunLoaded(env, db, inMemory, actions[..n], views, refSets);
      NextLoaded(env, Run(env, Start(inMemory, db), actions[..n]), actions[n], views, refSets);
    }
  }

  /** Along any interleaving a snapshot once admitted stays admitted and only gets more restricted. */
  lemma ReachableRestriction(env: Env, db: Db, inMemory: bool, actions: seq<Action>, k: nat, id: string)
    requires k <= |actions| && id in Run(env, Start(inMemory, db), actions[..k]).db.admissions
    ensures id in Run(env, Start(inMemory, db), actions).db.admissions
    ensures Rank(Run(env, Start(inMemory, db), actions[..k]).db.admissions[id])
            <= Rank(Run(env, Start(inMemory, db), actions).db.admissions[id])
    decreases |actions|
  {
    hide Next, Safe, Rank;
    var n := |actions| - 1;
    if k == |actions| {
      assert actions[..k] == actions;
    } else {
      assert actions[..n][..k] == actions[..k];
      ReachableRestriction(env, db, inMemory, actions[..n], k, id);
      RunKeeps(env, db, inMemory, actions[..n]);
      StepRestricts(env, db, Run(env, Start(inMemory, db), actions[..n]), actions[n], id);
    }
  }

  lemma StepRestricts(env: Env, db: Db, s: State, a: Action, id: string)
    requires Safe(env, db, s) && id in s.db.admissions
    ensures id in Next(env, s, a).db.admissions
    ensures Rank(s.db.admissions[id]) <= Rank(Next(env, s, a).db.admissions[id])
  {
    hide Transact, Attempt, Fenced, Serial, Preflight, GuardHolds, Rank;
    if a.Commit? && s.tx.Some? && s.tx.value.phase == Rechecked {
      TransactRaises(env, s.db, s.tx.value.op, id);
    }
  }

  /** Under any interleaving a committed change of a snapshot's state holds from then on: the snapshot is at
      least that restricted, and withdrawn by it, no later activation of it commits. */
  lemma ReachableContainment(env: Env, db: Db, inMemory: bool, actions: seq<Action>, i: nat)
    requires var h := Run(env, Start(inMemory, db), actions).history; i < |h| && h[i].Wrote? && h[i].op.SetStateOp?
    ensures var s := Run(env, Start(inMemory, db), actions);
            var op := s.history[i].op;
            && op.id in s.db.admissions && Rank(op.state) <= Rank(s.db.admissions[op.id])
            && (forall j | i < j < |s.history| && s.history[j].Wrote? && s.history[j].op.ActivateOp?
                           && s.history[j].op.id == op.id :: op.state == Admitted)
  {
    RunKeeps(env, db, inMemory, actions);
    var s := Run(env, Start(inMemory, db), actions);
    var h := s.history;
    hide Run, Attempt, Fenced, TxSound, LeaseIsLast, TokensOrdered, Serial, Succeeds, Ops, Rank;
    OpAt(env, db, h, i);
    var a, ops := |Ops(h[..i])|, Ops(h);
    assert ops[..|ops|] == ops;
    ContainmentHolds(env, db, ops, a, |ops|, h[i].op.id);
    forall j | i < j < |h| && h[j].Wrote? && h[j].op.ActivateOp? && h[j].op.id == h[i].op.id
      ensures h[i].op.state == Admitted
    {
      OpAt(env, db, h, j);
      OpsGrow(h, i, j);
      ContainmentHolds(env, db, ops, a, |Ops(h[..j])|, h[i].op.id);
    }
  }

  // ---------------------------------------------------------------- who commits

  /** Every commit is made while its guard still holds: a ready owner on its own connection that is the current
      lease, or a fixture of an in-memory store that was never leased. */
  lemma CommitIsHeld(env: Env, db: Db, inMemory: bool, actions: seq<Action>)
    requires Run(env, Start(inMemory, db), actions + [Commit]).history != Run(env, Start(inMemory, db), actions).history
    ensures var s := Run(env, Start(inMemory, db), actions);
            && s.tx.Some? && Transact(env, s.db, s.tx.value.op).Some?
            && match s.tx.value.guard
               case OwnerGuard(t) =>
                 && t.locked != s.inMemory && s.lease == Some(Lease(t.owner, t.epoch))
                 && s.tx.value.conn in s.temps && s.temps[s.tx.value.conn].nonce == t.nonce
                 && Marker(t.nonce, t.owner, t.epoch) in s.temps[s.tx.value.conn].ready
               case FixtureGuard => s.inMemory && s.lease.None?
  {
    hide Next, Safe, Transact;
    RunKeeps(env, db, inMemory, actions);
    assert (actions + [Commit])[..|actions|] == actions;
    CommitGuard(env, db, Run(env, Start(inMemory, db), actions));
  }

  lemma CommitGuard(env: Env, db: Db, s: State)
    requires Safe(env, db, s) && Next(env, s, Commit).history != s.history
    ensures s.tx.Some? && Transact(env, s.db, s.tx.value.op).Some?
    ensures match s.tx.value.guard
            case OwnerGuard(t) =>
              && t.locked != s.inMemory && s.lease == Some(Lease(t.owner, t.epoch))
              && s.tx.value.conn in s.temps && s.temps[s.tx.value.conn].nonce == t.nonce
              && Marker(t.nonce, t.owner, t.epoch) in s.temps[s.tx.value.conn].ready
            case FixtureGuard => s.inMemory && s.lease.None?
  {
    hide Transact, Attempt, Fenced, Serial, LeaseIsLast, TokensOrdered, Ops;
  }

  ghost predicate Opened(actions: seq<Action>, conn: nat, nonce: string, i: nat) {
    && i < |actions| && actions[i].Claim? && actions[i].conn == conn && actions[i].nonce == nonce
    && forall k | i < k < |actions| :: actions[k] != Close(conn)
  }

  /** A connection carries a nonce only because it made the claim with that nonce and was not closed since. */
  lemma {:induction false} NonceFromClaim(env: Env, db: Db, inMemory: bool, actions: seq<Action>, conn: nat)
    requires conn in Run(env, Start(inMemory, db), actions).temps
    ensures exists i :: Opened(actions, conn, Run(env, Start(inMemory, db), actions).temps[conn].nonce, i)
  {
    if actions != [] {
      var n := |actions| - 1;
      var before := Run(env, Start(inMemory, db), actions[..n]);
      NextTemp(env, before, actions[n], conn);
      hide Next;
      if conn in before.temps && Next(env, before, actions[n]).temps[conn].nonce == before.temps[conn].nonce
         && actions[n] != Close(conn)
      {
        NonceFromClaim(env, db, inMemory, actions[..n], conn);
        var i :| Opened(actions[..n], conn, before.temps[conn].nonce, i);
        assert Opened(actions, conn, before.temps[conn].nonce, i);
      } else {
        assert Opened(actions, conn, Next(env, before, actions[n]).temps[conn].nonce, n);
      }
    }
  }

  lemma NextTemp(env: Env, s: State, a: Action, conn: nat)
    requires conn in Next(env, s, a).temps
    ensures a != Close(conn)
    ensures || (a.Claim? && a.conn == conn && Next(env, s, a).temps[conn].nonce == a.nonce)
            || (conn in s.temps && Next(env, s, a).temps[conn].nonce == s.temps[conn].nonce)
  {
    hide Transact, Preflight, GuardHolds;
  }

  /** Every minted owner comes from a claim. */
  lemma {:induction false} MintedByClaim(env: Env, db: Db, inMemory: bool, actions: seq<Action>, t: Token)
    requires t in Run(env, Start(inMemory, db), actions).minted
    ensures exists i: nat, conn: nat :: i < |actions| && actions[i] == Claim(conn, t.locked, t.owner, t.nonce)
  {
    if actions != [] {
      var n := |actions| - 1;
      var before := Run(env, Start(inMemory, db), actions[..n]);
      if t in before.minted {
        MintedByClaim(env, db, inMemory, actions[..n], t);
        var i: nat, conn: nat :| i < n && actions[..n][i] == Claim(conn, t.locked, t.owner, t.nonce);
        assert actions[i] == Claim(conn, t.locked, t.owner, t.nonce);
      } else {
        NextMints(env, before, actions[n], t);
        assert actions[n] == Claim(actions[n].conn, t.locked, t.owner, t.nonce);
      }
    }
  }

  lemma NextMints(env: Env, s: State, a: Action, t: Token)
    requires t in Next(env, s, a).minted && t !in s.minted
    ensures a.Claim? && a == Claim(a.conn, t.locked, t.owner, t.nonce)
  {
    hide Transact, Preflight, GuardHolds;
  }

  /** With a new nonce for every claim, an owner verifies only on the connection that claimed it, and not once
      that connection was closed. */
  lemma OwnerStaysOnConnection(env: Env, db: Db, inMemory: bool, actions: seq<Action>, conn: nat, t: Token) returns (i: nat)
    requires forall i, j | 0 <= i < j < |actions| && actions[i].Claim? && actions[j].Claim? ::
               actions[i].nonce != actions[j].nonce
    requires var s := Run(env, Start(inMemory, db), actions);
             t in s.minted && Verifies(s.inMemory, s.lease, TempOf(s, conn), t)
    ensures i < |actions| && actions[i] == Claim(conn, t.locked, t.owner, t.nonce)
    ensures forall k | i < k < |actions| :: actions[k] != Close(conn)
  {
    NonceFromClaim(env, db, inMemory, actions, conn);
    MintedByClaim(env, db, inMemory, actions, t);
    var s := Run(env, Start(inMemory, db), actions);
    hide Run;
    i :| Opened(actions, conn, s.temps[conn].nonce, i);
    var k: nat, c: nat :| k < |actions| && actions[k] == Claim(c, t.locked, t.owner, t.nonce);
    assert i == k;
  }

  /** A readiness marker was put there on that connection. */
  lemma {:induction false} MarkerWasMade(env: Env, db: Db, inMemory: bool, actions: seq<Action>, conn: nat, m: Marker)
    requires var s := Run(env, Start(inMemory, db), actions); conn in s.temps && m in s.temps[conn].ready
    ensures MarkReady(conn, m) in actions
  {
    if actions != [] {
      var n := |actions| - 1;
      var before := Run(env, Start(inMemory, db), actions[..n]);
      NextMarker(env, before, actions[n], conn, m);
      if actions[n] != MarkReady(conn, m) { MarkerWasMade(env, db, inMemory, actions[..n], conn, m); }
    }
  }

  lemma NextMarker(env: Env, s: State, a: Action, conn: nat, m: Marker)
    requires conn in Next(env, s, a).temps && m in Next(env, s, a).temps[conn].ready
    ensures a == MarkReady(conn, m) || (conn in s.temps && m in s.temps[conn].ready)
  {
    hide Transact, Preflight, GuardHolds;
  }

  // ---------------------------------------------------------------- a ready owner can write

  /** The steps by which a connection takes ownership. */
  function Takeover(conn: nat, locked: bool, owner: string, epoch: int, nonce: string): seq<Action> {
    [Claim(conn, locked, owner, nonce), MarkReady(conn, Marker(nonce, owner, epoch)),
     Attach(conn, OwnerGuard(Token(locked, owner, epoch, nonce)))]
  }

  function Transaction(conn: nat, op: Op): seq<Action> {
    [Prepare(conn, op), Begin(conn), VerifyFirst, Body, VerifySecond, Commit]
  }

  lemma RunOne(env: Env, s: State, a: Action)
    ensures Run(env, s, [a]) == Next(env, s, a)
  {
    assert [a][..0] == [];
  }

  lemma {:induction false} RunConcat(env: Env, s: State, a: seq<Action>, b: seq<Action>)
    ensures Run(env, s, a + b) == Run(env, Run(env, s, a), b)
    decreases |b|
  {
    hide Next;
    if b == [] {
      assert a + b == a;
    } else {
      assert (a + b)[..|a + b| - 1] == a + b[..|b| - 1];
      RunConcat(env, s, a, b[..|b| - 1]);
    }
  }

  /** Between transactions any connection can take over, unless the store is in memory and owned or the epochs
      are used up. */
  lemma TakeoverHolds(env: Env, s: State, conn: nat, owner: string, nonce: string)
    requires s.tx.None? && NextEpoch(s.lease) <= I64_MAX && (s.inMemory ==> s.lease.None?)
    ensures var epoch := NextEpoch(s.lease);
            var after := Run(env, s, Takeover(conn, !s.inMemory, owner, epoch, nonce));
            && after.tx.None? && after.db == s.db && after.lease == Some(Lease(owner, epoch))
            && conn in after.guards && after.guards[conn] == OwnerGuard(Token(!s.inMemory, owner, epoch, nonce))
            && GuardHolds(after, conn, after.guards[conn])
            && after.history == s.history + [Claimed(epoch)]
  {
    hide Next, Run, GuardHolds;
    var epoch := NextEpoch(s.lease);
    TakeoverSteps(env, s, conn, owner, nonce);
    var a := Claim(conn, !s.inMemory, owner, nonce);
    var b := MarkReady(conn, Marker(nonce, owner, epoch));
    var c := Attach(conn, OwnerGuard(Token(!s.inMemory, owner, epoch, nonce)));
    assert Takeover(conn, !s.inMemory, owner, epoch, nonce) == [a, b] + [c];
    RunPair(env, s, a, b);
    RunOne(env, Run(env, s, [a, b]), c);
    RunConcat(env, s, [a, b], [c]);
  }

  lemma TakeoverSteps(env: Env, s: State, conn: nat, owner: string, nonce: string)
    requires s.tx.None? && NextEpoch(s.lease) <= I64_MAX && (s.inMemory ==> s.lease.None?)
    ensures var epoch := NextEpoch(s.lease);
            var token := Token(!s.inMemory, owner, epoch, nonce);
            var claimed := Next(env, s, Claim(conn, !s.inMemory, owner, nonce));
            var after := Next(env, Next(env, claimed, MarkReady(conn, Marker(nonce, owner, epoch))), Attach(conn, OwnerGuard(token)));
            && after.tx.None? && after.db == s.db && after.lease == Some(Lease(owner, epoch))
            && conn in after.guards && after.guards[conn] == OwnerGuard(token) && GuardHolds(after, conn, after.guards[conn])
            && after.history == s.history + [Claimed(epoch)]
  {
  }

  /** A connection whose guard holds commits every call whose body succeeds, and exactly that call. */
  lemma HolderCommits(env: Env, s: State, conn: nat, op: Op)
    requires s.tx.None? && conn in s.guards && GuardHolds(s, conn, s.guards[conn])
    requires Preflight(env, s.db, op) && Transact(env, s.db, op).Some?
    ensures var after := Run(env, s, Transaction(conn, op));
            && after.db == Transact(env, s.db, op).value && after.tx.None?
            && after.history == s.history + [Wrote(EpochOf(s.guards[conn]), op)]
            && after.guards == s.guards && after.lease == s.lease && after.temps == s.temps
  {
    hide Next, GuardHolds, Preflight, Transact, Run;
    CommitSteps(env, s, conn, op);
    TransactionRuns(env, s, conn, op);
  }

  lemma TransactionRuns(env: Env, s: State, conn: nat, op: Op)
    ensures Run(env, s, Transaction(conn, op))
         == var entered := Next(env, Next(env, s, Prepare(conn, op)), Begin(conn));
            var applied := Next(env, Next(env, entered, VerifyFirst), Body);
            Next(env, Next(env, applied, VerifySecond), Commit)
  {
    hide Next, Run;
    var a, b, c := [Prepare(conn, op), Begin(conn)], [VerifyFirst, Body], [VerifySecond, Commit];
    assert Transaction(conn, op) == a + (b + c);
    RunPair(env, s, Prepare(conn, op), Begin(conn));
    var entered := Run(env, s, a);
    RunPair(env, entered, VerifyFirst, Body);
    var applied := Run(env, entered, b);
    RunPair(env, applied, VerifySecond, Commit);
    RunConcat(env, entered, b, c);
    RunConcat(env, s, a, b + c);
  }

  lemma RunPair(env: Env, s: State, a: Action, b: Action)
    ensures Run(env, s, [a, b]) == Next(env, Next(env, s, a), b)
  {
    hide Next, Run;
    assert [a, b] == [a] + [b];
    RunConcat(env, s, [a], [b]);
    RunOne(env, s, a);
    RunOne(env, Next(env, s, a), b);
  }

  lemma CommitSteps(env: Env, s: State, conn: nat, op: Op)
    requires s.tx.None? && conn in s.guards && GuardHolds(s, conn, s.guards[conn])
    requires Preflight(env, s.db, op) && Transact(env, s.db, op).Some?
    ensures var entered := Next(env, Next(env, s, Prepare(conn, op)), Begin(conn));
            var applied := Next(env, Next(env, entered, VerifyFirst), Body);
            var after := Next(env, Next(env, applied, VerifySecond), Commit);
            && after.db == Transact(env, s.db, op).value && after.tx.None?
            && after.history == s.history + [Wrote(EpochOf(s.guards[conn]), op)]
            && after.guards == s.guards && after.lease == s.lease && after.temps == s.temps
  {
    hide Transact, Preflight, Holds;
    var g := s.guards[conn];
    var entered := Next(env, Next(env, s, Prepare(conn, op)), Begin(conn));
    assert entered == s.(tx := Some(Tx(conn, g, op, Entered, s.db)), calls := entered.calls);
    var applied := Next(env, Next(env, entered, VerifyFirst), Body);
    assert applied == entered.(tx := Some(Tx(conn, g, op, Applied, Transact(env, s.db, op).value)));
  }

  /** From any state between transactions a new owner can take over and commit, and its claim and its write are
      the next two events of the history. */
  lemma NewOwnerCommits(env: Env, s: State, conn: nat, owner: string, nonce: string, op: Op)
    requires s.tx.None? && NextEpoch(s.lease) <= I64_MAX && (s.inMemory ==> s.lease.None?)
    requires Preflight(env, s.db, op) && Transact(env, s.db, op).Some?
    ensures var epoch := NextEpoch(s.lease);
            var after := Run(env, s, Takeover(conn, !s.inMemory, owner, epoch, nonce) + Transaction(conn, op));
            && after.db == Transact(env, s.db, op).value
            && after.history == s.history + [Claimed(epoch)] + [Wrote(Some(epoch), op)]
  {
    var epoch := NextEpoch(s.lease);
    TakeoverHolds(env, s, conn, owner, nonce);
    var taken := Run(env, s, Takeover(conn, !s.inMemory, owner, epoch, nonce));
    HolderCommits(env, taken, conn, op);
    RunConcat(env, s, Takeover(conn, !s.inMemory, owner, epoch, nonce), Transaction(conn, op));
    hide Run, Transact, Preflight, GuardHolds;
  }
}
