/**
 What the hash chain commits to: a head hash pins the whole history up to how integers are spelled
 inside events, and literally where no integer is held as a binary64 number.
 */
module Commitment {
  import opened Values
  import opened CanonicalJson
  import opened Journal
  import opened Verify

  /** The bytes hashed for a record, as a view. */
  function ViewOf(record: Record): HashView
    requires record.event.Obj?
  {
    RecordView(record.streamId, record.sequence, record.previous, Canonical(WithoutHashFields(record.event)))
  }

  /** Two records of the given histories with different hashed bytes and one digest. */
  ghost predicate Collision(env: Env, a: seq<Record>, b: seq<Record>) {
    exists i, j | 0 <= i < |a| && 0 <= j < |b| ::
      && a[i].event.Obj? && b[j].event.Obj?
      && ViewOf(a[i]) != ViewOf(b[j])
      && env.digest(ViewOf(a[i])) == env.digest(ViewOf(b[j]))
  }

  function CanonicalRecord(r: Record): Record {
    r.(event := Canonical(r.event))
  }

  /** Equal in length and content, up to how integers are spelled inside events. */
  ghost predicate SameContent(a: seq<Record>, b: seq<Record>) {
    |a| == |b| && forall i | 0 <= i < |a| :: CanonicalRecord(a[i]) == CanonicalRecord(b[i])
  }

  ghost predicate SameEvents(a: seq<Record>, b: seq<Record>) {
    |a| == |b| && forall i | 0 <= i < |a| :: Canonical(a[i].event) == Canonical(b[i].event)
  }

  ghost predicate AllPlain(a: seq<Record>) {
    forall i | 0 <= i < |a| :: Plain(a[i].event)
  }

  lemma LinkedView(env: Env, s: string, records: seq<Record>, i: nat)
    requires i < |records| && Linked(env, s, records, i)
    ensures var r := records[i];
            && r.event.Obj? && WithoutHashFields(r.event) == r.event
            && r.eventHash == "sha256:" + env.digest(ViewOf(r))
            && r.streamId == s && r.sequence == i + 1 && r.previous == HashBefore(records, i)
            && r.schemaVersion == SCHEMA_VERSION && r.hashProfile == HASH_PROFILE
  {
    hide ExportAuthorityLinksOk, GenesisOk, ValidHash, StreamId, TransitionIncrements, WithinShapeBounds, Canonical;
    var e := records[i].event;
    assert EventContractOk(env, StringField(e, "task_id").value, e, true);
    assert WithoutHashFields(e).fields == e.fields;
  }

  lemma DigestsAgree(x: string, y: string)
    requires "sha256:" + x == "sha256:" + y
    ensures x == y
  {
    assert ("sha256:" + x)[7..] == x && ("sha256:" + y)[7..] == y;
  }

  /** Two intact histories with the same last hash have the same content, or exhibit a collision. */
  lemma {:induction false} HeadPinsHistory(env: Env, s: string, a: seq<Record>, b: seq<Record>)
    requires Intact(env, s, a) && Intact(env, s, b) && a != [] && b != []
    requires a[|a| - 1].eventHash == b[|b| - 1].eventHash
    ensures SameContent(a, b) || Collision(env, a, b)
    decreases |a|
  {
    hide RecordOk, Fold, Events, Canonical;
    var x, y := a[|a| - 1], b[|b| - 1];
    LinkedView(env, s, a, |a| - 1);
    LinkedView(env, s, b, |b| - 1);
    DigestsAgree(env.digest(ViewOf(x)), env.digest(ViewOf(y)));
    if ViewOf(x) == ViewOf(y) {
      assert CanonicalRecord(x) == CanonicalRecord(y);
      if |a| > 1 {
        var n := |a| - 1;
        IntactPrefix(env, s, a, n);
        IntactPrefix(env, s, b, n);
        HeadPinsHistory(env, s, a[..n], b[..n]);
        if SameContent(a[..n], b[..n]) {
          assert forall i | 0 <= i < n :: a[..n][i] == a[i] && b[..n][i] == b[i];
        } else {
          CollisionInPrefix(env, a, b, n);
        }
      }
    }
  }

  lemma CollisionInPrefix(env: Env, a: seq<Record>, b: seq<Record>, n: nat)
    requires n <= |a| && n <= |b| && Collision(env, a[..n], b[..n])
    ensures Collision(env, a, b)
  {
    hide Canonical;
    var i, j :| 0 <= i < n && 0 <= j < n
      && a[..n][i].event.Obj? && b[..n][j].event.Obj?
      && ViewOf(a[..n][i]) != ViewOf(b[..n][j])
      && env.digest(ViewOf(a[..n][i])) == env.digest(ViewOf(b[..n][j]));
    assert a[..n][i] == a[i] && b[..n][j] == b[j];
  }

  /** Intact histories of canonically equal events carry the same hashes throughout. */
  lemma {:induction false} EventsFixHashes(env: Env, s: string, a: seq<Record>, b: seq<Record>, k: nat)
    requires Intact(env, s, a) && Intact(env, s, b) && SameEvents(a, b) && k < |a|
    ensures CanonicalRecord(a[k]) == CanonicalRecord(b[k])
  {
    hide RecordOk, Fold, Events, Canonical;
    if k > 0 { EventsFixHashes(env, s, a, b, k - 1); }
    LinkedView(env, s, a, k);
    LinkedView(env, s, b, k);
    assert CanonicalRecord(a[k]).event == Canonical(a[k].event);
  }

  /** Without a collision the head hash is equal exactly when the events are, up to integer spelling. */
  lemma HeadIffEvents(env: Env, s: string, a: seq<Record>, b: seq<Record>)
    requires Intact(env, s, a) && Intact(env, s, b) && a != [] && b != [] && !Collision(env, a, b)
    ensures a[|a| - 1].eventHash == b[|b| - 1].eventHash <==> SameEvents(a, b)
    ensures SameEvents(a, b) <==> SameContent(a, b)
  {
    hide Intact, Canonical;
    if a[|a| - 1].eventHash == b[|b| - 1].eventHash { HeadPinsHistory(env, s, a, b); }
    if SameContent(a, b) {
      forall i | 0 <= i < |a| ensures Canonical(a[i].event) == Canonical(b[i].event) {
        assert CanonicalRecord(a[i]).event == Canonical(a[i].event);
        assert CanonicalRecord(b[i]).event == Canonical(b[i].event);
      }
    }
    if SameEvents(a, b) {
      forall i | 0 <= i < |a| ensures CanonicalRecord(a[i]) == CanonicalRecord(b[i]) {
        EventsFixHashes(env, s, a, b, i);
      }
      assert CanonicalRecord(a[|a| - 1]).eventHash == a[|a| - 1].eventHash;
      assert CanonicalRecord(b[|a| - 1]).eventHash == b[|a| - 1].eventHash;
    }
  }

  /** Whatever two record lists one checkpoint accepts, they have the same length and content. */
  lemma CheckpointPinsHistory(env: Env, s: string, a: seq<Record>, b: seq<Record>,
                              checkpoint: Checkpoint, verifiedAt: string)
    requires RecordsOutcome(env, a, s, Some(checkpoint), verifiedAt).Valid?
    requires RecordsOutcome(env, b, s, Some(checkpoint), verifiedAt).Valid?
    ensures SameContent(a, b) || Collision(env, a, b)
  {
    hide RecordsOutcome, Intact;
    IntactAccepted(env, s, a, Some(checkpoint), verifiedAt);
    IntactAccepted(env, s, b, Some(checkpoint), verifiedAt);
    HeadPinsHistory(env, s, a, b);
  }

  /** A hash recorded for an intact history pins its content as a prefix of every longer one. */
  lemma RecordedHashPinsPrefix(env: Env, s: string, a: seq<Record>, b: seq<Record>, k: nat)
    requires Intact(env, s, a) && a != [] && Intact(env, s, b)
    requires k < |b| && b[k].eventHash == a[|a| - 1].eventHash
    ensures SameContent(a, b[..k + 1]) || Collision(env, a, b)
  {
    hide Intact, Canonical;
    IntactPrefix(env, s, b, k + 1);
    HeadPinsHistory(env, s, a, b[..k + 1]);
    if Collision(env, a, b[..k + 1]) {
      var i, j :| 0 <= i < |a| && 0 <= j < k + 1
        && a[i].event.Obj? && b[..k + 1][j].event.Obj?
        && ViewOf(a[i]) != ViewOf(b[..k + 1][j])
        && env.digest(ViewOf(a[i])) == env.digest(ViewOf(b[..k + 1][j]));
      assert b[..k + 1][j] == b[j];
    }
  }

  // ---------------------------------------------------------------- literal identity

  /** Histories without integral binary64 numbers are pinned literally. */
  lemma PlainIsLiteral(env: Env, s: string, a: seq<Record>, b: seq<Record>)
    requires Intact(env, s, a) && Intact(env, s, b) && a != [] && b != []
    requires a[|a| - 1].eventHash == b[|b| - 1].eventHash
    requires AllPlain(a) && AllPlain(b)
    ensures a == b || Collision(env, a, b)
  {
    hide Intact, Canonical;
    HeadPinsHistory(env, s, a, b);
    if SameContent(a, b) {
      forall i | 0 <= i < |a| ensures a[i] == b[i] {
        assert CanonicalRecord(a[i]) == CanonicalRecord(b[i]);
        CanonicalIff(a[i].event);
        CanonicalIff(b[i].event);
      }
    }
  }

  /** `b` is `a` with some integers inside events spelled differently. */
  ghost predicate Respelled(a: seq<Record>, b: seq<Record>) {
    && |a| == |b|
    && forall i | 0 <= i < |a| ::
         b[i] == a[i].(event := b[i].event) && Canonical(b[i].event) == Canonical(a[i].event)
  }

  lemma RespelledHash(env: Env, s: string, a: seq<Record>, b: seq<Record>, i: nat)
    requires Respelled(a, b) && i < |a| && Linked(env, s, a, i)
    ensures Linked(env, s, b, i) <==> StoredEventOk(env, b[i].event)
  {
    hide Canonical, ExportAuthorityLinksOk, ValidHash, StreamId, TransitionIncrements, WithinShapeBounds;
    LinkedView(env, s, a, i);
    var e, f := a[i].event, b[i].event;
    CanonicalGet(e, "task_id");
    CanonicalGet(f, "task_id");
    CanonicalGet(e, "event_type");
    CanonicalGet(f, "event_type");
    CanonicalBounds(e, 1);
    CanonicalBounds(f, 1);
    if StoredEventOk(env, f) {
      assert EventContractOk(env, StringField(f, "task_id").value, f, true);
      assert WithoutHashFields(f).fields == f.fields;
    }
  }

  lemma RespelledIds(a: seq<Record>, b: seq<Record>)
    requires Respelled(a, b)
    ensures DistinctEventIds(a) <==> DistinctEventIds(b)
  {
    hide Canonical, StringField;
    forall i | 0 <= i < |a| ensures StringField(b[i].event, "event_id") == StringField(a[i].event, "event_id") {
      CanonicalGet(a[i].event, "event_id");
      CanonicalGet(b[i].event, "event_id");
    }
  }

  /** A respelled history keeps every hash, and is intact exactly when its own events pass the event
      checks and its revisions are continuous: the hash chain does not see the spelling. */
  lemma RespelledIntactIff(env: Env, s: string, a: seq<Record>, b: seq<Record>)
    requires Intact(env, s, a) && Respelled(a, b)
    ensures Intact(env, s, b) <==>
            (forall i | 0 <= i < |b| :: StoredEventOk(env, b[i].event)) && Fold(Events(b)).Ok?
    ensures forall i | 0 <= i < |b| :: b[i].eventHash == a[i].eventHash
  {
    hide StoredEventOk, Canonical, RecordOk, Fold, Linked, DistinctEventIds;
    RespelledIds(a, b);
    forall i | 0 <= i < |b| ensures Linked(env, s, b, i) <==> StoredEventOk(env, b[i].event) {
      RespelledHash(env, s, a, b, i);
    }
  }

  /** The history with every integer spelled as an integer. */
  function Twin(a: seq<Record>): (t: seq<Record>)
    ensures |t| == |a| && forall i | 0 <= i < |a| :: t[i] == CanonicalRecord(a[i])
  {
    seq(|a|, i requires 0 <= i < |a| => CanonicalRecord(a[i]))
  }

  /** A string, or an integer held as one, is found in the canonical event where it was. */
  lemma TransitionField(event: Json, key: string)
    ensures AsStr(Get2(Canonical(event), "task_transition", key)) == AsStr(Get2(event, "task_transition", key))
    ensures AsU64(Get2(event, "task_transition", key)).Some? ==>
              AsU64(Get2(Canonical(event), "task_transition", key)) == AsU64(Get2(event, "task_transition", key))
  {
    CanonicalGet(event, "task_transition");
    if Get(event, "task_transition").Some? { CanonicalGet(Get(event, "task_transition").value, key); }
  }

  lemma AdvanceCanonical(latest: Option<Revision>, event: Json)
    requires Advance(latest, event).Ok?
    requires latest.Some? || StringField(event, "event_type") == Some("task.created")
    ensures Advance(latest, Canonical(event)) == Advance(latest, event) && Advance(latest, event).value.Some?
  {
    hide Canonical, Get2;
    CanonicalGet(event, "event_type");
    TransitionField(event, "previous_revision");
    TransitionField(event, "new_revision");
    TransitionField(event, "previous_state");
    TransitionField(event, "new_state");
  }

  lemma {:induction false} FoldCanonical(a: seq<Record>)
    requires Fold(Events(a)).Ok? && a != [] && StringField(a[0].event, "event_type") == Some("task.created")
    ensures Fold(Events(Twin(a))) == Fold(Events(a)) && Fold(Events(a)).value.Some?
  {
    hide Advance, Canonical;
    var n := |a| - 1;
    assert Twin(a)[..n] == Twin(a[..n]);
    assert Events(a)[..n] == Events(a[..n]) && Events(Twin(a))[..n] == Events(Twin(a[..n]));
    assert Events(a)[n] == a[n].event && Events(Twin(a))[n] == Canonical(a[n].event);
    if n > 0 { FoldCanonical(a[..n]); }
    AdvanceCanonical(Fold(Events(a[..n])).value, a[n].event);
  }

  /** The exact condition for literal identity. Where the event checks accept integers spelled as
      integers, a history has an intact twin with the same hashes; the twin is the history itself
      exactly when no event holds an integral binary64 number. */
  lemma TwinIff(env: Env, s: string, a: seq<Record>)
    requires Intact(env, s, a) && forall i | 0 <= i < |a| :: StoredEventOk(env, Canonical(a[i].event))
    ensures Intact(env, s, Twin(a)) && AllPlain(Twin(a))
    ensures forall i | 0 <= i < |a| :: Twin(a)[i].eventHash == a[i].eventHash
    ensures Twin(a) == a <==> AllPlain(a)
  {
    hide StoredEventOk, Canonical, Intact, Fold;
    var t := Twin(a);
    forall i | 0 <= i < |a|
      ensures t[i] == a[i].(event := t[i].event) && Canonical(t[i].event) == Canonical(a[i].event)
      ensures Plain(t[i].event) && (t[i] == a[i] <==> Plain(a[i].event))
    {
      CanonicalTwice(a[i].event);
      CanonicalIff(a[i].event);
    }
    FoldOfIntact(env, s, a);
    if a == [] { assert t == a; } else { FoldCanonical(a); }
    RespelledIntactIff(env, s, a, t);
    if AllPlain(a) { assert t == a; }
  }

  lemma FoldOfIntact(env: Env, s: string, a: seq<Record>)
    requires Intact(env, s, a)
    ensures Fold(Events(a)).Ok?
    ensures a != [] ==> StringField(a[0].event, "event_type") == Some("task.created")
  {
    hide StoredEventOk, Fold, StringField, HashRecord, StreamId;
    if a != [] { assert Linked(env, s, a, 0); }
  }

  // ---------------------------------------------------------------- one plan revision, two spellings

  function Plan(revision: Number): Json {
    Obj(map["plan_id" := Str("p"), "revision" := Num(revision)])
  }

  function Mutation(revision: Number): Json {
    Obj(map["active_plan" := Plan(revision), "active_step_ids" := Null, "waiting_on" := Null, "failure" := Null,
            "recovery" := Null])
  }

  const ACTOR: Json := Obj(map["kind" := Str("user"), "id" := Str("u")])

  const TRANSITION: Json := Obj(map[
    "transition_id" := Str("x"), "previous_state" := Str("CREATED"), "new_state" := Str("PLANNING"),
    "previous_revision" := Num(Integer(1)), "new_revision" := Num(Integer(2)), "reason_code" := Str("PLANNED")])

  /** A plan revision committed by a transition. */
  function PlanEvent(revision: Number): Json {
    Obj(map[
      "schema_version" := Str(SCHEMA_VERSION), "event_id" := Str("e2"), "task_id" := Str("t"),
      "event_type" := Str("task.transitioned"), "timestamp" := Str("2026-01-01T00:00:00Z"),
      "actor" := ACTOR, "task_transition" := TRANSITION, "committed_mutation" := Mutation(revision)])
  }

  const THREE: Number := Integer(3)
  const THREE_POINT_ZERO: Number := Binary64(Scaled(3, 0))

  lemma CanonicalPlan(n: Number)
    ensures Canonical(Plan(n)) == Plan(CanonicalNumber(n))
  {
    assert Canonical(Plan(n)).fields == Plan(CanonicalNumber(n)).fields;
  }

  lemma CanonicalMutation(n: Number)
    ensures Canonical(Mutation(n)) == Mutation(CanonicalNumber(n))
  {
    CanonicalPlan(n);
    hide Plan, CanonicalNumber;
    assert Canonical(Mutation(n)).fields == Mutation(CanonicalNumber(n)).fields;
  }

  lemma ConstantsPlain()
    ensures Plain(ACTOR) && Plain(TRANSITION)
  {
  }

  lemma CanonicalPlanEvent(n: Number)
    ensures Canonical(PlanEvent(n)) == PlanEvent(CanonicalNumber(n))
  {
    CanonicalMutation(n);
    ConstantsPlain();
    CanonicalIff(ACTOR);
    CanonicalIff(TRANSITION);
    hide Mutation, CanonicalNumber, ACTOR, TRANSITION;
    assert Canonical(PlanEvent(n)).fields == PlanEvent(CanonicalNumber(n)).fields;
  }

  lemma PlanEventSpelling()
    ensures Canonical(PlanEvent(THREE)) == Canonical(PlanEvent(THREE_POINT_ZERO)) == PlanEvent(THREE)
    ensures PlanEvent(THREE) != PlanEvent(THREE_POINT_ZERO)
  {
    CanonicalPlanEvent(THREE);
    CanonicalPlanEvent(THREE_POINT_ZERO);
    assert PowerOfTwo(0) == 1;
    hide Canonical;
    var p, q := Plan(THREE), Plan(THREE_POINT_ZERO);
    assert p.fields["revision"] != q.fields["revision"];
    var m, w := Mutation(THREE), Mutation(THREE_POINT_ZERO);
    assert m.fields["active_plan"] != w.fields["active_plan"];
    var e, f := PlanEvent(THREE), PlanEvent(THREE_POINT_ZERO);
    hide Mutation;
    assert e.fields["committed_mutation"] == m && f.fields["committed_mutation"] == w;
  }

  /** A history that ends in the plan event: replacing 3 by 3.0 there changes the history, keeps every
      hash, and is accepted against the same checkpoint, with no collision of hashed bytes. */
  lemma ThreeAndThreePointZero(env: Env, s: string, a: seq<Record>, checkpoint: Checkpoint, verifiedAt: string)
    requires RecordsOutcome(env, a, s, Some(checkpoint), verifiedAt).Valid?
    requires a[|a| - 1].event == PlanEvent(THREE) && StoredEventOk(env, PlanEvent(THREE_POINT_ZERO))
    ensures var b := a[|a| - 1 := a[|a| - 1].(event := PlanEvent(THREE_POINT_ZERO))];
            && b != a && SameContent(a, b)
            && RecordsOutcome(env, b, s, Some(checkpoint), verifiedAt).Valid?
  {
    hide RecordsOutcome, Intact, Canonical, StoredEventOk, PlanEvent;
    IntactAccepted(env, s, a, Some(checkpoint), verifiedAt);
    var n := |a| - 1;
    var b := a[n := a[n].(event := PlanEvent(THREE_POINT_ZERO))];
    PlanEventSpelling();
    assert Respelled(a, b);
    assert a[n].event != b[n].event;
    forall i | 0 <= i < |b| ensures StoredEventOk(env, b[i].event) { IntactEvent(env, s, a, i); }
    LastRespelled(env, s, a, b);
    RespelledIntactIff(env, s, a, b);
    IntactAccepted(env, s, b, Some(checkpoint), verifiedAt);
    forall i | 0 <= i < |a| ensures CanonicalRecord(a[i]) == CanonicalRecord(b[i]) {
      assert b[i] == a[i].(event := b[i].event);
    }
  }

  lemma IntactEvent(env: Env, s: string, a: seq<Record>, i: nat)
    requires Intact(env, s, a) && i < |a|
    ensures StoredEventOk(env, a[i].event)
  {
    hide StoredEventOk, Fold;
    assert Linked(env, s, a, i);
  }

  lemma LastRespelled(env: Env, s: string, a: seq<Record>, b: seq<Record>)
    requires Intact(env, s, a) && a != [] && |b| == |a| && b[..|a| - 1] == a[..|a| - 1]
    requires a[|a| - 1].event == PlanEvent(THREE) && b[|a| - 1].event == PlanEvent(THREE_POINT_ZERO)
    ensures Fold(Events(b)).Ok?
  {
    hide RecordOk, Canonical;
    var n := |a| - 1;
    var x, y := Events(a), Events(b);
    FoldOfIntact(env, s, a);
    assert x[..n] == Events(a[..n]) && y[..n] == Events(b[..n]);
    assert x[n] == PlanEvent(THREE) && y[n] == PlanEvent(THREE_POINT_ZERO);
    SameAdvance(Fold(x[..n]).value);
  }

  lemma SameAdvance(latest: Option<Revision>)
    ensures Advance(latest, PlanEvent(THREE_POINT_ZERO)) == Advance(latest, PlanEvent(THREE))
  {
  }
}
