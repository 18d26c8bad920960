/**
 The detached verifier, which reads records in their presented order. `Intact` says, without any
 scanning state, what an intact history is; the verifier decides exactly that.
 */
module Verify {
  import opened Values
  import opened Journal
  import opened Revisions

  datatype Code =
    | SequenceOrderInvalid | SequenceGap | SchemaInvalid | HashProfileUnsupported
    | StreamIdMismatch | PreviousHashMismatch | EventHashMismatch | CheckpointHeadMismatch

  datatype Outcome =
    | Rejected
    | Valid(toSequence: nat, head: string)
    | Invalid(code: Code, at: Option<nat>, computedHead: Option<string>)

  datatype Checkpoint = Checkpoint(checkpointId: string, eventHash: string)

  /** The request itself must be well formed before anything is verified. */
  predicate RequestOk(env: Env, streamId: string, verifiedAt: string, checkpoint: Option<Checkpoint>) {
    && ValidStreamId(streamId)
    && env.timestampOk(verifiedAt)
    && (checkpoint.Some? ==>
          && 1 <= |checkpoint.value.checkpointId| <= 256
          && ValidHash(checkpoint.value.eventHash))
  }

  function Positive(sequence: nat): Option<nat> {
    if sequence > 0 then Some(sequence) else None
  }

  /** One record against the position and predecessor it must have. */
  function VerifyOne(env: Env, record: Record, streamId: string, expected: nat,
                     previous: Option<string>, appearsLater: bool): Result<string, Outcome>
  {
    var at := Positive(record.sequence);
    var taskId := StringField(record.event, "task_id");
    if record.sequence < expected || appearsLater then Err(Invalid(SequenceOrderInvalid, at, previous))
    else if record.sequence > expected then Err(Invalid(SequenceGap, at, previous))
    else if record.schemaVersion != SCHEMA_VERSION then Err(Invalid(SchemaInvalid, at, previous))
    else if record.hashProfile != HASH_PROFILE then Err(Invalid(HashProfileUnsupported, at, previous))
    else if record.streamId != streamId || taskId.None? || !ValidTaskId(taskId.value)
            || StreamId(env, taskId.value) != streamId then Err(Invalid(StreamIdMismatch, at, previous))
    else if record.previous != previous then Err(Invalid(PreviousHashMismatch, at, previous))
    else if !EventOk(env, taskId.value, record.event) || !GenesisOk(record.sequence, record.event)
            || !ValidHash(record.eventHash)
            || (record.previous.Some? && !ValidHash(record.previous.value))
    then Err(Invalid(SchemaInvalid, at, previous))
    else
      var computed := HashRecord(env, streamId, record.sequence, record.previous, record.event);
      if computed.None? then Err(Invalid(SchemaInvalid, at, previous))
      else if computed.value != record.eventHash then Err(Invalid(EventHashMismatch, at, computed))
      else Ok(computed.value)
  }

  function Finish(count: nat, previous: Option<string>, checkpoint: Option<Checkpoint>): Outcome {
    if previous.None? then Invalid(SequenceGap, Some(1), None)
    else if checkpoint.Some? && checkpoint.value.eventHash != previous.value
    then Invalid(CheckpointHeadMismatch, Positive(count), previous)
    else Valid(count, previous.value)
  }

  /** What both scans carry from one record to the next. */
  datatype Progress = Progress(previous: Option<string>, latest: Option<Revision>, seen: set<string>)

  const START: Progress := Progress(None, None, {})

  predicate AppearsFrom(records: seq<Record>, i: nat, sequence: nat) {
    exists j | i <= j < |records| :: records[j].sequence == sequence
  }

  /** One iteration of the detached verifier, at index `i`. */
  function RecordStep(env: Env, records: seq<Record>, streamId: string, i: nat, st: Progress)
    : Result<Progress, Outcome>
    requires i < |records|
  {
    var record := records[i];
    var eventId := StringField(record.event, "event_id");
    var at := Positive(record.sequence);
    if eventId.Some? && eventId.value in st.seen then Err(Invalid(SchemaInvalid, at, st.previous))
    else
      var seen := if eventId.Some? then st.seen + {eventId.value} else st.seen;
      var later := record.sequence > i + 1 && AppearsFrom(records, i, i + 1);
      var checked := VerifyOne(env, record, streamId, i + 1, st.previous, later);
      if checked.Err? then Err(checked.error)
      else
        var latest := Advance(st.latest, record.event);
        if latest.Err? then Err(Invalid(SchemaInvalid, at, st.previous))
        else Ok(Progress(Some(checked.value), latest.value, seen))
  }

  function RecordScan(env: Env, records: seq<Record>, streamId: string, checkpoint: Option<Checkpoint>,
                      i: nat, st: Progress): Outcome
    requires i <= |records|
    decreases |records| - i
  {
    if i == |records| then Finish(i, st.previous, checkpoint)
    else
      var next := RecordStep(env, records, streamId, i, st);
      if next.Err? then next.error
      else RecordScan(env, records, streamId, checkpoint, i + 1, next.value)
  }

  function RecordsOutcome(env: Env, records: seq<Record>, streamId: string,
                          checkpoint: Option<Checkpoint>, verifiedAt: string): Outcome
  {
    if !RequestOk(env, streamId, verifiedAt, checkpoint) then Rejected
    else RecordScan(env, records, streamId, checkpoint, 0, START)
  }

  /** `verify_records`: the loop computes the outcome of the scan. */
  method VerifyRecords(env: Env, records: seq<Record>, streamId: string,
                       checkpoint: Option<Checkpoint>, verifiedAt: string) returns (r: Outcome)
    ensures r == RecordsOutcome(env, records, streamId, checkpoint, verifiedAt)
  {
    if !RequestOk(env, streamId, verifiedAt, checkpoint) { return Rejected; }
    var previous: Option<string>, latest: Option<Revision>, seen: set<string> := None, None, {};
    var i := 0;
    while i < |records|
      invariant i <= |records|
      invariant RecordScan(env, records, streamId, checkpoint, i, Progress(previous, latest, seen))
             == RecordScan(env, records, streamId, checkpoint, 0, START)
    {
      var record := records[i];
      var eventId := StringField(record.event, "event_id");
      if eventId.Some? {
        if eventId.value in seen { return Invalid(SchemaInvalid, Positive(record.sequence), previous); }
        seen := seen + {eventId.value};
      }
      var later := record.sequence > i + 1 && AppearsFrom(records, i, i + 1);
      var checked := VerifyOne(env, record, streamId, i + 1, previous, later);
      if checked.Err? { return checked.error; }
      var advanced := Advance(latest, record.event);
      if advanced.Err? { return Invalid(SchemaInvalid, Positive(record.sequence), previous); }
      previous, latest, i := Some(checked.value), advanced.value, i + 1;
    }
    r := Finish(i, previous, checkpoint);
  }

  // ---------------------------------------------------------------- what is accepted

  function Events(records: seq<Record>): (r: seq<Json>)
    ensures |r| == |records|
    ensures forall i | 0 <= i < |records| :: r[i] == records[i].event
  {
    if records == [] then [] else Events(records[..|records| - 1]) + [records[|records| - 1].event]
  }

  function HashBefore(records: seq<Record>, i: nat): Option<string>
    requires i <= |records|
  {
    if i == 0 then None else Some(records[i - 1].eventHash)
  }

  /** The record carries the right position, identity, predecessor, event and hash. */
  predicate RecordOk(env: Env, streamId: string, record: Record, expected: nat, previous: Option<string>) {
    && record.sequence == expected
    && record.schemaVersion == SCHEMA_VERSION
    && record.hashProfile == HASH_PROFILE
    && record.streamId == streamId
    && StoredEventOk(env, record.event)
    && StreamId(env, StringField(record.event, "task_id").value) == streamId
    && GenesisOk(record.sequence, record.event)
    && record.previous == previous
    && (previous.Some? ==> ValidHash(previous.value))
    && ValidHash(record.eventHash)
    && HashRecord(env, streamId, record.sequence, record.previous, record.event) == Some(record.eventHash)
  }

  predicate Linked(env: Env, streamId: string, records: seq<Record>, i: nat)
    requires i < |records|
  {
    RecordOk(env, streamId, records[i], i + 1, HashBefore(records, i))
  }

  lemma EventOkTaskId(env: Env, taskId: string, event: Json)
    requires EventOk(env, taskId, event)
    ensures ValidTaskId(taskId)
  {}

  lemma VerifyOneIff(env: Env, record: Record, streamId: string, expected: nat, previous: Option<string>,
                     later: bool)
    ensures VerifyOne(env, record, streamId, expected, previous, later).Ok?
       <==> !later && RecordOk(env, streamId, record, expected, previous)
    ensures VerifyOne(env, record, streamId, expected, previous, later).Ok?
        ==> VerifyOne(env, record, streamId, expected, previous, later).value == record.eventHash
    ensures VerifyOne(env, record, streamId, expected, previous, later).Err?
        ==> VerifyOne(env, record, streamId, expected, previous, later).error.Invalid?
    ensures RecordOk(env, streamId, record, expected, previous) ==> record.sequence == expected
  {
    hide EventContractOk, ExportAuthorityLinksOk, GenesisOk, ValidHash, HashRecord, StreamId;
    if RecordOk(env, streamId, record, expected, previous) {
      EventOkTaskId(env, StringField(record.event, "task_id").value, record.event);
    }
  }

  predicate DistinctEventIds(records: seq<Record>) {
    forall i, j | 0 <= i < j < |records| && StringField(records[i].event, "event_id").Some? ::
      StringField(records[i].event, "event_id") != StringField(records[j].event, "event_id")
  }

  /** An intact history of one stream. */
  predicate Intact(env: Env, streamId: string, records: seq<Record>) {
    && (forall i | 0 <= i < |records| :: Linked(env, streamId, records, i))
    && DistinctEventIds(records)
    && Fold(Events(records)).Ok?
  }

  function IdsOf(records: seq<Record>): (r: set<string>)
    ensures forall x :: x in r <==> exists i | 0 <= i < |records| :: StringField(records[i].event, "event_id") == Some(x)
  {
    if records == [] then {}
    else
      var rest := IdsOf(records[..|records| - 1]);
      var id := StringField(records[|records| - 1].event, "event_id");
      if id.Some? then rest + {id.value} else rest
  }

  function StateAt(records: seq<Record>, k: nat): Progress
    requires k <= |records|
    requires Fold(Events(records[..k])).Ok?
  {
    Progress(HashBefore(records, k), Fold(Events(records[..k])).value, IdsOf(records[..k]))
  }

  lemma IntactPrefix(env: Env, streamId: string, records: seq<Record>, k: nat)
    requires Intact(env, streamId, records) && k <= |records|
    ensures Intact(env, streamId, records[..k])
  {
    hide RecordOk, Advance, Fold, StringField;
    var shorter := records[..k];
    forall i | 0 <= i < k ensures Linked(env, streamId, shorter, i) {
      assert Linked(env, streamId, records, i);
    }
    assert forall i | 0 <= i < k :: shorter[i] == records[i];
    FoldPrefix(Events(records), k);
    assert Events(shorter) == Events(records)[..k];
  }

  lemma FoldSnoc(records: seq<Record>, k: nat)
    requires k < |records| && Fold(Events(records[..k])).Ok?
    ensures Fold(Events(records[..k + 1])) == Advance(Fold(Events(records[..k])).value, records[k].event)
  {
    assert records[..k + 1][..k] == records[..k];
    assert Events(records[..k + 1])[..k] == Events(records[..k]);
  }

  lemma IdsSnoc(records: seq<Record>, k: nat)
    requires k < |records|
    ensures var id := StringField(records[k].event, "event_id");
            IdsOf(records[..k + 1])
            == if id.Some? then IdsOf(records[..k]) + {id.value} else IdsOf(records[..k])
  {
    assert records[..k + 1][..k] == records[..k];
  }

  /** Record `k` continues the history made of the records before it. */
  predicate Extends(env: Env, streamId: string, records: seq<Record>, k: nat)
    requires k < |records|
  {
    var id := StringField(records[k].event, "event_id");
    && Linked(env, streamId, records, k)
    && (id.Some? ==> id.value !in IdsOf(records[..k]))
    && Fold(Events(records[..k + 1])).Ok?
  }

  /** One iteration succeeds exactly when the record fits and the revision advances. */
  lemma RecordStepIff(env: Env, streamId: string, records: seq<Record>, k: nat)
    requires k < |records| && Fold(Events(records[..k])).Ok?
    ensures RecordStep(env, records, streamId, k, StateAt(records, k)).Ok? <==> Extends(env, streamId, records, k)
    ensures RecordStep(env, records, streamId, k, StateAt(records, k)).Err? ==>
              RecordStep(env, records, streamId, k, StateAt(records, k)).error.Invalid?
    ensures RecordStep(env, records, streamId, k, StateAt(records, k)).Ok? ==>
              RecordStep(env, records, streamId, k, StateAt(records, k)) == Ok(StateAt(records, k + 1))
  {
    hide RecordOk, VerifyOne, Advance, Events, IdsOf;
    var later := records[k].sequence > k + 1 && AppearsFrom(records, k, k + 1);
    VerifyOneIff(env, records[k], streamId, k + 1, HashBefore(records, k), later);
    FoldSnoc(records, k);
    IdsSnoc(records, k);
  }

  lemma IntactSnoc(env: Env, streamId: string, records: seq<Record>, k: nat)
    requires k < |records| && Intact(env, streamId, records[..k])
    ensures Intact(env, streamId, records[..k + 1]) <==> Extends(env, streamId, records, k)
  {
    hide RecordOk, Fold, Events;
    var shorter, longer := records[..k], records[..k + 1];
    assert forall i | 0 <= i < k :: longer[i] == shorter[i];
    forall i | 0 <= i < k ensures Linked(env, streamId, longer, i) {
      assert Linked(env, streamId, shorter, i);
    }
    assert Linked(env, streamId, longer, k) == Linked(env, streamId, records, k);
    var id := StringField(records[k].event, "event_id");
    if id.Some? && id.value in IdsOf(shorter) {
      var i :| 0 <= i < |shorter| && StringField(shorter[i].event, "event_id") == Some(id.value);
      assert StringField(longer[i].event, "event_id") == StringField(longer[k].event, "event_id");
    }
  }

  /** Scanning an intact prefix reaches exactly the state that the prefix determines. */
  lemma {:induction false} ScanPrefix(env: Env, streamId: string, records: seq<Record>,
                                      checkpoint: Option<Checkpoint>, k: nat)
    requires k <= |records| && Intact(env, streamId, records[..k])
    ensures RecordScan(env, records, streamId, checkpoint, 0, START)
         == RecordScan(env, records, streamId, checkpoint, k, StateAt(records, k))
  {
    hide RecordOk, RecordStep, Extends;
    if k == 0 {
      assert StateAt(records, 0) == START;
    } else {
      assert records[..k][..k - 1] == records[..k - 1];
      IntactPrefix(env, streamId, records[..k], k - 1);
      ScanPrefix(env, streamId, records, checkpoint, k - 1);
      IntactSnoc(env, streamId, records, k - 1);
      RecordStepIff(env, streamId, records, k - 1);
    }
  }

  /** A scan that ends valid from an intact prefix has an intact whole. */
  lemma {:induction false} ScanSound(env: Env, streamId: string, records: seq<Record>,
                                     checkpoint: Option<Checkpoint>, k: nat)
    requires k <= |records| && Intact(env, streamId, records[..k])
    requires RecordScan(env, records, streamId, checkpoint, k, StateAt(records, k)).Valid?
    ensures Intact(env, streamId, records)
    decreases |records| - k
  {
    hide RecordOk, RecordStep, Linked, Extends;
    if k == |records| {
      assert records[..k] == records;
    } else {
      RecordStepIff(env, streamId, records, k);
      IntactSnoc(env, streamId, records, k);
      ScanSound(env, streamId, records, checkpoint, k + 1);
    }
  }

  lemma IntactAccepted(env: Env, streamId: string, records: seq<Record>,
                       checkpoint: Option<Checkpoint>, verifiedAt: string)
    ensures RecordsOutcome(env, records, streamId, checkpoint, verifiedAt).Valid? <==>
              && RequestOk(env, streamId, verifiedAt, checkpoint)
              && records != []
              && Intact(env, streamId, records)
              && (checkpoint.Some? ==> checkpoint.value.eventHash == records[|records| - 1].eventHash)
    ensures RecordsOutcome(env, records, streamId, checkpoint, verifiedAt).Valid? ==>
              RecordsOutcome(env, records, streamId, checkpoint, verifiedAt)
              == Valid(|records|, records[|records| - 1].eventHash)
  {
    assert records[..0] == [];
    assert StateAt(records, 0) == START;
    if RecordsOutcome(env, records, streamId, checkpoint, verifiedAt).Valid? {
      ScanSound(env, streamId, records, checkpoint, 0);
    }
    if Intact(env, streamId, records) {
      assert records[..|records|] == records;
      ScanPrefix(env, streamId, records, checkpoint, |records|);
    }
  }

  /** What makes a history intact, read off the fields of its records and events. */
  lemma IntactIff(env: Env, streamId: string, records: seq<Record>)
    ensures Intact(env, streamId, records) <==>
              && (forall i | 0 <= i < |records| :: Linked(env, streamId, records, i))
              && DistinctEventIds(records)
              && Continuous(Events(records))
  {
    hide Linked, DistinctEventIds, Continuous, Fold, Events;
    FoldIff(Events(records));
  }

  /** The detached verifier accepts exactly the nonempty histories that are linked record to record, repeat
      no event ID, have continuous revisions and meet the checkpoint. */
  lemma RecordsAcceptedIff(env: Env, streamId: string, records: seq<Record>,
                           checkpoint: Option<Checkpoint>, verifiedAt: string)
    ensures RecordsOutcome(env, records, streamId, checkpoint, verifiedAt).Valid? <==>
              && RequestOk(env, streamId, verifiedAt, checkpoint)
              && records != []
              && (forall i | 0 <= i < |records| :: Linked(env, streamId, records, i))
              && DistinctEventIds(records)
              && Continuous(Events(records))
              && (checkpoint.Some? ==> checkpoint.value.eventHash == records[|records| - 1].eventHash)
    ensures RecordsOutcome(env, records, streamId, checkpoint, verifiedAt).Valid? ==>
              RecordsOutcome(env, records, streamId, checkpoint, verifiedAt)
              == Valid(|records|, records[|records| - 1].eventHash)
  {
    hide Linked, DistinctEventIds, Continuous, Events, Intact, RecordsOutcome, RequestOk;
    IntactAccepted(env, streamId, records, checkpoint, verifiedAt);
    IntactIff(env, streamId, records);
  }

  /** In an accepted history only the first event is a creation, and the revisions that its transitions
      name run 1, 2, 3 and so on without a gap. */
  lemma AcceptedRevisions(env: Env, streamId: string, records: seq<Record>, checkpoint: Option<Checkpoint>,
                          verifiedAt: string)
    requires RecordsOutcome(env, records, streamId, checkpoint, verifiedAt).Valid?
    ensures forall i | 0 <= i < |records| :: IsCreation(records[i].event) <==> i == 0
    ensures Numbered(Events(records))
    ensures Fold(Events(records)).Ok? && Fold(Events(records)).value.Some?
    ensures Fold(Events(records)).value.value.number == RevisionEvents(Events(records))
  {
    hide RecordsOutcome, Fold, Numbered, RevisionEvents, Linked, RequestOk, DistinctEventIds, IsCreation, Events;
    IntactAccepted(env, streamId, records, checkpoint, verifiedAt);
    IntactRevisions(env, streamId, records);
  }

  lemma IntactRevisions(env: Env, streamId: string, records: seq<Record>)
    requires Intact(env, streamId, records) && records != []
    ensures forall i | 0 <= i < |records| :: IsCreation(records[i].event) <==> i == 0
    ensures Numbered(Events(records))
    ensures Fold(Events(records)).value.Some?
    ensures Fold(Events(records)).value.value.number == RevisionEvents(Events(records))
  {
    hide Fold, Numbered, RevisionEvents, Linked, IsCreation, IsTransition, TransitionIncrements, DistinctEventIds;
    var events := Events(records);
    hide Events;
    forall i | 0 <= i < |records|
      ensures IsCreation(events[i]) <==> i == 0
      ensures IsTransition(events[i]) ==> TransitionIncrements(events[i])
    {
      LinkedIncrements(env, streamId, records, i);
    }
    RevisionsNumbered(events);
    RevisionIsCount(events);
  }

  lemma LinkedIncrements(env: Env, streamId: string, records: seq<Record>, i: nat)
    requires i < |records| && Linked(env, streamId, records, i)
    ensures IsCreation(records[i].event) <==> i == 0
    ensures IsTransition(records[i].event) ==> TransitionIncrements(records[i].event)
  {
    hide TransitionIncrements, ExportAuthorityLinksOk, HashRecord, ValidHash, WithinShapeBounds, StreamId;
  }
}
