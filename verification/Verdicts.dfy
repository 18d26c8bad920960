/** Which code the detached verifier gives when one field of one record of an intact history was changed. */
module Verdicts {
  import opened Values
  import opened CanonicalJson
  import opened Journal
  import opened Revisions
  import opened Verify
  import opened VerifyStored

  /** The verdict at the first record that the scan refuses. */
  lemma FirstFailure(env: Env, s: string, records: seq<Record>, k: nat, checkpoint: Option<Checkpoint>, verifiedAt: string)
    requires RequestOk(env, s, verifiedAt, checkpoint)
    requires k < |records| && Intact(env, s, records[..k])
    requires RecordStep(env, records, s, k, StateAt(records, k)).Err?
    ensures RecordsOutcome(env, records, s, checkpoint, verifiedAt)
         == RecordStep(env, records, s, k, StateAt(records, k)).error
  {
    hide Intact, RecordStep, RequestOk;
    ScanPrefix(env, s, records, checkpoint, k);
  }

  /** What an intact history says of its record at `k` and of the records before it. */
  lemma RecordOfIntact(env: Env, s: string, original: seq<Record>, k: nat)
    requires Intact(env, s, original) && k < |original|
    ensures Intact(env, s, original[..k])
    ensures RecordOk(env, s, original[k], k + 1, HashBefore(original, k))
    ensures var id := StringField(original[k].event, "event_id"); id.Some? ==> id.value !in IdsOf(original[..k])
  {
    hide RecordOk, Fold, Events;
    IntactPrefix(env, s, original, k);
    IntactPrefix(env, s, original, k + 1);
    IntactSnoc(env, s, original, k);
    assert Linked(env, s, original, k);
  }

  /** The scan of a list that differs from an intact one in record `k` stops at the checks of that record. */
  lemma Replaced(env: Env, s: string, original: seq<Record>, k: nat, r: Record, checkpoint: Option<Checkpoint>,
                 verifiedAt: string)
    requires RequestOk(env, s, verifiedAt, checkpoint) && Intact(env, s, original) && k < |original|
    requires var id := StringField(r.event, "event_id"); id.Some? ==> id.value !in IdsOf(original[..k])
    ensures var records := original[k := r];
            var checked := VerifyOne(env, r, s, k + 1, HashBefore(original, k),
                                     r.sequence > k + 1 && AppearsFrom(records, k, k + 1));
            checked.Err? ==> RecordsOutcome(env, records, s, checkpoint, verifiedAt) == checked.error
  {
    hide RequestOk, VerifyOne, Fold, Events, IdsOf, RecordOk, RecordsOutcome, Advance;
    RecordOfIntact(env, s, original, k);
    hide Intact;
    var records := original[k := r];
    assert records[..k] == original[..k];
    var checked := VerifyOne(env, r, s, k + 1, HashBefore(original, k), r.sequence > k + 1 && AppearsFrom(records, k, k + 1));
    if checked.Err? { FirstFailure(env, s, records, k, checkpoint, verifiedAt); }
  }

  /** A record whose event and position were kept and one other field was changed: each field has its code. */
  lemma FieldVerdict(env: Env, s: string, original: seq<Record>, k: nat, r: Record, checkpoint: Option<Checkpoint>,
                     verifiedAt: string)
    requires RequestOk(env, s, verifiedAt, checkpoint) && Intact(env, s, original) && k < |original|
    requires r.event == original[k].event && r.sequence == k + 1
    ensures var was, before, outcome := original[k], HashBefore(original, k),
                                        RecordsOutcome(env, original[k := r], s, checkpoint, verifiedAt);
            && (forall v | v != was.schemaVersion && r == was.(schemaVersion := v) ::
                  outcome == Invalid(SchemaInvalid, Some(k + 1), before))
            && (forall v | v != was.hashProfile && r == was.(hashProfile := v) ::
                  outcome == Invalid(HashProfileUnsupported, Some(k + 1), before))
            && (forall v | v != was.streamId && r == was.(streamId := v) ::
                  outcome == Invalid(StreamIdMismatch, Some(k + 1), before))
            && (forall v | v != was.previous && r == was.(previous := v) ::
                  outcome == Invalid(PreviousHashMismatch, Some(k + 1), before))
            && (forall v | v != was.eventHash && r == was.(eventHash := v) ::
                  outcome == if ValidHash(v) then Invalid(EventHashMismatch, Some(k + 1), Some(was.eventHash))
                             else Invalid(SchemaInvalid, Some(k + 1), before))
  {
    hide RequestOk, Intact, RecordsOutcome, EventContractOk, ExportAuthorityLinksOk, GenesisOk, ValidHash, HashRecord,
         StreamId, IdsOf;
    RecordOfIntact(env, s, original, k);
    EventOkTaskId(env, StringField(r.event, "task_id").value, r.event);
    Replaced(env, s, original, k, r, checkpoint, verifiedAt);
  }

  /** A changed sequence number: below its position the order is wrong, above it there is a gap. */
  lemma SequenceVerdict(env: Env, s: string, original: seq<Record>, k: nat, n: nat, checkpoint: Option<Checkpoint>,
                        verifiedAt: string)
    requires RequestOk(env, s, verifiedAt, checkpoint) && Intact(env, s, original) && k < |original| && n != k + 1
    ensures RecordsOutcome(env, original[k := original[k].(sequence := n)], s, checkpoint, verifiedAt)
         == Invalid(if n < k + 1 then SequenceOrderInvalid else SequenceGap, Positive(n), HashBefore(original, k))
  {
    hide RequestOk, RecordsOutcome, EventContractOk, ExportAuthorityLinksOk, GenesisOk, ValidHash, HashRecord,
         StreamId, IdsOf, Fold;
    RecordOfIntact(env, s, original, k);
    var r := original[k].(sequence := n);
    Replaced(env, s, original, k, r, checkpoint, verifiedAt);
    var records := original[k := r];
    forall j | k <= j < |records| ensures records[j].sequence != k + 1 {
      if j > k { assert Linked(env, s, original, j); }
    }
  }

  function Signed(r: Record): HashView
    requires r.event.Obj?
  {
    RecordView(r.streamId, r.sequence, r.previous, Canonical(WithoutHashFields(r.event)))
  }

  /** Of a valid event at a safe position, the recomputed hash is the digest of the signed view. */
  lemma Rehash(env: Env, r: Record, taskId: string)
    requires EventOk(env, taskId, r.event) && StringField(r.event, "task_id").Some? && 0 < r.sequence <= MAX_SAFE_INTEGER
    ensures r.event.Obj?
    ensures HashRecord(env, r.streamId, r.sequence, r.previous, r.event) == Some("sha256:" + env.digest(Signed(r)))
  {
    hide ExportAuthorityLinksOk, WithinShapeBounds, Canonical;
  }

  lemma DigestsDiffer(a: string, b: string)
    requires a != b
    ensures "sha256:" + a != "sha256:" + b
  {
    assert ("sha256:" + a)[7..] == a && ("sha256:" + b)[7..] == b;
  }

  lemma SafePosition(env: Env, s: string, r: Record, expected: nat, previous: Option<string>)
    requires RecordOk(env, s, r, expected, previous)
    ensures 0 < r.sequence <= MAX_SAFE_INTEGER && r.streamId == s && r.previous == previous && r.sequence == expected
    ensures StringField(r.event, "task_id").Some? && EventOk(env, StringField(r.event, "task_id").value, r.event)
    ensures HashRecord(env, s, r.sequence, previous, r.event) == Some(r.eventHash)
  {
    hide EventContractOk, ExportAuthorityLinksOk, ValidHash, StreamId, WithinShapeBounds, Canonical, GenesisOk;
  }

  /** Other content under the kept hash: a repeated event ID, another Task, an event that is not valid there and
      content that hashes differently are told apart, and valid content of the Task that is hashed as other
      bytes passes only with a digest collision. */
  lemma EventVerdict(env: Env, s: string, original: seq<Record>, k: nat, event: Json, checkpoint: Option<Checkpoint>,
                     verifiedAt: string)
    requires RequestOk(env, s, verifiedAt, checkpoint) && Intact(env, s, original) && k < |original|
    ensures var was, r := original[k], original[k].(event := event);
            var before, outcome := HashBefore(original, k), RecordsOutcome(env, original[k := r], s, checkpoint, verifiedAt);
            var id, task := StringField(event, "event_id"), StringField(event, "task_id");
            if exists i | 0 <= i < k :: id.Some? && StringField(original[i].event, "event_id") == id
            then outcome == Invalid(SchemaInvalid, Some(k + 1), before)
            else if task.None? || !ValidTaskId(task.value) || StreamId(env, task.value) != s
            then outcome == Invalid(StreamIdMismatch, Some(k + 1), before)
            else if !EventOk(env, task.value, event) || (k == 0) != IsCreation(event)
            then outcome == Invalid(SchemaInvalid, Some(k + 1), before)
            else
              && event.Obj? && was.event.Obj?
              && (env.digest(Signed(r)) != env.digest(Signed(was)) ==>
                    outcome == Invalid(EventHashMismatch, Some(k + 1), Some("sha256:" + env.digest(Signed(r)))))
  {
    hide RequestOk, Intact, RecordsOutcome, EventContractOk, ExportAuthorityLinksOk, ValidHash, StreamId, WithinShapeBounds,
         Canonical;
    RecordOfIntact(env, s, original, k);
    var r := original[k].(event := event);
    var id, task := StringField(event, "event_id"), StringField(event, "task_id");
    SafePosition(env, s, original[k], k + 1, HashBefore(original, k));
    Rehash(env, original[k], StringField(original[k].event, "task_id").value);
    if task.Some? && EventOk(env, task.value, event) {
      Rehash(env, r, task.value);
      if env.digest(Signed(r)) != env.digest(Signed(original[k])) {
        DigestsDiffer(env.digest(Signed(r)), env.digest(Signed(original[k])));
      }
    }
    hide HashRecord, Signed, EventOk;
    assert forall i | 0 <= i < k :: original[..k][i] == original[i];
    if id.Some? && id.value in IdsOf(original[..k]) {
      var i :| 0 <= i < |original[..k]| && StringField(original[..k][i].event, "event_id") == Some(id.value);
      assert StringField(original[i].event, "event_id") == id;
      assert original[k := r][..k] == original[..k];
      FirstFailure(env, s, original[k := r], k, checkpoint, verifiedAt);
    } else {
      Replaced(env, s, original, k, r, checkpoint, verifiedAt);
      forall i | 0 <= i < k && id.Some? ensures StringField(original[i].event, "event_id") != id {
        assert StringField(original[..k][i].event, "event_id") == StringField(original[i].event, "event_id");
      }
    }
  }

  /** An intact history whose last hash is not the checkpoint's, and the empty list. */
  lemma HeadVerdict(env: Env, s: string, original: seq<Record>, checkpoint: Checkpoint, verifiedAt: string)
    requires RequestOk(env, s, verifiedAt, Some(checkpoint)) && Intact(env, s, original)
    ensures original == [] ==> RecordsOutcome(env, original, s, Some(checkpoint), verifiedAt) == Invalid(SequenceGap, Some(1), None)
    ensures original != [] && original[|original| - 1].eventHash != checkpoint.eventHash ==>
              RecordsOutcome(env, original, s, Some(checkpoint), verifiedAt)
              == Invalid(CheckpointHeadMismatch, Some(|original|), Some(original[|original| - 1].eventHash))
  {
    hide RequestOk, Intact;
    assert original[..|original|] == original;
    ScanPrefix(env, s, original, Some(checkpoint), |original|);
  }

  /** A linked record with a new event ID whose transition does not continue the revisions. */
  lemma RevisionVerdict(env: Env, s: string, records: seq<Record>, k: nat, checkpoint: Option<Checkpoint>, verifiedAt: string)
    requires RequestOk(env, s, verifiedAt, checkpoint)
    requires k < |records| && Intact(env, s, records[..k]) && Linked(env, s, records, k)
    requires DistinctEventIds(records[..k + 1]) && !Continuous(Events(records[..k + 1]))
    ensures RecordsOutcome(env, records, s, checkpoint, verifiedAt)
         == Invalid(SchemaInvalid, Some(k + 1), HashBefore(records, k))
  {
    hide RequestOk, RecordOk, VerifyOne, Fold, Events, IdsOf, RecordsOutcome, Advance, Continuous, Intact;
    FoldIff(Events(records[..k + 1]));
    IntactFolds(env, s, records[..k]);
    FoldSnoc(records, k);
    VerifyOneIff(env, records[k], s, k + 1, HashBefore(records, k), false);
    FreshId(records, k);
    FirstFailure(env, s, records, k, checkpoint, verifiedAt);
  }

  lemma IntactFolds(env: Env, s: string, records: seq<Record>)
    requires Intact(env, s, records)
    ensures Fold(Events(records)).Ok?
  {
    hide Linked, Fold, Events;
  }

  lemma FreshId(records: seq<Record>, k: nat)
    requires k < |records| && DistinctEventIds(records[..k + 1])
    ensures var id := StringField(records[k].event, "event_id"); id.Some? ==> id.value !in IdsOf(records[..k])
  {
    hide StringField;
  }

  // ---------------------------------------------------------------- the index columns

  /** An event determines every column. */
  lemma ColumnsDetermined(a: Index, b: Index, event: Json)
    requires IndexMatches(a, event) && IndexMatches(b, event)
    ensures a == b
  {
    hide StringField, OrEmpty;
  }

  /** Changing any column of any row of intact rows is SCHEMA_INVALID at that row, with the row's own hash. */
  lemma ColumnVerdict(env: Env, table: seq<Row>, s: string, rows: seq<Row>, k: nat, index: Index,
                      checkpoint: Option<Checkpoint>, verifiedAt: string)
    requires RequestOk(env, s, verifiedAt, checkpoint) && RowsIntact(env, s, rows) && k < |rows| && index != rows[k].index
    requires StreamRows(table, s) == rows[k := rows[k].(index := index)]
    ensures StreamOutcome(env, table, s, None, checkpoint, verifiedAt)
         == Invalid(SchemaInvalid, Some(k + 1), Some(rows[k].eventHash))
  {
    hide RequestOk, RowScan, RowStep, RowsIntact, RowState, StreamRows;
    var changed := StreamRows(table, s);
    ThroughAll(changed);
    assert changed[..k] == rows[..k];
    RowsIntactPrefix(env, s, rows, k);
    SeenNothing(env, s, rows[..k]);
    RowsBefore(env, s, changed, checkpoint, k);
    ColumnStep(env, s, rows, k, index);
    ScanStops(env, s, changed, checkpoint, k, RowState(env, rows[..k]));
  }

  lemma ScanStops(env: Env, s: string, rows: seq<Row>, checkpoint: Option<Checkpoint>, k: nat, st: Progress)
    requires k < |rows| && RowStep(env, rows[k], s, k, st).Err?
    ensures RowScan(env, rows, s, checkpoint, k, st) == RowStep(env, rows[k], s, k, st).error
  {
    hide RowStep;
  }

  /** Scanning intact rows carries exactly their state. */
  lemma {:induction false} RowsBefore(env: Env, s: string, rows: seq<Row>, checkpoint: Option<Checkpoint>, k: nat)
    requires k <= |rows| && RowsIntact(env, s, rows[..k])
    ensures RowScan(env, rows, s, checkpoint, 0, START) == RowScan(env, rows, s, checkpoint, k, RowState(env, rows[..k]))
  {
    hide RowsIntact, RowStep, RowFits;
    if k == 0 {
      NothingRead(env, s, rows);
    } else {
      var j := k - 1;
      assert rows[..k][..j] == rows[..j];
      RowsIntactPrefix(env, s, rows[..k], j);
      SeenNothing(env, s, rows[..j]);
      RowsBefore(env, s, rows, checkpoint, j);
      RowsIntactSnoc(env, s, rows, j);
      RowStepIff(env, s, rows, j, RowState(env, rows[..j]));
      hide RowState, DecodeRow;
    }
  }

  lemma SeenNothing(env: Env, s: string, rows: seq<Row>)
    requires RowsIntact(env, s, rows)
    ensures Decodes(env, rows) && Fold(Events(Decoded(env, rows))).Ok? && RowState(env, rows).seen == {}
  {
    hide Linked, IndexMatches, Fold, Events, Decoded, DecodeRow;
  }

  lemma ColumnStep(env: Env, s: string, rows: seq<Row>, k: nat, index: Index)
    requires RowsIntact(env, s, rows) && k < |rows| && index != rows[k].index && RowsIntact(env, s, rows[..k])
    ensures RowStep(env, rows[k].(index := index), s, k, RowState(env, rows[..k]))
         == Err(Invalid(SchemaInvalid, Some(k + 1), Some(rows[k].eventHash)))
  {
    hide RowsIntact, RecordOk, IndexMatches, VerifyOne, Advance, RowState;
    SeenNothing(env, s, rows[..k]);
    var st := RowState(env, rows[..k]);
    RowsIntactPrefix(env, s, rows, k + 1);
    RowsIntactSnoc(env, s, rows, k);
    var record := DecodeRow(env, rows[k]).value;
    VerifyOneIff(env, record, s, k + 1, st.previous, false);
    if IndexMatches(index, record.event) { ColumnsDetermined(index, rows[k].index, record.event); }
  }
}
