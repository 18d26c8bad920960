/**
 Exactly when an append succeeds on an intact table, in terms of the call and the records of its stream, and
 what it then inserts.
 */
module AppendExact {
  import opened Values
  import opened CanonicalJson
  import opened Journal
  import opened Revisions
  import opened Verify
  import opened VerifyStored
  import opened Reachable

  /** The caller's expectation against the records of the stream. */
  predicate HeadAgrees(expected: ExpectedHead, ordered: seq<Row>) {
    match expected
    case AnyHead => true
    case EmptyHead => ordered == []
    case ExactHead(sequence, eventHash) =>
      ordered != [] && sequence == |ordered| && eventHash == ordered[|ordered| - 1].eventHash
  }

  // ---------------------------------------------------------------- the query in sequence order

  predicate Ascending(rows: seq<Row>) {
    forall i, j | 0 <= i < j < |rows| :: rows[i].sequence <= rows[j].sequence
  }

  lemma {:induction false} InsertAscending(row: Row, ordered: seq<Row>)
    requires Ascending(ordered)
    ensures Ascending(InsertOrdered(row, ordered))
  {
    if ordered != [] && ordered[|ordered| - 1].sequence > row.sequence {
      var front := ordered[..|ordered| - 1];
      InsertAscending(row, front);
      forall r | r in InsertOrdered(row, front) ensures r.sequence <= ordered[|ordered| - 1].sequence {
        assert r in multiset(InsertOrdered(row, front));
        assert r in front || r == row;
      }
    }
  }

  /** The query returns the rows of the stream, each as often as the table holds it, by ascending sequence. */
  lemma {:induction false} StreamRowsExact(rows: seq<Row>, s: string)
    ensures Ascending(StreamRows(rows, s))
    ensures forall r: Row :: multiset(StreamRows(rows, s))[r] == if r.streamId == s then multiset(rows)[r] else 0
  {
    if rows != [] {
      var front, last := rows[..|rows| - 1], rows[|rows| - 1];
      assert rows == front + [last];
      StreamRowsExact(front, s);
      InsertAscending(last, StreamRows(front, s));
    }
  }

  lemma RowPosition(rows: seq<Row>, row: Row) returns (i: nat)
    requires row in rows
    ensures i < |StreamRows(rows, row.streamId)| && StreamRows(rows, row.streamId)[i] == row
  {
    StreamRowsExact(rows, row.streamId);
    assert multiset(rows)[row] > 0;
    assert row in multiset(StreamRows(rows, row.streamId));
    i :| 0 <= i < |StreamRows(rows, row.streamId)| && StreamRows(rows, row.streamId)[i] == row;
  }

  lemma RowTask(env: Env, s: string, row: Row, expected: nat, previous: Option<string>)
    requires DecodeRow(env, row).Some?
    requires RecordOk(env, s, DecodeRow(env, row).value, expected, previous)
    requires IndexMatches(row.index, DecodeRow(env, row).value.event)
    ensures StreamId(env, row.index.taskId) == s && row.sequence == expected
  {
    hide EventContractOk, ExportAuthorityLinksOk, GenesisOk, ValidHash, HashRecord, StreamId;
  }

  /** The next position of a stream is free, under its stream ID and under its Task ID alike. */
  lemma NextIsFree(env: Env, rows: seq<Row>, taskId: string, row: Row)
    requires Invariant(env, rows) && row in rows
    requires row.streamId == StreamId(env, taskId) || row.index.taskId == taskId
    ensures row.sequence <= |StreamRows(rows, StreamId(env, taskId))|
  {
    hide RecordOk, IndexMatches, StreamRows, StreamId, DecodeRow, Fold;
    var t := row.streamId;
    var ordered := StreamRows(rows, t);
    assert RowsIntact(env, t, ordered);
    var i := RowPosition(rows, row);
    assert Linked(env, t, Decoded(env, ordered), i);
    RowTask(env, t, row, i + 1, HashBefore(Decoded(env, ordered), i));
  }

  // ---------------------------------------------------------------- the revision check

  lemma CheckIff(env: Env, rows: seq<Row>, s: string, event: Json)
    requires RowsIntact(env, s, StreamRows(rows, s))
    requires IsCreation(event) <==> StreamRows(rows, s) == []
    ensures RevisionCheck(env, rows, s, event).None? <==>
              Continuous(Events(Decoded(env, StreamRows(rows, s))) + [event])
  {
    hide RecordOk, IndexMatches, StreamRows, RevisionOfRow, LastRevisionRow, Linked, Continuous;
    var before := Events(Decoded(env, StreamRows(rows, s)));
    LookupIsFold(env, s, StreamRows(rows, s));
    FoldIff(before + [event]);
    assert (before + [event])[..|before|] == before;
    hide Events, Decoded;
    if StreamRows(rows, s) == [] { assert before == []; }
  }

  // ---------------------------------------------------------------- the whole call

  lemma AppendUnfolds(env: Env, rows: seq<Row>, call: AppendCall, ordered: seq<Row>)
    requires ordered == StreamRows(rows, StreamId(env, call.taskId))
    requires GetHead(rows, StreamId(env, call.taskId))
          == Ok(if ordered == [] then None else Some(Head(|ordered|, ordered[|ordered| - 1].eventHash)))
    ensures var event := call.event;
            AppendRow(env, rows, call).Ok? <==>
              && EventOk(env, call.taskId, event) && !MissingServiceAuthority(event) && event.Obj?
              && StringField(event, "event_id").Some? && StringField(event, "timestamp").Some?
              && StringField(event, "event_type").Some?
              && HeadAgrees(call.expected, ordered) && |ordered| < MAX_SAFE_INTEGER
              && (IsCreation(event) <==> ordered == [])
              && RevisionCheck(env, rows, StreamId(env, call.taskId), event).None?
              && call.externalOk
              && forall r | r in rows ::
                   && r.index.eventId != StringField(event, "event_id").value
                   && !(r.streamId == StreamId(env, call.taskId) && r.sequence == |ordered| + 1)
                   && !(r.index.taskId == call.taskId && r.sequence == |ordered| + 1)
  {
    Bounded(env, call.taskId, call.event);
    hide EventOk, StreamRows, StreamId, MissingServiceAuthority, GetHead, RevisionCheck;
    var head := if ordered == [] then None else Some(Head(|ordered|, ordered[|ordered| - 1].eventHash));
    var previous := if ordered == [] then None else Some(ordered[|ordered| - 1].eventHash);
    PositionIff(call.expected, ordered, call.event);
    HashableIff(env, StreamId(env, call.taskId), |ordered| + 1, previous, call.event);
    hide HeadMatches, HeadAgrees, NextSequence, GenesisOk, IsCreation, HashRecord, WithinShapeBounds;
  }

  lemma PositionIff(expected: ExpectedHead, ordered: seq<Row>, event: Json)
    ensures var head := if ordered == [] then None else Some(Head(|ordered|, ordered[|ordered| - 1].eventHash));
            && (HeadMatches(expected, head) <==> HeadAgrees(expected, ordered))
            && NextSequence(head) == (if |ordered| < U64_MAX then |ordered| + 1 else U64_MAX)
            && (GenesisOk(NextSequence(head), event) <==> (IsCreation(event) <==> ordered == []))
  {
  }

  lemma HashableIff(env: Env, s: string, sequence: int, previous: Option<string>, event: Json)
    ensures HashRecord(env, s, sequence, previous, event).Some? <==>
            0 < sequence <= MAX_SAFE_INTEGER && WithinShapeBounds(event) && event.Obj?
  {
    hide WithinShapeBounds, Canonical, WithoutHashFields;
  }

  lemma AppendContent(env: Env, rows: seq<Row>, call: AppendCall, ordered: seq<Row>)
    requires ordered == StreamRows(rows, StreamId(env, call.taskId))
    requires GetHead(rows, StreamId(env, call.taskId))
          == Ok(if ordered == [] then None else Some(Head(|ordered|, ordered[|ordered| - 1].eventHash)))
    ensures AppendRow(env, rows, call).Ok? ==>
              var row := AppendRow(env, rows, call).value;
              && row.sequence == |ordered| + 1 && row.previous == (if ordered == [] then None else Some(ordered[|ordered| - 1].eventHash))
              && row.schemaVersion == SCHEMA_VERSION && row.hashProfile == HASH_PROFILE
              && row.streamId == StreamId(env, call.taskId) && row.eventText == env.encode(call.event)
              && row.index.taskId == call.taskId
              && IndexMatches(row.index.(taskId := OrEmpty(StringField(call.event, "task_id"))), call.event)
  {
    hide EventOk, StreamRows, StreamId, MissingServiceAuthority, GetHead, RevisionCheck, HashRecord, GenesisOk, HeadMatches,
         Insertable;
  }

  lemma StaleIff(env: Env, rows: seq<Row>, call: AppendCall, ordered: seq<Row>)
    requires ordered == StreamRows(rows, StreamId(env, call.taskId))
    requires GetHead(rows, StreamId(env, call.taskId))
          == Ok(if ordered == [] then None else Some(Head(|ordered|, ordered[|ordered| - 1].eventHash)))
    ensures AppendRow(env, rows, call) == Err(StaleHead) <==>
              && EventOk(env, call.taskId, call.event) && !MissingServiceAuthority(call.event)
              && !HeadAgrees(call.expected, ordered)
  {
    LookupError(env, rows, StreamId(env, call.taskId));
    hide EventOk, StreamRows, StreamId, MissingServiceAuthority, GetHead, LatestRevision, Advance, HashRecord, GenesisOk,
         StringField, Insertable, IndexFor;
  }

  lemma LookupError(env: Env, rows: seq<Row>, s: string)
    ensures LatestRevision(env, rows, s).Err? ==> LatestRevision(env, rows, s).error == InvalidEvent
  {
    hide StreamRows, StoredEventOk, LastRevisionRow;
  }

  lemma Bounded(env: Env, taskId: string, event: Json)
    ensures EventOk(env, taskId, event) ==> WithinShapeBounds(event)
  {
    hide WithinShapeBounds;
  }

  /**
   On a table of intact streams an append succeeds exactly when the event and its authority are valid and
   indexed fields present, the stream is where the caller expects it, a creation comes first and only first,
   the revisions stay continuous, the event ID is new, the other tables agree, and a safe position is left. It
   then inserts the next position behind the last record.
   */
  lemma AppendSucceedsIff(env: Env, rows: seq<Row>, call: AppendCall)
    requires Invariant(env, rows)
    ensures var event, ordered := call.event, StreamRows(rows, StreamId(env, call.taskId));
            && Decodes(env, ordered)
            && (AppendRow(env, rows, call).Ok? <==>
                  && EventOk(env, call.taskId, event) && !MissingServiceAuthority(event) && event.Obj?
                  && StringField(event, "event_id").Some? && StringField(event, "timestamp").Some?
                  && StringField(event, "event_type").Some?
                  && HeadAgrees(call.expected, ordered) && |ordered| < MAX_SAFE_INTEGER
                  && (IsCreation(event) <==> ordered == [])
                  && Continuous(Events(Decoded(env, ordered)) + [event])
                  && call.externalOk
                  && forall r | r in rows :: r.index.eventId != StringField(event, "event_id").value)
            && (AppendRow(env, rows, call).Ok? ==>
                  var row := AppendRow(env, rows, call).value;
                  && row.sequence == |ordered| + 1
                  && row.previous == (if ordered == [] then None else Some(ordered[|ordered| - 1].eventHash))
                  && row.schemaVersion == SCHEMA_VERSION && row.hashProfile == HASH_PROFILE
                  && row.streamId == StreamId(env, call.taskId) && row.eventText == env.encode(event)
                  && row.index.taskId == call.taskId
                  && IndexMatches(row.index.(taskId := OrEmpty(StringField(event, "task_id"))), event))
            && (AppendRow(env, rows, call) == Err(StaleHead) <==>
                  EventOk(env, call.taskId, event) && !MissingServiceAuthority(event) && !HeadAgrees(call.expected, ordered))
  {
    hide RecordOk, IndexMatches, AppendRow, RevisionCheck, StreamRows, GetHead, StreamId, Fold, EventOk, Continuous,
         MissingServiceAuthority, HeadAgrees, IsCreation, Linked, DecodeRow;
    var s := StreamId(env, call.taskId);
    var ordered := StreamRows(rows, s);
    assert RowsIntact(env, s, ordered);
    HeadOfIntact(env, rows, s);
    AppendUnfolds(env, rows, call, ordered);
    AppendContent(env, rows, call, ordered);
    StaleIff(env, rows, call, ordered);
    forall r | r in rows
      ensures !(r.streamId == s && r.sequence == |ordered| + 1)
      ensures !(r.index.taskId == call.taskId && r.sequence == |ordered| + 1)
    {
      if r.streamId == s || r.index.taskId == call.taskId { NextIsFree(env, rows, call.taskId, r); }
    }
    if IsCreation(call.event) <==> ordered == [] { CheckIff(env, rows, s, call.event); }
  }

  // ---------------------------------------------------------------- exports

  /** The authority covers the exported artifact and the transfer: one source, the same service, operation and
      purpose, and no more bytes than it allows. */
  predicate Covers(authority: Json, source: Json, size: int, event: Json) {
    && Get(authority, "source_artifact_id") == Some(source)
    && Get(event, "input_artifacts") == Some(Arr([source]))
    && Get2(event, "external_transfer", "data_refs") == Some(Arr([source]))
    && Get(authority, "service_id") == Get2(event, "external_transfer", "destination")
    && Get(authority, "purpose") == Get2(event, "external_transfer", "purpose")
    && Get(authority, "operation_id") == Get2(event, "details", "operation_id")
    && AsU64(Get2(event, "details", "size_bytes")) == Some(size)
    && AsU64(Get(authority, "max_size_bytes")).Some? && size <= AsU64(Get(authority, "max_size_bytes")).value
  }

  /** The links of an export event that carries an authority hold exactly when the authority covers it. */
  lemma LinksIff(event: Json, authority: Json)
    requires StringField(event, "event_type") == Some("artifact.exported")
    requires Get2(event, "details", "export_authority") == Some(authority)
    ensures ExportAuthorityLinksOk(event) <==> exists source, size :: Covers(authority, source, size, event)
  {
    if ExportAuthorityLinksOk(event) {
      var source := Get(authority, "source_artifact_id").value;
      var size := AsU64(Get2(event, "details", "size_bytes")).value;
      var inputs := GetOrNull(event, "input_artifacts");
      var refs := GetOrNull(GetOrNull(event, "external_transfer"), "data_refs");
      assert inputs == Arr([source]) && refs == Arr([source]);
      assert Covers(authority, source, size, event);
    }
  }

  /** No append records an export to a service that its own authority does not cover. */
  lemma ServiceExportsAreCovered(env: Env, rows: seq<Row>, call: AppendCall)
    requires AppendRow(env, rows, call).Ok? && StringField(call.event, "event_type") == Some("artifact.exported")
    requires var destination := AsStr(Get2(call.event, "external_transfer", "destination"));
             destination.Some? && "service://" <= destination.value
    ensures exists authority, source, size ::
              Get2(call.event, "details", "export_authority") == Some(authority) && Covers(authority, source, size, call.event)
  {
    ExportFacts(env, rows, call);
    var authority := Get2(call.event, "details", "export_authority").value;
    LinksIff(call.event, authority);
    var source, size :| Covers(authority, source, size, call.event);
  }

  lemma ExportFacts(env: Env, rows: seq<Row>, call: AppendCall)
    requires AppendRow(env, rows, call).Ok? && StringField(call.event, "event_type") == Some("artifact.exported")
    requires var destination := AsStr(Get2(call.event, "external_transfer", "destination"));
             destination.Some? && "service://" <= destination.value
    ensures ExportAuthorityLinksOk(call.event) && Get2(call.event, "details", "export_authority").Some?
  {
    hide EventContractOk, ExportAuthorityLinksOk, StreamRows, StreamId, GetHead, RevisionCheck, HashRecord, GenesisOk,
         HeadMatches, Insertable;
  }
}
