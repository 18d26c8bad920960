/**
 Every table reachable by append calls, in any interleaving of Tasks and with failures,
 holds only intact streams; the indexed revision lookup always equals the fold.
 */
module Reachable {
  import opened Values
  import opened CanonicalJson
  import opened Journal
  import opened Verify
  import opened VerifyStored

  predicate DistinctRowIds(rows: seq<Row>) {
    DistinctBy(rows, (r: Row) => r.index.eventId)
  }

  /** What every append call keeps. */
  ghost predicate Invariant(env: Env, rows: seq<Row>) {
    forall s: string ::
      && RowsIntact(env, s, StreamRows(rows, s))
      && DistinctRowIds(StreamRows(rows, s))
  }

  lemma {:induction false} StreamRowsMembers(rows: seq<Row>, s: string)
    ensures forall r | r in StreamRows(rows, s) :: r in rows && r.streamId == s
  {
    if rows != [] {
      var front := rows[..|rows| - 1];
      StreamRowsMembers(front, s);
      forall r | r in StreamRows(rows, s) ensures r in rows && r.streamId == s {
        assert r in multiset(StreamRows(rows, s));
        assert r in StreamRows(front, s) || r == rows[|rows| - 1];
      }
    }
  }

  lemma StreamRowsSnoc(rows: seq<Row>, row: Row, s: string)
    requires row.streamId == s ==>
               var q := StreamRows(rows, s); q == [] || q[|q| - 1].sequence <= row.sequence
    ensures StreamRows(rows + [row], s)
         == if row.streamId == s then StreamRows(rows, s) + [row] else StreamRows(rows, s)
  {
    assert (rows + [row])[..|rows|] == rows;
  }

  // ---------------------------------------------------------------- the lookup equals the fold

  lemma AdvanceKeeps(latest: Option<Revision>, event: Json)
    requires !IsRevisionType(OrEmpty(StringField(event, "event_type")))
    ensures Advance(latest, event) == Ok(latest)
  {}

  /** A revision event determines the revision after it, whatever came before. */
  lemma AdvanceDetermined(env: Env, latest: Option<Revision>, event: Json, row: Row)
    requires IsRevisionType(row.index.eventType) && row.index.eventType == OrEmpty(StringField(event, "event_type"))
    requires Advance(latest, event).Ok? && env.parse(row.eventText) == Some(event) && StoredEventOk(env, event)
    ensures RevisionOfRow(env, Some(row)) == Ok(Advance(latest, event).value)
  {
    hide StoredEventOk;
  }

  /** The last row of creation or transition type carries the whole fold. */
  lemma {:induction false} LookupIsFold(env: Env, s: string, ordered: seq<Row>)
    requires RowsIntact(env, s, ordered)
    ensures Decodes(env, ordered) && Fold(Events(Decoded(env, ordered))).Ok?
    ensures RevisionOfRow(env, LastRevisionRow(ordered)) == Ok(Fold(Events(Decoded(env, ordered))).value)
  {
    hide RecordOk, IndexMatches, Advance, RevisionOfRow;
    if ordered == [] {
      assert RevisionOfRow(env, None) == Ok(None) by { EmptyLookup(env); }
    } else {
      var k := |ordered| - 1;
      var last := ordered[k];
      assert ordered[..k + 1] == ordered;
      RowsIntactPrefix(env, s, ordered, k);
      RowsIntactSnoc(env, s, ordered, k);
      var latest := RowState(env, ordered[..k]).latest;
      var record := DecodeRow(env, last).value;
      assert Linked(env, s, Decoded(env, ordered), k);
      RowFacts(env, s, last, k + 1, HashBefore(Decoded(env, ordered), k));
      if IsRevisionType(last.index.eventType) {
        AdvanceDetermined(env, latest, record.event, last);
      } else {
        LookupIsFold(env, s, ordered[..k]);
        AdvanceKeeps(latest, record.event);
      }
    }
  }

  lemma EmptyLookup(env: Env)
    ensures RevisionOfRow(env, None) == Ok(None)
  {}

  lemma RowFacts(env: Env, s: string, row: Row, expected: nat, previous: Option<string>)
    requires DecodeRow(env, row).Some?
    requires RecordOk(env, s, DecodeRow(env, row).value, expected, previous)
    requires IndexMatches(row.index, DecodeRow(env, row).value.event)
    ensures var event := DecodeRow(env, row).value.event;
            && env.parse(row.eventText) == Some(event)
            && StoredEventOk(env, event)
            && row.index.eventType == OrEmpty(StringField(event, "event_type"))
            && row.index.eventId == OrEmpty(StringField(event, "event_id"))
            && row.eventHash == DecodeRow(env, row).value.eventHash
            && row.sequence == expected
            && ValidHash(row.eventHash)
            && row.streamId == s
  {
    hide EventContractOk, ExportAuthorityLinksOk, GenesisOk, ValidHash, HashRecord, StreamId;
  }

  // ---------------------------------------------------------------- one append keeps the invariant

  lemma HashIsValid(env: Env, s: string, sequence: int, previous: Option<string>, event: Json)
    requires Sound(env)
    ensures HashRecord(env, s, sequence, previous, event).Some? ==>
              ValidHash(HashRecord(env, s, sequence, previous, event).value)
  {
    if HashRecord(env, s, sequence, previous, event).Some? {
      var view := RecordView(s, sequence, previous, Canonical(WithoutHashFields(event)));
      assert HexDigest(env.digest(view));
      var h := "sha256:" + env.digest(view);
      assert h[..7] == "sha256:";
    }
  }

  /** The head that append reads is the last record of the stream. */
  lemma HeadOfIntact(env: Env, rows: seq<Row>, s: string)
    requires RowsIntact(env, s, StreamRows(rows, s))
    ensures var ordered := StreamRows(rows, s);
            GetHead(rows, s) == Ok(if ordered == [] then None
                                   else Some(Head(|ordered|, ordered[|ordered| - 1].eventHash)))
    ensures var ordered := StreamRows(rows, s);
            HashBefore(Decoded(env, ordered), |ordered|)
            == if ordered == [] then None else Some(ordered[|ordered| - 1].eventHash)
  {
    hide RecordOk, IndexMatches, ValidHash, StreamRows;
    var ordered := StreamRows(rows, s);
    if ordered != [] {
      var k := |ordered| - 1;
      assert Linked(env, s, Decoded(env, ordered), k);
      RowFacts(env, s, ordered[k], k + 1, HashBefore(Decoded(env, ordered), k));
    }
  }

  /** The row as inserted, whether or not its text reads back. */
  lemma InsertedRow(env: Env, rows: seq<Row>, call: AppendCall)
    requires AppendRow(env, rows, call).Ok?
    ensures var row := AppendRow(env, rows, call).value;
            && row.sequence >= 1 && row.eventText == env.encode(call.event)
            && row.streamId == StreamId(env, call.taskId)
            && HashRecord(env, row.streamId, row.sequence, row.previous, call.event) == Some(row.eventHash)
            && (Reparses(env, call.event) ==>
                  DecodeRow(env, row)
                  == Some(Record(row.schemaVersion, row.hashProfile, row.streamId, row.sequence, row.previous,
                                 call.event, row.eventHash)))
  {
    hide ExportAuthorityLinksOk, GenesisOk, StreamRows, Insertable, MissingServiceAuthority, TransitionIncrements,
         WithinShapeBounds, RevisionCheck, ValidHash, StreamId, HashRecord, IndexFor;
  }

  /** What a successful append has established about the row it inserts. */
  lemma AppendedRow(env: Env, rows: seq<Row>, call: AppendCall)
    requires Sound(env) && AppendRow(env, rows, call).Ok? && Reparses(env, call.event)
    ensures var row, s := AppendRow(env, rows, call).value, StreamId(env, call.taskId);
            var head := GetHead(rows, s);
            && head.Ok? && HeadMatches(call.expected, head.value)
            && row.streamId == s && Insertable(rows, row)
            && row.sequence == NextSequence(head.value) != U64_MAX
            && row.previous == (if head.value.Some? then Some(head.value.value.eventHash) else None)
            && DecodeRow(env, row).Some?
            && DecodeRow(env, row).value.event == call.event
            && RecordOk(env, s, DecodeRow(env, row).value, row.sequence,
                        if head.value.Some? then Some(head.value.value.eventHash) else None)
            && IndexMatches(row.index, call.event)
            && RevisionCheck(env, rows, s, call.event).None?
            && GenesisOk(row.sequence, call.event)
  {
    hide ExportAuthorityLinksOk, GenesisOk, StreamRows, Insertable, MissingServiceAuthority, TransitionIncrements,
         WithinShapeBounds, RevisionCheck, ValidHash, StreamId, WithoutHashFields;
    var s := StreamId(env, call.taskId);
    var head := GetHead(rows, s);
    var previous := if head.value.Some? then Some(head.value.value.eventHash) else None;
    HashIsValid(env, s, NextSequence(head.value), previous, call.event);
  }

  lemma {:induction false} AdvanceAfterCheck(env: Env, rows: seq<Row>, s: string, event: Json, sequence: int)
    requires RowsIntact(env, s, StreamRows(rows, s))
    requires RevisionCheck(env, rows, s, event).None?
    requires sequence == |StreamRows(rows, s)| + 1 && GenesisOk(sequence, event)
    ensures Advance(Fold(Events(Decoded(env, StreamRows(rows, s)))).value, event).Ok?
  {
    hide RecordOk, IndexMatches, StreamRows, RevisionOfRow, LastRevisionRow;
    LookupIsFold(env, s, StreamRows(rows, s));
    if StreamRows(rows, s) == [] {
      assert Events(Decoded(env, StreamRows(rows, s))) == [];
    }
  }

  /** The stream appended to grows by exactly the new row, numbered next. */
  lemma AppendExtends(env: Env, rows: seq<Row>, call: AppendCall)
    requires Sound(env) && AppendRow(env, rows, call).Ok? && Reparses(env, call.event)
    requires RowsIntact(env, StreamId(env, call.taskId), StreamRows(rows, StreamId(env, call.taskId)))
    ensures var row, s := AppendRow(env, rows, call).value, StreamId(env, call.taskId);
            && StreamRows(rows + [row], s) == StreamRows(rows, s) + [row]
            && row.sequence == |StreamRows(rows, s)| + 1
  {
    hide RecordOk, IndexMatches, AppendRow, Advance, RevisionCheck, GenesisOk, StreamRows, GetHead, StreamId, DecodeRow;
    var row, s := AppendRow(env, rows, call).value, StreamId(env, call.taskId);
    AppendedRow(env, rows, call);
    HeadOfIntact(env, rows, s);
    RowSequences(env, s, StreamRows(rows, s));
    StreamRowsSnoc(rows, row, s);
  }

  /** The appended row continues its stream. */
  lemma AppendFits(env: Env, rows: seq<Row>, call: AppendCall)
    requires Sound(env) && AppendRow(env, rows, call).Ok? && Reparses(env, call.event)
    requires RowsIntact(env, StreamId(env, call.taskId), StreamRows(rows, StreamId(env, call.taskId)))
    ensures var row, s := AppendRow(env, rows, call).value, StreamId(env, call.taskId);
            var ordered := StreamRows(rows, s);
            RowFits(env, s, ordered + [row], |ordered|, RowState(env, ordered))
  {
    hide RecordOk, IndexMatches, AppendRow, Advance, RevisionCheck, GenesisOk, StreamRows, GetHead, StreamId,
         Insertable, HeadMatches, Fold, Reparses, DecodeRow, ValidHash;
    var row, s := AppendRow(env, rows, call).value, StreamId(env, call.taskId);
    AppendedRow(env, rows, call);
    HeadOfIntact(env, rows, s);
    AppendExtends(env, rows, call);
    AdvanceAfterCheck(env, rows, s, call.event, row.sequence);
  }

  lemma AppendKeepsOwn(env: Env, rows: seq<Row>, call: AppendCall)
    requires Sound(env) && AppendRow(env, rows, call).Ok? && Reparses(env, call.event)
    requires RowsIntact(env, StreamId(env, call.taskId), StreamRows(rows, StreamId(env, call.taskId)))
    ensures RowsIntact(env, StreamId(env, call.taskId),
                       StreamRows(rows + [AppendRow(env, rows, call).value], StreamId(env, call.taskId)))
  {
    hide AppendRow, StreamRows, StreamId, Reparses, RowFits, RowsIntact, RowState;
    var row, s := AppendRow(env, rows, call).value, StreamId(env, call.taskId);
    var ordered := StreamRows(rows, s);
    AppendFits(env, rows, call);
    AppendExtends(env, rows, call);
    var longer := ordered + [row];
    assert longer[..|ordered|] == ordered && longer[..|ordered| + 1] == longer;
    RowsIntactSnoc(env, s, longer, |ordered|);
  }

  lemma AppendKeepsStream(env: Env, rows: seq<Row>, call: AppendCall, s: string)
    requires Sound(env) && Invariant(env, rows) && AppendRow(env, rows, call).Ok? && Reparses(env, call.event)
    ensures var after := rows + [AppendRow(env, rows, call).value];
            RowsIntact(env, s, StreamRows(after, s)) && DistinctRowIds(StreamRows(after, s))
  {
    hide RowsIntact, RecordOk, IndexMatches, AppendRow, RevisionCheck, GenesisOk, StreamRows, GetHead, StreamId,
         DecodeRow, HeadMatches;
    var row := AppendRow(env, rows, call).value;
    assert RowsIntact(env, s, StreamRows(rows, s)) && DistinctRowIds(StreamRows(rows, s));
    AppendedRow(env, rows, call);
    if row.streamId == s {
      AppendKeepsOwn(env, rows, call);
      AppendExtends(env, rows, call);
      StreamRowsMembers(rows, s);
    } else {
      StreamRowsSnoc(rows, row, s);
    }
  }

  lemma StepKeeps(env: Env, rows: seq<Row>, call: AppendCall)
    requires Sound(env) && Invariant(env, rows)
    requires AppendRow(env, rows, call).Ok? ==> Reparses(env, call.event)
    ensures Invariant(env, Step(env, rows, call))
  {
    hide AppendRow, RowsIntact, DistinctRowIds;
    if AppendRow(env, rows, call).Ok? {
      forall s: string
        ensures var after := rows + [AppendRow(env, rows, call).value];
                RowsIntact(env, s, StreamRows(after, s)) && DistinctRowIds(StreamRows(after, s))
      {
        AppendKeepsStream(env, rows, call, s);
      }
    }
  }

  lemma {:induction false} RunKeeps(env: Env, calls: seq<AppendCall>)
    requires Sound(env) && Readable(env, calls)
    ensures Invariant(env, Run(env, calls))
  {
    hide AppendRow, Step, Invariant;
    if calls == [] {
      assert Invariant(env, []) by { EmptyInvariant(env); }
    } else {
      ReadablePrefix(env, calls, |calls| - 1);
      RunKeeps(env, calls[..|calls| - 1]);
      StepKeeps(env, Run(env, calls[..|calls| - 1]), calls[|calls| - 1]);
    }
  }

  lemma ReadablePrefix(env: Env, calls: seq<AppendCall>, k: nat)
    requires Readable(env, calls) && k <= |calls|
    ensures Readable(env, calls[..k])
  {
    hide AppendRow, Run, Reparses;
    forall i | 0 <= i < k && AppendRow(env, Run(env, calls[..k][..i]), calls[..k][i]).Ok?
      ensures Reparses(env, calls[..k][i].event)
    {
      assert calls[..k][..i] == calls[..i];
    }
  }

  lemma ReadableAt(env: Env, calls: seq<AppendCall>, i: nat)
    requires Readable(env, calls) && i < |calls|
    ensures AppendRow(env, Run(env, calls[..i]), calls[i]).Ok? ==> Reparses(env, calls[i].event)
  {
    hide AppendRow, Run, Reparses;
  }

  lemma EmptyInvariant(env: Env)
    ensures Invariant(env, [])
  {
    forall s: string ensures RowsIntact(env, s, StreamRows([], s)) && DistinctRowIds(StreamRows([], s)) {}
  }

  // ---------------------------------------------------------------- main theorem

  lemma RowEventId(env: Env, s: string, ordered: seq<Row>, i: nat)
    requires RowsIntact(env, s, ordered) && i < |ordered|
    ensures ordered[i].index.eventId == OrEmpty(StringField(Decoded(env, ordered)[i].event, "event_id"))
  {
    hide RecordOk, IndexMatches, StoredEventOk, StringField, ValidHash;
    assert Linked(env, s, Decoded(env, ordered), i);
    RowFacts(env, s, ordered[i], i + 1, HashBefore(Decoded(env, ordered), i));
  }

  lemma IntactRecords(env: Env, s: string, ordered: seq<Row>)
    requires RowsIntact(env, s, ordered) && DistinctRowIds(ordered)
    ensures Intact(env, s, Decoded(env, ordered))
  {
    hide Linked, IndexMatches, Fold, StringField, DecodeRow;
    forall i | 0 <= i < |ordered|
      ensures ordered[i].index.eventId == OrEmpty(StringField(Decoded(env, ordered)[i].event, "event_id"))
    {
      RowEventId(env, s, ordered, i);
    }
  }

  /**
   After any run of append calls, every nonempty stream is accepted by the stored verifier and,
   once read out, by the detached verifier, both at the last sequence and hash; and the indexed
   lookup returns the fold of the whole history.
   */
  lemma ReachableStreamsVerify(env: Env, calls: seq<AppendCall>, s: string, verifiedAt: string)
    requires Sound(env) && Readable(env, calls) && ValidStreamId(s) && env.timestampOk(verifiedAt)
    ensures var table := Run(env, calls);
            var ordered := StreamRows(table, s);
            && Decodes(env, ordered)
            && Fold(Events(Decoded(env, ordered))).Ok?
            && LatestRevision(env, table, s) == Ok(Fold(Events(Decoded(env, ordered))).value)
            && (ordered != [] ==>
                  var head := ordered[|ordered| - 1].eventHash;
                  && StreamOutcome(env, table, s, None, None, verifiedAt) == Valid(|ordered|, head)
                  && RecordsOutcome(env, Decoded(env, ordered), s, None, verifiedAt) == Valid(|ordered|, head))
  {
    hide RecordOk, IndexMatches, Fold, Run, StreamRows, RevisionOfRow, RowScan, RecordScan, ValidStreamId;
    var table := Run(env, calls);
    var ordered := StreamRows(table, s);
    RunKeeps(env, calls);
    assert RowsIntact(env, s, ordered) && DistinctRowIds(ordered);
    LookupIsFold(env, s, ordered);
    if ordered != [] {
      IntactRecords(env, s, ordered);
      IntactAccepted(env, s, Decoded(env, ordered), None, verifiedAt);
      PrefixAcceptedWhole(env, table, s, verifiedAt);
      DecodedHash(env, ordered);
    }
  }

  lemma DecodedHash(env: Env, ordered: seq<Row>)
    requires Decodes(env, ordered) && ordered != []
    ensures Decoded(env, ordered)[|ordered| - 1].eventHash == ordered[|ordered| - 1].eventHash
  {}

  lemma PrefixAcceptedWhole(env: Env, table: seq<Row>, s: string, verifiedAt: string)
    requires RequestOk(env, s, verifiedAt, None)
    requires RowsIntact(env, s, StreamRows(table, s)) && StreamRows(table, s) != []
    ensures var rows := StreamRows(table, s);
            StreamOutcome(env, table, s, None, None, verifiedAt) == Valid(|rows|, rows[|rows| - 1].eventHash)
  {
    hide RequestOk, RecordOk, RowStep, IndexMatches, Fold, StreamRows;
    var rows := StreamRows(table, s);
    ThroughAll(rows);
    assert rows[..0] == [];
    EmptyState(env, s);
    RowScanIff(env, s, rows, None, 0);
  }

  lemma EmptyState(env: Env, s: string)
    ensures RowsIntact(env, s, []) && RowState(env, []) == START
  {}

  // ---------------------------------------------------------------- compare-and-swap

  lemma HeadGrows(env: Env, rows: seq<Row>, call: AppendCall, s: string)
    requires Sound(env) && Invariant(env, rows)
    requires AppendRow(env, rows, call).Ok? ==> Reparses(env, call.event)
    ensures |StreamRows(rows, s)| <= |StreamRows(Step(env, rows, call), s)|
    ensures AppendRow(env, rows, call).Ok? && s == StreamId(env, call.taskId) ==>
              |StreamRows(Step(env, rows, call), s)| == |StreamRows(rows, s)| + 1
  {
    hide RowsIntact, RecordOk, IndexMatches, AppendRow, StreamRows, GetHead, RevisionCheck, GenesisOk, StreamId,
         DecodeRow, HeadMatches, Insertable;
    if AppendRow(env, rows, call).Ok? {
      AppendedRow(env, rows, call);
      if StreamId(env, call.taskId) == s {
        assert RowsIntact(env, s, StreamRows(rows, s));
        AppendExtends(env, rows, call);
      } else {
        StreamRowsSnoc(rows, AppendRow(env, rows, call).value, s);
      }
    }
  }

  lemma {:induction false} LengthsGrow(env: Env, calls: seq<AppendCall>, i: nat, s: string)
    requires Sound(env) && Readable(env, calls) && i <= |calls|
    ensures |StreamRows(Run(env, calls[..i]), s)| <= |StreamRows(Run(env, calls), s)|
    decreases |calls|
  {
    hide AppendRow, StreamRows, Step, Invariant;
    if i == |calls| {
      assert calls[..i] == calls;
    } else {
      var front := calls[..|calls| - 1];
      assert front[..i] == calls[..i];
      ReadablePrefix(env, calls, |front|);
      LengthsGrow(env, front, i, s);
      RunKeeps(env, front);
      HeadGrows(env, Run(env, front), calls[|calls| - 1], s);
    }
  }

  /** An expected head, exact or empty, is consumed by the first append that succeeds with it. */
  lemma ExpectedHeadConsumed(env: Env, calls: seq<AppendCall>, i: nat, j: nat)
    requires Sound(env) && Readable(env, calls) && i < j < |calls|
    requires calls[i].taskId == calls[j].taskId
    requires calls[i].expected == calls[j].expected && !calls[i].expected.AnyHead?
    requires AppendRow(env, Run(env, calls[..i]), calls[i]).Ok?
    ensures AppendRow(env, Run(env, calls[..j]), calls[j]).Err?
  {
    hide AppendRow, StreamRows, Step, RowsIntact, RevisionCheck, GenesisOk, StreamId, GetHead, RecordOk, IndexMatches,
         Readable, Reparses, DecodeRow, Insertable;
    ReadableAt(env, calls, i);
    ReadableAt(env, calls, j);
    var s := StreamId(env, calls[i].taskId);
    var before, later := Run(env, calls[..i]), Run(env, calls[..j]);
    ReadablePrefix(env, calls, i);
    ReadablePrefix(env, calls, j);
    RunKeeps(env, calls[..i]);
    RunKeeps(env, calls[..j]);
    AppendedRow(env, before, calls[i]);
    HeadOfIntact(env, before, s);
    HeadOfIntact(env, later, s);
    assert calls[..i + 1][..i] == calls[..i];
    HeadGrows(env, before, calls[i], s);
    assert calls[..j][..i + 1] == calls[..i + 1];
    LengthsGrow(env, calls[..j], i + 1, s);
    if AppendRow(env, later, calls[j]).Ok? {
      AppendedRow(env, later, calls[j]);
      assert false;
    }
  }

  // ---------------------------------------------------------------- text that reads back differently

  lemma InsertedIn(rows: seq<Row>, row: Row)
    ensures row in StreamRows(rows + [row], row.streamId)
  {
    assert (rows + [row])[..|rows|] == rows;
    assert row in multiset(StreamRows(rows + [row], row.streamId));
  }

  /** What is hashed for an event in the place of a row. */
  function ViewAt(row: Row, event: Json): HashView
    requires event.Obj? && row.sequence >= 0
  {
    RecordView(row.streamId, row.sequence, row.previous, Canonical(WithoutHashFields(event)))
  }

  lemma HashIsView(env: Env, row: Row, event: Json, hash: string)
    requires HashRecord(env, row.streamId, row.sequence, row.previous, event) == Some("sha256:" + hash)
    ensures event.Obj? && row.sequence >= 0 && env.digest(ViewAt(row, event)) == hash
  {
    hide Canonical, WithoutHashFields, WithinShapeBounds;
    var d := env.digest(ViewAt(row, event));
    assert ("sha256:" + d)[7..] == d && ("sha256:" + hash)[7..] == hash;
  }

  lemma HashText(env: Env, row: Row, event: Json)
    requires HashRecord(env, row.streamId, row.sequence, row.previous, event).Some?
    ensures event.Obj? && row.sequence >= 0
    ensures HashRecord(env, row.streamId, row.sequence, row.previous, event)
         == Some("sha256:" + env.digest(ViewAt(row, event)))
  {
    hide Canonical, WithoutHashFields, WithinShapeBounds;
  }

  /** Reading back is needed: where the stored text of an appended event reads back as different
      content, its stream is intact only if the digest collides on the two contents. */
  lemma DriftBreaks(env: Env, rows: seq<Row>, call: AppendCall, read: Json)
    requires AppendRow(env, rows, call).Ok? && env.parse(env.encode(call.event)) == Some(read)
    requires Canonical(read) != Canonical(call.event)
    ensures var row := AppendRow(env, rows, call).value;
            RowsIntact(env, row.streamId, StreamRows(rows + [row], row.streamId)) ==>
              && call.event.Obj? && read.Obj? && row.sequence >= 0
              && ViewAt(row, read) != ViewAt(row, call.event)
              && env.digest(ViewAt(row, read)) == env.digest(ViewAt(row, call.event))
  {
    hide AppendRow, StreamRows, Canonical, IndexMatches, Fold, HashRecord, StoredEventOk, WithoutHashFields, EventOk;
    var row := AppendRow(env, rows, call).value;
    var after := StreamRows(rows + [row], row.streamId);
    InsertedRow(env, rows, call);
    InsertedIn(rows, row);
    HashText(env, row, call.event);
    if RowsIntact(env, row.streamId, after) {
      var i :| 0 <= i < |after| && after[i] == row;
      assert Linked(env, row.streamId, Decoded(env, after), i);
      ReadHash(env, row, read, i + 1, HashBefore(Decoded(env, after), i));
      HashIsView(env, row, read, env.digest(ViewAt(row, call.event)));
      NoHashFields(env, read);
      AppendedEvent(env, rows, call);
      NoHashFields(env, call.event);
    }
  }

  lemma AppendedEvent(env: Env, rows: seq<Row>, call: AppendCall)
    requires AppendRow(env, rows, call).Ok?
    ensures StoredEventOk(env, call.event)
  {
    hide ExportAuthorityLinksOk, StreamRows, TransitionIncrements, WithinShapeBounds, RevisionCheck, GetHead, Insertable;
  }

  lemma NoHashFields(env: Env, event: Json)
    requires StoredEventOk(env, event)
    ensures event.Obj? && WithoutHashFields(event) == event
  {
    hide ExportAuthorityLinksOk, TransitionIncrements, WithinShapeBounds;
    assert EventContractOk(env, StringField(event, "task_id").value, event, true);
    assert WithoutHashFields(event).fields == event.fields;
  }

  lemma ReadHash(env: Env, row: Row, read: Json, expected: nat, previous: Option<string>)
    requires DecodeRow(env, row).Some? && env.parse(row.eventText) == Some(read)
    requires RecordOk(env, row.streamId, DecodeRow(env, row).value, expected, previous)
    ensures HashRecord(env, row.streamId, row.sequence, row.previous, read) == Some(row.eventHash)
    ensures StoredEventOk(env, read)
  {
    hide HashRecord, StoredEventOk, ValidHash, StreamId;
  }

  // ---------------------------------------------------------------- the stored table

  /** The journal table; a rejected call rolls back to the table it found. */
  class JournalTable {
    const env: Env
    var rows: seq<Row>

    constructor (env: Env)
      ensures this.env == env && rows == []
    {
      this.env := env;
      rows := [];
    }

    method Append(call: AppendCall) returns (r: Result<Record, JournalError>)
      requires Sound(env) && Invariant(env, rows)
      modifies this`rows
      ensures r.Err? || Reparses(env, call.event) ==> Invariant(env, rows)
      ensures r.Ok? <==> AppendRow(env, old(rows), call).Ok?
      ensures r.Ok? ==> rows == old(rows) + [AppendRow(env, old(rows), call).value]
                        && r.value.event == call.event
                        && (Reparses(env, call.event) ==> Some(r.value) == DecodeRow(env, rows[|rows| - 1]))
      ensures r.Err? ==> rows == old(rows) && r.error == AppendRow(env, old(rows), call).error
    {
      hide AppendRow, Invariant, DecodeRow;
      var inserted := AppendRow(env, rows, call);
      if inserted.Err? { return Err(inserted.error); }
      if Reparses(env, call.event) {
        StepKeeps(env, rows, call);
      }
      InsertedRow(env, rows, call);
      rows := rows + [inserted.value];
      var row := inserted.value;
      r := Ok(Record(row.schemaVersion, row.hashProfile, row.streamId, row.sequence, row.previous,
                     call.event, row.eventHash));
    }
  }
}
