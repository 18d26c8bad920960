/** The verifier of one stored stream, which also compares every index column. */
module VerifyStored {
  import opened Values
  import opened Journal
  import opened Revisions
  import opened Verify

  /** One iteration of the stored verifier over the rows in sequence order. */
  function RowStep(env: Env, row: Row, streamId: string, i: nat, st: Progress): Result<Progress, Outcome> {
    var decoded := DecodeRow(env, row);
    if decoded.None? then Err(Invalid(SchemaInvalid, None, st.previous))
    else
      var record := decoded.value;
      var at := Positive(record.sequence);
      var checked := VerifyOne(env, record, streamId, i + 1, st.previous, false);
      if checked.Err? then Err(checked.error)
      else if !IndexMatches(row.index, record.event) then Err(Invalid(SchemaInvalid, at, Some(checked.value)))
      else
        var latest := Advance(st.latest, record.event);
        if latest.Err? then Err(Invalid(SchemaInvalid, at, st.previous))
        else Ok(Progress(Some(checked.value), latest.value, st.seen))
  }

  function RowScan(env: Env, rows: seq<Row>, streamId: string, checkpoint: Option<Checkpoint>,
                   i: nat, st: Progress): Outcome
    requires i <= |rows|
    decreases |rows| - i
  {
    if i == |rows| then Finish(i, st.previous, checkpoint)
    else
      var next := RowStep(env, rows[i], streamId, i, st);
      if next.Err? then next.error else RowScan(env, rows, streamId, checkpoint, i + 1, next.value)
  }

  /** `sequence<=?2`, or everything when no bound is given. */
  function Through(rows: seq<Row>, through: Option<nat>): seq<Row> {
    if rows == [] then []
    else
      var rest := Through(rows[..|rows| - 1], through);
      var last := rows[|rows| - 1];
      if through.None? || last.sequence <= through.value then rest + [last] else rest
  }

  function CompletePrefix(result: Outcome, through: Option<nat>): Outcome {
    if result.Valid? && through.Some? && result.toSequence != through.value
    then Invalid(SequenceGap, Some(result.toSequence + 1), Some(result.head))
    else result
  }

  function StreamOutcome(env: Env, table: seq<Row>, streamId: string, through: Option<nat>,
                         checkpoint: Option<Checkpoint>, verifiedAt: string): Outcome
  {
    if !RequestOk(env, streamId, verifiedAt, checkpoint) || (through.Some? && through.value > I64_MAX)
    then Rejected
    else
      var rows := Through(StreamRows(table, streamId), through);
      CompletePrefix(RowScan(env, rows, streamId, checkpoint, 0, START), through)
  }

  method VerifyStream(env: Env, table: seq<Row>, streamId: string, through: Option<nat>,
                      checkpoint: Option<Checkpoint>, verifiedAt: string) returns (r: Outcome)
    ensures r == StreamOutcome(env, table, streamId, through, checkpoint, verifiedAt)
  {
    hide VerifyOne, DecodeRow, IndexMatches, Advance, RequestOk, Through, StreamRows;
    if !RequestOk(env, streamId, verifiedAt, checkpoint) || (through.Some? && through.value > I64_MAX) {
      return Rejected;
    }
    var rows := Through(StreamRows(table, streamId), through);
    var previous: Option<string>, latest: Option<Revision> := None, None;
    var i := 0;
    while i < |rows|
      invariant i <= |rows|
      invariant RowScan(env, rows, streamId, checkpoint, i, Progress(previous, latest, {}))
             == RowScan(env, rows, streamId, checkpoint, 0, START)
    {
      var decoded := DecodeRow(env, rows[i]);
      if decoded.None? { return CompletePrefix(Invalid(SchemaInvalid, None, previous), through); }
      var record := decoded.value;
      var checked := VerifyOne(env, record, streamId, i + 1, previous, false);
      if checked.Err? { return CompletePrefix(checked.error, through); }
      if !IndexMatches(rows[i].index, record.event) {
        return CompletePrefix(Invalid(SchemaInvalid, Positive(record.sequence), Some(checked.value)), through);
      }
      var advanced := Advance(latest, record.event);
      if advanced.Err? {
        return CompletePrefix(Invalid(SchemaInvalid, Positive(record.sequence), previous), through);
      }
      previous, latest, i := Some(checked.value), advanced.value, i + 1;
    }
    r := CompletePrefix(Finish(i, previous, checkpoint), through);
  }

  // ---------------------------------------------------------------- what is accepted

  predicate Decodes(env: Env, rows: seq<Row>) {
    forall i | 0 <= i < |rows| :: DecodeRow(env, rows[i]).Some?
  }

  function Decoded(env: Env, rows: seq<Row>): (r: seq<Record>)
    requires Decodes(env, rows)
    ensures |r| == |rows|
    ensures forall i | 0 <= i < |rows| :: r[i] == DecodeRow(env, rows[i]).value
  {
    if rows == [] then [] else Decoded(env, rows[..|rows| - 1]) + [DecodeRow(env, rows[|rows| - 1]).value]
  }

  /** Every row decodes to a linked record, its columns agree with it, and the revisions are continuous. */
  predicate RowsIntact(env: Env, streamId: string, rows: seq<Row>) {
    && Decodes(env, rows)
    && (forall i | 0 <= i < |rows| ::
          && Linked(env, streamId, Decoded(env, rows), i)
          && IndexMatches(rows[i].index, Decoded(env, rows)[i].event))
    && Fold(Events(Decoded(env, rows))).Ok?
  }

  function RowState(env: Env, rows: seq<Row>): Progress
    requires Decodes(env, rows) && Fold(Events(Decoded(env, rows))).Ok?
  {
    var records := Decoded(env, rows);
    Progress(HashBefore(records, |records|), Fold(Events(records)).value, {})
  }

  lemma DecodedPrefix(env: Env, rows: seq<Row>, k: nat)
    requires k <= |rows| && Decodes(env, rows)
    ensures Decodes(env, rows[..k]) && Decoded(env, rows[..k]) == Decoded(env, rows)[..k]
  {}

  lemma RowsIntactPrefix(env: Env, streamId: string, rows: seq<Row>, k: nat)
    requires k <= |rows| && RowsIntact(env, streamId, rows)
    ensures RowsIntact(env, streamId, rows[..k])
  {
    hide RecordOk, IndexMatches, DecodeRow, Fold;
    DecodedPrefix(env, rows, k);
    hide Decoded, Decodes;
    var all, some := Decoded(env, rows), Decoded(env, rows[..k]);
    forall i | 0 <= i < k
      ensures Linked(env, streamId, some, i) && IndexMatches(rows[..k][i].index, some[i].event)
    {
      assert Linked(env, streamId, all, i);
    }
    FoldPrefix(Events(all), k);
    assert Events(some) == Events(all)[..k];
  }

  /** A row that continues the rows read so far. */
  predicate RowFits(env: Env, streamId: string, rows: seq<Row>, k: nat, st: Progress)
    requires k < |rows|
  {
    && DecodeRow(env, rows[k]).Some?
    && var record := DecodeRow(env, rows[k]).value;
       && RecordOk(env, streamId, record, k + 1, st.previous)
       && IndexMatches(rows[k].index, record.event)
       && Advance(st.latest, record.event).Ok?
  }

  lemma RowStepIff(env: Env, streamId: string, rows: seq<Row>, k: nat, st: Progress)
    requires k < |rows|
    ensures RowStep(env, rows[k], streamId, k, st).Ok? <==> RowFits(env, streamId, rows, k, st)
    ensures RowStep(env, rows[k], streamId, k, st).Err? ==> RowStep(env, rows[k], streamId, k, st).error.Invalid?
    ensures RowFits(env, streamId, rows, k, st) ==>
              RowStep(env, rows[k], streamId, k, st)
              == Ok(Progress(Some(DecodeRow(env, rows[k]).value.eventHash),
                             Advance(st.latest, DecodeRow(env, rows[k]).value.event).value, st.seen))
  {
    hide RecordOk, VerifyOne, Advance, IndexMatches;
    if DecodeRow(env, rows[k]).Some? {
      VerifyOneIff(env, DecodeRow(env, rows[k]).value, streamId, k + 1, st.previous, false);
    }
  }

  /** Appending one fitting row to intact rows keeps them intact, and nothing else does. */
  lemma RowsIntactSnoc(env: Env, streamId: string, rows: seq<Row>, k: nat)
    requires k < |rows| && RowsIntact(env, streamId, rows[..k])
    ensures RowsIntact(env, streamId, rows[..k + 1])
       <==> RowFits(env, streamId, rows, k, RowState(env, rows[..k]))
    ensures RowsIntact(env, streamId, rows[..k + 1]) ==>
              var st, event := RowState(env, rows[..k]), DecodeRow(env, rows[k]).value;
              RowState(env, rows[..k + 1])
              == Progress(Some(event.eventHash), Advance(st.latest, event.event).value, {})
  {
    hide RecordOk, IndexMatches, DecodeRow, Advance, Fold, Events, Decoded;
    var shorter, longer := rows[..k], rows[..k + 1];
    assert longer[..k] == shorter;
    if DecodeRow(env, rows[k]).Some? {
      assert Decodes(env, longer);
      DecodedPrefix(env, longer, k);
      var before, after := Decoded(env, shorter), Decoded(env, longer);
      assert after[..k] == before;
      assert after[..k + 1] == after;
      FoldSnoc(after, k);
      assert HashBefore(after, k) == HashBefore(before, k);
      forall i | 0 <= i < k
        ensures Linked(env, streamId, after, i) && IndexMatches(longer[i].index, after[i].event)
      {
        assert Linked(env, streamId, before, i);
      }
      if RowsIntact(env, streamId, longer) {
        assert Linked(env, streamId, after, k);
      }
    } else {
      assert longer[k] == rows[k];
    }
  }

  lemma {:induction false} RowScanIff(env: Env, streamId: string, rows: seq<Row>,
                                      checkpoint: Option<Checkpoint>, k: nat)
    requires k <= |rows| && RowsIntact(env, streamId, rows[..k])
    ensures RowScan(env, rows, streamId, checkpoint, k, RowState(env, rows[..k])).Valid? <==>
              && rows != []
              && RowsIntact(env, streamId, rows)
              && (checkpoint.Some? ==> checkpoint.value.eventHash == rows[|rows| - 1].eventHash)
    ensures RowScan(env, rows, streamId, checkpoint, k, RowState(env, rows[..k])).Valid? ==>
              RowScan(env, rows, streamId, checkpoint, k, RowState(env, rows[..k]))
              == Valid(|rows|, rows[|rows| - 1].eventHash)
    decreases |rows| - k
  {
    hide RecordOk, RowFits, RowStep;
    if k == |rows| {
      assert rows[..k] == rows;
    } else {
      var st := RowState(env, rows[..k]);
      RowStepIff(env, streamId, rows, k, st);
      RowsIntactSnoc(env, streamId, rows, k);
      if RowFits(env, streamId, rows, k, st) {
        RowScanIff(env, streamId, rows, checkpoint, k + 1);
      } else if RowsIntact(env, streamId, rows) {
        RowsIntactPrefix(env, streamId, rows, k + 1);
        assert false;
      }
    }
  }

  lemma NothingRead(env: Env, streamId: string, rows: seq<Row>)
    ensures RowsIntact(env, streamId, rows[..0]) && RowState(env, rows[..0]) == START
  {
    assert rows[..0] == [];
  }

  lemma RowsAccepted(env: Env, table: seq<Row>, streamId: string, checkpoint: Option<Checkpoint>, verifiedAt: string)
    ensures StreamOutcome(env, table, streamId, None, checkpoint, verifiedAt).Valid? <==>
              && RequestOk(env, streamId, verifiedAt, checkpoint)
              && var rows := StreamRows(table, streamId);
                 && rows != []
                 && RowsIntact(env, streamId, rows)
                 && (checkpoint.Some? ==> checkpoint.value.eventHash == rows[|rows| - 1].eventHash)
  {
    hide RequestOk, RecordOk, RowStep, IndexMatches, Advance, StreamRows, RowScan, Linked;
    var rows := StreamRows(table, streamId);
    ThroughAll(rows);
    NothingRead(env, streamId, rows);
    hide RowsIntact, RowState;
    RowScanIff(env, streamId, rows, checkpoint, 0);
  }

  lemma RowsIntactIff(env: Env, streamId: string, rows: seq<Row>)
    ensures RowsIntact(env, streamId, rows) <==>
              && Decodes(env, rows)
              && (forall i | 0 <= i < |rows| ::
                    && Linked(env, streamId, Decoded(env, rows), i)
                    && IndexMatches(rows[i].index, Decoded(env, rows)[i].event))
              && Continuous(Events(Decoded(env, rows)))
  {
    hide RecordOk, IndexMatches, Continuous, Linked, Fold, Events;
    if Decodes(env, rows) { FoldIff(Events(Decoded(env, rows))); }
  }

  /** The stored verifier accepts exactly nonempty intact rows that meet the checkpoint. */
  lemma StreamAcceptedIff(env: Env, table: seq<Row>, streamId: string,
                          checkpoint: Option<Checkpoint>, verifiedAt: string)
    ensures StreamOutcome(env, table, streamId, None, checkpoint, verifiedAt).Valid? <==>
              && RequestOk(env, streamId, verifiedAt, checkpoint)
              && var rows := StreamRows(table, streamId);
                 && rows != []
                 && Decodes(env, rows)
                 && (forall i | 0 <= i < |rows| ::
                       && Linked(env, streamId, Decoded(env, rows), i)
                       && IndexMatches(rows[i].index, Decoded(env, rows)[i].event))
                 && Continuous(Events(Decoded(env, rows)))
                 && (checkpoint.Some? ==> checkpoint.value.eventHash == rows[|rows| - 1].eventHash)
  {
    hide RequestOk, IndexMatches, StreamRows, Linked, RowsIntact, StreamOutcome, Continuous, Events;
    RowsAccepted(env, table, streamId, checkpoint, verifiedAt);
    RowsIntactIff(env, streamId, StreamRows(table, streamId));
  }

  lemma {:induction false} ThroughAll(rows: seq<Row>)
    ensures Through(rows, None) == rows
  {
    if rows != [] { ThroughAll(rows[..|rows| - 1]); }
  }

  /** On consecutively numbered rows, a sequence bound selects a prefix. */
  lemma {:induction false} ThroughPrefix(rows: seq<Row>, t: nat)
    requires forall i | 0 <= i < |rows| :: rows[i].sequence == i + 1
    ensures Through(rows, Some(t)) == rows[..if t <= |rows| then t else |rows|]
  {
    if rows != [] {
      var front := rows[..|rows| - 1];
      ThroughPrefix(front, t);
      if t < |rows| { assert front[..t] == rows[..t]; }
    }
  }

  lemma RowSequences(env: Env, streamId: string, rows: seq<Row>)
    requires RowsIntact(env, streamId, rows)
    ensures forall i | 0 <= i < |rows| :: rows[i].sequence == i + 1
  {
    hide RecordOk;
    forall i | 0 <= i < |rows| ensures rows[i].sequence == i + 1 {
      assert Linked(env, streamId, Decoded(env, rows), i);
      VerifyOneIff(env, Decoded(env, rows)[i], streamId, i + 1, HashBefore(Decoded(env, rows), i), false);
    }
  }

  /** Every bounded prefix of intact rows is accepted, and a bound past the end is reported as a gap. */
  lemma PrefixAccepted(env: Env, table: seq<Row>, streamId: string, t: nat, verifiedAt: string)
    requires RequestOk(env, streamId, verifiedAt, None)
    requires RowsIntact(env, streamId, StreamRows(table, streamId))
    requires 1 <= t <= I64_MAX && StreamRows(table, streamId) != []
    ensures var rows := StreamRows(table, streamId);
            StreamOutcome(env, table, streamId, Some(t), None, verifiedAt)
            == if t <= |rows| then Valid(t, rows[t - 1].eventHash)
               else Invalid(SequenceGap, Some(|rows| + 1), Some(rows[|rows| - 1].eventHash))
  {
    hide RequestOk, RecordOk, RowStep, IndexMatches, Advance, StreamRows, RowScan, RowsIntact, RowState;
    var rows := StreamRows(table, streamId);
    RowSequences(env, streamId, rows);
    ThroughPrefix(rows, t);
    var n := if t <= |rows| then t else |rows|;
    RowsIntactPrefix(env, streamId, rows, n);
    NothingRead(env, streamId, rows[..n]);
    RowScanIff(env, streamId, rows[..n], None, 0);
  }
}
