/**
 The provenance journal: event validation, the hash chain, the Task revision fold,
 and compare-and-swap append over the `provenance_events` table.
 */
module Journal {
  import opened Values
  import opened CanonicalJson

  const SCHEMA_VERSION: string := "0.1"
  const HASH_PROFILE: string := "aios-provenance-event-v0.1"
  const MAX_EVENT_BYTES: nat := 524_288
  const MAX_DETAILS_BYTES: nat := 458_752

  /**
   What is hashed. One constructor per hash domain: the domain prefixes make the byte
   strings of different constructors disjoint. Events are hashed in canonical form, so
   equal byte strings of one constructor are equal views.
   */
  datatype HashView =
    | StreamView(taskId: string)
    | RecordView(streamId: string, sequence: nat, previous: Option<string>, event: Json)
    | AliasView(aliasKey: string, namespace: string, text: string)
    | ProjectedView(bundleId: string, psequence: nat, pprevious: Option<string>, pevent: Json)
    | DescriptorView(bundle: string, recordCount: nat, headSequence: nat, headHash: string)

  /** Library behaviour the journal is built on. */
  datatype Env = Env(
    digest: HashView -> string,        // lower-case hex of SHA-256
    schemaOk: Json -> bool,            // the JSON Schema of provenance events
    vocabularyOk: Json -> bool,        // the per-event-type table of detail keys
    timestampOk: string -> bool,       // RFC 3339
    encode: Json -> string,            // serde_json::to_string, one character per byte
    parse: string -> Option<Json>      // duplicate-rejecting parse
  )

  predicate HexDigit(c: char) {
    '0' <= c <= '9' || 'a' <= c <= 'f'
  }

  predicate HexDigest(s: string) {
    |s| == 64 && forall i | 0 <= i < |s| :: HexDigit(s[i])
  }

  /** SHA-256 yields 64 hex digits. */
  ghost predicate Sound(env: Env) {
    forall view :: HexDigest(env.digest(view))
  }

  /** The text written for a value parses back to it; decimal parsing need not be exact on every number. */
  predicate Reparses(env: Env, v: Json) {
    env.parse(env.encode(v)) == Some(v)
  }

  predicate ValidHash(s: string) {
    |s| == 71 && s[..7] == "sha256:" && forall i | 7 <= i < 71 :: HexDigit(s[i])
  }

  function StreamId(env: Env, taskId: string): string {
    "task:v1:sha256:" + env.digest(StreamView(taskId))
  }

  predicate StreamChar(c: char) {
    || '0' <= c <= '9' || 'a' <= c <= 'z' || 'A' <= c <= 'Z'
    || c == '.' || c == '_' || c == ':' || c == '-'
  }

  predicate ValidStreamId(s: string) {
    && 6 <= |s| <= 256
    && s[..5] == "task:"
    && ('0' <= s[5] <= '9' || 'a' <= s[5] <= 'z' || 'A' <= s[5] <= 'Z')
    && forall i | 5 < i < |s| :: StreamChar(s[i])
  }

  // ---------------------------------------------------------------- event validation

  predicate ValidTaskId(taskId: string) {
    1 <= |taskId| <= 256
  }

  predicate TransitionIncrements(event: Json) {
    var previous := AsU64(Get2(event, "task_transition", "previous_revision"));
    var next := AsU64(Get2(event, "task_transition", "new_revision"));
    if previous.Some? && previous.value < U64_MAX
    then next == Some(previous.value + 1)
    else next == None
  }

  function OrEmpty(v: Option<string>): string {
    if v.Some? then v.value else ""
  }

  predicate ShortField(v: Option<string>) {
    v.Some? ==> |v.value| <= 256
  }

  predicate EventContractOk(env: Env, taskId: string, event: Json, sourceSizeBounds: bool) {
    && ValidTaskId(taskId)
    && WithinShapeBounds(event)
    && (sourceSizeBounds ==> |env.encode(event)| <= MAX_EVENT_BYTES)
    && (sourceSizeBounds && Get(event, "details").Some?
        ==> |env.encode(Get(event, "details").value)| <= MAX_DETAILS_BYTES)
    && Get(event, "event_hash").None?
    && Get(event, "previous_event_hash").None?
    && env.schemaOk(event)
    && StringField(event, "task_id") == Some(taskId)
    && ShortField(StringField(event, "event_id"))
    && ShortField(AsStr(Get2(event, "actor", "id")))
    && env.timestampOk(OrEmpty(StringField(event, "timestamp")))
    && (StringField(event, "event_type") == Some("task.transitioned") ==> TransitionIncrements(event))
    && env.vocabularyOk(event)
  }

  function GetOrNull(v: Json, key: string): Json {
    if Get(v, key).Some? then Get(v, key).value else Null
  }

  /** The sole element of a one-element array, as `Some`; anything else is not a match. */
  predicate SoleItemIs(v: Json, item: Option<Json>) {
    v.Arr? && |v.items| == 1 && item == Some(v.items[0])
  }

  predicate ExportAuthorityLinksOk(event: Json) {
    StringField(event, "event_type") == Some("artifact.exported")
    && Get2(event, "details", "export_authority").Some? ==>
      var authority := Get2(event, "details", "export_authority").value;
      var size := AsU64(Get2(event, "details", "size_bytes"));
      var ceiling := AsU64(Get(authority, "max_size_bytes"));
      var source := Get(authority, "source_artifact_id");
      var transfer := GetOrNull(event, "external_transfer");
      && size.Some? && ceiling.Some? && size.value <= ceiling.value
      && Get(authority, "operation_id") == Get2(event, "details", "operation_id")
      && SoleItemIs(GetOrNull(event, "input_artifacts"), source)
      && SoleItemIs(GetOrNull(transfer, "data_refs"), source)
      && Get(authority, "service_id") == Get(transfer, "destination")
      && Get(authority, "purpose") == Get(transfer, "purpose")
  }

  predicate EventOk(env: Env, taskId: string, event: Json) {
    EventContractOk(env, taskId, event, true) && ExportAuthorityLinksOk(event)
  }

  predicate StoredEventOk(env: Env, event: Json) {
    var taskId := StringField(event, "task_id");
    taskId.Some? && EventOk(env, taskId.value, event)
  }

  predicate GenesisOk(sequence: int, event: Json) {
    (sequence == 1) <==> StringField(event, "event_type") == Some("task.created")
  }

  predicate MissingServiceAuthority(event: Json) {
    var destination := AsStr(Get2(event, "external_transfer", "destination"));
    && StringField(event, "event_type") == Some("artifact.exported")
    && destination.Some?
    && "service://" <= destination.value
    && Get2(event, "details", "export_authority").None?
  }

  // ---------------------------------------------------------------- the revision fold

  datatype Revision = Revision(number: int, state: string)

  datatype Discontinuity = Discontinuity

  function Advance(latest: Option<Revision>, event: Json): Result<Option<Revision>, Discontinuity> {
    var kind := StringField(event, "event_type");
    if kind == Some("task.created") then
      if latest.Some? then Err(Discontinuity) else Ok(Some(Revision(1, "CREATED")))
    else if kind == Some("task.transitioned") then
      var previous := AsU64(Get2(event, "task_transition", "previous_revision"));
      var next := AsU64(Get2(event, "task_transition", "new_revision"));
      var previousState := AsStr(Get2(event, "task_transition", "previous_state"));
      var nextState := AsStr(Get2(event, "task_transition", "new_state"));
      var latestNumber := if latest.Some? then Some(latest.value.number) else None;
      var latestState := if latest.Some? then Some(latest.value.state) else None;
      if previous != latestNumber || previousState != latestState || next.None? || nextState.None?
      then Err(Discontinuity)
      else Ok(Some(Revision(next.value, nextState.value)))
    else Ok(latest)
  }

  /** The revision reached by a whole history, or the first discontinuity. */
  function Fold(events: seq<Json>): Result<Option<Revision>, Discontinuity> {
    if events == [] then Ok(None)
    else
      var before := Fold(events[..|events| - 1]);
      if before.Err? then before else Advance(before.value, events[|events| - 1])
  }

  // ---------------------------------------------------------------- records and hashes

  datatype Record = Record(
    schemaVersion: string,
    hashProfile: string,
    streamId: string,
    sequence: nat,
    previous: Option<string>,
    event: Json,
    eventHash: string
  )

  function WithoutHashFields(event: Json): Json
    requires event.Obj?
  {
    Obj(event.fields - {"event_hash", "previous_event_hash"})
  }

  function HashRecord(env: Env, streamId: string, sequence: int, previous: Option<string>, event: Json)
    : Option<string>
  {
    if sequence <= 0 || sequence > MAX_SAFE_INTEGER || !WithinShapeBounds(event) || !event.Obj? then None
    else Some("sha256:" + env.digest(RecordView(streamId, sequence, previous, Canonical(WithoutHashFields(event)))))
  }

  // ---------------------------------------------------------------- the stored table

  /** The columns copied out of the event when it is inserted. */
  datatype Index = Index(
    eventId: string,
    taskId: string,
    timestamp: string,
    eventType: string,
    semanticProgramHash: Option<string>,
    irVersion: Option<string>,
    registrySnapshotId: Option<string>,
    nodeId: Option<string>,
    executionBindingId: Option<string>,
    providerId: Option<string>,
    status: Option<string>
  )

  datatype Row = Row(
    schemaVersion: string,
    hashProfile: string,
    streamId: string,
    sequence: int,
    index: Index,
    previous: Option<string>,
    eventHash: string,
    eventText: string
  )

  predicate IndexMatches(index: Index, event: Json) {
    && index.eventId == OrEmpty(StringField(event, "event_id"))
    && index.taskId == OrEmpty(StringField(event, "task_id"))
    && index.timestamp == OrEmpty(StringField(event, "timestamp"))
    && index.eventType == OrEmpty(StringField(event, "event_type"))
    && index.semanticProgramHash == StringField(event, "semantic_program_hash")
    && index.irVersion == StringField(event, "ir_version")
    && index.registrySnapshotId == StringField(event, "registry_snapshot_id")
    && index.nodeId == StringField(event, "step_id")
    && index.executionBindingId == StringField(event, "execution_binding_id")
    && index.providerId == StringField(event, "provider_id")
    && index.status == StringField(event, "status")
  }

  /** `row_to_record`: the stored text must be within bounds and parse. */
  function DecodeRow(env: Env, row: Row): Option<Record> {
    if |row.eventText| > MAX_EVENT_BYTES || env.parse(row.eventText).None? || row.sequence < 0 then None
    else Some(Record(row.schemaVersion, row.hashProfile, row.streamId, row.sequence, row.previous,
                     env.parse(row.eventText).value, row.eventHash))
  }

  /** Insert one row into rows ordered by ascending sequence. */
  function InsertOrdered(row: Row, ordered: seq<Row>): (r: seq<Row>)
    ensures multiset(r) == multiset(ordered) + multiset{row}
    ensures |r| == |ordered| + 1
  {
    if ordered == [] then [row]
    else
      var last := ordered[|ordered| - 1];
      assert ordered == ordered[..|ordered| - 1] + [last];
      if last.sequence <= row.sequence then ordered + [row]
      else InsertOrdered(row, ordered[..|ordered| - 1]) + [last]
  }

  /** `SELECT ... WHERE stream_id=? ORDER BY sequence`. */
  function StreamRows(rows: seq<Row>, streamId: string): seq<Row> {
    if rows == [] then []
    else
      var earlier := StreamRows(rows[..|rows| - 1], streamId);
      var last := rows[|rows| - 1];
      if last.streamId == streamId then InsertOrdered(last, earlier) else earlier
  }

  datatype Head = Head(sequence: int, eventHash: string)

  datatype JournalError =
    | InvalidEvent | MissingAuthority | InvalidHead | StaleHead | SequenceOverflow
    | NotGenesis | RevisionDiscontinuous | Unhashable | ConstraintViolation

  /** `ORDER BY sequence DESC LIMIT 1`. */
  function GetHead(rows: seq<Row>, streamId: string): Result<Option<Head>, JournalError> {
    var ordered := StreamRows(rows, streamId);
    if ordered == [] then Ok(None)
    else
      var last := ordered[|ordered| - 1];
      if last.sequence <= 0 || !ValidHash(last.eventHash) then Err(InvalidHead)
      else Ok(Some(Head(last.sequence, last.eventHash)))
  }

  predicate IsRevisionType(eventType: string) {
    eventType == "task.created" || eventType == "task.transitioned"
  }

  function LastRevisionRow(ordered: seq<Row>): Option<Row> {
    if ordered == [] then None
    else
      var last := ordered[|ordered| - 1];
      if IsRevisionType(last.index.eventType) then Some(last)
      else LastRevisionRow(ordered[..|ordered| - 1])
  }

  /** Reads the revision out of the stored row that the indexed query found. */
  function RevisionOfRow(env: Env, stored: Option<Row>): Result<Option<Revision>, JournalError> {
    if stored.None? then Ok(None)
    else
      var parsed := env.parse(stored.value.eventText);
      var eventType := stored.value.index.eventType;
      if parsed.None? || StringField(parsed.value, "event_type") != Some(eventType)
         || !StoredEventOk(env, parsed.value) then Err(InvalidEvent)
      else if eventType == "task.created" then Ok(Some(Revision(1, "CREATED")))
      else
        var number := AsU64(Get2(parsed.value, "task_transition", "new_revision"));
        var state := AsStr(Get2(parsed.value, "task_transition", "new_state"));
        if number.None? || state.None? then Err(InvalidEvent)
        else Ok(Some(Revision(number.value, state.value)))
  }

  /** The indexed lookup that append uses in place of refolding the history. */
  function LatestRevision(env: Env, rows: seq<Row>, streamId: string)
    : Result<Option<Revision>, JournalError>
  {
    RevisionOfRow(env, LastRevisionRow(StreamRows(rows, streamId)))
  }

  datatype ExpectedHead = AnyHead | EmptyHead | ExactHead(sequence: int, eventHash: string)

  predicate HeadMatches(expected: ExpectedHead, head: Option<Head>) {
    match expected
    case AnyHead => true
    case EmptyHead => head.None?
    case ExactHead(sequence, eventHash) => head == Some(Head(sequence, eventHash))
  }

  /** One call of append; `externalOk` stands for the foreign keys of other tables. */
  datatype AppendCall = AppendCall(taskId: string, event: Json, expected: ExpectedHead, externalOk: bool)

  /** UNIQUE and NOT NULL constraints of the table. */
  predicate Insertable(rows: seq<Row>, row: Row) {
    forall r | r in rows ::
      && r.index.eventId != row.index.eventId
      && !(r.streamId == row.streamId && r.sequence == row.sequence)
      && !(r.index.taskId == row.index.taskId && r.sequence == row.sequence)
  }

  function NextSequence(head: Option<Head>): int {
    if head.None? then 1
    else if head.value.sequence >= U64_MAX then U64_MAX else head.value.sequence + 1
  }

  function IndexFor(taskId: string, event: Json, eventId: string, timestamp: string, eventType: string)
    : Index
  {
    Index(eventId, taskId, timestamp, eventType,
          StringField(event, "semantic_program_hash"), StringField(event, "ir_version"),
          StringField(event, "registry_snapshot_id"), StringField(event, "step_id"),
          StringField(event, "execution_binding_id"), StringField(event, "provider_id"),
          StringField(event, "status"))
  }

  function RevisionCheck(env: Env, rows: seq<Row>, streamId: string, event: Json): Option<JournalError> {
    if StringField(event, "event_type") == Some("task.transitioned") then
      var latest := LatestRevision(env, rows, streamId);
      if latest.Err? then Some(latest.error)
      else if Advance(latest.value, event).Err? then Some(RevisionDiscontinuous)
      else None
    else None
  }

  /** `append_in_tx` as a function of the table it reads. */
  function AppendRow(env: Env, rows: seq<Row>, call: AppendCall): Result<Row, JournalError> {
    var event := call.event;
    if !EventOk(env, call.taskId, event) then Err(InvalidEvent)
    else if MissingServiceAuthority(event) then Err(MissingAuthority)
    else
      var streamId := StreamId(env, call.taskId);
      var head := GetHead(rows, streamId);
      if head.Err? then Err(head.error)
      else if !HeadMatches(call.expected, head.value) then Err(StaleHead)
      else
        var sequence := NextSequence(head.value);
        if sequence == U64_MAX then Err(SequenceOverflow)
        else if !GenesisOk(sequence, event) then Err(NotGenesis)
        else if RevisionCheck(env, rows, streamId, event).Some? then
          Err(RevisionCheck(env, rows, streamId, event).value)
        else
          var previous := if head.value.Some? then Some(head.value.value.eventHash) else None;
          var eventHash := HashRecord(env, streamId, sequence, previous, event);
          var eventId := StringField(event, "event_id");
          var timestamp := StringField(event, "timestamp");
          var eventType := StringField(event, "event_type");
          if eventHash.None? then Err(Unhashable)
          else if eventId.None? then Err(InvalidEvent)
          else if timestamp.None? || eventType.None? then Err(ConstraintViolation)
          else
            var row := Row(SCHEMA_VERSION, HASH_PROFILE, streamId, sequence,
                           IndexFor(call.taskId, event, eventId.value, timestamp.value, eventType.value),
                           previous, eventHash.value, env.encode(event));
            if !call.externalOk || !Insertable(rows, row) then Err(ConstraintViolation) else Ok(row)
  }

  /** The table after one call: a failed call leaves it unchanged. */
  function Step(env: Env, rows: seq<Row>, call: AppendCall): seq<Row> {
    var r := AppendRow(env, rows, call);
    if r.Ok? then rows + [r.value] else rows
  }

  /** The table after any run of calls, successful or not, starting empty. */
  function Run(env: Env, calls: seq<AppendCall>): seq<Row> {
    if calls == [] then [] else Step(env, Run(env, calls[..|calls| - 1]), calls[|calls| - 1])
  }

  /** Every event that the run stored reads back as it was written. */
  ghost predicate Readable(env: Env, calls: seq<AppendCall>) {
    forall i | 0 <= i < |calls| && AppendRow(env, Run(env, calls[..i]), calls[i]).Ok? ::
      Reparses(env, calls[i].event)
  }
}
