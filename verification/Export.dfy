/** The portable export: a paged walk over a verified stream that projects and re-chains every record. */
module Export {
  import opened Values
  import opened CanonicalJson
  import opened Journal
  import opened Verify
  import opened VerifyStored
  import opened Projection

  const MAX_PAGE_SIZE: nat := 256
  const MAX_PROJECTED_EVENT_BYTES: nat := 524_288
  const MAX_PROJECTION_EXPORT_BYTES: nat := 8 * 1_024 * 1_024
  const MAX_PROJECTION_RECORDS: nat := 10_000
  const MAX_PROJECTION_SOURCE_BYTES: nat := 32 * 1_024 * 1_024
  const PROJECTION_HASH_PROFILE: string := "aios-provenance-redacted-projection-v1"

  datatype ProjectedRecord = ProjectedRecord(
    schemaVersion: string,
    hashProfile: string,
    bundleId: string,
    sequence: nat,
    previous: Option<string>,
    event: Json,
    hash: string
  )

  datatype Manifest = Manifest(
    bundleId: string,
    recordCount: nat,
    headSequence: nat,
    headHash: string,
    descriptorHash: string
  )

  datatype Bundle = Bundle(manifest: Manifest, records: seq<ProjectedRecord>)

  /** Schema validators and the serialised length of one exported line. */
  datatype Format = Format(
    recordSchemaOk: ProjectedRecord -> bool,
    manifestSchemaOk: Manifest -> bool,
    lineLength: ProjectedRecord -> nat
  )

  // ---------------------------------------------------------------- paging

  datatype Page = Page(records: seq<Record>, next: Option<nat>)

  function AfterSequence(ordered: seq<Row>, after: nat): seq<Row> {
    if ordered == [] then []
    else
      var rest := AfterSequence(ordered[..|ordered| - 1], after);
      var last := ordered[|ordered| - 1];
      if last.sequence > after then rest + [last] else rest
  }

  /** `list_events`: one row more than the limit is read to know whether another page follows. */
  function ListEvents(env: Env, table: seq<Row>, streamId: string, after: Option<nat>, limit: nat): Option<Page> {
    var cursor := if after.Some? then after.value else 0;
    var found := AfterSequence(StreamRows(table, streamId), cursor);
    var read := if |found| > limit + 1 then found[..limit + 1] else found;
    if !ValidStreamId(streamId) || limit == 0 || limit > MAX_PAGE_SIZE || cursor > I64_MAX
       || !Decodes(env, read) then None
    else
      var records := Decoded(env, read);
      if |records| > limit then Some(Page(records[..limit], Some(records[limit - 1].sequence)))
      else Some(Page(records, None))
  }

  lemma {:induction false} AfterIsSuffix(ordered: seq<Row>, after: nat)
    requires forall i | 0 <= i < |ordered| :: ordered[i].sequence == i + 1
    ensures AfterSequence(ordered, after) == if after <= |ordered| then ordered[after..] else []
  {
    if ordered != [] {
      var front := ordered[..|ordered| - 1];
      AfterIsSuffix(front, after);
      if after < |ordered| {
        assert front[after..] + [ordered[|ordered| - 1]] == ordered[after..];
      }
    }
  }

  /** On an intact stream a page holds exactly the next records, and its cursor is where they end. */
  lemma PageIsNextRecords(env: Env, table: seq<Row>, s: string, done: nat)
    requires ValidStreamId(s) && RowsIntact(env, s, StreamRows(table, s))
    requires done <= |StreamRows(table, s)| <= I64_MAX
    ensures var all := Decoded(env, StreamRows(table, s));
            var more := |all| - done > MAX_PAGE_SIZE;
            var upTo := if more then done + MAX_PAGE_SIZE else |all|;
            ListEvents(env, table, s, if done == 0 then None else Some(done), MAX_PAGE_SIZE)
            == Some(Page(all[done..upTo], if more then Some(upTo) else None))
  {
    hide StreamRows, RowsIntact, ValidStreamId, AfterSequence, Decoded, Decodes;
    var ordered := StreamRows(table, s);
    RowSequences(env, s, ordered);
    AfterIsSuffix(ordered, done);
    IntactDecodes(env, s, ordered);
    var all := Decoded(env, ordered);
    if |all| - done > MAX_PAGE_SIZE {
      var read := ordered[done..][..MAX_PAGE_SIZE + 1];
      assert |ordered[done..]| > MAX_PAGE_SIZE + 1 || read == ordered[done..];
      DecodedSlice(env, ordered, done, done + MAX_PAGE_SIZE + 1, read);
      assert Decoded(env, read)[..MAX_PAGE_SIZE] == all[done..done + MAX_PAGE_SIZE];
      DecodedSequence(env, ordered, done + MAX_PAGE_SIZE - 1);
    } else {
      DecodedSlice(env, ordered, done, |ordered|, ordered[done..]);
    }
  }

  lemma IntactDecodes(env: Env, s: string, ordered: seq<Row>)
    requires RowsIntact(env, s, ordered)
    ensures Decodes(env, ordered)
  {}

  lemma DecodedSlice(env: Env, ordered: seq<Row>, a: nat, b: nat, slice: seq<Row>)
    requires Decodes(env, ordered) && a <= b <= |ordered| && slice == ordered[a..b]
    ensures Decodes(env, slice) && Decoded(env, slice) == Decoded(env, ordered)[a..b]
  {
    hide DecodeRow;
    assert forall i | 0 <= i < |slice| :: slice[i] == ordered[a + i];
  }

  lemma DecodedSequence(env: Env, ordered: seq<Row>, i: nat)
    requires Decodes(env, ordered) && i < |ordered|
    ensures Decoded(env, ordered)[i].sequence == ordered[i].sequence
  {}

  // ---------------------------------------------------------------- projecting a stream

  /** The object that is hashed for a projected record; the event sits one level down in it. */
  function ViewJson(bundleId: string, sequence: nat, previous: Option<string>, event: Json): Json {
    Obj(map["schema_version" := Str(SCHEMA_VERSION), "projection_hash_profile" := Str(PROJECTION_HASH_PROFILE),
            "bundle_id" := Str(bundleId), "sequence" := Num(Integer(sequence)),
            "previous_projection_hash" := if previous.Some? then Str(previous.value) else Null,
            "projected_event" := event])
  }

  /** `hash_projected_record`: the event and the object around it must both be within bounds. */
  function HashProjected(env: Env, bundleId: string, sequence: nat, previous: Option<string>, event: Json): Option<string> {
    if !WithinShapeBounds(event) || !WithinShapeBounds(ViewJson(bundleId, sequence, previous, event)) then None
    else Some("sha256:" + env.digest(ProjectedView(bundleId, sequence, previous, Canonical(event))))
  }

  lemma ViewMembers(bundleId: string, sequence: nat, previous: Option<string>, event: Json)
    ensures var fields := ViewJson(bundleId, sequence, previous, event).fields;
            && fields.Keys == {"schema_version", "projection_hash_profile", "bundle_id", "sequence",
                               "previous_projection_hash", "projected_event"}
            && fields["schema_version"] == Str(SCHEMA_VERSION)
            && fields["projection_hash_profile"] == Str(PROJECTION_HASH_PROFILE)
            && fields["bundle_id"] == Str(bundleId) && fields["sequence"] == Num(Integer(sequence))
            && fields["previous_projection_hash"] == (if previous.Some? then Str(previous.value) else Null)
            && fields["projected_event"] == event
  {
  }

  lemma ViewKeys(fields: map<string, Json>)
    requires fields.Keys == {"schema_version", "projection_hash_profile", "bundle_id", "sequence",
                             "previous_projection_hash", "projected_event"}
    ensures |fields| == 6 && forall k | k in fields :: |k| <= MAX_KEY_CHARS
  {
    assert |fields| == |fields.Keys|;
  }

  /** The bound on the enclosing object, member by member. */
  lemma ViewBoundsIff(bundleId: string, sequence: nat, previous: Option<string>, event: Json)
    ensures WithinShapeBounds(ViewJson(bundleId, sequence, previous, event)) <==>
            && |bundleId| <= MAX_STRING_CHARS && sequence <= MAX_SAFE_INTEGER
            && (previous.Some? ==> |previous.value| <= MAX_STRING_CHARS)
            && WithinBounds(event, 2)
  {
    hide ViewJson, WithinBounds;
    var view := ViewJson(bundleId, sequence, previous, event);
    ViewIsObject(bundleId, sequence, previous, event);
    ViewMembers(bundleId, sequence, previous, event);
    ViewKeys(view.fields);
    MemberBounds(bundleId, sequence, previous);
    ObjectBounds(view.fields, 1);
    assert view == Obj(view.fields);
  }

  lemma ViewIsObject(bundleId: string, sequence: nat, previous: Option<string>, event: Json)
    ensures ViewJson(bundleId, sequence, previous, event).Obj?
  {
  }

  lemma MemberBounds(bundleId: string, sequence: nat, previous: Option<string>)
    ensures WithinBounds(Str(SCHEMA_VERSION), 2) && WithinBounds(Str(PROJECTION_HASH_PROFILE), 2)
    ensures WithinBounds(Str(bundleId), 2) <==> |bundleId| <= MAX_STRING_CHARS
    ensures WithinBounds(Num(Integer(sequence)), 2) <==> sequence <= MAX_SAFE_INTEGER
    ensures WithinBounds(if previous.Some? then Str(previous.value) else Null, 2)
       <==> (previous.Some? ==> |previous.value| <= MAX_STRING_CHARS)
  {
  }

  lemma ObjectBounds(fields: map<string, Json>, depth: nat)
    requires depth <= MAX_JSON_DEPTH && |fields| <= MAX_OBJECT_FIELDS && forall k | k in fields :: |k| <= MAX_KEY_CHARS
    ensures WithinBounds(Obj(fields), depth) <==> forall k | k in fields :: WithinBounds(fields[k], depth + 1)
  {
  }

  /** `validate_projected_event`. */
  predicate ProjectedEventOk(env: Env, event: Json) {
    && WithinShapeBounds(event)
    && |env.encode(event)| <= MAX_PROJECTED_EVENT_BYTES
    && SourceShape(env, event, []).Some?
    && (var shape := SourceShape(env, event, []).value;
        EventContractOk(env, OrEmpty(StringField(shape, "task_id")), shape, false))
    && ExportAuthorityLinksOk(event)
  }

  datatype Session = Session(aliasKey: string, bundleId: string)

  /** One exported record, or nothing when one of the export checks fails. */
  function ProjectRecord(env: Env, format: Format, session: Session, record: Record, previous: Option<string>)
    : Option<ProjectedRecord>
  {
    if !StoredEventOk(env, record.event) then None
    else
      var event := Project(env, session.aliasKey, record.event, []);
      if !ProjectedEventOk(env, event) then None
      else
        var hash := HashProjected(env, session.bundleId, record.sequence, previous, event);
        if hash.None? then None
        else
          var projected := ProjectedRecord(SCHEMA_VERSION, PROJECTION_HASH_PROFILE, session.bundleId,
                                           record.sequence, previous, event, hash.value);
          if format.recordSchemaOk(projected) then Some(projected) else None
  }

  function LastHash(records: seq<ProjectedRecord>): Option<string> {
    if records == [] then None else Some(records[|records| - 1].hash)
  }

  function Bytes(format: Format, records: seq<ProjectedRecord>): nat {
    if records == [] then 0
    else Bytes(format, records[..|records| - 1]) + format.lineLength(records[|records| - 1]) + 1
  }

  /** All records projected and chained in order, within the byte bound. */
  function ProjectAll(env: Env, format: Format, session: Session, records: seq<Record>)
    : (r: Option<seq<ProjectedRecord>>)
    ensures r.Some? ==> |r.value| == |records|
  {
    if records == [] then Some([])
    else
      var front := ProjectAll(env, format, session, records[..|records| - 1]);
      if front.None? then None
      else
        var last := ProjectRecord(env, format, session, records[|records| - 1], LastHash(front.value));
        if last.None? || Bytes(format, front.value + [last.value]) > MAX_PROJECTION_EXPORT_BYTES then None
        else Some(front.value + [last.value])
  }

  lemma {:induction false} ProjectAllPrefix(env: Env, format: Format, session: Session, records: seq<Record>, k: nat)
    requires k <= |records| && ProjectAll(env, format, session, records).Some?
    ensures ProjectAll(env, format, session, records[..k])
         == Some(ProjectAll(env, format, session, records).value[..k])
  {
    hide ProjectRecord, Bytes;
    if k < |records| {
      var front := records[..|records| - 1];
      assert front[..k] == records[..k];
      ProjectAllPrefix(env, format, session, front, k);
      var shorter := ProjectAll(env, format, session, front).value;
      assert ProjectAll(env, format, session, records).value[..k] == shorter[..k];
    } else {
      assert records[..k] == records;
      assert ProjectAll(env, format, session, records).value[..k] == ProjectAll(env, format, session, records).value;
    }
  }

  function DescriptorHash(env: Env, bundleId: string, count: nat, headSequence: nat, headHash: string): string {
    "sha256:" + env.digest(DescriptorView(bundleId, count, headSequence, headHash))
  }

  /** The object hashed for the manifest, which must be within bounds like every hashed object. */
  function DescriptorJson(bundleId: string, count: nat, headSequence: nat, headHash: string): Json {
    Obj(map["schema_version" := Str(SCHEMA_VERSION), "export_profile" := Str("privacy-redacted-projection-v1"),
            "projection_hash_profile" := Str(PROJECTION_HASH_PROFILE), "bundle_id" := Str(bundleId),
            "record_count" := Num(Integer(count)), "head_sequence" := Num(Integer(headSequence)),
            "head_projection_hash" := Str(headHash)])
  }

  predicate DescriptorFits(session: Session, records: seq<ProjectedRecord>)
    requires records != []
  {
    var last := records[|records| - 1];
    WithinShapeBounds(DescriptorJson(session.bundleId, |records|, last.sequence, last.hash))
  }

  lemma DescriptorMembers(bundleId: string, count: nat, headSequence: nat, headHash: string)
    ensures var v := DescriptorJson(bundleId, count, headSequence, headHash);
            && v.Obj?
            && v.fields.Keys == {"schema_version", "export_profile", "projection_hash_profile", "bundle_id",
                                 "record_count", "head_sequence", "head_projection_hash"}
            && (forall k | k in v.fields ::
                  v.fields[k] in {Str(SCHEMA_VERSION), Str("privacy-redacted-projection-v1"), Str(PROJECTION_HASH_PROFILE),
                                  Str(bundleId), Num(Integer(count)), Num(Integer(headSequence)), Str(headHash)})
  {
  }

  lemma DescriptorKeys(fields: map<string, Json>)
    requires fields.Keys == {"schema_version", "export_profile", "projection_hash_profile", "bundle_id",
                             "record_count", "head_sequence", "head_projection_hash"}
    ensures |fields| == 7 && forall k | k in fields :: |k| <= MAX_KEY_CHARS
  {
    assert |fields| == |fields.Keys|;
  }

  /** The manifest of an export is always hashable. */
  lemma DescriptorAlwaysFits(session: Session, records: seq<ProjectedRecord>)
    requires records != [] && |records| <= MAX_SAFE_INTEGER && |session.bundleId| <= MAX_STRING_CHARS
    requires var last := records[|records| - 1]; last.sequence <= MAX_SAFE_INTEGER && |last.hash| <= MAX_STRING_CHARS
    ensures DescriptorFits(session, records)
  {
    hide DescriptorJson;
    var last := records[|records| - 1];
    DescriptorMembers(session.bundleId, |records|, last.sequence, last.hash);
    var v := DescriptorJson(session.bundleId, |records|, last.sequence, last.hash);
    DescriptorKeys(v.fields);
    ObjectBounds(v.fields, 1);
    assert v == Obj(v.fields);
  }

  function ManifestFor(env: Env, session: Session, records: seq<ProjectedRecord>): Manifest
    requires records != []
  {
    var last := records[|records| - 1];
    Manifest(session.bundleId, |records|, last.sequence, last.hash,
             DescriptorHash(env, session.bundleId, |records|, last.sequence, last.hash))
  }

  function SourceBytes(rows: seq<Row>): nat {
    if rows == [] then 0 else SourceBytes(rows[..|rows| - 1]) + |rows[|rows| - 1].eventText|
  }

  /** Everything checked before the first record is projected. */
  predicate Exportable(env: Env, table: seq<Row>, streamId: string, verifiedAt: string, taskRowOk: bool) {
    var rows := StreamRows(table, streamId);
    && ValidStreamId(streamId) && env.timestampOk(verifiedAt)
    && |rows| <= MAX_PROJECTION_RECORDS
    && SourceBytes(rows) <= MAX_PROJECTION_SOURCE_BYTES
    && taskRowOk
    && StreamOutcome(env, table, streamId, None, None, verifiedAt).Valid?
  }

  lemma BytesSnoc(format: Format, done: seq<ProjectedRecord>, p: ProjectedRecord)
    ensures Bytes(format, done + [p]) == Bytes(format, done) + format.lineLength(p) + 1
  {
    assert (done + [p])[..|done|] == done;
  }

  lemma ProjectSnoc(env: Env, format: Format, session: Session, all: seq<Record>, done: seq<ProjectedRecord>)
    requires |done| < |all| && ProjectAll(env, format, session, all[..|done|]) == Some(done)
    ensures var projected := ProjectRecord(env, format, session, all[|done|], LastHash(done));
            ProjectAll(env, format, session, all[..|done| + 1])
            == if projected.None? || Bytes(format, done + [projected.value]) > MAX_PROJECTION_EXPORT_BYTES
               then None else Some(done + [projected.value])
  {
    hide ProjectRecord, Bytes, LastHash;
    var longer := all[..|done| + 1];
    assert longer[..|longer| - 1] == all[..|done|] && longer[|longer| - 1] == all[|done|];
  }

  /** The body of the page loop: projects the records of one page behind those already exported. */
  method ProjectPage(env: Env, format: Format, session: Session, page: seq<Record>,
                     before: seq<ProjectedRecord>, bytesBefore: nat, ghost all: seq<Record>)
    returns (records: Option<seq<ProjectedRecord>>, bytes: nat)
    requires |before| + |page| <= |all| && page == all[|before|..|before| + |page|]
    requires ProjectAll(env, format, session, all[..|before|]) == Some(before)
    requires bytesBefore == Bytes(format, before)
    ensures records.Some? ==>
              && |records.value| == |before| + |page|
              && ProjectAll(env, format, session, all[..|before| + |page|]) == records
              && bytes == Bytes(format, records.value)
    ensures records.None? ==> ProjectAll(env, format, session, all).None?
  {
    hide ProjectRecord, ProjectAll, Bytes;
    var done := before;
    bytes := bytesBefore;
    var i := 0;
    while i < |page|
      invariant i <= |page| && |done| == |before| + i
      invariant ProjectAll(env, format, session, all[..|done|]) == Some(done)
      invariant bytes == Bytes(format, done)
    {
      ghost var k := |done|;
      assert page[i] == all[k];
      ProjectSnoc(env, format, session, all, done);
      var projected := ProjectRecord(env, format, session, page[i], LastHash(done));
      if projected.None? {
        RefuseAt(env, format, session, all, k);
        return None, bytes;
      }
      BytesSnoc(format, done, projected.value);
      bytes := bytes + format.lineLength(projected.value) + 1;
      if bytes > MAX_PROJECTION_EXPORT_BYTES {
        RefuseAt(env, format, session, all, k);
        return None, bytes;
      }
      done, i := done + [projected.value], i + 1;
    }
    records := Some(done);
  }

  /**
   `export_jsonl_with_validation`. The loop walks the stream page by page; on success the bundle
   holds the projection of every record of the stream, once each and in order.
   */
  method ExportStream(env: Env, format: Format, session: Session, table: seq<Row>, streamId: string,
                      verifiedAt: string, taskRowOk: bool) returns (r: Option<Bundle>)
    ensures r.Some? <==>
              && Exportable(env, table, streamId, verifiedAt, taskRowOk)
              && Decodes(env, StreamRows(table, streamId))
              && var projected := ProjectAll(env, format, session, Decoded(env, StreamRows(table, streamId)));
                 projected.Some? && projected.value != [] && DescriptorFits(session, projected.value)
                 && format.manifestSchemaOk(ManifestFor(env, session, projected.value))
    ensures r.Some? ==>
              && ProjectAll(env, format, session, Decoded(env, StreamRows(table, streamId))) == Some(r.value.records)
              && r.value.records != []
              && r.value.manifest == ManifestFor(env, session, r.value.records)
  {
    hide Exportable, StreamRows, ProjectAll, RowsIntact, ListEvents, ValidStreamId, Decoded, Decodes, StreamOutcome,
         ManifestFor, DescriptorFits;
    if !Exportable(env, table, streamId, verifiedAt, taskRowOk) { return None; }
    ExportableFacts(env, table, streamId, verifiedAt, taskRowOk);
    ghost var all := Decoded(env, StreamRows(table, streamId));
    var records: seq<ProjectedRecord> := [];
    var cursor: Option<nat> := None;
    var bytes := 0;
    assert all[..0] == [];
    ProjectNothing(env, format, session);
    while true
      invariant |records| <= |all| && (|records| == 0 || |records| < |all|)
      invariant cursor == if |records| == 0 then None else Some(|records|)
      invariant ProjectAll(env, format, session, all[..|records|]) == Some(records)
      invariant bytes == Bytes(format, records)
      decreases |all| - |records|
    {
      PageIsNextRecords(env, table, streamId, |records|);
      var page := ListEvents(env, table, streamId, cursor, MAX_PAGE_SIZE);
      if page.None? { return None; }
      var next, total := ProjectPage(env, format, session, page.value.records, records, bytes, all);
      if next.None? { return None; }
      records, bytes := next.value, total;
      if page.value.next.None? { break; }
      cursor := page.value.next;
    }
    assert all[..|records|] == all;
    if records == [] { return None; }
    if !DescriptorFits(session, records) { return None; }
    var manifest := ManifestFor(env, session, records);
    if !format.manifestSchemaOk(manifest) { return None; }
    r := Some(Bundle(manifest, records));
  }

  lemma ProjectNothing(env: Env, format: Format, session: Session)
    ensures ProjectAll(env, format, session, []) == Some([])
  {}

  lemma ExportableFacts(env: Env, table: seq<Row>, streamId: string, verifiedAt: string, taskRowOk: bool)
    requires Exportable(env, table, streamId, verifiedAt, taskRowOk)
    ensures ValidStreamId(streamId) && |StreamRows(table, streamId)| <= MAX_PROJECTION_RECORDS <= I64_MAX
    ensures RowsIntact(env, streamId, StreamRows(table, streamId)) && Decodes(env, StreamRows(table, streamId))
  {
    hide StreamRows, StreamOutcome, ValidStreamId, RecordOk;
    RowsAccepted(env, table, streamId, None, verifiedAt);
    hide RowsIntact;
    IntactDecodes(env, streamId, StreamRows(table, streamId));
  }

  lemma RefuseAt(env: Env, format: Format, session: Session, all: seq<Record>, k: nat)
    requires k < |all| && ProjectAll(env, format, session, all[..k + 1]).None?
    ensures ProjectAll(env, format, session, all).None?
  {
    if ProjectAll(env, format, session, all).Some? {
      ProjectAllPrefix(env, format, session, all, k + 1);
      assert false;
    }
  }
}
