/** Every bundle that the export produces from a reachable journal is accepted offline. */
module BundleTheorem {
  import opened Values
  import opened CanonicalJson
  import opened Journal
  import opened Verify
  import opened VerifyStored
  import opened Reachable
  import opened Projection
  import opened Export
  import opened BundleVerify
  import opened ExportTheorems

  // ---------------------------------------------------------------- aliases of a projection

  ghost predicate PairFrom(env: Env, views: set<HashView>, pair: (string, string)) {
    exists x | x in views ::
      x.AliasView? && pair == (AliasDigest(env, x.aliasKey, x.namespace, x.text), x.namespace)
  }

  /** Every alias found in a projection was made from one of the hashed alias inputs. */
  lemma {:induction false} ProjectedAliases(env: Env, aliasKey: string, v: Json, path: seq<string>, views: set<HashView>)
    requires AliasViews(env, aliasKey, v, path) <= views
    ensures AliasesNamed(Project(env, aliasKey, v, path))
    ensures forall pair | pair in AliasPairs(Project(env, aliasKey, v, path)) :: PairFrom(env, views, pair)
    decreases v
  {
    hide Retained, Namespace, AliasDigest, IsCommitment, Alias, PairFrom, IsAlias;
    var p := Project(env, aliasKey, v, path);
    match v
    case Str(text) =>
      if !Retained(env, path, text) {
        AliasPair(env, aliasKey, Namespace(path), text, views);
      }
    case Arr(items) =>
      forall i | 0 <= i < |items|
        ensures AliasesNamed(p.items[i])
        ensures forall pair | pair in AliasPairs(p.items[i]) :: PairFrom(env, views, pair)
      {
        forall x | x in AliasViews(env, aliasKey, items[i], path) ensures x in views {
          assert x in AliasViews(env, aliasKey, v, path);
        }
        ProjectedAliases(env, aliasKey, items[i], path, views);
      }
    case Obj(fields) =>
      if IsCommitment(v) {
        CommitmentHasNoAlias(v);
      } else {
        ObjectStaysOrdinary(env, aliasKey, v, path);
        forall k | k in fields
          ensures AliasesNamed(p.fields[k])
          ensures forall pair | pair in AliasPairs(p.fields[k]) :: PairFrom(env, views, pair)
        {
          forall x | x in AliasViews(env, aliasKey, fields[k], path + [k]) ensures x in views {
            assert x in AliasViews(env, aliasKey, v, path);
          }
          ProjectedAliases(env, aliasKey, fields[k], path + [k], views);
        }
      }
    case _ =>
  }

  lemma AliasPair(env: Env, aliasKey: string, namespace: string, text: string, views: set<HashView>)
    requires AliasView(aliasKey, namespace, text) in views
    ensures var a := Alias(env, aliasKey, namespace, text);
            AliasesNamed(a) && forall pair | pair in AliasPairs(a) :: PairFrom(env, views, pair)
  {
    hide AliasDigest;
    var a := Alias(env, aliasKey, namespace, text);
    assert AliasPairs(a) == {(AliasDigest(env, aliasKey, namespace, text), namespace)};
    var x := AliasView(aliasKey, namespace, text);
    assert x.AliasView? && (AliasDigest(env, aliasKey, namespace, text), namespace)
           == (AliasDigest(env, x.aliasKey, x.namespace, x.text), x.namespace);
  }

  lemma CommitmentHasNoAlias(v: Json)
    requires IsCommitment(v)
    ensures AliasesNamed(v) && AliasPairs(v) == {}
  {
    hide ValidHash, COMMITTED_FIELDS;
    CommitmentKeys(v);
    forall k | k in v.fields ensures v.fields[k].Str? {
      assert k in COMMITMENT_KEYS;
    }
  }

  lemma NamespacesAgree(env: Env, views: set<HashView>, pairs: set<(string, string)>)
    requires CollisionFree(env, views)
    requires forall pair | pair in pairs :: PairFrom(env, views, pair)
    ensures OneNamespaceEach(pairs)
  {
    forall a, b | a in pairs && b in pairs && a.0 == b.0 ensures a.1 == b.1 {
      var x :| x in views && x.AliasView? && a == (AliasDigest(env, x.aliasKey, x.namespace, x.text), x.namespace);
      var y :| y in views && y.AliasView? && b == (AliasDigest(env, y.aliasKey, y.namespace, y.text), y.namespace);
      var dx, dy := env.digest(x), env.digest(y);
      assert ("sha256:" + dx)[7..] == dx && ("sha256:" + dy)[7..] == dy;
    }
  }

  // ---------------------------------------------------------------- identities

  lemma IdentityNotRetained(env: Env, text: string)
    ensures !Retained(env, ["task_id"], text) && Namespace(["task_id"]) == "task"
    ensures !Retained(env, ["event_id"], text) && Namespace(["event_id"]) == "event"
  {
    assert KeyOf(["task_id"]) == "task_id" && KeyOf(["event_id"]) == "event_id";
  }

  lemma AliasMember(env: Env, aliasKey: string, namespace: string, text: string)
    ensures AsStr(Get(Alias(env, aliasKey, namespace, text), "alias"))
         == Some(AliasDigest(env, aliasKey, namespace, text))
  {
    hide AliasDigest;
  }

  lemma IdentityAliases(env: Env, aliasKey: string, event: Json, task: string, id: string)
    requires StringField(event, "task_id") == Some(task) && StringField(event, "event_id") == Some(id)
    ensures var p := Project(env, aliasKey, event, []);
            && TaskAlias(p) == Some(AliasDigest(env, aliasKey, "task", task))
            && EventAlias(p) == Some(AliasDigest(env, aliasKey, "event", id))
    ensures AliasView(aliasKey, "event", id) in AliasViews(env, aliasKey, event, [])
  {
    hide Retained, Namespace, AliasDigest, MARKER_KEYS, Alias, IsCommitment;
    IdentityKeys();
    IdentityNotRetained(env, task);
    IdentityNotRetained(env, id);
    assert [] + ["task_id"] == ["task_id"] && [] + ["event_id"] == ["event_id"];
    GetProjected(env, aliasKey, event, [], "task_id");
    GetProjected(env, aliasKey, event, [], "event_id");
    AliasMember(env, aliasKey, "task", task);
    AliasMember(env, aliasKey, "event", id);
    ViewsBelow(env, aliasKey, event, [], "event_id");
    assert AliasView(aliasKey, "event", id) in AliasViews(env, aliasKey, Str(id), ["event_id"]);
  }

  lemma IdentityKeys()
    ensures "task_id" !in MARKER_KEYS && "event_id" !in MARKER_KEYS
  {}

  // ---------------------------------------------------------------- the exported records

  /** What the export put into record `k`. */
  predicate ExportedAs(env: Env, session: Session, source: Record, out: seq<ProjectedRecord>, k: nat)
    requires k < |out|
  {
    var event := Project(env, session.aliasKey, source.event, []);
    && StoredEventOk(env, source.event)
    && out[k].schemaVersion == SCHEMA_VERSION
    && out[k].hashProfile == PROJECTION_HASH_PROFILE
    && out[k].bundleId == session.bundleId
    && out[k].sequence == source.sequence
    && out[k].previous == LastHash(out[..k])
    && out[k].event == event
    && ProjectedEventOk(env, event)
    && HashProjected(env, session.bundleId, source.sequence, LastHash(out[..k]), event) == Some(out[k].hash)
  }

  lemma ProjectRecordFacts(env: Env, format: Format, session: Session, record: Record, out: seq<ProjectedRecord>, k: nat)
    requires k < |out| && ProjectRecord(env, format, session, record, LastHash(out[..k])) == Some(out[k])
    ensures ExportedAs(env, session, record, out, k)
  {
    hide StoredEventOk, Project, ProjectedEventOk, HashProjected;
  }

  lemma ExportedRecords(env: Env, format: Format, session: Session, records: seq<Record>, out: seq<ProjectedRecord>, k: nat)
    requires ProjectAll(env, format, session, records) == Some(out) && k < |records|
    ensures |out| == |records| && ExportedAs(env, session, records[k], out, k)
  {
    hide ProjectRecord, ProjectAll, Bytes, ExportedAs;
    ProjectAllPrefix(env, format, session, records, k);
    ProjectAllPrefix(env, format, session, records, k + 1);
    ProjectSnoc(env, format, session, records, out[..k]);
    assert out[..k + 1][k] == out[k];
    ProjectRecordFacts(env, format, session, records[k], out, k);
  }

  /** The deepest admitted member: details, text commitments, waiting list, entry, message commitment. */
  const EVENT_LEVELS: nat := 7

  /** The event schema requires an event ID and admits only known Task states; with the closed detail
      vocabulary it also bounds the nesting. */
  ghost predicate SchemaPins(env: Env) {
    && (forall e: Json | env.schemaOk(e) :: StringField(e, "event_id").Some? && StatesKnown(e))
    && (forall e: Json | env.schemaOk(e) && env.vocabularyOk(e) :: Nests(e, EVENT_LEVELS))
  }

  lemma StoredEventFacts(env: Env, event: Json)
    requires StoredEventOk(env, event) && SchemaPins(env)
    ensures StringField(event, "task_id").Some? && StringField(event, "event_id").Some? && StatesKnown(event)
  {
    hide ExportAuthorityLinksOk, WithinShapeBounds, TransitionIncrements, StatesKnown;
    assert env.schemaOk(event);
  }

  /** Hypotheses under which the identities of one stream stay apart. */
  ghost predicate StreamViewsIn(env: Env, aliasKey: string, records: seq<Record>, views: set<HashView>) {
    forall i | 0 <= i < |records| ::
      && AliasViews(env, aliasKey, records[i].event, []) <= views
      && StreamView(OrEmpty(StringField(records[i].event, "task_id"))) in views
  }

  lemma SameTask(env: Env, s: string, records: seq<Record>, i: nat, j: nat, views: set<HashView>)
    requires i < |records| && j < |records|
    requires Linked(env, s, records, i) && Linked(env, s, records, j)
    requires CollisionFree(env, views)
    requires StreamView(OrEmpty(StringField(records[i].event, "task_id"))) in views
    requires StreamView(OrEmpty(StringField(records[j].event, "task_id"))) in views
    ensures StringField(records[i].event, "task_id") == StringField(records[j].event, "task_id")
  {
    hide EventContractOk, ExportAuthorityLinksOk, GenesisOk, ValidHash, HashRecord;
    var a, b := StringField(records[i].event, "task_id").value, StringField(records[j].event, "task_id").value;
    var x, y := env.digest(StreamView(a)), env.digest(StreamView(b));
    var prefix := "task:v1:sha256:";
    assert (prefix + x)[15..] == x && (prefix + y)[15..] == y;
  }

  // ---------------------------------------------------------------- depth never stops an export

  predicate ValidBundleId(id: string) {
    |id| == 74 && id[..10] == "bundle:v1:" && forall i | 10 <= i < 74 :: HexDigit(id[i])
  }

  /** The projection of every stored event is within bounds, and so is the object hashed around it: under
      a valid bundle ID and predecessor its hash always exists. */
  lemma ProjectionHashable(env: Env, aliasKey: string, event: Json, bundleId: string, sequence: nat,
                           previous: Option<string>)
    requires Sound(env) && SchemaPins(env) && StoredEventOk(env, event)
    requires ValidBundleId(bundleId) && sequence <= MAX_SAFE_INTEGER && (previous.Some? ==> ValidHash(previous.value))
    ensures WithinShapeBounds(Project(env, aliasKey, event, []))
    ensures HashProjected(env, bundleId, sequence, previous, Project(env, aliasKey, event, [])).Some?
  {
    hide Project, WithinBounds, AliasesFit, StatesKnown, ExportAuthorityLinksOk, ViewJson, Canonical, TransitionIncrements;
    assert WithinBounds(event, 1) && Nests(event, EVENT_LEVELS);
    NestsBounds(event, 1, 2, EVENT_LEVELS);
    NestsAliases(env, event, [], 1, EVENT_LEVELS);
    NestsAliases(env, event, [], 2, EVENT_LEVELS);
    ProjectionBounds(env, aliasKey, event, [], 1);
    ProjectionBounds(env, aliasKey, event, [], 2);
    ViewBoundsIff(bundleId, sequence, previous, Project(env, aliasKey, event, []));
  }

  /** What can still refuse a stored record: the size and contract of its projection, and the record schema. */
  lemma ExportRefusals(env: Env, format: Format, session: Session, record: Record, previous: Option<string>)
    requires Sound(env) && SchemaPins(env) && StoredEventOk(env, record.event)
    requires ValidBundleId(session.bundleId) && record.sequence <= MAX_SAFE_INTEGER
    requires previous.Some? ==> ValidHash(previous.value)
    ensures var event := Project(env, session.aliasKey, record.event, []);
            var hash := HashProjected(env, session.bundleId, record.sequence, previous, event);
            && hash.Some?
            && (ProjectRecord(env, format, session, record, previous).Some? <==>
                  && ProjectedEventOk(env, event)
                  && format.recordSchemaOk(ProjectedRecord(SCHEMA_VERSION, PROJECTION_HASH_PROFILE, session.bundleId,
                                                           record.sequence, previous, event, hash.value)))
  {
    hide StoredEventOk, Project, ProjectedEventOk, HashProjected, Sound, SchemaPins;
    ProjectionHashable(env, session.aliasKey, record.event, session.bundleId, record.sequence, previous);
  }

  // ---------------------------------------------------------------- scanning the bundle

  ghost predicate PairsFrom(env: Env, out: seq<ProjectedRecord>, views: set<HashView>) {
    forall i, pair | 0 <= i < |out| && pair in AliasPairs(out[i].event) :: PairFrom(env, views, pair)
  }

  lemma PrefixNamespaces(env: Env, out: seq<ProjectedRecord>, k: nat, views: set<HashView>)
    requires k <= |out| && CollisionFree(env, views) && PairsFrom(env, out, views)
    ensures OneNamespaceEach(PairsOf(out[..k]))
  {
    hide AliasPairs, PairFrom, CollisionFree, OneNamespaceEach;
    forall pair | pair in PairsOf(out[..k]) ensures PairFrom(env, views, pair) {
      var i :| 0 <= i < |out[..k]| && pair in AliasPairs(out[..k][i].event);
      assert pair in AliasPairs(out[i].event);
    }
    NamespacesAgree(env, views, PairsOf(out[..k]));
  }

  // ---------------------------------------------------------------- main theorem

  lemma ExportedFits(env: Env, session: Session, s: string, records: seq<Record>, out: seq<ProjectedRecord>, k: nat,
                     views: set<HashView>)
    requires k < |records| == |out| && Intact(env, s, records) && SchemaPins(env)
    requires forall i | 0 <= i < |out| :: ExportedAs(env, session, records[i], out, i)
    requires CollisionFree(env, views) && StreamViewsIn(env, session.aliasKey, records, views)
    requires PairsFrom(env, out, views)
    ensures BundleFits(env, out, session.bundleId, k)
  {
    hide RecordOk, Fold, Events, Project, ProjectedEventOk, HashProjected, AliasViews, CollisionFree, TaskAlias,
         EventAlias, AliasDigest, StringField, EVENT_TYPES, StoredEventOk, SchemaPins, AliasPairs, PairFrom, PairsFrom,
         PairsOf, OneNamespaceEach;
    PrefixNamespaces(env, out, k + 1, views);
    assert ExportedAs(env, session, records[k], out, k) && ExportedAs(env, session, records[0], out, 0);
    assert Linked(env, s, records, k) && Linked(env, s, records, 0);
    StoredEventFacts(env, records[k].event);
    StoredEventFacts(env, records[0].event);
    SequenceAndGenesis(env, s, records, k);
    TaskTypesKnown();
    EventTypeProjects(env, session.aliasKey, records[k].event, "task.created");
    SameTask(env, s, records, k, 0, views);
    var task, id := StringField(records[k].event, "task_id").value, StringField(records[k].event, "event_id").value;
    IdentityAliases(env, session.aliasKey, records[k].event, task, id);
    IdentityAliases(env, session.aliasKey, records[0].event, task, StringField(records[0].event, "event_id").value);
    ProjectedAliases(env, session.aliasKey, records[k].event, [], views);
    forall i | 0 <= i < k ensures EventAlias(out[i].event) != EventAlias(out[k].event) {
      assert ExportedAs(env, session, records[i], out, i);
      StoredEventFacts(env, records[i].event);
      EventAliasesDiffer(env, session.aliasKey, records[i].event, records[k].event, views);
    }
  }

  lemma SequenceAndGenesis(env: Env, s: string, records: seq<Record>, k: nat)
    requires k < |records| && Linked(env, s, records, k)
    ensures records[k].sequence == k + 1
    ensures (k == 0) <==> StringField(records[k].event, "event_type") == Some("task.created")
  {
    hide StoredEventOk, ValidHash, HashRecord, StreamId, StringField;
  }

  lemma EventAliasesDiffer(env: Env, aliasKey: string, a: Json, b: Json, views: set<HashView>)
    requires StringField(a, "task_id").Some? && StringField(b, "task_id").Some?
    requires StringField(a, "event_id").Some? && StringField(b, "event_id").Some?
    requires StringField(a, "event_id") != StringField(b, "event_id")
    requires CollisionFree(env, views)
    requires AliasViews(env, aliasKey, a, []) <= views && AliasViews(env, aliasKey, b, []) <= views
    ensures EventAlias(Project(env, aliasKey, a, [])) != EventAlias(Project(env, aliasKey, b, []))
  {
    hide Project, AliasViews, EventAlias, TaskAlias;
    var x, y := StringField(a, "event_id").value, StringField(b, "event_id").value;
    IdentityAliases(env, aliasKey, a, StringField(a, "task_id").value, x);
    IdentityAliases(env, aliasKey, b, StringField(b, "task_id").value, y);
    if AliasDigest(env, aliasKey, "event", x) == AliasDigest(env, aliasKey, "event", y) {
      AliasInjective(env, aliasKey, "event", x, "event", y);
    }
  }

  /** The bundle exported from intact records is accepted by the offline verifier. */
  lemma ExportedBundleVerifies(env: Env, format: Format, session: Session, s: string, records: seq<Record>,
                               bundle: Bundle, views: set<HashView>)
    requires Intact(env, s, records) && SchemaPins(env)
    requires CollisionFree(env, views) && StreamViewsIn(env, session.aliasKey, records, views)
    requires ProjectAll(env, format, session, records) == Some(bundle.records) && bundle.records != []
    requires bundle.manifest == ManifestFor(env, session, bundle.records)
    ensures BundleOutcome(env, bundle) == ProjectionValid(|records|, bundle.manifest.headHash)
  {
    hide ProjectAll, ExportedAs, BundleFits, RecordOk, CollisionFree, Project, AliasPairs, SchemaPins, StatesKnown,
         BundleOutcome, Advance, AliasViews, PairFrom, StringField;
    var out := bundle.records;
    assert |out| == |records|;
    forall i | 0 <= i < |out| ensures ExportedAs(env, session, records[i], out, i) {
      ExportedRecords(env, format, session, records, out, i);
    }
    forall i | 0 <= i < |out|
      ensures out[i].event == Project(env, session.aliasKey, records[i].event, [])
      ensures StatesKnown(records[i].event)
    {
      ExportedEvent(env, session, records[i], out, i);
    }
    forall i, pair | 0 <= i < |out| && pair in AliasPairs(out[i].event) ensures PairFrom(env, views, pair) {
      ProjectedAliases(env, session.aliasKey, records[i].event, [], views);
    }
    forall i | 0 <= i < |out| ensures BundleFits(env, out, session.bundleId, i) {
      ExportedFits(env, session, s, records, out, i, views);
    }
    var events := Events(records);
    FoldProjected(env, session.aliasKey, events);
    assert OutEvents(out) == ProjectEvents(env, session.aliasKey, events);
    assert AllFit(env, out, session.bundleId, |out|);
    LastSequenceIs(env, out, session.bundleId);
    BundleAcceptedIff(env, bundle);
  }

  lemma ExportedEvent(env: Env, session: Session, source: Record, out: seq<ProjectedRecord>, k: nat)
    requires k < |out| && ExportedAs(env, session, source, out, k) && SchemaPins(env)
    ensures out[k].event == Project(env, session.aliasKey, source.event, []) && StatesKnown(source.event)
  {
    hide Project, ProjectedEventOk, HashProjected, StoredEventOk, SchemaPins;
    StoredEventFacts(env, source.event);
  }

  /**
   Whatever run of appends built the table, a bundle exported from any of its streams is accepted
   by the offline verifier, unless two of the hashed identities collide.
   */
  lemma ReachableExportVerifies(env: Env, format: Format, session: Session, calls: seq<AppendCall>, s: string,
                                bundle: Bundle, views: set<HashView>)
    requires Sound(env) && Readable(env, calls) && SchemaPins(env)
    requires var rows := StreamRows(Run(env, calls), s);
             && Decodes(env, rows)
             && CollisionFree(env, views)
             && StreamViewsIn(env, session.aliasKey, Decoded(env, rows), views)
             && ProjectAll(env, format, session, Decoded(env, rows)) == Some(bundle.records)
             && bundle.records != []
    requires bundle.manifest == ManifestFor(env, session, bundle.records)
    ensures BundleOutcome(env, bundle)
         == ProjectionValid(|StreamRows(Run(env, calls), s)|, bundle.manifest.headHash)
  {
    hide RowsIntact, DistinctRowIds, ProjectAll, Run, StreamRows, Intact, CollisionFree, StreamViewsIn, BundleOutcome,
         ManifestFor, Sound, SchemaPins, Readable;
    var rows := StreamRows(Run(env, calls), s);
    RunKeeps(env, calls);
    assert RowsIntact(env, s, rows) && DistinctRowIds(rows);
    IntactRecords(env, s, rows);
    ExportedBundleVerifies(env, format, session, s, Decoded(env, rows), bundle, views);
  }
}
