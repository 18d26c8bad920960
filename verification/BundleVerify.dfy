/**
 The offline verifier of an exported bundle, which bundles it accepts, and what their head hash pins.
 */
module BundleVerify {
  import opened Values
  import opened CanonicalJson
  import opened Journal
  import opened Revisions
  import opened Verify
  import opened Projection
  import opened Export

  /** Digest and namespace of every alias object in a projected event. */
  function AliasPairs(v: Json): set<(string, string)>
    decreases v
  {
    match v
    case Obj(fields) =>
      if IsAlias(v) then
        if StringField(v, "alias").Some? && StringField(v, "namespace").Some?
        then {(StringField(v, "alias").value, StringField(v, "namespace").value)} else {}
      else set k, x | k in fields && x in AliasPairs(fields[k]) :: x
    case Arr(items) => set i, x | 0 <= i < |items| && x in AliasPairs(items[i]) :: x
    case _ => {}
  }

  predicate AliasesNamed(v: Json)
    decreases v
  {
    match v
    case Obj(fields) =>
      if IsAlias(v) then StringField(v, "alias").Some? && StringField(v, "namespace").Some?
      else forall k | k in fields :: AliasesNamed(fields[k])
    case Arr(items) => forall i | 0 <= i < |items| :: AliasesNamed(items[i])
    case _ => true
  }

  /** No digest is used in two namespaces. */
  predicate OneNamespaceEach(pairs: set<(string, string)>) {
    forall a, b | a in pairs && b in pairs && a.0 == b.0 :: a.1 == b.1
  }

  datatype ProjectedCode = RecordInvalid | HashMismatch | ManifestMismatch

  datatype ProjectedOutcome =
    | ProjectionValid(toSequence: nat, head: string)
    | ProjectionInvalid(code: ProjectedCode, at: Option<nat>, computed: Option<string>)

  datatype ProjectedProgress = ProjectedProgress(
    previous: Option<string>,
    taskAlias: Option<string>,
    eventAliases: set<string>,
    pairs: set<(string, string)>,
    latest: Option<Revision>
  )

  const PROJECTED_START: ProjectedProgress := ProjectedProgress(None, None, {}, {}, None)

  function TaskAlias(event: Json): Option<string> { AsStr(Get2(event, "task_id", "alias")) }

  function EventAlias(event: Json): Option<string> { AsStr(Get2(event, "event_id", "alias")) }

  /** One iteration of `verify_projected_records`. */
  function ProjectedStep(env: Env, manifest: Manifest, record: ProjectedRecord, i: nat, st: ProjectedProgress)
    : Result<ProjectedProgress, ProjectedOutcome>
  {
    var at := Some(record.sequence);
    var task, id := TaskAlias(record.event), EventAlias(record.event);
    if || record.schemaVersion != SCHEMA_VERSION
       || record.hashProfile != PROJECTION_HASH_PROFILE
       || record.bundleId != manifest.bundleId
       || record.sequence != i + 1
       || record.previous != st.previous
       || !ProjectedEventOk(env, record.event)
       || !AliasesNamed(record.event)
       || !OneNamespaceEach(st.pairs + AliasPairs(record.event))
    then Err(ProjectionInvalid(RecordInvalid, at, st.previous))
    else if || !((i == 0) <==> StringField(record.event, "event_type") == Some("task.created"))
            || task.None? || id.None?
            || (st.taskAlias.Some? && st.taskAlias != task)
            || id.value in st.eventAliases
    then Err(ProjectionInvalid(RecordInvalid, at, st.previous))
    else
      var computed := HashProjected(env, manifest.bundleId, record.sequence, st.previous, record.event);
      if computed.None? then Err(ProjectionInvalid(RecordInvalid, at, st.previous))
      else if computed.value != record.hash then Err(ProjectionInvalid(HashMismatch, at, computed))
      else
        var latest := Advance(st.latest, record.event);
        if latest.Err? then Err(ProjectionInvalid(RecordInvalid, at, st.previous))
        else Ok(ProjectedProgress(computed, task, st.eventAliases + {id.value},
                                  st.pairs + AliasPairs(record.event), latest.value))
  }

  function ProjectedScan(env: Env, bundle: Bundle, i: nat, st: ProjectedProgress): ProjectedOutcome
    requires i <= |bundle.records|
    decreases |bundle.records| - i
  {
    var records, manifest := bundle.records, bundle.manifest;
    if i < |records| then
      var next := ProjectedStep(env, manifest, records[i], i, st);
      if next.Err? then next.error else ProjectedScan(env, bundle, i + 1, next.value)
    else if || |records| != manifest.recordCount
            || records == [] || records[|records| - 1].sequence != manifest.headSequence
            || st.previous != Some(manifest.headHash)
    then ProjectionInvalid(ManifestMismatch, if records == [] then None else Some(records[|records| - 1].sequence),
                           st.previous)
    else ProjectionValid(manifest.headSequence, manifest.headHash)
  }

  function BundleOutcome(env: Env, bundle: Bundle): ProjectedOutcome {
    ProjectedScan(env, bundle, 0, PROJECTED_START)
  }

  /** `verify_projected_records`: predecessor, identities, namespaces and revision carried from record
      to record, then the manifest. */
  method VerifyBundle(env: Env, bundle: Bundle) returns (r: ProjectedOutcome)
    ensures r == BundleOutcome(env, bundle)
    ensures r.ProjectionValid? <==> BundleIntact(env, bundle)
  {
    hide ProjectedEventOk, AliasesNamed, AliasPairs, OneNamespaceEach, HashProjected, Advance, TaskAlias, EventAlias,
         BundleIntact;
    BundleAcceptedIff(env, bundle);
    var manifest, records := bundle.manifest, bundle.records;
    var previous: Option<string>, taskAlias: Option<string>, latest: Option<Revision> := None, None, None;
    var eventAliases: set<string>, pairs: set<(string, string)> := {}, {};
    var i := 0;
    while i < |records|
      invariant i <= |records|
      invariant ProjectedScan(env, bundle, i, ProjectedProgress(previous, taskAlias, eventAliases, pairs, latest))
             == BundleOutcome(env, bundle)
    {
      var record := records[i];
      var at := Some(record.sequence);
      if || record.schemaVersion != SCHEMA_VERSION || record.hashProfile != PROJECTION_HASH_PROFILE
         || record.bundleId != manifest.bundleId || record.sequence != i + 1 || record.previous != previous
         || !ProjectedEventOk(env, record.event) || !AliasesNamed(record.event)
         || !OneNamespaceEach(pairs + AliasPairs(record.event))
      {
        return ProjectionInvalid(RecordInvalid, at, previous);
      }
      var created := StringField(record.event, "event_type") == Some("task.created");
      var task, id := TaskAlias(record.event), EventAlias(record.event);
      if || (i == 0) != created || task.None? || id.None?
         || (taskAlias.Some? && taskAlias != task) || id.value in eventAliases
      {
        return ProjectionInvalid(RecordInvalid, at, previous);
      }
      var computed := HashProjected(env, manifest.bundleId, record.sequence, previous, record.event);
      if computed.None? { return ProjectionInvalid(RecordInvalid, at, previous); }
      if computed.value != record.hash { return ProjectionInvalid(HashMismatch, at, computed); }
      var advanced := Advance(latest, record.event);
      if advanced.Err? { return ProjectionInvalid(RecordInvalid, at, previous); }
      previous, taskAlias, latest := computed, task, advanced.value;
      eventAliases, pairs, i := eventAliases + {id.value}, pairs + AliasPairs(record.event), i + 1;
    }
    var last := if records == [] then None else Some(records[|records| - 1].sequence);
    if |records| != manifest.recordCount || last != Some(manifest.headSequence) || previous != Some(manifest.headHash) {
      return ProjectionInvalid(ManifestMismatch, last, previous);
    }
    r := ProjectionValid(manifest.headSequence, manifest.headHash);
  }

  // ---------------------------------------------------------------- what is accepted

  function OutEvents(out: seq<ProjectedRecord>): (r: seq<Json>)
    ensures |r| == |out| && forall i | 0 <= i < |out| :: r[i] == out[i].event
  {
    seq(|out|, i requires 0 <= i < |out| => out[i].event)
  }

  ghost function PairsOf(out: seq<ProjectedRecord>): set<(string, string)> {
    set i, x | 0 <= i < |out| && x in AliasPairs(out[i].event) :: x
  }

  ghost function EventAliasesOf(out: seq<ProjectedRecord>): set<string> {
    set i | 0 <= i < |out| :: OrEmpty(EventAlias(out[i].event))
  }

  /** The state the offline verifier has reached before record `k`. */
  ghost function BundleState(out: seq<ProjectedRecord>, k: nat, latest: Option<Revision>): ProjectedProgress
    requires k <= |out|
  {
    ProjectedProgress(LastHash(out[..k]), if k == 0 then None else TaskAlias(out[k - 1].event),
                      EventAliasesOf(out[..k]), PairsOf(out[..k]), latest)
  }

  /** Record `k` by itself: profile, position, predecessor, event contract, aliases and hash. */
  ghost predicate RecordFits(env: Env, out: seq<ProjectedRecord>, bundleId: string, k: nat)
    requires k < |out|
  {
    && out[k].schemaVersion == SCHEMA_VERSION
    && out[k].hashProfile == PROJECTION_HASH_PROFILE
    && out[k].bundleId == bundleId
    && out[k].sequence == k + 1
    && out[k].previous == LastHash(out[..k])
    && ProjectedEventOk(env, out[k].event)
    && AliasesNamed(out[k].event)
    && ((k == 0) <==> StringField(out[k].event, "event_type") == Some("task.created"))
    && TaskAlias(out[k].event).Some?
    && EventAlias(out[k].event).Some?
    && HashProjected(env, bundleId, k + 1, LastHash(out[..k]), out[k].event) == Some(out[k].hash)
  }

  /** Record `k` among those before it: one Task, a fresh event, one namespace per digest. */
  ghost predicate IdentityFits(out: seq<ProjectedRecord>, k: nat)
    requires k < |out|
  {
    && TaskAlias(out[k].event) == TaskAlias(out[0].event)
    && (forall i | 0 <= i < k :: EventAlias(out[i].event) != EventAlias(out[k].event))
    && OneNamespaceEach(PairsOf(out[..k + 1]))
  }

  ghost predicate BundleFits(env: Env, out: seq<ProjectedRecord>, bundleId: string, k: nat)
    requires k < |out|
  {
    RecordFits(env, out, bundleId, k) && IdentityFits(out, k)
  }

  ghost predicate AllFit(env: Env, out: seq<ProjectedRecord>, bundleId: string, k: nat)
    requires k <= |out|
  {
    forall i | 0 <= i < k :: BundleFits(env, out, bundleId, i)
  }

  /** An intact bundle: nonempty, every record fits, revisions continuous, and the manifest names the
      number of records and the last of them. */
  ghost predicate BundleIntact(env: Env, bundle: Bundle) {
    var out, manifest := bundle.records, bundle.manifest;
    && out != [] && AllFit(env, out, manifest.bundleId, |out|)
    && Fold(OutEvents(out)).Ok?
    && manifest.recordCount == |out| && manifest.headSequence == |out| && manifest.headHash == out[|out| - 1].hash
  }

  lemma PairsSnoc(out: seq<ProjectedRecord>, k: nat)
    requires k < |out|
    ensures PairsOf(out[..k + 1]) == PairsOf(out[..k]) + AliasPairs(out[k].event)
    ensures EventAliasesOf(out[..k + 1]) == EventAliasesOf(out[..k]) + {OrEmpty(EventAlias(out[k].event))}
    ensures LastHash(out[..k + 1]) == Some(out[k].hash)
  {
    hide AliasPairs, EventAlias;
    var shorter, longer := out[..k], out[..k + 1];
    assert longer == shorter + [out[k]];
    assert forall i | 0 <= i < k :: longer[i] == shorter[i];
    assert longer[k] == out[k];
  }

  /** The identity checks of one step are those over the whole prefix. */
  lemma IdentityIff(env: Env, out: seq<ProjectedRecord>, bundleId: string, k: nat)
    requires k < |out| && AllFit(env, out, bundleId, k)
    requires TaskAlias(out[k].event).Some? && EventAlias(out[k].event).Some?
    ensures (k > 0 ==> TaskAlias(out[k - 1].event) == TaskAlias(out[0].event) && TaskAlias(out[k - 1].event).Some?)
    ensures EventAlias(out[k].event).value in EventAliasesOf(out[..k]) <==>
            exists i | 0 <= i < k :: EventAlias(out[i].event) == EventAlias(out[k].event)
  {
    hide TaskAlias, EventAlias, ProjectedEventOk, AliasesNamed, HashProjected, OneNamespaceEach, PairsOf;
    if k > 0 { assert BundleFits(env, out, bundleId, k - 1); }
    forall i | 0 <= i < k ensures EventAlias(out[i].event).Some? && out[..k][i] == out[i] {
      assert BundleFits(env, out, bundleId, i);
    }
    if EventAlias(out[k].event).value in EventAliasesOf(out[..k]) {
      var i :| 0 <= i < |out[..k]| && OrEmpty(EventAlias(out[..k][i].event)) == EventAlias(out[k].event).value;
      assert EventAlias(out[i].event) == EventAlias(out[k].event);
    }
    if i :| 0 <= i < k && EventAlias(out[i].event) == EventAlias(out[k].event) {
      assert OrEmpty(EventAlias(out[..k][i].event)) == EventAlias(out[k].event).value;
    }
  }

  /** One step succeeds exactly when the record fits and the revision advances. */
  lemma BundleStepIff(env: Env, manifest: Manifest, out: seq<ProjectedRecord>, k: nat, latest: Option<Revision>)
    requires k < |out| && AllFit(env, out, manifest.bundleId, k)
    ensures var next := ProjectedStep(env, manifest, out[k], k, BundleState(out, k, latest));
            && (next.Ok? <==> BundleFits(env, out, manifest.bundleId, k) && Advance(latest, out[k].event).Ok?)
            && (next.Ok? ==> next.value == BundleState(out, k + 1, Advance(latest, out[k].event).value))
            && (next.Err? ==> next.error.ProjectionInvalid?)
  {
    hide ProjectedEventOk, AliasesNamed, AliasPairs, HashProjected, Advance, TaskAlias, EventAlias, OneNamespaceEach,
         PairsOf, EventAliasesOf, LastHash, AllFit, StringField;
    PairsSnoc(out, k);
    if TaskAlias(out[k].event).Some? && EventAlias(out[k].event).Some? {
      IdentityIff(env, out, manifest.bundleId, k);
    }
  }

  lemma {:induction false} BundleScanIff(env: Env, bundle: Bundle, k: nat)
    requires k <= |bundle.records| && AllFit(env, bundle.records, bundle.manifest.bundleId, k)
    requires Fold(OutEvents(bundle.records)[..k]).Ok?
    ensures var st := BundleState(bundle.records, k, Fold(OutEvents(bundle.records)[..k]).value);
            && (ProjectedScan(env, bundle, k, st).ProjectionValid? <==> BundleIntact(env, bundle))
            && (ProjectedScan(env, bundle, k, st).ProjectionValid? ==>
                  ProjectedScan(env, bundle, k, st) == ProjectionValid(|bundle.records|, bundle.manifest.headHash))
    decreases |bundle.records| - k
  {
    hide ProjectedStep, Advance, BundleFits, OneNamespaceEach, PairsOf, EventAliasesOf, TaskAlias, OutEvents;
    var out, events := bundle.records, OutEvents(bundle.records);
    if k == |out| {
      assert events[..k] == events && out[..k] == out;
      if out != [] { LastSequenceIs(env, out, bundle.manifest.bundleId); }
    } else {
      BundleStepIff(env, bundle.manifest, out, k, Fold(events[..k]).value);
      assert events[..k + 1][..k] == events[..k] && events[..k + 1][k] == out[k].event;
      if BundleFits(env, out, bundle.manifest.bundleId, k) && Advance(Fold(events[..k]).value, out[k].event).Ok? {
        BundleScanIff(env, bundle, k + 1);
      } else if BundleIntact(env, bundle) {
        FoldPrefix(events, k + 1);
        assert false;
      }
    }
  }

  lemma LastSequenceIs(env: Env, out: seq<ProjectedRecord>, bundleId: string)
    requires out != [] && AllFit(env, out, bundleId, |out|)
    ensures out[|out| - 1].sequence == |out|
  {
    hide ProjectedEventOk, AliasesNamed, HashProjected, IdentityFits;
    assert BundleFits(env, out, bundleId, |out| - 1);
  }

  lemma BundleIntactIff(env: Env, bundle: Bundle)
    ensures BundleIntact(env, bundle) <==>
              var out, manifest := bundle.records, bundle.manifest;
              && out != [] && AllFit(env, out, manifest.bundleId, |out|)
              && Continuous(OutEvents(out))
              && manifest.recordCount == |out| && manifest.headSequence == |out| && manifest.headHash == out[|out| - 1].hash
  {
    hide AllFit, Continuous, Fold, OutEvents;
    FoldIff(OutEvents(bundle.records));
  }

  /** The offline verifier accepts exactly the intact bundles, at their last record. */
  lemma BundleAcceptedIff(env: Env, bundle: Bundle)
    ensures BundleOutcome(env, bundle).ProjectionValid? <==> BundleIntact(env, bundle)
    ensures BundleIntact(env, bundle) <==>
              var out, manifest := bundle.records, bundle.manifest;
              && out != [] && AllFit(env, out, manifest.bundleId, |out|)
              && Continuous(OutEvents(out))
              && manifest.recordCount == |out| && manifest.headSequence == |out| && manifest.headHash == out[|out| - 1].hash
    ensures BundleOutcome(env, bundle).ProjectionValid? ==>
              BundleOutcome(env, bundle) == ProjectionValid(|bundle.records|, bundle.manifest.headHash)
  {
    BundleIntactIff(env, bundle);
    hide BundleIntact, ProjectedStep, Continuous, BundleFits;
    var out := bundle.records;
    assert out[..0] == [] && OutEvents(out)[..0] == [];
    assert BundleState(out, 0, None) == PROJECTED_START;
    BundleScanIff(env, bundle, 0);
  }

  // ---------------------------------------------------------------- what the head hash pins

  function ProjectedViewOf(r: ProjectedRecord): HashView {
    ProjectedView(r.bundleId, r.sequence, r.previous, Canonical(r.event))
  }

  /** Two records with different hashed bytes and one digest. */
  ghost predicate ProjectedCollision(env: Env, a: seq<ProjectedRecord>, b: seq<ProjectedRecord>) {
    exists i, j | 0 <= i < |a| && 0 <= j < |b| ::
      ProjectedViewOf(a[i]) != ProjectedViewOf(b[j]) && env.digest(ProjectedViewOf(a[i])) == env.digest(ProjectedViewOf(b[j]))
  }

  ghost predicate SameProjection(a: seq<ProjectedRecord>, b: seq<ProjectedRecord>) {
    |a| == |b| && forall i | 0 <= i < |a| :: a[i].(event := Canonical(a[i].event)) == b[i].(event := Canonical(b[i].event))
  }

  lemma RecordHash(env: Env, out: seq<ProjectedRecord>, bundleId: string, k: nat)
    requires k < |out| && AllFit(env, out, bundleId, |out|)
    ensures var r := out[k];
            && r.hash == "sha256:" + env.digest(ProjectedViewOf(r))
            && r.sequence == k + 1 && r.bundleId == bundleId && r.previous == LastHash(out[..k])
            && r.schemaVersion == SCHEMA_VERSION && r.hashProfile == PROJECTION_HASH_PROFILE
  {
    hide ProjectedEventOk, AliasesNamed, IdentityFits, Canonical, WithinShapeBounds, ViewJson, TaskAlias, EventAlias;
    assert BundleFits(env, out, bundleId, k);
  }

  lemma AllFitPrefix(env: Env, out: seq<ProjectedRecord>, bundleId: string, n: nat)
    requires n <= |out| && AllFit(env, out, bundleId, |out|)
    ensures AllFit(env, out[..n], bundleId, n)
  {
    hide ProjectedEventOk, AliasesNamed, HashProjected, TaskAlias, EventAlias, OneNamespaceEach, PairsOf, LastHash;
    forall i | 0 <= i < n ensures BundleFits(env, out[..n], bundleId, i) {
      assert BundleFits(env, out, bundleId, i);
      assert out[..n][..i] == out[..i] && out[..n][..i + 1] == out[..i + 1];
    }
  }

  /** The last hash of two intact bundles pins their records, up to integer spelling, or they collide. */
  lemma {:induction false} HeadPinsRecords(env: Env, a: seq<ProjectedRecord>, p: string, b: seq<ProjectedRecord>, q: string)
    requires a != [] && AllFit(env, a, p, |a|) && b != [] && AllFit(env, b, q, |b|)
    requires a[|a| - 1].hash == b[|b| - 1].hash
    ensures (p == q && SameProjection(a, b)) || ProjectedCollision(env, a, b)
    decreases |a|
  {
    hide AllFit, Canonical;
    var x, y := a[|a| - 1], b[|b| - 1];
    RecordHash(env, a, p, |a| - 1);
    RecordHash(env, b, q, |b| - 1);
    var dx, dy := env.digest(ProjectedViewOf(x)), env.digest(ProjectedViewOf(y));
    assert ("sha256:" + dx)[7..] == dx && ("sha256:" + dy)[7..] == dy;
    if ProjectedViewOf(x) == ProjectedViewOf(y) {
      if |a| > 1 {
        var n := |a| - 1;
        AllFitPrefix(env, a, p, n);
        AllFitPrefix(env, b, q, n);
        HeadPinsRecords(env, a[..n], p, b[..n], q);
        assert forall i | 0 <= i < n :: a[..n][i] == a[i] && b[..n][i] == b[i];
        if ProjectedCollision(env, a[..n], b[..n]) {
          var i, j :| 0 <= i < n && 0 <= j < n
            && ProjectedViewOf(a[..n][i]) != ProjectedViewOf(b[..n][j])
            && env.digest(ProjectedViewOf(a[..n][i])) == env.digest(ProjectedViewOf(b[..n][j]));
          assert ProjectedViewOf(a[i]) != ProjectedViewOf(b[j]);
        }
      }
    }
  }

  /** Two accepted bundles whose manifests name one head hash hold the same projected records. */
  lemma ManifestPinsRecords(env: Env, a: Bundle, b: Bundle)
    requires BundleOutcome(env, a).ProjectionValid? && BundleOutcome(env, b).ProjectionValid?
    requires a.manifest.headHash == b.manifest.headHash
    ensures || (a.manifest.bundleId == b.manifest.bundleId && SameProjection(a.records, b.records))
            || ProjectedCollision(env, a.records, b.records)
  {
    hide BundleOutcome, AllFit;
    BundleAcceptedIff(env, a);
    BundleAcceptedIff(env, b);
    HeadPinsRecords(env, a.records, a.manifest.bundleId, b.records, b.manifest.bundleId);
  }
}
