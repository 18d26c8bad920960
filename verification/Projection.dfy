/**
 The privacy-redacted projection of journal events: every string that is not a reviewed literal
 becomes a bundle-local alias in the namespace its path demands, and the checker that the
 offline verifier runs over projected events.
 */
module Projection {
  import opened Values
  import opened Journal

  const ALIAS_KIND: string := "bundle-local-alias"
  const COMMITMENT_KIND: string := "task-field-commitment"

  const EVENT_TYPES: set<string> := {
    "task.created", "task.transitioned", "task.paused", "task.resumed", "task.cancelled",
    "task.completed", "task.failed", "intent.normalized", "plan.created", "plan.revised",
    "ir.validation.started", "ir.validation.completed", "ir.validation.failed",
    "registry.snapshot.selected", "capability.resolved", "authorization.requested",
    "authorization.granted", "authorization.denied", "approval.requested", "approval.granted",
    "approval.denied", "provider.selected", "placement.selected", "execution.bound",
    "execution.started", "execution.completed", "execution.failed", "model.invoked",
    "model.completed", "egress.started", "egress.completed", "artifact.imported",
    "artifact.created", "artifact.exported", "artifact.verified", "artifact.integrity-failed",
    "verification.started", "verification.completed", "verification.failed", "rollback.started",
    "rollback.completed", "skill.proposed", "skill.created", "skill.validated", "skill.compiled",
    "skill.executed", "skill.invalidated"
  }
  const TASK_STATES: set<string> := {
    "CREATED", "PLANNING", "WAITING_FOR_INPUT", "WAITING_FOR_AUTH", "RUNNABLE", "RUNNING",
    "VERIFYING", "PAUSED", "RECOVERING", "ROLLING_BACK", "COMPLETED", "FAILED", "CANCELLED",
    "ROLLED_BACK"
  }
  const WAITING_KINDS: set<string> := {"input", "approval", "resource", "provider", "validation"}
  const ACTOR_KINDS: set<string> := {
    "user", "agent", "provider", "model-provider", "system-service", "legacy-app",
    "policy-engine", "validator", "peer-node"
  }
  const TIME_KEYS: set<string> := {"timestamp", "created_at", "validated_at", "observed_at", "resulted_at"}

  /** Literals kept under a key whose meaning does not depend on the enclosing path. */
  function Literals(key: string): set<string> {
    if key == "schema_version" then {SCHEMA_VERSION}
    else if key == "event_type" then EVENT_TYPES
    else if key == "status" then {"success", "failure", "denied", "partial", "pending", "cancelled"}
    else if key == "previous_state" || key == "new_state" then TASK_STATES
    else if key == "locality" then {"local", "remote", "peer", "cloud"}
    else if key == "isolation_class" then {"P0", "P1", "P2", "P3"}
    else if key == "phase" then
      {"admitted", "delivered", "pre-destination-admission", "effect-boundary-armed"}
    else if key == "outcome_certainty" || key == "certainty" then
      {"NOT_STARTED", "STARTED_NO_EFFECT", "COMPLETED", "FAILED_NO_EFFECT", "FAILED_PARTIAL_EFFECT",
       "OUTCOME_UNKNOWN"}
    else if key == "effect_boundary" then {"destination-not-invoked"}
    else if key == "safe_action" then
      {"CREATE_NEW_ATTEMPT", "RECONCILE_STATE", "MARK_ATTEMPT_FAILED",
       "REQUIRE_EXTERNAL_RECONCILIATION", "FAIL_TASK", "NO_ACTION", "CLEAN_STAGING"}
    else if key == "source" then {"user-selected"}
    else if key == "previous_durability_state" || key == "durability_state" then
      {"STAGED", "DURABLE", "ORPHANED", "CORRUPT", "MISSING"}
    else {}
  }

  /** The part of a path that retention and namespaces look at. */
  datatype Context = Context(principal: bool, waiting: bool, skill: bool)

  function ContextOf(path: seq<string>): Context {
    Context("actor" in path || "principal" in path, "waiting_on" in path, "skill" in path)
  }

  function KeyOf(path: seq<string>): string {
    if path == [] then "" else path[|path| - 1]
  }

  function KindLiterals(context: Context): set<string> {
    if context.waiting then WAITING_KINDS else if context.principal then ACTOR_KINDS else {}
  }

  predicate RetainedIn(env: Env, context: Context, key: string, text: string) {
    if key in TIME_KEYS then env.timestampOk(text)
    else if key == "kind" then text in KindLiterals(context)
    else text in Literals(key)
  }

  predicate Retained(env: Env, path: seq<string>, text: string) {
    RetainedIn(env, ContextOf(path), KeyOf(path), text)
  }

  function NamespaceIn(context: Context, key: string): string {
    if key == "task_id" then "task"
    else if key in {"event_id", "admission_event_id", "provenance_event_ids"} then "event"
    else if key == "workspace_id" then "workspace"
    else if key == "plan_id" then "plan"
    else if key in {"step_id", "node_id", "active_step_ids"} then "step"
    else if key == "related_ids" then "related"
    else if key in {"input_artifacts", "output_artifacts", "data_refs", "source_artifact_id"} then "artifact"
    else if key == "id" then
      if context.principal then "principal" else if context.waiting then "waiting"
      else if context.skill then "skill" else "identifier"
    else if key == "transition_id" then "transition"
    else if key in {"provider_id", "validator_id"} then "provider"
    else if key in {"execution_binding_id", "binding_id"} then "binding"
    else if key in {"operation_id", "unknown_operation_ids"} then "operation"
    else if key == "allocation_id" then "allocation"
    else if key == "publication_id" then "publication"
    else if key == "import_id" then "import"
    else if key == "registry_snapshot_id" then "registry-snapshot"
    else if key == "validation_result_id" then "validation-result"
    else if key == "authority_token_id" then "authority-token"
    else if key == "policy_decision_id" then "policy-decision"
    else if key == "approval_id" then "approval"
    else "opaque-value"
  }

  function Namespace(path: seq<string>): string {
    NamespaceIn(ContextOf(path), KeyOf(path))
  }

  const NAMESPACES: set<string> := {
    "task", "event", "workspace", "plan", "step", "related", "artifact", "principal", "waiting",
    "skill", "identifier", "transition", "provider", "binding", "operation", "allocation",
    "publication", "import", "registry-snapshot", "validation-result", "authority-token",
    "policy-decision", "approval", "opaque-value"
  }

  const COMMITTED_FIELDS: set<string> := {
    "original_intent", "normalized_intent", "reason_message", "waiting_message", "failure_summary"
  }

  predicate IsCommitment(v: Json) {
    var field := StringField(v, "field");
    var commitment := StringField(v, "commitment");
    && v.Obj? && |v.fields| == 5
    && StringField(v, "kind") == Some(COMMITMENT_KIND)
    && StringField(v, "version") == Some("v1")
    && StringField(v, "algorithm") == Some("sha256-keyed-prefix")
    && field.Some? && field.value in COMMITTED_FIELDS
    && commitment.Some? && ValidHash(commitment.value)
  }

  function AliasDigest(env: Env, aliasKey: string, namespace: string, text: string): string {
    "sha256:" + env.digest(AliasView(aliasKey, namespace, text))
  }

  function Alias(env: Env, aliasKey: string, namespace: string, text: string): Json {
    Obj(map["kind" := Str(ALIAS_KIND), "version" := Str("v1"), "namespace" := Str(namespace),
            "alias" := Str(AliasDigest(env, aliasKey, namespace, text))])
  }

  /** `project_value`. */
  function Project(env: Env, aliasKey: string, v: Json, path: seq<string>): Json
    decreases v
  {
    match v
    case Str(text) => if Retained(env, path, text) then v else Alias(env, aliasKey, Namespace(path), text)
    case Arr(items) => Arr(seq(|items|, i requires 0 <= i < |items| => Project(env, aliasKey, items[i], path)))
    case Obj(fields) =>
      if IsCommitment(v) then v
      else Obj(map k | k in fields :: Project(env, aliasKey, fields[k], path + [k]))
    case _ => v
  }

  const RESERVED_KEYS: set<string> := {"stream_id", "event_hash", "previous_event_hash", "head_event_hash"}

  predicate IsAlias(v: Json) {
    v.Obj? && StringField(v, "kind") == Some(ALIAS_KIND)
  }

  predicate ValidAlias(v: Json)
    requires IsAlias(v)
  {
    var alias := StringField(v, "alias");
    var namespace := StringField(v, "namespace");
    && |v.fields| == 4
    && StringField(v, "version") == Some("v1")
    && alias.Some? && ValidHash(alias.value)
    && namespace.Some? && namespace.value in NAMESPACES
  }

  function Upper(s: string): string {
    seq(|s|, i requires 0 <= i < |s| => if 'a' <= s[i] <= 'z' then s[i] - 'a' + 'A' else s[i])
  }

  /** The string that stands in for an alias when the event contract is checked again. */
  function Placeholder(path: seq<string>, digest: string): string
    requires |digest| == 71
  {
    var key := KeyOf(path);
    if "export_authority" in path && key == "service_id" then "service://" + digest
    else if "export_authority" in path && key == "sensitivity" then "private"
    else if key == "reason_code" || (key == "code" && "failure" in path) then "PROJECTED_" + Upper(digest[7..])
    else if key == "ir_version" && "active_program" in path then digest[7..]
    else digest
  }

  /** `projected_source_shape`: nothing when the value is not an acceptable projection. */
  function SourceShape(env: Env, v: Json, path: seq<string>): Option<Json>
    decreases v
  {
    match v
    case Str(text) => if Retained(env, path, text) then Some(v) else None
    case Arr(items) =>
      if |items| > MAX_ARRAY_ITEMS then None
      else if exists i | 0 <= i < |items| :: SourceShape(env, items[i], path).None? then None
      else Some(Arr(seq(|items|, i requires 0 <= i < |items| && SourceShape(env, items[i], path).Some? =>
                          SourceShape(env, items[i], path).value)))
    case Obj(fields) =>
      if IsCommitment(v) then Some(v)
      else if IsAlias(v) then
        if ValidAlias(v) && StringField(v, "namespace") == Some(Namespace(path))
        then Some(Str(Placeholder(path, StringField(v, "alias").value))) else None
      else if |fields| > MAX_OBJECT_FIELDS || exists k | k in fields :: k in RESERVED_KEYS then None
      else if exists k | k in fields :: SourceShape(env, fields[k], path + [k]).None? then None
      else Some(Obj(map k | k in fields && SourceShape(env, fields[k], path + [k]).Some? ::
                      SourceShape(env, fields[k], path + [k]).value))
    case _ => Some(v)
  }

  // ---------------------------------------------------------------- the two agree

  /** The source event with each aliased string replaced by its placeholder. */
  function Redacted(env: Env, aliasKey: string, v: Json, path: seq<string>): Json
    requires forall view :: HexDigest(env.digest(view))
    decreases v
  {
    match v
    case Str(text) =>
      if Retained(env, path, text) then v
      else
        assert HexDigest(env.digest(AliasView(aliasKey, Namespace(path), text)));
        Str(Placeholder(path, AliasDigest(env, aliasKey, Namespace(path), text)))
    case Arr(items) => Arr(seq(|items|, i requires 0 <= i < |items| => Redacted(env, aliasKey, items[i], path)))
    case Obj(fields) =>
      if IsCommitment(v) then v
      else Obj(map k | k in fields :: Redacted(env, aliasKey, fields[k], path + [k]))
    case _ => v
  }

  /** Array and object sizes and reserved keys, outside commitments. */
  predicate Projectable(v: Json)
    decreases v
  {
    match v
    case Arr(items) =>
      |items| <= MAX_ARRAY_ITEMS && forall i | 0 <= i < |items| :: Projectable(items[i])
    case Obj(fields) =>
      || IsCommitment(v)
      || (&& |fields| <= MAX_OBJECT_FIELDS
          && (forall k | k in fields :: k !in RESERVED_KEYS)
          && forall k | k in fields :: Projectable(fields[k]))
    case _ => true
  }

  lemma MarkersAreNotRetained(env: Env, path: seq<string>, text: string)
    requires text == ALIAS_KIND || text == COMMITMENT_KIND
    ensures !Retained(env, path + ["kind"], text)
  {
    assert KeyOf(path + ["kind"]) == "kind";
  }

  lemma NamespaceIsKnown(context: Context, key: string)
    ensures NamespaceIn(context, key) in NAMESPACES
  {}

  lemma AliasShape(env: Env, aliasKey: string, namespace: string, text: string)
    requires HexDigest(env.digest(AliasView(aliasKey, namespace, text)))
    requires namespace in NAMESPACES
    ensures var a := Alias(env, aliasKey, namespace, text);
            && IsAlias(a) && ValidAlias(a) && !IsCommitment(a)
            && StringField(a, "namespace") == Some(namespace)
            && StringField(a, "alias") == Some(AliasDigest(env, aliasKey, namespace, text))
  {
    hide NAMESPACES;
    var a := Alias(env, aliasKey, namespace, text);
    var h := AliasDigest(env, aliasKey, namespace, text);
    assert h[..7] == "sha256:";
    assert a.fields.Keys == {"kind", "version", "namespace", "alias"};
    assert |a.fields| == |a.fields.Keys|;
  }

  /** Projecting an ordinary object never yields something that reads as an alias or a commitment. */
  lemma ObjectStaysOrdinary(env: Env, aliasKey: string, v: Json, path: seq<string>)
    requires v.Obj? && !IsCommitment(v)
    ensures var p := Project(env, aliasKey, v, path);
            p.Obj? && p.fields.Keys == v.fields.Keys && |p.fields| == |v.fields|
            && !IsAlias(p) && !IsCommitment(p)
  {
    hide Retained, Namespace;
    var p := Project(env, aliasKey, v, path);
    assert p.fields.Keys == v.fields.Keys;
    assert |p.fields| == |p.fields.Keys| && |v.fields| == |v.fields.Keys|;
    MarkersAreNotRetained(env, path, ALIAS_KIND);
    MarkersAreNotRetained(env, path, COMMITMENT_KIND);
  }

  /**
   The checker accepts the projection of a value exactly when the value has no reserved keys and no
   oversized arrays or objects, and then recovers the value with only its aliased strings replaced.
   */
  lemma {:induction false} ProjectionHasSourceShape(env: Env, aliasKey: string, v: Json, path: seq<string>)
    requires forall view :: HexDigest(env.digest(view))
    ensures SourceShape(env, Project(env, aliasKey, v, path), path)
         == if Projectable(v) then Some(Redacted(env, aliasKey, v, path)) else None
    decreases v
  {
    hide Retained, Namespace, Placeholder, AliasDigest, IsCommitment, Alias, IsAlias, ValidAlias;
    var p := Project(env, aliasKey, v, path);
    match v
    case Str(text) =>
      if !Retained(env, path, text) {
        AliasProjects(env, aliasKey, text, path);
      }
    case Arr(items) =>
      forall i | 0 <= i < |items|
        ensures SourceShape(env, p.items[i], path)
             == if Projectable(items[i]) then Some(Redacted(env, aliasKey, items[i], path)) else None
      {
        ProjectionHasSourceShape(env, aliasKey, items[i], path);
      }
      if Projectable(v) {
        assert SourceShape(env, p, path).value.items == Redacted(env, aliasKey, v, path).items;
      }
    case Obj(fields) =>
      if !IsCommitment(v) {
        ObjectStaysOrdinary(env, aliasKey, v, path);
        forall k | k in fields
          ensures SourceShape(env, p.fields[k], path + [k])
               == if Projectable(fields[k]) then Some(Redacted(env, aliasKey, fields[k], path + [k])) else None
        {
          ProjectionHasSourceShape(env, aliasKey, fields[k], path + [k]);
        }
        if Projectable(v) {
          assert SourceShape(env, p, path).value.fields == Redacted(env, aliasKey, v, path).fields;
        }
      }
    case _ =>
  }

  lemma AliasProjects(env: Env, aliasKey: string, text: string, path: seq<string>)
    requires HexDigest(env.digest(AliasView(aliasKey, Namespace(path), text)))
    ensures SourceShape(env, Alias(env, aliasKey, Namespace(path), text), path)
         == Some(Str(Placeholder(path, AliasDigest(env, aliasKey, Namespace(path), text))))
  {
    hide Placeholder, NamespaceIn, NAMESPACES, AliasDigest, IsCommitment, ValidAlias;
    NamespaceIsKnown(ContextOf(path), KeyOf(path));
    AliasShape(env, aliasKey, Namespace(path), text);
  }

  // ---------------------------------------------------------------- depth

  /** Every string that will be aliased sits above the depth limit. */
  predicate AliasesFit(env: Env, v: Json, path: seq<string>, depth: nat)
    decreases v
  {
    match v
    case Str(text) => Retained(env, path, text) || depth < MAX_JSON_DEPTH
    case Arr(items) => forall i | 0 <= i < |items| :: AliasesFit(env, items[i], path, depth + 1)
    case Obj(fields) =>
      IsCommitment(v) || forall k | k in fields :: AliasesFit(env, fields[k], path + [k], depth + 1)
    case _ => true
  }

  lemma AliasBounds(env: Env, aliasKey: string, namespace: string, text: string, depth: nat)
    requires HexDigest(env.digest(AliasView(aliasKey, namespace, text)))
    requires |namespace| <= 32
    ensures WithinBounds(Alias(env, aliasKey, namespace, text), depth) <==> depth < MAX_JSON_DEPTH
  {
    var digest := AliasDigest(env, aliasKey, namespace, text);
    var a := map["kind" := Str(ALIAS_KIND), "version" := Str("v1"), "namespace" := Str(namespace), "alias" := Str(digest)];
    assert |digest| <= MAX_STRING_CHARS;
    assert a.Keys == {"kind", "version", "namespace", "alias"};
    assert |a| == |a.Keys| == 4;
    hide AliasDigest, HexDigest;
    StringBounds(digest, depth + 1);
    StringBounds(namespace, depth + 1);
    StringBounds("v1", depth + 1);
    StringBounds(ALIAS_KIND, depth + 1);
    assert "alias" in a;
  }

  lemma StringBounds(s: string, depth: nat)
    requires |s| <= MAX_STRING_CHARS
    ensures WithinBounds(Str(s), depth) <==> depth <= MAX_JSON_DEPTH
  {
  }

  lemma NamespaceLength(path: seq<string>)
    ensures |Namespace(path)| <= 32
  {}

  lemma ArrayMembers(v: Json, depth: nat, i: nat)
    requires v.Arr? && i < |v.items| && WithinBounds(v, depth)
    ensures WithinBounds(v.items[i], depth + 1)
  {
  }

  lemma ArrayBounds(env: Env, aliasKey: string, items: seq<Json>, path: seq<string>, depth: nat)
    requires WithinBounds(Arr(items), depth)
    requires forall i | 0 <= i < |items| ::
               WithinBounds(Project(env, aliasKey, items[i], path), depth + 1) <==> AliasesFit(env, items[i], path, depth + 1)
    ensures WithinBounds(Project(env, aliasKey, Arr(items), path), depth) <==> AliasesFit(env, Arr(items), path, depth)
  {
    hide Retained, Namespace, AliasDigest, IsCommitment, Alias, SafeNumber;
    var p := Project(env, aliasKey, Arr(items), path);
    assert forall i | 0 <= i < |items| :: p.items[i] == Project(env, aliasKey, items[i], path);
  }

  /** Projection stays within the shape bounds exactly when no aliased string sits at the depth limit. */
  lemma {:induction false} ProjectionBounds(env: Env, aliasKey: string, v: Json, path: seq<string>, depth: nat)
    requires forall view :: HexDigest(env.digest(view))
    requires WithinBounds(v, depth)
    ensures WithinBounds(Project(env, aliasKey, v, path), depth) <==> AliasesFit(env, v, path, depth)
    decreases v
  {
    hide Retained, Namespace, AliasDigest, IsCommitment, Alias, SafeNumber;
    match v
    case Str(text) =>
      if !Retained(env, path, text) {
        NamespaceLength(path);
        AliasBounds(env, aliasKey, Namespace(path), text, depth);
      }
    case Arr(items) =>
      hide WithinBounds, Project, AliasesFit;
      forall i | 0 <= i < |items|
        ensures WithinBounds(Project(env, aliasKey, items[i], path), depth + 1)
           <==> AliasesFit(env, items[i], path, depth + 1)
      {
        ArrayMembers(v, depth, i);
        ProjectionBounds(env, aliasKey, items[i], path, depth + 1);
      }
      ArrayBounds(env, aliasKey, items, path, depth);
    case Obj(fields) =>
      if !IsCommitment(v) {
        ObjectStaysOrdinary(env, aliasKey, v, path);
        forall k | k in fields
          ensures WithinBounds(Project(env, aliasKey, fields[k], path + [k]), depth + 1)
             <==> AliasesFit(env, fields[k], path + [k], depth + 1)
        {
          ProjectionBounds(env, aliasKey, fields[k], path + [k], depth + 1);
        }
        var p := Project(env, aliasKey, v, path);
        assert forall k | k in fields :: p.fields[k] == Project(env, aliasKey, fields[k], path + [k]);
      }
    case _ =>
  }

  /** At most this many levels of values: one for a scalar, one more for each enclosing container. */
  predicate Nests(v: Json, levels: nat)
    decreases v
  {
    && levels >= 1
    && match v
       case Arr(items) => forall i | 0 <= i < |items| :: Nests(items[i], levels - 1)
       case Obj(fields) => forall k | k in fields :: Nests(fields[k], levels - 1)
       case _ => true
  }

  /** A shallow value is within bounds wherever it is placed above the limit. */
  lemma {:induction false} NestsBounds(v: Json, depth: nat, place: nat, levels: nat)
    requires WithinBounds(v, depth) && Nests(v, levels) && place + levels <= MAX_JSON_DEPTH + 1
    ensures WithinBounds(v, place)
    decreases v
  {
    match v
    case Arr(items) =>
      forall i | 0 <= i < |items| ensures WithinBounds(items[i], place + 1) {
        NestsBounds(items[i], depth + 1, place + 1, levels - 1);
      }
    case Obj(fields) =>
      forall k | k in fields ensures WithinBounds(fields[k], place + 1) {
        NestsBounds(fields[k], depth + 1, place + 1, levels - 1);
      }
    case _ =>
  }

  lemma {:induction false} NestsAliases(env: Env, v: Json, path: seq<string>, place: nat, levels: nat)
    requires Nests(v, levels) && place + levels <= MAX_JSON_DEPTH
    ensures AliasesFit(env, v, path, place)
    decreases v
  {
    hide Retained, IsCommitment;
    match v
    case Arr(items) =>
      forall i | 0 <= i < |items| ensures AliasesFit(env, items[i], path, place + 1) {
        NestsAliases(env, items[i], path, place + 1, levels - 1);
      }
    case Obj(fields) =>
      forall k | k in fields ensures AliasesFit(env, fields[k], path + [k], place + 1) {
        NestsAliases(env, fields[k], path + [k], place + 1, levels - 1);
      }
    case _ =>
  }

  function Nested(n: nat, v: Json): Json {
    if n == 0 then v else Arr([Nested(n - 1, v)])
  }

  /** `project_value` on arbitrary values can leave the bounds: a plain string nested 31 arrays deep.
      Journal events are far shallower, see `BundleTheorem.ProjectionHashable`. */
  lemma {:induction false} ProjectionCanExceedBounds(env: Env, aliasKey: string, n: nat)
    requires forall view :: HexDigest(env.digest(view))
    requires n <= 31
    ensures var v := Nested(n, Str("x"));
            WithinBounds(v, 32 - n) && !WithinBounds(Project(env, aliasKey, v, []), 32 - n)
  {
    hide AliasDigest, Alias;
    var v := Nested(n, Str("x"));
    if n == 0 {
      assert KeyOf([]) == "";
      NamespaceLength([]);
      AliasBounds(env, aliasKey, Namespace([]), "x", 32);
    } else {
      ProjectionCanExceedBounds(env, aliasKey, n - 1);
      assert v.items[0] == Nested(n - 1, Str("x"));
      assert Project(env, aliasKey, v, []).items[0] == Project(env, aliasKey, v.items[0], []);
    }
  }

  // ---------------------------------------------------------------- injectivity

  /** The alias inputs hashed while projecting a value. */
  ghost function AliasViews(env: Env, aliasKey: string, v: Json, path: seq<string>): set<HashView>
    decreases v
  {
    match v
    case Str(text) => if Retained(env, path, text) then {} else {AliasView(aliasKey, Namespace(path), text)}
    case Arr(items) =>
      set i, x | 0 <= i < |items| && x in AliasViews(env, aliasKey, items[i], path) :: x
    case Obj(fields) =>
      if IsCommitment(v) then {}
      else set k, x | k in fields && x in AliasViews(env, aliasKey, fields[k], path + [k]) :: x
    case _ => {}
  }

  ghost predicate CollisionFree(env: Env, views: set<HashView>) {
    forall a, b | a in views && b in views && env.digest(a) == env.digest(b) :: a == b
  }

  /** Two places at which the same string is treated the same way. */
  ghost predicate SamePlace(env: Env, p: seq<string>, q: seq<string>) {
    && ContextOf(p) == ContextOf(q)
    && Namespace(p) == Namespace(q)
    && forall text :: Retained(env, p, text) <==> Retained(env, q, text)
  }

  lemma SamePlaceBelow(env: Env, p: seq<string>, q: seq<string>, k: string)
    requires ContextOf(p) == ContextOf(q)
    ensures SamePlace(env, p + [k], q + [k])
  {
    hide NamespaceIn, RetainedIn;
    assert KeyOf(p + [k]) == k == KeyOf(q + [k]);
    ContextBelow(p, k);
    ContextBelow(q, k);
  }

  lemma ContextBelow(p: seq<string>, k: string)
    ensures ContextOf(p + [k])
         == Context(ContextOf(p).principal || k == "actor" || k == "principal",
                    ContextOf(p).waiting || k == "waiting_on", ContextOf(p).skill || k == "skill")
  {}

  lemma AliasInjective(env: Env, aliasKey: string, n: string, t: string, m: string, u: string)
    requires CollisionFree(env, {AliasView(aliasKey, n, t), AliasView(aliasKey, m, u)})
    requires AliasDigest(env, aliasKey, n, t) == AliasDigest(env, aliasKey, m, u)
    ensures n == m && t == u
  {
    var x, y := env.digest(AliasView(aliasKey, n, t)), env.digest(AliasView(aliasKey, m, u));
    assert ("sha256:" + x)[7..] == x && ("sha256:" + y)[7..] == y;
    assert AliasView(aliasKey, n, t) in {AliasView(aliasKey, n, t), AliasView(aliasKey, m, u)};
  }

  lemma AliasDetermines(env: Env, aliasKey: string, n: string, t: string, m: string, u: string)
    ensures Alias(env, aliasKey, n, t) == Alias(env, aliasKey, m, u)
       ==> AliasDigest(env, aliasKey, n, t) == AliasDigest(env, aliasKey, m, u)
  {
    hide AliasDigest;
    var a, b := Alias(env, aliasKey, n, t), Alias(env, aliasKey, m, u);
    assert a.fields["alias"] == Str(AliasDigest(env, aliasKey, n, t));
    assert b.fields["alias"] == Str(AliasDigest(env, aliasKey, m, u));
  }

  lemma AliasIsNotOrdinary(env: Env, aliasKey: string, n: string, t: string, v: Json, path: seq<string>)
    requires !v.Str?
    ensures Project(env, aliasKey, v, path) != Alias(env, aliasKey, n, t)
  {
    hide Retained, Namespace, AliasDigest;
    var a := Alias(env, aliasKey, n, t);
    assert StringField(a, "kind") == Some(ALIAS_KIND);
    if v.Obj? && !IsCommitment(v) { ObjectStaysOrdinary(env, aliasKey, v, path); }
  }

  /** At equivalent places, projections are equal exactly when the projected values are. */
  lemma {:induction false} ProjectionInjective(env: Env, aliasKey: string, v: Json, p: seq<string>,
                                               w: Json, q: seq<string>, views: set<HashView>)
    requires SamePlace(env, p, q) && CollisionFree(env, views)
    requires AliasViews(env, aliasKey, v, p) <= views && AliasViews(env, aliasKey, w, q) <= views
    ensures Project(env, aliasKey, v, p) == Project(env, aliasKey, w, q) <==> v == w
    decreases v
  {
    hide Retained, Namespace, AliasDigest, IsCommitment, Alias, ContextOf;
    var x, y := Project(env, aliasKey, v, p), Project(env, aliasKey, w, q);
    match v
    case Str(t) => StringInjective(env, aliasKey, t, p, w, q, views);
    case Arr(items) =>
      if w.Arr? && |items| == |w.items| {
        forall i | 0 <= i < |items| ensures x.items[i] == y.items[i] <==> items[i] == w.items[i] {
          assert AliasViews(env, aliasKey, items[i], p) <= views by {
            forall u | u in AliasViews(env, aliasKey, items[i], p) ensures u in views {
              assert u in AliasViews(env, aliasKey, v, p);
            }
          }
          assert AliasViews(env, aliasKey, w.items[i], q) <= views by {
            forall u | u in AliasViews(env, aliasKey, w.items[i], q) ensures u in views {
              assert u in AliasViews(env, aliasKey, w, q);
            }
          }
          ProjectionInjective(env, aliasKey, items[i], p, w.items[i], q, views);
        }
        assert x.items == y.items <==> items == w.items;
      } else {
        OtherKinds(env, aliasKey, v, p, w, q);
      }
    case Obj(fields) =>
      if w.Obj? && !IsCommitment(v) && !IsCommitment(w) && fields.Keys == w.fields.Keys {
        forall k | k in fields ensures x.fields[k] == y.fields[k] <==> fields[k] == w.fields[k] {
          SamePlaceBelow(env, p, q, k);
          assert AliasViews(env, aliasKey, fields[k], p + [k]) <= views by {
            forall u | u in AliasViews(env, aliasKey, fields[k], p + [k]) ensures u in views {
              assert u in AliasViews(env, aliasKey, v, p);
            }
          }
          assert AliasViews(env, aliasKey, w.fields[k], q + [k]) <= views by {
            forall u | u in AliasViews(env, aliasKey, w.fields[k], q + [k]) ensures u in views {
              assert u in AliasViews(env, aliasKey, w, q);
            }
          }
          ProjectionInjective(env, aliasKey, fields[k], p + [k], w.fields[k], q + [k], views);
        }
        assert x.fields == y.fields <==> fields == w.fields;
      } else {
        OtherKinds(env, aliasKey, v, p, w, q);
      }
    case _ => OtherKinds(env, aliasKey, v, p, w, q);
  }

  lemma StringInjective(env: Env, aliasKey: string, t: string, p: seq<string>, w: Json, q: seq<string>,
                        views: set<HashView>)
    requires SamePlace(env, p, q) && CollisionFree(env, views)
    requires AliasViews(env, aliasKey, Str(t), p) <= views && AliasViews(env, aliasKey, w, q) <= views
    ensures Project(env, aliasKey, Str(t), p) == Project(env, aliasKey, w, q) <==> Str(t) == w
  {
    hide Retained, Namespace, AliasDigest, IsCommitment, ContextOf;
    if w.Str? {
      if !Retained(env, p, t) && !Retained(env, q, w.s) {
        assert AliasView(aliasKey, Namespace(p), t) in views && AliasView(aliasKey, Namespace(q), w.s) in views;
        AliasDetermines(env, aliasKey, Namespace(p), t, Namespace(q), w.s);
        if Project(env, aliasKey, Str(t), p) == Project(env, aliasKey, w, q) {
          AliasInjective(env, aliasKey, Namespace(p), t, Namespace(q), w.s);
        }
      }
    } else if !Retained(env, p, t) {
      AliasIsNotOrdinary(env, aliasKey, Namespace(p), t, w, q);
    }
  }

  /** Values of different kinds, sizes or key sets never project to the same value. */
  lemma OtherKinds(env: Env, aliasKey: string, v: Json, p: seq<string>, w: Json, q: seq<string>)
    requires !v.Str?
    requires v.Arr? ==> !(w.Arr? && |v.items| == |w.items|)
    requires v.Obj? ==> !(w.Obj? && !IsCommitment(v) && !IsCommitment(w) && v.fields.Keys == w.fields.Keys)
    ensures Project(env, aliasKey, v, p) == Project(env, aliasKey, w, q) <==> v == w
  {
    hide Retained, Namespace, AliasDigest, IsCommitment, Alias;
    if w.Str? && !Retained(env, q, w.s) {
      AliasIsNotOrdinary(env, aliasKey, Namespace(q), w.s, v, p);
    }
    if v.Obj? && !IsCommitment(v) { ObjectStaysOrdinary(env, aliasKey, v, p); }
    if w.Obj? && !IsCommitment(w) { ObjectStaysOrdinary(env, aliasKey, w, q); }
    var x, y := Project(env, aliasKey, v, p), Project(env, aliasKey, w, q);
    assert v.Obj? && IsCommitment(v) ==> x == v;
    assert w.Obj? && IsCommitment(w) ==> y == w;
    assert v.Arr? ==> x.Arr? && |x.items| == |v.items|;
    assert w.Arr? ==> y.Arr? && |y.items| == |w.items|;
  }
}
