/**
 What an exported event still shows. The parts of a projection are the projections of the parts; outside
 aliases and commitments only timestamps and words of one reviewed vocabulary survive; and the offline checker
 accepts exactly the values all of whose parts are of that kind.
 */
module Redaction {
  import opened Values
  import opened Journal
  import opened Verify
  import opened Projection
  import opened Export
  import opened BundleVerify
  import opened BundleTheorem

  /** Part `w` of `v` at the key path `at`; nothing inside a commitment is a part. */
  ghost predicate Within(v: Json, path: seq<string>, w: Json, at: seq<string>)
    decreases v
  {
    || (w == v && at == path)
    || match v
       case Arr(items) => exists i | 0 <= i < |items| :: Within(items[i], path, w, at)
       case Obj(fields) => !IsCommitment(v) && exists k | k in fields :: Within(fields[k], path + [k], w, at)
       case _ => false
  }

  /** The same for projected values, where nothing inside an alias is a part either. */
  ghost predicate Shown(v: Json, path: seq<string>, w: Json, at: seq<string>)
    decreases v
  {
    || (w == v && at == path)
    || match v
       case Arr(items) => exists i | 0 <= i < |items| :: Shown(items[i], path, w, at)
       case Obj(fields) => !IsCommitment(v) && !IsAlias(v) && exists k | k in fields :: Shown(fields[k], path + [k], w, at)
       case _ => false
  }

  // ---------------------------------------------------------------- what is kept

  /** Every literal that may survive, whatever its key. */
  const VOCABULARY: set<string> :=
    EVENT_TYPES + TASK_STATES + WAITING_KINDS + ACTOR_KINDS
    + {"0.1", "success", "failure", "denied", "partial", "pending", "cancelled", "local", "remote", "peer", "cloud",
       "P0", "P1", "P2", "P3", "admitted", "delivered", "pre-destination-admission", "effect-boundary-armed",
       "NOT_STARTED", "STARTED_NO_EFFECT", "COMPLETED", "FAILED_NO_EFFECT", "FAILED_PARTIAL_EFFECT", "OUTCOME_UNKNOWN",
       "destination-not-invoked", "CREATE_NEW_ATTEMPT", "RECONCILE_STATE", "MARK_ATTEMPT_FAILED",
       "REQUIRE_EXTERNAL_RECONCILIATION", "FAIL_TASK", "NO_ACTION", "CLEAN_STAGING", "user-selected",
       "STAGED", "DURABLE", "ORPHANED", "CORRUPT", "MISSING"}

  /** A timestamp under a time key, or a word of the vocabulary. */
  predicate Reviewed(env: Env, key: string, text: string) {
    || (key in {"timestamp", "created_at", "validated_at", "observed_at", "resulted_at"} && env.timestampOk(text))
    || text in VOCABULARY
  }

  lemma RetainedIsReviewed(env: Env, path: seq<string>, text: string)
    requires Retained(env, path, text)
    ensures Reviewed(env, KeyOf(path), text)
  {
    hide EVENT_TYPES, TASK_STATES, WAITING_KINDS, ACTOR_KINDS;
  }

  /** The keys whose values name something: a Task, an event, a principal and so on. */
  const IDENTITY_KEYS: set<string> := {
    "task_id", "event_id", "admission_event_id", "provenance_event_ids", "workspace_id", "plan_id", "step_id", "node_id",
    "active_step_ids", "related_ids", "input_artifacts", "output_artifacts", "data_refs", "source_artifact_id", "id",
    "transition_id", "provider_id", "validator_id", "execution_binding_id", "binding_id", "operation_id",
    "unknown_operation_ids", "allocation_id", "publication_id", "import_id", "registry_snapshot_id",
    "validation_result_id", "authority_token_id", "policy_decision_id", "approval_id"
  }

  /** No string under an identity key is ever kept. */
  lemma IdentityIsNeverRetained(env: Env, path: seq<string>, text: string)
    ensures Namespace(path) != "opaque-value" <==> KeyOf(path) in IDENTITY_KEYS
    ensures Retained(env, path, text) ==> Namespace(path) == "opaque-value" && KeyOf(path) !in IDENTITY_KEYS
  {
    hide NamespaceIn, IDENTITY_KEYS, Literals, KindLiterals, NamesLike, ContextOf;
    NamedKeys(ContextOf(path), KeyOf(path));
    IdentityEnding(KeyOf(path));
    LiteralEnding(KeyOf(path));
  }

  lemma NamedKeys(context: Context, key: string)
    ensures NamespaceIn(context, key) != "opaque-value" <==> key in IDENTITY_KEYS
  {
  }

  /** How the keys that name something end. */
  predicate NamesLike(key: string) {
    |key| >= 2 && key[|key| - 2..] in {"id", "ds", "ts", "fs"}
  }

  lemma IdentityEnding(key: string)
    ensures key in IDENTITY_KEYS ==> NamesLike(key)
  {
  }

  lemma LiteralEnding(key: string)
    ensures NamesLike(key) ==> Literals(key) == {} && key !in TIME_KEYS && key != "kind"
  {
    hide EVENT_TYPES, TASK_STATES;
  }

  /** The enclosing keys decide what an `id` names, an actor before a wait before a skill. */
  lemma NamespaceOfId(path: seq<string>)
    requires KeyOf(path) == "id"
    ensures Namespace(path) == "principal" <==> "actor" in path || "principal" in path
    ensures Namespace(path) == "waiting" <==> "waiting_on" in path && "actor" !in path && "principal" !in path
    ensures Namespace(path) == "skill" <==>
              "skill" in path && "waiting_on" !in path && "actor" !in path && "principal" !in path
  {
  }

  // ---------------------------------------------------------------- parts of a projection

  lemma AliasIsSealed(env: Env, aliasKey: string, namespace: string, text: string)
    ensures Alias(env, aliasKey, namespace, text).Obj? && IsAlias(Alias(env, aliasKey, namespace, text))
  {
    hide AliasDigest;
  }

  /** Every part of a projection is the projection of the part of the source at the same path. */
  lemma {:induction false} PartOfProjection(env: Env, aliasKey: string, v: Json, path: seq<string>, x: Json, at: seq<string>)
    returns (w: Json)
    requires Shown(Project(env, aliasKey, v, path), path, x, at)
    ensures Within(v, path, w, at) && x == Project(env, aliasKey, w, at)
    decreases v
  {
    hide Retained, Namespace, Alias, IsCommitment, IsAlias;
    var p := Project(env, aliasKey, v, path);
    if x == p && at == path {
      w := v;
    } else {
      match v
      case Str(text) =>
        AliasIsSealed(env, aliasKey, Namespace(path), text);
        assert false;
      case Arr(items) =>
        var i :| 0 <= i < |p.items| && Shown(p.items[i], path, x, at);
        w := PartOfProjection(env, aliasKey, items[i], path, x, at);
      case Obj(fields) =>
        if !IsCommitment(v) { ObjectStaysOrdinary(env, aliasKey, v, path); }
        var k :| k in p.fields && Shown(p.fields[k], path + [k], x, at);
        w := PartOfProjection(env, aliasKey, fields[k], path + [k], x, at);
      case _ =>
        assert false;
    }
  }

  /** And the projection of every part of the source is shown, at the same path. */
  lemma {:induction false} ProjectionOfPart(env: Env, aliasKey: string, v: Json, path: seq<string>, w: Json, at: seq<string>)
    requires Within(v, path, w, at)
    ensures Shown(Project(env, aliasKey, v, path), path, Project(env, aliasKey, w, at), at)
    decreases v
  {
    hide Retained, Namespace, Alias, IsCommitment, IsAlias;
    var p := Project(env, aliasKey, v, path);
    if !(w == v && at == path) {
      match v
      case Arr(items) =>
        var i :| 0 <= i < |items| && Within(items[i], path, w, at);
        ProjectionOfPart(env, aliasKey, items[i], path, w, at);
        assert Shown(p.items[i], path, Project(env, aliasKey, w, at), at);
      case Obj(fields) =>
        ObjectStaysOrdinary(env, aliasKey, v, path);
        var k :| k in fields && Within(fields[k], path + [k], w, at);
        ProjectionOfPart(env, aliasKey, fields[k], path + [k], w, at);
        assert Shown(p.fields[k], path + [k], Project(env, aliasKey, w, at), at);
      case _ =>
        assert false;
    }
  }

  /** A string shown by a projection is a timestamp under a time key or a word of the vocabulary, stands under no
      identity key, and is the source's own string there. */
  lemma OnlyReviewedShown(env: Env, aliasKey: string, v: Json, path: seq<string>, text: string, at: seq<string>)
    requires Shown(Project(env, aliasKey, v, path), path, Str(text), at)
    ensures Reviewed(env, KeyOf(at), text) && KeyOf(at) !in IDENTITY_KEYS
    ensures Within(v, path, Str(text), at)
  {
    hide Retained, Namespace, IDENTITY_KEYS, Reviewed, AliasDigest, Within, Shown;
    var w := PartOfProjection(env, aliasKey, v, path, Str(text), at);
    RetainedIsReviewed(env, at, text);
    IdentityIsNeverRetained(env, at, text);
  }

  /** An alias shown by a projection stands for a string of the source at the same path, in the namespace of that
      path; a string under an identity key is always replaced so. */
  lemma AliasesStandForStrings(env: Env, aliasKey: string, v: Json, path: seq<string>, x: Json, at: seq<string>)
    requires Shown(Project(env, aliasKey, v, path), path, x, at)
    ensures IsAlias(x) ==> exists text :: Within(v, path, Str(text), at) && x == Alias(env, aliasKey, Namespace(at), text)
    ensures KeyOf(at) in IDENTITY_KEYS ==> !x.Str?
  {
    hide Retained, Namespace, IDENTITY_KEYS, AliasDigest, Within, Shown;
    var w := PartOfProjection(env, aliasKey, v, path, x, at);
    if IsAlias(x) {
      if w.Obj? && !IsCommitment(w) { ObjectStaysOrdinary(env, aliasKey, w, at); }
      assert w.Str?;
      assert Within(v, path, Str(w.s), at);
    }
    if x.Str? { IdentityIsNeverRetained(env, at, x.s); }
  }

  // ---------------------------------------------------------------- what the checker accepts

  /** What the checker asks of one part. */
  predicate PartOk(env: Env, v: Json, at: seq<string>) {
    match v
    case Str(text) => Retained(env, at, text)
    case Arr(items) => |items| <= MAX_ARRAY_ITEMS
    case Obj(fields) =>
      if IsCommitment(v) then true
      else if IsAlias(v) then ValidAlias(v) && StringField(v, "namespace") == Some(Namespace(at))
      else |fields| <= MAX_OBJECT_FIELDS && forall k | k in RESERVED_KEYS :: k !in fields
    case _ => true
  }

  /** An accepted value has only acceptable parts. */
  lemma {:induction false} AcceptedParts(env: Env, v: Json, path: seq<string>, w: Json, at: seq<string>)
    requires SourceShape(env, v, path).Some? && Shown(v, path, w, at)
    ensures PartOk(env, w, at)
    decreases v
  {
    hide Retained, Namespace, IsCommitment, IsAlias, ValidAlias;
    if w == v && at == path {
      TopOk(env, v, path);
    } else {
      match v
      case Arr(items) =>
        var i :| 0 <= i < |items| && Shown(items[i], path, w, at);
        AcceptedParts(env, items[i], path, w, at);
      case Obj(fields) =>
        var k :| k in fields && Shown(fields[k], path + [k], w, at);
        AcceptedParts(env, fields[k], path + [k], w, at);
      case _ =>
        assert false;
    }
  }

  lemma TopOk(env: Env, v: Json, path: seq<string>)
    requires SourceShape(env, v, path).Some?
    ensures PartOk(env, v, path)
  {
    hide Retained, Namespace, IsCommitment, ValidAlias;
    if v.Obj? { assert forall k | k in RESERVED_KEYS :: k in v.fields ==> k in RESERVED_KEYS; }
  }

  /** And a value with only acceptable parts is accepted. */
  lemma {:induction false} PartsAccepted(env: Env, v: Json, path: seq<string>)
    requires forall w, at | Shown(v, path, w, at) :: PartOk(env, w, at)
    ensures SourceShape(env, v, path).Some?
    decreases v
  {
    hide Retained, Namespace, IsCommitment, IsAlias, ValidAlias, RESERVED_KEYS;
    assert Shown(v, path, v, path);
    assert PartOk(env, v, path);
    match v
    case Arr(items) =>
      forall i | 0 <= i < |items| ensures SourceShape(env, items[i], path).Some? {
        forall w, at | Shown(items[i], path, w, at) ensures PartOk(env, w, at) { assert Shown(v, path, w, at); }
        PartsAccepted(env, items[i], path);
      }
    case Obj(fields) =>
      if !IsCommitment(v) && !IsAlias(v) {
        forall k | k in fields ensures SourceShape(env, fields[k], path + [k]).Some? {
          forall w, at | Shown(fields[k], path + [k], w, at) ensures PartOk(env, w, at) { assert Shown(v, path, w, at); }
          PartsAccepted(env, fields[k], path + [k]);
        }
      }
    case _ =>
  }

  /** Whatever bundle the offline verifier accepts, its events show only timestamps and words of the vocabulary
      outside aliases and commitments, nothing under an identity key, and every alias in the namespace of its path. */
  lemma AcceptedBundleIsRedacted(env: Env, bundle: Bundle, i: nat, w: Json, at: seq<string>)
    requires BundleOutcome(env, bundle).ProjectionValid? && i < |bundle.records|
    requires Shown(bundle.records[i].event, [], w, at)
    ensures w.Str? ==> Reviewed(env, KeyOf(at), w.s) && KeyOf(at) !in IDENTITY_KEYS
    ensures IsAlias(w) && !IsCommitment(w) ==> StringField(w, "namespace") == Some(Namespace(at))
    ensures w.Obj? && !IsAlias(w) && !IsCommitment(w) ==> "event_hash" !in w.fields && "stream_id" !in w.fields
  {
    hide BundleOutcome, Retained, Namespace, IDENTITY_KEYS, Reviewed, Shown, AllFit, ValidAlias;
    BundleAcceptedIff(env, bundle);
    FittingEvent(env, bundle.records, bundle.manifest.bundleId, i);
    AcceptedParts(env, bundle.records[i].event, [], w, at);
    if w.Str? {
      RetainedIsReviewed(env, at, w.s);
      IdentityIsNeverRetained(env, at, w.s);
    }
  }

  lemma FittingEvent(env: Env, out: seq<ProjectedRecord>, bundleId: string, i: nat)
    requires i < |out| && AllFit(env, out, bundleId, |out|)
    ensures SourceShape(env, out[i].event, []).Some?
  {
    hide AliasesNamed, HashProjected, OneNamespaceEach, PairsOf, IdentityFits, EventContractOk, ExportAuthorityLinksOk, SourceShape,
         WithinShapeBounds;
    assert BundleFits(env, out, bundleId, i);
  }

  // ---------------------------------------------------------------- one namespace for each digest

  predicate Names(w: Json, digest: string, namespace: string) {
    IsAlias(w) && StringField(w, "alias") == Some(digest) && StringField(w, "namespace") == Some(namespace)
  }

  /** The pairs collected from an event are those of the aliases it shows. */
  lemma {:induction false} PairIsShown(v: Json, path: seq<string>, pair: (string, string)) returns (w: Json, at: seq<string>)
    requires pair in AliasPairs(v)
    ensures Shown(v, path, w, at) && Names(w, pair.0, pair.1)
    decreases v
  {
    hide IsCommitment, IsAlias;
    match v
    case Obj(fields) =>
      if IsAlias(v) {
        w, at := v, path;
      } else {
        if IsCommitment(v) { CommitmentHasNoAlias(v); }
        var k :| k in fields && pair in AliasPairs(fields[k]);
        w, at := PairIsShown(fields[k], path + [k], pair);
      }
    case Arr(items) =>
      var i :| 0 <= i < |items| && pair in AliasPairs(items[i]);
      w, at := PairIsShown(items[i], path, pair);
  }

  lemma {:induction false} ShownIsPair(v: Json, path: seq<string>, w: Json, at: seq<string>, digest: string, namespace: string)
    requires Shown(v, path, w, at) && Names(w, digest, namespace)
    ensures (digest, namespace) in AliasPairs(v)
    decreases v
  {
    hide IsCommitment, IsAlias, StringField;
    if !(w == v && at == path) {
      match v
      case Arr(items) =>
        var i :| 0 <= i < |items| && Shown(items[i], path, w, at);
        ShownIsPair(items[i], path, w, at, digest, namespace);
      case Obj(fields) =>
        var k :| k in fields && Shown(fields[k], path + [k], w, at);
        ShownIsPair(fields[k], path + [k], w, at, digest, namespace);
      case _ =>
        assert false;
    } else {
      SealedIsObject(w);
    }
  }

  lemma SealedIsObject(w: Json)
    ensures IsAlias(w) ==> w.Obj?
  {
  }

  /** In an accepted bundle one digest never stands for values of two kinds: wherever two aliases share it, in
      whichever records, the paths of both demand the same namespace. */
  lemma OneKindPerDigest(env: Env, bundle: Bundle, i: nat, w: Json, at: seq<string>, j: nat, x: Json, there: seq<string>,
                         digest: string)
    requires BundleOutcome(env, bundle).ProjectionValid? && i <= j < |bundle.records|
    requires Shown(bundle.records[i].event, [], w, at) && Names(w, digest, Namespace(at))
    requires Shown(bundle.records[j].event, [], x, there) && Names(x, digest, Namespace(there))
    ensures Namespace(at) == Namespace(there)
  {
    hide BundleOutcome, Namespace, Shown, AllFit, Names, AliasPairs, IsAlias;
    BundleAcceptedIff(env, bundle);
    ShownIsPair(bundle.records[i].event, [], w, at, digest, Namespace(at));
    ShownIsPair(bundle.records[j].event, [], x, there, digest, Namespace(there));
    PairsAgree(env, bundle.records, bundle.manifest.bundleId, i, j, digest, Namespace(at), Namespace(there));
  }

  lemma PairsAgree(env: Env, out: seq<ProjectedRecord>, bundleId: string, i: nat, j: nat, digest: string, n: string, m: string)
    requires i <= j < |out| && AllFit(env, out, bundleId, |out|)
    requires (digest, n) in AliasPairs(out[i].event) && (digest, m) in AliasPairs(out[j].event)
    ensures n == m
  {
    hide RecordFits, AliasPairs, TaskAlias, EventAlias;
    assert BundleFits(env, out, bundleId, j);
    var upTo := out[..j + 1];
    assert upTo[i] == out[i] && upTo[j] == out[j];
    assert (digest, n) in PairsOf(upTo) && (digest, m) in PairsOf(upTo);
  }

  // ---------------------------------------------------------------- placeholders

  /** An upper-case word of letters, digits and underscores. */
  predicate Code(s: string) {
    forall i | 0 <= i < |s| :: 'A' <= s[i] <= 'Z' || '0' <= s[i] <= '9' || s[i] == '_'
  }

  /** What stands in for an alias has the form that the event contract asks for at that place. */
  lemma PlaceholderFits(path: seq<string>, digest: string)
    requires |digest| == 71 && digest[..7] == "sha256:" && HexDigest(digest[7..])
    ensures var key, p := KeyOf(path), Placeholder(path, digest);
            && ("export_authority" in path && key == "service_id" ==> "service://" <= p && p[10..] == digest)
            && ("export_authority" in path && key == "sensitivity" ==> p == "private")
            && (key == "reason_code" || (key == "code" && "failure" in path) ==> Code(p) && "PROJECTED_" <= p && |p| == 74)
            && (key == "ir_version" && "active_program" in path ==> HexDigest(p))
            && (key in IDENTITY_KEYS || key == "content_hash" || key == "semantic_program_hash" ==> p == digest)
  {
    hide IDENTITY_KEYS;
    var key := KeyOf(path);
    assert key in {"service_id", "sensitivity", "reason_code", "code", "ir_version"} ==> key !in IDENTITY_KEYS by { OtherKeys(key); }
    UpperIsCode(digest[7..]);
  }

  lemma OtherKeys(key: string)
    ensures key in {"service_id", "sensitivity", "reason_code", "code", "ir_version"} ==> key !in IDENTITY_KEYS
  {
  }

  lemma UpperIsCode(s: string)
    requires HexDigest(s)
    ensures Code(Upper(s)) && |Upper(s)| == |s|
  {
    forall i | 0 <= i < |s| ensures 'A' <= Upper(s)[i] <= 'Z' || '0' <= Upper(s)[i] <= '9' { assert HexDigit(s[i]); }
  }
}
