/**
 Projection keeps what the offline verifier looks at: export authority links and the Task
 revision fold are preserved and reflected, and every exported bundle is accepted.
 */
module ExportTheorems {
  import opened Values
  import opened Journal
  import opened Projection

  // ---------------------------------------------------------------- members of a projection

  const COMMITMENT_KEYS: set<string> := {"kind", "version", "algorithm", "field", "commitment"}

  /** Keys that alias and commitment objects use themselves. */
  const MARKER_KEYS: set<string> := COMMITMENT_KEYS + {"namespace", "alias"}

  lemma {:induction false} SubsetOfSameSize(a: set<string>, b: set<string>)
    requires a <= b && |a| == |b|
    ensures a == b
  {
    if x :| x in b && x !in a {
      assert a <= b - {x};
      SubsetCardinality(a, b - {x});
    }
  }

  lemma {:induction false} SubsetCardinality(a: set<string>, b: set<string>)
    requires a <= b
    ensures |a| <= |b|
  {
    if x :| x in a { SubsetCardinality(a - {x}, b - {x}); }
  }

  /** A commitment has the five commitment keys and no other. */
  lemma CommitmentKeys(v: Json)
    requires IsCommitment(v)
    ensures v.fields.Keys == COMMITMENT_KEYS
  {
    hide ValidHash, COMMITTED_FIELDS;
    assert |v.fields| == |v.fields.Keys|;
    assert |COMMITMENT_KEYS| == 5;
    SubsetOfSameSize(COMMITMENT_KEYS, v.fields.Keys);
  }

  function ProjectOption(env: Env, aliasKey: string, v: Option<Json>, path: seq<string>): Option<Json> {
    if v.Some? then Some(Project(env, aliasKey, v.value, path)) else None
  }

  /** Looking up a member commutes with projection. */
  lemma GetProjected(env: Env, aliasKey: string, v: Json, path: seq<string>, k: string)
    requires k !in MARKER_KEYS
    ensures Get(Project(env, aliasKey, v, path), k) == ProjectOption(env, aliasKey, Get(v, k), path + [k])
  {
    hide Retained, Namespace, AliasDigest;
    if v.Obj? && IsCommitment(v) { CommitmentKeys(v); }
    if v.Str? && !Retained(env, path, v.s) {
      AliasMembers(env, aliasKey, Namespace(path), v.s);
    }
  }

  lemma AliasMembers(env: Env, aliasKey: string, namespace: string, text: string)
    ensures Alias(env, aliasKey, namespace, text).fields.Keys == {"kind", "version", "namespace", "alias"}
  {}

  lemma GetOrNullProjected(env: Env, aliasKey: string, v: Json, path: seq<string>, k: string)
    requires k !in MARKER_KEYS
    ensures GetOrNull(Project(env, aliasKey, v, path), k)
         == Project(env, aliasKey, GetOrNull(v, k), path + [k])
  {
    hide Project, MARKER_KEYS;
    GetProjected(env, aliasKey, v, path, k);
    assert Project(env, aliasKey, Null, path + [k]) == Null by { NullProjects(env, aliasKey, path + [k]); }
  }

  lemma NullProjects(env: Env, aliasKey: string, path: seq<string>)
    ensures Project(env, aliasKey, Null, path) == Null
  {}

  lemma NumbersProject(env: Env, aliasKey: string, v: Option<Json>, path: seq<string>)
    ensures AsU64(ProjectOption(env, aliasKey, v, path)) == AsU64(v)
  {
    hide Retained, Namespace, AliasDigest, IsCommitment;
  }

  lemma KindProjects(env: Env, aliasKey: string, v: Json, path: seq<string>)
    ensures Project(env, aliasKey, v, path).Arr? <==> v.Arr?
    ensures v.Arr? ==>
              var p := Project(env, aliasKey, v, path);
              |p.items| == |v.items|
              && forall i | 0 <= i < |v.items| :: p.items[i] == Project(env, aliasKey, v.items[i], path)
  {
    hide Retained, Namespace, AliasDigest, IsCommitment;
  }

  /** A retained literal is found in the projection exactly where it is in the source. */
  lemma LiteralProjects(env: Env, aliasKey: string, v: Option<Json>, path: seq<string>, text: string)
    requires Retained(env, path, text)
    ensures AsStr(ProjectOption(env, aliasKey, v, path)) == Some(text) <==> AsStr(v) == Some(text)
  {
    hide Retained, Namespace, AliasDigest, IsCommitment;
  }

  lemma StringProjects(env: Env, aliasKey: string, v: Option<Json>, path: seq<string>)
    requires AsStr(v).Some? ==> Retained(env, path, AsStr(v).value)
    ensures AsStr(ProjectOption(env, aliasKey, v, path)) == AsStr(v)
  {
    hide Retained, Namespace, AliasDigest, IsCommitment;
  }

  lemma EventTypeProjects(env: Env, aliasKey: string, event: Json, eventType: string)
    requires eventType in EVENT_TYPES
    ensures StringField(Project(env, aliasKey, event, []), "event_type") == Some(eventType)
       <==> StringField(event, "event_type") == Some(eventType)
  {
    hide Project, EVENT_TYPES;
    GetProjected(env, aliasKey, event, [], "event_type");
    assert [] + ["event_type"] == ["event_type"];
    EventTypesRetained(env, eventType);
    LiteralProjects(env, aliasKey, Get(event, "event_type"), ["event_type"], eventType);
  }

  lemma EventTypesRetained(env: Env, eventType: string)
    requires eventType in EVENT_TYPES
    ensures Retained(env, ["event_type"], eventType)
  {
    assert KeyOf(["event_type"]) == "event_type";
  }

  // ---------------------------------------------------------------- the revision fold

  /** The event schema admits only known Task states in a transition. */
  predicate StatesKnown(event: Json) {
    StringField(event, "event_type") == Some("task.transitioned") ==>
      var before := AsStr(Get2(event, "task_transition", "previous_state"));
      var after := AsStr(Get2(event, "task_transition", "new_state"));
      (before.Some? ==> before.value in TASK_STATES) && (after.Some? ==> after.value in TASK_STATES)
  }

  lemma Get2Projected(env: Env, aliasKey: string, event: Json, outer: string, inner: string)
    requires outer !in MARKER_KEYS && inner !in MARKER_KEYS
    ensures Get2(Project(env, aliasKey, event, []), outer, inner)
         == ProjectOption(env, aliasKey, Get2(event, outer, inner), [outer, inner])
  {
    hide Project, MARKER_KEYS;
    GetProjected(env, aliasKey, event, [], outer);
    assert [] + [outer] == [outer] && [outer] + [inner] == [outer, inner];
    if Get(event, outer).Some? {
      GetProjected(env, aliasKey, Get(event, outer).value, [outer], inner);
    }
  }

  lemma StatesRetained(env: Env, state: string)
    requires state in TASK_STATES
    ensures Retained(env, ["task_transition", "previous_state"], state)
    ensures Retained(env, ["task_transition", "new_state"], state)
  {
    hide TASK_STATES;
    assert KeyOf(["task_transition", "previous_state"]) == "previous_state";
    assert KeyOf(["task_transition", "new_state"]) == "new_state";
  }

  /** Projection neither hides nor invents a revision step. */
  lemma AdvanceProjected(env: Env, aliasKey: string, latest: Option<Revision>, event: Json)
    requires StatesKnown(event)
    ensures Advance(latest, Project(env, aliasKey, event, [])) == Advance(latest, event)
  {
    hide Project, TASK_STATES, EVENT_TYPES, MARKER_KEYS, Retained;
    assert "task.created" in EVENT_TYPES && "task.transitioned" in EVENT_TYPES by { TaskTypesKnown(); }
    EventTypeProjects(env, aliasKey, event, "task.created");
    EventTypeProjects(env, aliasKey, event, "task.transitioned");
    if StringField(event, "event_type") == Some("task.transitioned") {
      TransitionKeys();
      Get2Projected(env, aliasKey, event, "task_transition", "previous_revision");
      Get2Projected(env, aliasKey, event, "task_transition", "new_revision");
      Get2Projected(env, aliasKey, event, "task_transition", "previous_state");
      Get2Projected(env, aliasKey, event, "task_transition", "new_state");
      NumbersProject(env, aliasKey, Get2(event, "task_transition", "previous_revision"),
                     ["task_transition", "previous_revision"]);
      NumbersProject(env, aliasKey, Get2(event, "task_transition", "new_revision"),
                     ["task_transition", "new_revision"]);
      var before := Get2(event, "task_transition", "previous_state");
      var after := Get2(event, "task_transition", "new_state");
      if AsStr(before).Some? { StatesRetained(env, AsStr(before).value); }
      if AsStr(after).Some? { StatesRetained(env, AsStr(after).value); }
      StringProjects(env, aliasKey, before, ["task_transition", "previous_state"]);
      StringProjects(env, aliasKey, after, ["task_transition", "new_state"]);
    }
  }

  lemma TaskTypesKnown()
    ensures "task.created" in EVENT_TYPES && "task.transitioned" in EVENT_TYPES
    ensures "artifact.exported" in EVENT_TYPES
  {}

  lemma TransitionKeys()
    ensures "task_transition" !in MARKER_KEYS
    ensures "previous_revision" !in MARKER_KEYS && "new_revision" !in MARKER_KEYS
    ensures "previous_state" !in MARKER_KEYS && "new_state" !in MARKER_KEYS
  {}

  function ProjectEvents(env: Env, aliasKey: string, events: seq<Json>): (r: seq<Json>)
    ensures |r| == |events|
    ensures forall i | 0 <= i < |events| :: r[i] == Project(env, aliasKey, events[i], [])
  {
    seq(|events|, i requires 0 <= i < |events| => Project(env, aliasKey, events[i], []))
  }

  /** The fold over the projected history is the fold over the source history. */
  lemma {:induction false} FoldProjected(env: Env, aliasKey: string, events: seq<Json>)
    requires forall i | 0 <= i < |events| :: StatesKnown(events[i])
    ensures Fold(ProjectEvents(env, aliasKey, events)) == Fold(events)
  {
    hide Project, Advance, StatesKnown;
    if events != [] {
      var n := |events| - 1;
      FoldProjected(env, aliasKey, events[..n]);
      assert ProjectEvents(env, aliasKey, events)[..n] == ProjectEvents(env, aliasKey, events[..n]);
      if Fold(events[..n]).Ok? {
        AdvanceProjected(env, aliasKey, Fold(events[..n]).value, events[n]);
      }
    }
  }

  // ---------------------------------------------------------------- export authority links

  lemma {:induction false} ViewsBelow(env: Env, aliasKey: string, v: Json, path: seq<string>, k: string)
    requires Get(v, k).Some? && k !in MARKER_KEYS
    ensures AliasViews(env, aliasKey, Get(v, k).value, path + [k]) <= AliasViews(env, aliasKey, v, path)
  {
    hide Retained, Namespace;
    if IsCommitment(v) { CommitmentKeys(v); }
    forall x | x in AliasViews(env, aliasKey, Get(v, k).value, path + [k])
      ensures x in AliasViews(env, aliasKey, v, path)
    {}
  }

  lemma OptionsAgree(env: Env, aliasKey: string, a: Option<Json>, p: seq<string>, b: Option<Json>, q: seq<string>,
                     views: set<HashView>)
    requires SamePlace(env, p, q) && CollisionFree(env, views)
    requires a.Some? ==> AliasViews(env, aliasKey, a.value, p) <= views
    requires b.Some? ==> AliasViews(env, aliasKey, b.value, q) <= views
    ensures ProjectOption(env, aliasKey, a, p) == ProjectOption(env, aliasKey, b, q) <==> a == b
  {
    hide Project, AliasViews, SamePlace, CollisionFree;
    if a.Some? && b.Some? { ProjectionInjective(env, aliasKey, a.value, p, b.value, q, views); }
  }

  lemma SoleItemsAgree(env: Env, aliasKey: string, a: Json, p: seq<string>, b: Option<Json>, q: seq<string>,
                       views: set<HashView>)
    requires SamePlace(env, p, q) && CollisionFree(env, views)
    requires AliasViews(env, aliasKey, a, p) <= views
    requires b.Some? ==> AliasViews(env, aliasKey, b.value, q) <= views
    ensures SoleItemIs(Project(env, aliasKey, a, p), ProjectOption(env, aliasKey, b, q)) <==> SoleItemIs(a, b)
  {
    hide Project, SamePlace, CollisionFree, Retained, Namespace, IsCommitment;
    KindProjects(env, aliasKey, a, p);
    if a.Arr? && |a.items| == 1 {
      forall x | x in AliasViews(env, aliasKey, a.items[0], p) ensures x in AliasViews(env, aliasKey, a, p) {}
      OptionsAgree(env, aliasKey, Some(a.items[0]), p, b, q, views);
    }
  }

  const DETAILS: string := "details"
  const AUTHORITY: string := "export_authority"

  const LINK_KEYS: set<string> := {
    "operation_id", "input_artifacts", "source_artifact_id", "data_refs", "service_id", "destination", "purpose"
  }

  predicate PlainPrefix(path: seq<string>) {
    ContextOf(path) == Context(false, false, false)
  }

  lemma PlainPrefixes()
    ensures PlainPrefix([]) && PlainPrefix([DETAILS]) && PlainPrefix([DETAILS, AUTHORITY])
    ensures PlainPrefix(["external_transfer"])
  {}

  /** The linked keys hold no retained literals, outside every special context. */
  lemma PlainPlace(env: Env, prefix: seq<string>, key: string, namespace: string)
    requires PlainPrefix(prefix)
    requires key in LINK_KEYS && NamespaceIn(Context(false, false, false), key) == namespace
    ensures ContextOf(prefix + [key]) == Context(false, false, false)
    ensures Namespace(prefix + [key]) == namespace
    ensures forall text :: !Retained(env, prefix + [key], text)
  {
    hide NamespaceIn;
    assert KeyOf(prefix + [key]) == key;
    ContextBelow(prefix, key);
    assert Literals(key) == {};
  }

  lemma LinkPlace(env: Env, p: seq<string>, k: string, q: seq<string>, l: string)
    requires PlainPrefix(p) && PlainPrefix(q)
    requires k in LINK_KEYS && l in LINK_KEYS
    requires LinkNamespace(k, l)
    ensures SamePlace(env, p + [k], q + [l])
  {
    hide Retained, NamespaceIn, ContextOf, LINK_KEYS;
    PlainPlace(env, p, k, NamespaceIn(Context(false, false, false), k));
    PlainPlace(env, q, l, NamespaceIn(Context(false, false, false), l));
  }

  /** A member of a projected value is the projected member, hashing no further aliases. */
  lemma Member(env: Env, aliasKey: string, v: Json, path: seq<string>, k: string, views: set<HashView>)
    requires k !in MARKER_KEYS && AliasViews(env, aliasKey, v, path) <= views
    ensures Get(Project(env, aliasKey, v, path), k) == ProjectOption(env, aliasKey, Get(v, k), path + [k])
    ensures Get(v, k).Some? ==> AliasViews(env, aliasKey, Get(v, k).value, path + [k]) <= views
  {
    hide Project, AliasViews, MARKER_KEYS;
    GetProjected(env, aliasKey, v, path, k);
    if Get(v, k).Some? { ViewsBelow(env, aliasKey, v, path, k); }
  }

  predicate SizeWithinCeiling(details: Json, authority: Json) {
    var size := AsU64(Get(details, "size_bytes"));
    var ceiling := AsU64(Get(authority, "max_size_bytes"));
    size.Some? && ceiling.Some? && size.value <= ceiling.value
  }

  lemma SizesAgree(env: Env, aliasKey: string, details: Json, p: seq<string>, authority: Json, q: seq<string>)
    ensures SizeWithinCeiling(Project(env, aliasKey, details, p), Project(env, aliasKey, authority, q))
       <==> SizeWithinCeiling(details, authority)
  {
    hide Project, MARKER_KEYS;
    LinkKeysPlain();
    GetProjected(env, aliasKey, details, p, "size_bytes");
    NumbersProject(env, aliasKey, Get(details, "size_bytes"), p + ["size_bytes"]);
    GetProjected(env, aliasKey, authority, q, "max_size_bytes");
    NumbersProject(env, aliasKey, Get(authority, "max_size_bytes"), q + ["max_size_bytes"]);
  }

  /** The equalities that tie an export to its authority, given the authority object. */
  predicate Links(event: Json, details: Json, authority: Json) {
    var source := Get(authority, "source_artifact_id");
    var transfer := GetOrNull(event, "external_transfer");
    && SizeWithinCeiling(details, authority)
    && Get(authority, "operation_id") == Get(details, "operation_id")
    && SoleItemIs(GetOrNull(event, "input_artifacts"), source)
    && SoleItemIs(GetOrNull(transfer, "data_refs"), source)
    && Get(authority, "service_id") == Get(transfer, "destination")
    && Get(authority, "purpose") == Get(transfer, "purpose")
  }

  lemma LinksUnfold(event: Json)
    ensures ExportAuthorityLinksOk(event) <==>
              || StringField(event, "event_type") != Some("artifact.exported")
              || Get2(event, DETAILS, AUTHORITY).None?
              || Links(event, Get(event, DETAILS).value, Get2(event, DETAILS, AUTHORITY).value)
  {}

  lemma LinkKeysPlain()
    ensures DETAILS !in MARKER_KEYS && AUTHORITY !in MARKER_KEYS && "external_transfer" !in MARKER_KEYS
    ensures "size_bytes" !in MARKER_KEYS && "max_size_bytes" !in MARKER_KEYS
    ensures forall k | k in LINK_KEYS :: k !in MARKER_KEYS
  {}

  predicate LinkNamespace(k: string, l: string) {
    NamespaceIn(Context(false, false, false), k) == NamespaceIn(Context(false, false, false), l)
  }

  lemma ArtifactNamespaces()
    ensures LinkNamespace("input_artifacts", "source_artifact_id")
    ensures LinkNamespace("data_refs", "source_artifact_id")
  {
    assert NamespaceIn(Context(false, false, false), "source_artifact_id") == "artifact";
    assert NamespaceIn(Context(false, false, false), "input_artifacts") == "artifact";
    assert NamespaceIn(Context(false, false, false), "data_refs") == "artifact";
  }

  lemma SameNamespaces()
    ensures LinkNamespace("operation_id", "operation_id") && LinkNamespace("purpose", "purpose")
  {
    hide NamespaceIn;
  }

  lemma ServiceNamespaces()
    ensures LinkNamespace("service_id", "destination")
  {
    assert NamespaceIn(Context(false, false, false), "service_id") == "opaque-value";
    assert NamespaceIn(Context(false, false, false), "destination") == "opaque-value";
  }

  lemma MembersAgree(env: Env, aliasKey: string, v: Json, p: seq<string>, k: string,
                     w: Json, q: seq<string>, l: string, views: set<HashView>)
    requires PlainPrefix(p) && PlainPrefix(q)
    requires k in LINK_KEYS && l in LINK_KEYS && CollisionFree(env, views)
    requires LinkNamespace(k, l)
    requires AliasViews(env, aliasKey, v, p) <= views && AliasViews(env, aliasKey, w, q) <= views
    ensures Get(Project(env, aliasKey, v, p), k) == Get(Project(env, aliasKey, w, q), l) <==> Get(v, k) == Get(w, l)
    ensures SoleItemIs(GetOrNull(Project(env, aliasKey, v, p), k), Get(Project(env, aliasKey, w, q), l))
       <==> SoleItemIs(GetOrNull(v, k), Get(w, l))
  {
    hide Project, AliasViews, LINK_KEYS, MARKER_KEYS, NamespaceIn, SamePlace, CollisionFree, SoleItemIs, PlainPrefix;
    LinkKeysPlain();
    LinkPlace(env, p, k, q, l);
    Member(env, aliasKey, v, p, k, views);
    Member(env, aliasKey, w, q, l, views);
    OptionsAgree(env, aliasKey, Get(v, k), p + [k], Get(w, l), q + [l], views);
    GetOrNullProjected(env, aliasKey, v, p, k);
    assert AliasViews(env, aliasKey, GetOrNull(v, k), p + [k]) <= views by { NullViews(env, aliasKey, p + [k]); }
    SoleItemsAgree(env, aliasKey, GetOrNull(v, k), p + [k], Get(w, l), q + [l], views);
  }

  lemma NullViews(env: Env, aliasKey: string, path: seq<string>)
    ensures AliasViews(env, aliasKey, Null, path) == {}
  {}

  lemma LinksAgree(env: Env, aliasKey: string, event: Json, details: Json, authority: Json, views: set<HashView>)
    requires CollisionFree(env, views)
    requires AliasViews(env, aliasKey, event, []) <= views
    requires AliasViews(env, aliasKey, details, [DETAILS]) <= views
    requires AliasViews(env, aliasKey, authority, [DETAILS, AUTHORITY]) <= views
    ensures Links(Project(env, aliasKey, event, []), Project(env, aliasKey, details, [DETAILS]),
                  Project(env, aliasKey, authority, [DETAILS, AUTHORITY]))
       <==> Links(event, details, authority)
  {
    hide Project, AliasViews, MARKER_KEYS, NamespaceIn, CollisionFree, SoleItemIs, LINK_KEYS, PlainPrefix, LinkNamespace,
         SizeWithinCeiling, Get;
    LinkKeysPlain();
    ArtifactNamespaces();
    ServiceNamespaces();
    LinkKeyMembers();
    PlainPrefixes();
    var pd, pa, pt := [DETAILS], [DETAILS, AUTHORITY], ["external_transfer"];
    var transfer := GetOrNull(event, "external_transfer");
    assert [] + ["external_transfer"] == pt;
    GetOrNullProjected(env, aliasKey, event, [], "external_transfer");
    Member(env, aliasKey, event, [], "external_transfer", views);
    assert AliasViews(env, aliasKey, transfer, pt) <= views by { NullViews(env, aliasKey, pt); }
    SizesAgree(env, aliasKey, details, pd, authority, pa);
    assert LinkNamespace("operation_id", "operation_id") && LinkNamespace("purpose", "purpose") by { SameNamespaces(); }
    MembersAgree(env, aliasKey, authority, pa, "operation_id", details, pd, "operation_id", views);
    MembersAgree(env, aliasKey, event, [], "input_artifacts", authority, pa, "source_artifact_id", views);
    MembersAgree(env, aliasKey, transfer, pt, "data_refs", authority, pa, "source_artifact_id", views);
    MembersAgree(env, aliasKey, authority, pa, "service_id", transfer, pt, "destination", views);
    MembersAgree(env, aliasKey, authority, pa, "purpose", transfer, pt, "purpose", views);
  }

  lemma LinkKeyMembers()
    ensures "operation_id" in LINK_KEYS && "input_artifacts" in LINK_KEYS && "source_artifact_id" in LINK_KEYS
    ensures "data_refs" in LINK_KEYS && "service_id" in LINK_KEYS && "destination" in LINK_KEYS
    ensures "purpose" in LINK_KEYS
  {}

  /** An export event agrees with its authority exactly when its projection agrees with the projected one. */
  lemma LinksProjected(env: Env, aliasKey: string, event: Json, views: set<HashView>)
    requires CollisionFree(env, views) && AliasViews(env, aliasKey, event, []) <= views
    ensures ExportAuthorityLinksOk(Project(env, aliasKey, event, [])) <==> ExportAuthorityLinksOk(event)
  {
    hide Project, AliasViews, MARKER_KEYS, CollisionFree, EVENT_TYPES, ExportAuthorityLinksOk, Links, LINK_KEYS;
    var p := Project(env, aliasKey, event, []);
    LinksUnfold(event);
    LinksUnfold(p);
    TaskTypesKnown();
    EventTypeProjects(env, aliasKey, event, "artifact.exported");
    LinkKeysPlain();
    assert [] + [DETAILS] == [DETAILS] && [DETAILS] + [AUTHORITY] == [DETAILS, AUTHORITY];
    Member(env, aliasKey, event, [], DETAILS, views);
    if Get(event, DETAILS).Some? {
      var details := Get(event, DETAILS).value;
      Member(env, aliasKey, details, [DETAILS], AUTHORITY, views);
      if Get(details, AUTHORITY).Some? {
        LinksAgree(env, aliasKey, event, details, Get(details, AUTHORITY).value, views);
      }
    }
  }
}
