# AIOS trusted base: model and proofs

This project models five parts of the AIOS deterministic trusted base and proves what they promise.

* **Provenance journal** (`Journal`, `CanonicalJson`, `Revisions`, `Verify`, `VerifyStored`, `Reachable`, `AppendExact`,
  `Commitment`, `Tamper`, `Verdicts`, `Projection`, `Export`, `BundleVerify`, `ExportTheorems`, `BundleTheorem`, `Redaction`): compare-and-swap append, the
  stored and the detached verifier, the Task revision fold and its indexed lookup, what a head hash commits to, the
  redacted projection, the page-by-page export and its offline verifier.
* **IR analyser and registry contracts** (`Ir`, `References`, `Digraph`, `Graph`, `Types`, `Effects`,
  `Fallbacks`, `Envelope`, `Analyse`, `Conformance`): node and reference checks, Kahn's algorithm, types and ports,
  derived effects, the fallback relation, the program summary and provider conformance.
* **Durable registry store** (`Ownership`, `Admission`, `SnapshotIntegrity`, `AdmissionKeeps`, `AdmissionRuns`, `Activation`,
  `Fence`, `Store`): content-addressed admission, strict reopening, one-way containment, compare-and-swap activation, and owner fencing
  over all interleavings of claims and writer transactions.
* **Grant deadlines** (`Deadline`, `GrantClock`, `GrantStatus`, `GrantLedger`): checked nanosecond arithmetic, paired clocks that may
  regress, the append-only observation trail, and the expiry latch.
* **Byte scanners and canonical forms** (`Bytes`, `DecimalTokens`, `SafeIntegers`, `ExactIntegers`, `PrepareNumbers`,
  `PrepareTheorems`, `PreparedJson`, `JsonText`, `DepthScan`, `ArrayCount`, `JsonScan`, `JsonReads`, `JsonComplete`, `JsonGuard`,
  `Sanitize`, `MetadataScan`, `MetadataScanner`, `SanitizeTheorems`, `Ordering`, `Normalize`, `SnapshotId`, `NormalOrder`).

`Values` holds the JSON values and options that all of them share.

`dafny verify dfyconfig.toml` checks everything.

## Modelling decisions

* SHA-256 over canonical bytes is a function of an environment record applied to a structured view. Injectivity is
  never assumed globally: theorems either name the finite set of views on which there is no collision, or conclude
  that two given records collide. Events are hashed in canonical form, in which an integral binary64 number and the
  same integer have one text, as under RFC 8785.
* JSON Schema validation, serde decoding, RFC 3339 conversion, version parsing and the detail vocabulary are functions
  of the environment. The hypotheses used are: digests are 64 hexadecimal digits (`Journal.Sound`); the text stored for
  an event reads back as that event (`Journal.Readable`, asked only of the events a run actually stores, since decimal
  parsing need not be exact on every number); the event schema requires an event ID and admits only known Task states,
  and with the closed detail vocabulary nests at most seven levels (`BundleTheorem.SchemaPins`, from
  specs/provenance-event.schema.json:7 and 78-97, and crates/aios-provenance/src/lib.rs:2110-2576);
  formatted instants parse back to themselves and parsed ones fit 64 bits (`Deadline.Faithful`).
* An IMMEDIATE transaction is a sequence of steps under one write lock. Other connections' steps interleave freely, and
  anything read before the lock is taken may be stale by then. A failed or aborted transaction leaves the tables alone.
* Bounded integers are written out: signed 64-bit deadlines, epochs, majors, revisions and exponents with their checked
  or saturating operators; unsigned 64-bit accumulation in number conversion.
* JSON texts are concrete syntax trees with their blanks. Between tokens the scanners also skip the form feed, which
  JSON does not allow, so the trees admit it; every JSON text is covered.

## Findings

* A checkpoint pins a history only up to how integers are spelled. The event schema accepts 3.0 where it asks for an
  integer, and RFC 8785 writes 3 and 3.0 alike, so `Commitment.ThreeAndThreePointZero` exhibits two histories accepted
  against one checkpoint. `Commitment.HeadIffEvents` says exactly what is pinned, and `Commitment.PlainIsLiteral` and
  `Commitment.TwinIff` when that is the literal history: when no integer is held as a binary64 number.
* An append checks the event in memory and stores its text. If that text reads back with different content, the stream
  no longer verifies, absent a collision (`Reachable.DriftBreaks`); the reachability theorems therefore ask that stored events read back.
* `project_value` taken by itself can lead out of the shape bounds, since every aliased string becomes an object one
  level deeper (`Projection.ProjectionBounds`, `Projection.ProjectionCanExceedBounds`). No stored event comes near:
  `BundleTheorem.ProjectionHashable` shows that depth never makes an export fail.

## Model

| member | source | states |
|---|---|---|
| `Verify.VerifyRecords` | crates/aios-provenance/src/lib.rs:705-772 | The detached verifier's loop over previous hash, expected sequence, latest revision and seen event IDs computes the scan outcome that `RecordsAcceptedIff` characterises, failures and diagnostics included |
| `Verify.RecordsAcceptedIff` | crates/aios-provenance/src/lib.rs:546-772 | Accepted exactly when the request is well formed and the records are nonempty, linked hash to hash, numbered 1, 2, 3, free of repeated event IDs, end at the checkpoint, and their events are `Continuous`: a creation only as first revision event, every transition with a new revision and state and starting from what the nearest earlier creation or transition left |
| `Revisions.FoldIff` | crates/aios-provenance/src/lib.rs:2031-2071 | The revision fold succeeds exactly on the continuous histories, and its value is what the last creation or transition left |
| `Revisions.AdvanceIff` | crates/aios-provenance/src/lib.rs:2031-2071 | Given what the earlier events left, one step accepts the next event exactly under the field-by-field rule, and leaves what that event says |
| `Revisions.RevisionsNumbered` | crates/aios-provenance/src/lib.rs:1924-1940 | In a continuous history that begins with its only creation and whose transitions add one, each transition moves from the number of revision events before it to one more |
| `Verify.AcceptedRevisions` | crates/aios-provenance/src/lib.rs:705-772 | In an accepted history only the first event is a creation, the revisions run 1, 2, 3 without a gap, and the final revision is the number of creations and transitions |
| `Verify.ScanPrefix` | crates/aios-provenance/src/lib.rs:715-760 | On an intact prefix the verifier carries exactly the head hash, folded revision and seen IDs of that prefix |
| `Verify.VerifyOneIff` | crates/aios-provenance/src/lib.rs:546-649 | One record passes exactly when its stream, position, predecessor, event contract, task and recomputed hash are all right |
| `VerifyStored.VerifyStream` | crates/aios-provenance/src/lib.rs:395-515 | The stored verifier's loop over rows computes the scan outcome that `StreamAcceptedIff` characterises |
| `VerifyStored.StreamAcceptedIff` | crates/aios-provenance/src/lib.rs:395-544 | Accepted exactly when the rows are nonempty, decode, are linked and numbered, agree with their index columns, have continuous events, and end at the checkpoint |
| `VerifyStored.PrefixAccepted` | crates/aios-provenance/src/lib.rs:395-544 | Every sequence-bounded prefix of an intact stream verifies to its own head; a bound past the end is a gap just after the last record |
| `Reachable.LookupIsFold` | crates/aios-provenance/src/lib.rs:1994-2071 | The indexed lookup of the last creation or transition row returns the fold of the revision step over the whole stream |
| `Reachable.StepKeeps` | crates/aios-provenance/src/lib.rs:255-320 | Every append call, for any Task and any expected head and whether or not it succeeds, keeps the table invariant (each stream intact with distinct event IDs) when the stored text reads back |
| `Reachable.RunKeeps` | crates/aios-provenance/src/lib.rs:255-320 | The invariant holds after any run of append calls in which every stored event reads back as written |
| `Reachable.DriftBreaks` | crates/aios-provenance/src/lib.rs:2880-2920 | Reading back is needed: if the stored text of an appended event reads back with different content, its stream is intact only when the digest collides on the two contents |
| `Reachable.ReachableStreamsVerify` | crates/aios-provenance/src/lib.rs:255-320 | After any run of append calls whose stored events read back as written, every nonempty stream is accepted by the stored verifier and, read out, by the detached one, both at the last record, and the lookup equals the fold |
| `Reachable.ExpectedHeadConsumed` | crates/aios-provenance/src/lib.rs:268-300 | Compare-and-swap: of all calls on a stream naming one expected head, at most one succeeds in any run |
| `AppendExact.AppendSucceedsIff` | crates/aios-provenance/src/lib.rs:255-354 | On a table of intact streams an append succeeds exactly when the event is valid, carries service authority where needed and the indexed fields, the expectation agrees with the stream (any, empty, or length and last hash), a creation comes first and only first, the revisions stay continuous, the event ID is new, the other tables agree and a safe position is left; the row is the next position behind the last record; StaleHead is reported exactly for a failed expectation of a valid event |
| `AppendExact.LinksIff` | crates/aios-provenance/src/lib.rs:1841-1872 | An export event that carries an authority is accepted by the link check exactly when the authority covers it: one source that is the only input and the only data reference, the same service, purpose and operation, and a size within the ceiling |
| `AppendExact.ServiceExportsAreCovered` | crates/aios-provenance/src/lib.rs:255-320 | No append records an export to a service that its own authority does not cover |
| `AppendExact.StreamRowsExact` | crates/aios-provenance/src/lib.rs:395-430 | The ordered query returns every row of the stream as often as the table holds it, by ascending sequence |
| `Reachable.JournalTable.Append` | crates/aios-provenance/src/lib.rs:255-320 | The call changes the table to the modelled result and keeps the invariant when the stored text reads back; an error leaves the table as it was |
| `CanonicalJson.CanonicalIff` | crates/aios-provenance/src/lib.rs:1717-1732 | The hashed form of a value is the value itself exactly when no integer in it is held as a binary64 number |
| `Commitment.HeadPinsHistory` | crates/aios-provenance/src/lib.rs:1754-1782 | Two intact histories with the same head hash are equal in length and content, up to how integers are spelled in events, or two of their records with different hashed bytes collide |
| `Commitment.HeadIffEvents` | crates/aios-provenance/src/lib.rs:1754-1782 | Absent such a collision, head hashes are equal exactly when the events are equal up to integer spelling, and then all hashes are |
| `Commitment.CheckpointPinsHistory` | crates/aios-provenance/src/lib.rs:651-698 | Two record lists accepted against one checkpoint have the same length and content up to integer spelling, absent a collision between hashed bytes of their records |
| `Commitment.PlainIsLiteral` | crates/aios-provenance/src/lib.rs:1754-1782 | Histories in which no integer is held as a binary64 number are pinned literally by their head hash, absent a collision |
| `Commitment.RespelledIntactIff` | crates/aios-provenance/src/lib.rs:546-649 | Respelling integers keeps every hash; the respelled history is intact exactly when its own events pass the event checks and its revisions are continuous |
| `Commitment.TwinIff` | crates/aios-provenance/src/lib.rs:2868-2878 | Every history has a twin with the same hashes and all integers spelled as integers, intact where the event checks accept it; it is the history itself exactly when no event holds an integral binary64 number |
| `Commitment.ThreeAndThreePointZero` | crates/aios-provenance/src/lib.rs:1754-1782 | Counterexample to literal identity: replacing plan revision 3 by 3.0 in the last event gives a different history accepted against the same checkpoint, with equal hashed bytes |
| `Commitment.RecordedHashPinsPrefix` | crates/aios-provenance/src/lib.rs:546-649 | A hash noted at some length pins the content of that many records as a prefix of every later intact history, absent a collision |
| `Tamper.DepartureClassified` | crates/aios-provenance/src/lib.rs:568-581 | For every list drawn from a valid stream, the verdict at the first departure is decided by whether that record was already seen and whether the missing one still follows |
| `Tamper.PermutationIsOrderInvalid` | crates/aios-provenance/src/lib.rs:568-581 | Any non-identity permutation of a valid stream is reported as SEQUENCE_ORDER_INVALID at the first displaced record |
| `Tamper.DeletionIsGap` | crates/aios-provenance/src/lib.rs:568-581 | Deleting any set of records that is not a suffix is reported as SEQUENCE_GAP at the first survivor after the hole |
| `Verdicts.FieldVerdict` | crates/aios-provenance/src/lib.rs:546-649 | Changing one field of one record of an intact list has its own code: schema version, hash profile, stream ID, previous hash, and record hash (another valid hash or none) |
| `Verdicts.SequenceVerdict` | crates/aios-provenance/src/lib.rs:568-581 | A changed sequence number is SEQUENCE_ORDER_INVALID below its position and SEQUENCE_GAP above it |
| `Verdicts.EventVerdict` | crates/aios-provenance/src/lib.rs:546-649 | Changed content under a kept hash: a repeated event ID, another Task, an event not valid there, and content with another digest are told apart, the last as EVENT_HASH_MISMATCH with the recomputed hash |
| `Verdicts.HeadVerdict` | crates/aios-provenance/src/lib.rs:651-698 | An intact list that ends elsewhere than the checkpoint is CHECKPOINT_HEAD_MISMATCH at its last record; an empty one is a gap at 1 |
| `Verdicts.RevisionVerdict` | crates/aios-provenance/src/lib.rs:2031-2071 | A linked record with a new event ID whose revision is discontinuous is SCHEMA_INVALID at that record |
| `Verdicts.ColumnVerdict` | crates/aios-provenance/src/lib.rs:430-515 | Changing any index column of any row of an intact stream makes the stored verifier answer SCHEMA_INVALID at that row |
| `Projection.ProjectionHasSourceShape` | crates/aios-provenance/src/lib.rs:1545-1606 | The checker succeeds on the projection of a value exactly when the value has no reserved keys and no oversized containers, and then returns the same value with aliased strings replaced; which strings those are is the subject of the `Redaction` rows |
| `Redaction.OnlyReviewedShown` | crates/aios-provenance/src/lib.rs:1288-1503 | Every string a projection shows outside aliases and commitments is a timestamp under a time key or a word of one fixed vocabulary, stands under no identity key, and is the source's string at that path |
| `Redaction.IdentityIsNeverRetained` | crates/aios-provenance/src/lib.rs:1336-1503 | A string under a key that names a Task, event, principal, artifact or the like is never kept, and exactly those keys have a namespace of their own |
| `Redaction.NamespaceOfId` | crates/aios-provenance/src/lib.rs:1344-1356 | What an `id` names is decided by the enclosing keys: actor or principal, then waiting_on, then skill |
| `Redaction.PartOfProjection` | crates/aios-provenance/src/lib.rs:1288-1317 | Every part of a projection is the projection of the part of the source at the same path |
| `Redaction.ProjectionOfPart` | crates/aios-provenance/src/lib.rs:1288-1317 | The projection of every part of the source is shown at the same path |
| `Redaction.AliasesStandForStrings` | crates/aios-provenance/src/lib.rs:1319-1367 | Every alias shown stands for a string of the source at that path, in the namespace of the path; under an identity key no string is shown |
| `Redaction.AcceptedParts` | crates/aios-provenance/src/lib.rs:1545-1606 | In a value the checker accepts, every part is a retained string, a scalar, a bounded container without reserved keys, a commitment, or a valid alias in the namespace of its path |
| `Redaction.PartsAccepted` | crates/aios-provenance/src/lib.rs:1545-1606 | A value all of whose parts are of that kind is accepted |
| `Redaction.AcceptedBundleIsRedacted` | crates/aios-provenance/src/lib.rs:1039-1156 | Whatever bundle the offline verifier accepts, exported here or not, its events show only timestamps and vocabulary outside aliases and commitments, nothing raw under an identity key, and each alias in the namespace of its path |
| `Redaction.OneKindPerDigest` | crates/aios-provenance/src/lib.rs:1158-1187 | In an accepted bundle two aliases with one digest, in whichever records, stand at paths of one namespace |
| `Redaction.PlaceholderFits` | crates/aios-provenance/src/lib.rs:1608-1648 | The text that stands in for an alias has the form its place demands: service URI, sensitivity, upper-case reason code, bare digest, or the digest itself |
| `Projection.ObjectStaysOrdinary` | crates/aios-provenance/src/lib.rs:1288-1367 | Projecting an object that is no commitment never yields something read as an alias or a commitment |
| `Projection.ProjectionInjective` | crates/aios-provenance/src/lib.rs:1288-1334 | At equivalent paths two projections are equal exactly when the values are, given collision-free alias hashes |
| `Projection.ProjectionBounds` | crates/aios-provenance/src/lib.rs:2839-2866 | The projection of a value placed at any depth within bounds is within bounds there exactly when no aliased string sits at the depth limit |
| `Projection.ProjectionCanExceedBounds` | crates/aios-provenance/src/lib.rs:1288-1334 | For project_value on arbitrary values the condition can fail: a string 31 arrays deep is within bounds and its projection is not |
| `BundleTheorem.ProjectionHashable` | crates/aios-provenance/src/lib.rs:1697-1732 | The projection of every stored event, and the object hashed around it one level up, are within bounds, so its hash always exists |
| `BundleTheorem.ExportRefusals` | crates/aios-provenance/src/lib.rs:871-895 | A stored record can be refused by the export only for the size or contract of its projection or by the record schema, never for depth |
| `Export.ViewBoundsIff` | crates/aios-provenance/src/lib.rs:1697-1732 | The object hashed for a projected record is within bounds exactly when bundle ID, sequence and predecessor are and the event is within bounds one level down |
| `Export.DescriptorAlwaysFits` | crates/aios-provenance/src/lib.rs:1712-1732 | The object hashed for a manifest is always within bounds |
| `Export.PageIsNextRecords` | crates/aios-provenance/src/lib.rs:356-388 | A page holds exactly the next records of an intact stream and its cursor is where they end |
| `Export.ProjectPage` | crates/aios-provenance/src/lib.rs:868-922 | One page extends the exported records by the projections of its records, chained and within the byte bound |
| `Export.ExportStream` | crates/aios-provenance/src/lib.rs:822-940 | The page loop visits every record exactly once in order: a bundle is returned only with the projection of the whole stream and its manifest |
| `BundleVerify.VerifyBundle` | crates/aios-provenance/src/lib.rs:1039-1156 | The loop over predecessor, Task alias, event aliases, namespaces and revision accepts exactly the intact bundles |
| `BundleVerify.BundleAcceptedIff` | crates/aios-provenance/src/lib.rs:1039-1187 | Accepted exactly when records are nonempty, numbered 1 to n, chained hash to hash, each a projected event with named aliases, of one Task alias with distinct event aliases and one namespace per digest, with continuous events in the field-by-field sense, and the manifest names their number and last hash |
| `BundleVerify.ManifestPinsRecords` | crates/aios-provenance/src/lib.rs:1697-1732 | Two accepted bundles whose manifests name one head hash have the same bundle ID and the same records up to integer spelling, or two records with different hashed bytes collide |
| `ExportTheorems.AdvanceProjected` | crates/aios-provenance/src/lib.rs:2031-2071 | A revision step succeeds on the projected event exactly when it does on the source event, with the same revision |
| `ExportTheorems.FoldProjected` | crates/aios-provenance/src/lib.rs:2031-2071 | The revision fold over a projected history equals the fold over the source history |
| `ExportTheorems.LinksProjected` | crates/aios-provenance/src/lib.rs:1841-1872 | An export event agrees with its authority exactly when its projection agrees with the projected authority |
| `BundleTheorem.ProjectedAliases` | crates/aios-provenance/src/lib.rs:1158-1187 | Every alias found in a projected event was made from one of the strings hashed while projecting it, in the namespace of its path |
| `BundleTheorem.ExportedBundleVerifies` | crates/aios-provenance/src/lib.rs:1039-1156 | Every bundle exported from an intact stream is accepted by the offline verifier at its last record |
| `BundleTheorem.ReachableExportVerifies` | crates/aios-provenance/src/lib.rs:822-940 | The same for a bundle exported from any stream that any run of append calls built |
| `Ir.Collector.Push` | crates/aios-ir/src/diagnostics.rs:22-38 | Every reported code is remembered in the sticky error flag, whether or not it still fits |
| `References.IndexNodes` | crates/aios-ir/src/semantics.rs:51-69 | An error is reported exactly when a node ID is repeated |
| `References.ValidateReferences` | crates/aios-ir/src/semantics.rs:71-187 | An error is reported exactly when a reference, an input selector or a program output does not resolve |
| `Graph.BuildGraph` | crates/aios-ir/src/semantics.rs:188-215 | The producer map has exactly the data-flow edges and the indegrees count distinct producers |
| `Graph.Release` | crates/aios-ir/src/semantics.rs:208-228 | Releasing a popped node keeps the invariant: each indegree is the number of unpopped producers, so no decrement is from zero |
| `Graph.ValidateAcyclic` | crates/aios-ir/src/semantics.rs:188-242 | A cycle is reported exactly when the data-flow graph has one; the nodes named are the largest set in which every node waits on another member |
| `Graph.CyclesAreTheTrapped` | crates/aios-ir/src/semantics.rs:188-242 | A nonempty set in which every node has a producer inside it contains a cycle, and every cycle lies in the largest such set |
| `Effects.CheckNode` | crates/aios-ir/src/semantics.rs:499-658 | For one node: the derived effects, and a code reported exactly when its fault is present; `Envelope.NodeMeetsIff` says what being free of faults demands |
| `Effects.CheckReadResources` | crates/aios-ir/src/semantics.rs:660-700 | The loop over the bound ports reports exactly when some artifact input of the program bound to an artifact port is not covered by a read request for that input |
| `Envelope.ReadsCoveredIff` | crates/aios-ir/src/semantics.rs:660-700 | Nothing is uncovered exactly when, for every artifact port bound to an artifact input `name` of the program, artifact.read on input:name is among the node's requests |
| `Envelope.NodeMeetsIff` | crates/aios-ir/src/semantics.rs:499-791 | A node is reported for nothing exactly when its requests are distinct, allowed and mapped and hold all required authority and covered reads, remote-only placement has its authority, every effect it carries is allowed, egress is allowed, empty when denied and named destination by destination under policy, and caching is deterministic |
| `Envelope.DerivedIff` | crates/aios-ir/src/semantics.rs:507-622 | An effect is derived exactly when the contract requires it, a request names it or the placement implies it, and Pure exactly when nothing is |
| `Effects.CheckEgress` | crates/aios-ir/src/semantics.rs:721-791 | Egress codes are reported exactly for their faults |
| `Effects.ValidateEffects` | crates/aios-ir/src/semantics.rs:499-658 | Derived effects of every node, and each code reported exactly when some node has that fault |
| `Effects.EffectEquation` | crates/aios-ir/src/semantics.rs:499-658 | For a node reported clean against a contract the loader accepts, derived effects other than Pure and LegacyOpaque are exactly the image of its requested actions |
| `Effects.DenyMeansNoEgress` | crates/aios-ir/src/semantics.rs:721-791 | A clean node that denies egress derives no data egress and requests no such authority |
| `Effects.BuildSummary` | crates/aios-ir/src/semantics.rs:1125-1193 | The summary holds exactly the union of effects with Pure only when alone, all requested actions, modes and barriers |
| `Effects.SummaryEquation` | crates/aios-ir/src/semantics.rs:1125-1165 | The effect equation for the whole program: protected effects of the union are the image of all requested actions |
| `Fallbacks.FallbackPathExists` | crates/aios-ir/src/semantics.rs:983-1002 | The queue search answers exactly reachability in the fallback relation |
| `Fallbacks.BuildRelation` | crates/aios-ir/src/semantics.rs:966-981 | The relation has an edge exactly where some node falls back from its capability to another |
| `Fallbacks.ValidateFallbacks` | crates/aios-ir/src/semantics.rs:793-964 | Each code is reported exactly when some fallback of some node has that fault |
| `Envelope.FallbackMeetsIff` | crates/aios-ir/src/semantics.rs:793-964 | A fallback is reported for nothing exactly when it is another known capability that takes the node's bound inputs and yields its consumed outputs with their types, fits role and execution class, has its reads covered, adds no effect, authority or egress, and does not lead back |
| `Envelope.LeadsBackIff` | crates/aios-ir/src/semantics.rs:966-1002 | The merged fallback relation has no cycle exactly when no fallback of any node leads back to its primary |
| `Fallbacks.FallbacksAcyclic` | crates/aios-ir/src/semantics.rs:793-1002 | With no fallback reported, the relation merged over all nodes has no cycle |
| `Fallbacks.FallbackStaysWithinNode` | crates/aios-ir/src/semantics.rs:838-950 | A clean fallback's allowed effects lie in the node's derived effects and the program's, and every authority it requires is already requested by the node |
| `Types.ValidateTypes` | crates/aios-ir/src/semantics.rs:244-348 | An error is reported exactly when a type, capability, role, execution class, port or flow does not fit; otherwise every node has its contract |
| `Envelope.TypedIff` | crates/aios-ir/src/semantics.rs:71-497 | The reference and type phases pass exactly when program outputs and input selectors are wired, input types are known, and every node has a known capability in its role and class with every port supplied by a value of its type |
| `Types.CheckPorts` | crates/aios-ir/src/semantics.rs:350-497 | An error is reported exactly when ports differ from the contract's, a value has another type than its port, or an optional input feeds a required port |
| `Types.EdgesAreTyped` | crates/aios-ir/src/semantics.rs:429-497 | In an accepted program every edge joins an output and an input whose contracts declare one known type |
| `Analyse.Analyze` | crates/aios-ir/src/semantics.rs:14-49 | A summary is returned exactly for the programs that meet the demands stated over nodes, requests, ports and fallbacks (`Meets`); it then satisfies the effect equation with acyclic, contained fallbacks, and every artifact that a node or a fallback must read is requested by its input's name |
| `Analyse.AcceptedIff` | crates/aios-ir/src/semantics.rs:14-49 | The conjunction of the phases' own conditions is equivalent to the demands stated over the program alone |
| `Conformance.CheckProvider` | crates/aios-registry/src/conformance.rs:119-419 | The report turns invalid exactly when one of the checks of a provider capability fails |
| `Conformance.ProviderOkIff` | crates/aios-registry/src/conformance.rs:119-419 | A capability passes exactly when its declaration is complete and free of repetitions, names the selected contract and suite, stays inside the envelope and covers what it requires, its protected effects are those its actions name, and placement, network and egress agree with them |
| `Conformance.CheckManifest` | crates/aios-registry/src/conformance.rs:66-117 | A manifest is reported valid exactly when its header is, it makes claims, none repeats and every claim passes; the bypass flag is set exactly when some first claim on a contract of the snapshot has no hash and the options let that pass |
| `Conformance.ProviderEquation` | crates/aios-registry/src/conformance.rs:221-346 | The effect equation for every capability of a manifest reported valid |
| `Conformance.RemoteNeedsAuthority` | crates/aios-registry/src/conformance.rs:221-346 | A valid manifest can reach the network or send data only under authority it declares |
| `Admission.Reopens` | crates/aios-registry/src/store.rs:1137-1253 | In a sound store an admitted snapshot reopens, to contracts with the semantic views it was first admitted with |
| `SnapshotIntegrity.OpenIff` | crates/aios-registry/src/store.rs:1137-1253 | On any tables a snapshot opens exactly when it is admitted, its manifest hashes to its ID, its entries are the manifest's references, every entry's stored contract has the entry's family and hashes to its reference, and the contracts pass together |
| `SnapshotIntegrity.AlteredContractRefused` | crates/aios-registry/src/store.rs:1137-1253 | A stored contract that no longer hashes to its entry's reference keeps the snapshot from opening |
| `SnapshotIntegrity.IdPinsContracts` | crates/aios-registry/src/store.rs:1137-1253 | Whatever happened to two sets of tables, if both open a snapshot ID they return the same families with the same semantic views, or the hashes collide on what they hold |
| `SnapshotIntegrity.InsertOneIff` | crates/aios-registry/src/store.rs:1486-1569 | On any rows an insert succeeds exactly when the rows already there agree with the entry, and adds the missing ones |
| `AdmissionKeeps.InsertAllExtends` | crates/aios-registry/src/store.rs:1486-1569 | Inserting keeps every existing contract and entry row, adds the entries' rows and nothing else |
| `AdmissionKeeps.ReadmissionIdle` | crates/aios-registry/src/store.rs:921-1048 | Admitting an admitted snapshot again, under any prose, succeeds and changes no stored row |
| `AdmissionKeeps.AdmittedIff` | crates/aios-registry/src/store.rs:921-1048 | A strictly verified registry is admitted exactly when no foreign placeholder holds its ID and every major fits a signed 64-bit column |
| `AdmissionRuns.AdmitKeeps` | crates/aios-registry/src/store.rs:921-1048 | A successful admission keeps the store sound and records the snapshot's first views |
| `AdmissionRuns.HistoryReopens` | crates/aios-registry/src/store.rs:1137-1253 | After any run of admissions, state changes and activations, failures rolled back, a snapshot opens exactly when it is admitted, with its first-admitted views |
| `AdmissionRuns.FirstViewsStay` | crates/aios-registry/src/store.rs:921-1048 | First-admitted views never change along a run |
| `AdmissionRuns.ReadBackSucceeds` | crates/aios-registry/src/store.rs:1042-1047 | The read-back after a committed admission always succeeds and shows the registry's own views |
| `AdmissionRuns.AllowedIsRank` | crates/aios-registry/src/store.rs:1281-1289 | The transition table is exactly the order ADMITTED, DEPRECATED, QUARANTINED, REVOKED |
| `Activation.RevisionIsCount` | crates/aios-registry/src/store.rs:1308-1383 | A scope's revision is the number of activations committed for it |
| `Activation.ExpectationMet` | crates/aios-registry/src/store.rs:1336-1352 | A committed activation expected exactly the number committed before it and leaves one more |
| `Activation.OncePerExpectation` | crates/aios-registry/src/store.rs:1336-1352 | Two committed activations of one scope never expected the same revision |
| `Activation.RestrictionNeverFalls` | crates/aios-registry/src/store.rs:1255-1305 | Along any run an admitted snapshot stays admitted and its restriction never decreases |
| `Activation.WithdrawnNeverActivated` | crates/aios-registry/src/store.rs:1328-1339 | A snapshot once deprecated, quarantined or revoked is never activated again |
| `Activation.SetTakesEffect` | crates/aios-registry/src/store.rs:1255-1305 | A committed change of state has taken effect when it returns: that snapshot has that state and every other keeps its own |
| `Activation.ContainmentHolds` | crates/aios-registry/src/store.rs:1255-1305 | After a committed change the snapshot is at least that restricted in every later state, and if it was withdrawn no later activation of it succeeds |
| `Activation.StateIsLastSet` | crates/aios-registry/src/store.rs:1255-1305 | A snapshot's state is the one its last committed change named, and ADMITTED before any |
| `Activation.DefaultIsLast` | crates/aios-registry/src/store.rs:1308-1383 | The default of a scope is the snapshot that its last committed activation named |
| `Fence.NextKeeps` | crates/aios-registry/src/store.rs:616-800 | Every step of claims, markers, guards and writer transactions keeps the fencing invariant |
| `Fence.OneOwnerVerifies` | crates/aios-registry/src/store.rs:689-721 | In no reachable state do two minted owners verify, on whichever connections |
| `Fence.ClaimsIncrease` | crates/aios-registry/src/store.rs:616-687 | Every committed claim has a strictly larger epoch than every earlier one |
| `Fence.WritesAreFenced` | crates/aios-registry/src/store.rs:769-785 | Every committed write was made under the latest claim committed before it, or as a fixture before any claim |
| `Fence.NoStaleWriteCommits` | crates/aios-registry/src/store.rs:933-1043 | Once a claim has committed, no owner of a smaller epoch and no fixture ever commits again |
| `Fence.ReachableRevision` | crates/aios-registry/src/store.rs:1308-1383 | Under any interleaving a scope's revision counts the activations committed for it |
| `Fence.ReachableOncePerExpectation` | crates/aios-registry/src/store.rs:1308-1383 | Under any interleaving at most one activation commits per scope and expected revision |
| `Fence.ReachableRestriction` | crates/aios-registry/src/store.rs:1255-1305 | Under any interleaving a snapshot's restriction never decreases |
| `Fence.ReachableContainment` | crates/aios-registry/src/store.rs:1255-1305 | Under any interleaving a committed change of state holds from then on: restriction at least as high in every later state, and after withdrawal no activation of the snapshot commits |
| `Fence.CommitIsHeld` | crates/aios-registry/src/store.rs:723-785 | Every commit happens while its guard holds: a ready owner of the current lease on a connection carrying its nonce, or a fixture of an in-memory store never leased |
| `Fence.OwnerStaysOnConnection` | crates/aios-registry/src/store.rs:689-721 | With a new nonce for every claim, an owner verifies only on the connection that claimed it and not after that connection closed |
| `Fence.MarkerWasMade` | crates/aios-registry/src/store.rs:723-747 | A readiness marker found on a connection was put there on that connection |
| `Fence.HolderCommits` | crates/aios-registry/src/store.rs:921-1049 | A connection whose guard holds commits every call whose body succeeds, and exactly that call |
| `Fence.NewOwnerCommits` | crates/aios-registry/src/store.rs:616-687 | Between transactions a new owner can take over and commit, unless the store is in memory and owned or the epochs are used up |
| `Fence.ReachableReopens` | crates/aios-registry/src/store.rs:1137-1253 | In every reachable state every admitted snapshot reopens with its first-admitted views |
| `Store.RegistryStore.Insert` | crates/aios-registry/src/store.rs:1486-1569 | Existing rows win; the call succeeds exactly when stored identity, version, hash and slot agree |
| `Store.RegistryStore.InsertEntries` | crates/aios-registry/src/store.rs:958-1009 | The loop over the registry's contracts inserts exactly the rows of the modelled admission, or fails |
| `Store.RegistryStore.AdmitRegistry` | crates/aios-registry/src/store.rs:921-1048 | The tables change to the modelled admission exactly when the store has a write fence that passes against the lease and the connection and the admission succeeds; otherwise they are unchanged |
| `Store.RegistryStore.SetSnapshotState` | crates/aios-registry/src/store.rs:1255-1305 | Succeeds exactly when the write fence passes, reopening succeeds where required, the snapshot is admitted and its rank does not fall; then exactly that snapshot's state is the new one, and otherwise nothing changes |
| `Store.RegistryStore.ActivateDefault` | crates/aios-registry/src/store.rs:1308-1383 | Succeeds exactly when the fence passes, the scope kind is known and its ID nonempty, the snapshot reopens, is usable and ADMITTED, and the expectation is the scope's revision below the limit or no pointer at all; then exactly that pointer moves, to the next revision |
| `Deadline.DeriveExact` | crates/aios-task-manager/src/authority_deadline.rs:311-349 | A deadline exists exactly when the caps are readable, the least cap is ahead of now and nothing overflows; it is the least cap, at most 300 s off, with equal wall and monotonic durations |
| `GrantClock.ObserveKeeps` | crates/aios-task-manager/src/trusted_time.rs:486-579 | Every observation keeps the audit tail, the monotone floor, sticky uncertainty and the immutable trail |
| `GrantClock.RunKeeps` | crates/aios-task-manager/src/trusted_time.rs:903-928 | Every reachable state is sound and keeps the trail, deadlines, latches and session high water of earlier ones |
| `GrantClock.ExpiryIsPermanent` | crates/aios-task-manager/src/authority_deadline.rs:51-210 | Once expiry is latched, an observation since issuance reaches the monotonic deadline, the effective wall clock reaches the expiry, or time turns uncertain, no later check answers Valid, however the clocks move |
| `GrantClock.DenialIsLatched` | crates/aios-task-manager/src/authority_deadline.rs:215-297 | A denial for expiry leaves a latch that authenticates in every later state |
| `GrantClock.ValidIsWithinCaps` | crates/aios-task-manager/src/authority_deadline.rs:51-210 | In every reachable state a valid grant is inside every cap and inside 300 s of issuance on both clocks, for its own owner under the current lease, and unlatched |
| `GrantClock.IssuedIsValid` | crates/aios-task-manager/src/authority_deadline.rs:311-349 | A grant issued from a derived deadline is Valid at its issuance: derivation and check agree |
| `GrantStatus.StatusExact` | crates/aios-task-manager/src/authority_deadline.rs:51-210 | In every reachable state: InvalidOrIncomplete exactly when the joins fail, the caller is not the row's owner and epoch, or the grant does not stand (lease still the owner's, time trusted, session at the current reading, no observation since issuance without a reading or ahead of it, no latch); otherwise the two clocks against the least cap decide, the monotonic one first |
| `GrantStatus.LiveGrantPasses` | crates/aios-task-manager/src/authority_deadline.rs:51-210 | A valid grant still passes after one more ordinary sample and the owner's session advancing to it |
| `GrantStatus.IssuedIff` | crates/aios-task-manager/src/authority_deadline.rs:311-349 | In every reachable state a grant is issued exactly when it is new, the lease holder's session stands at the current trusted reading and the least cap admits a deadline; its row names that owner, epoch and reading |
| `GrantStatus.SessionFollows` | crates/aios-task-manager/src/trusted_time.rs:903-928 | A new owner's session opens at the current reading, and a later reading that is not behind advances it |
| `GrantStatus.LatchExact` | crates/aios-task-manager/src/authority_deadline.rs:255-297 | In every reachable state a latch authenticates exactly for its own owner and epoch, and records a reading at or past the deadline it names |
| `GrantStatus.UncertainIff` | crates/aios-task-manager/src/trusted_time.rs:486-579 | Time is uncertain exactly when some sample of the run was flagged, absent, or more than two seconds behind an earlier wall reading |
| `GrantStatus.RunHighest` | crates/aios-task-manager/src/trusted_time.rs:486-579 | The high water and the expiry floor are the highest wall reading so far |
| `GrantLedger.Ledger.CheckAndLatchGrant` | crates/aios-task-manager/src/authority_deadline.rs:215-253 | Usable exactly when the check answers Valid, and then the grant stands and has not ended; an expiry adds exactly the latch of this reading and its reason, which authenticates, and nothing else changes |
| `DecimalTokens.ReadIff` | crates/aios-registry/src/numbers.rs:95-159 | A token is read as given parts exactly when it spells them under section 6 of RFC 8259, so it is read one way only |
| `DecimalTokens.SaturatedIsClipped` | crates/aios-registry/src/numbers.rs:139-151 | The saturating exponent is the exponent clipped at the largest signed 64-bit integer |
| `SafeIntegers.Parse` | crates/aios-registry/src/numbers.rs:95-159 | The index loops compute exactly the parts of `ReadIff`, with digits, fraction length and saturated exponent |
| `SafeIntegers.SafeInteger` | crates/aios-registry/src/numbers.rs:165-199 | The loops compute the modelled conversion: no checked operation fails |
| `SafeIntegers.Multiply` | crates/aios-registry/src/numbers.rs:193-196 | The scaling loop runs at most fifteen times and never overflows |
| `ExactIntegers.SaturationHarmless` | crates/aios-registry/src/numbers.rs:172-178 | Saturation never moves a token shorter than 2^62 bytes across the bounds on its whole digits |
| `ExactIntegers.SafeExact` | crates/aios-registry/src/numbers.rs:165-199 | Conversion answers v exactly when the exact decimal value is the integer v between 0 and 2^53 - 1, for every token shorter than 2^62 bytes |
| `PrepareNumbers.PrepareBytes` | crates/aios-registry/src/numbers.rs:23-85 | The byte loop writes every lexeme of the input, numbers respelled |
| `PreparedJson.DocumentPrepared` | crates/aios-registry/src/numbers.rs:23-85 | On every JSON text the output is the text of the same value with each numeral respelled: keys, strings, words, whitespace and structure are untouched and no numeral is missed |
| `PrepareTheorems.LexPrepared` | crates/aios-registry/src/numbers.rs:23-85 | Reading the output again finds the same lexemes with numbers respelled: strings are kept byte for byte, nothing is split or joined |
| `PrepareTheorems.PrepareTwice` | crates/aios-registry/src/numbers.rs:23-85 | Preparation is idempotent |
| `PrepareTheorems.PreparedLexeme` | crates/aios-registry/src/numbers.rs:46-78 | Lexeme by lexeme, strings and punctuation are unchanged and every changed token keeps its exact value |
| `PrepareTheorems.ValueKept` | crates/aios-registry/src/numbers.rs:46-78 | A token outside the grammar is copied; a respelled one keeps its exact value |
| `PrepareTheorems.OneSpelling` | crates/aios-registry/src/numbers.rs:46-78 | All tokens that denote one safe integer are respelled alike |
| `PrepareTheorems.PreparedSize` | crates/aios-registry/src/numbers.rs:23-85 | Output is at most four times the input, whatever the exponents say |
| `DepthScan.ExceedsDepth` | crates/aios-ir/src/parse.rs:244-274 | The loop computes the scan characterised by `DepthExact` |
| `DepthScan.DepthExact` | crates/aios-ir/src/parse.rs:244-274 | On every JSON text the answer is exactly whether nesting exceeds the limit |
| `ArrayCount.TopLevelArrayExceedsLimit` | crates/aios-registry/src/schema.rs:120-175 | The loop computes the scan characterised by `CountExact` |
| `ArrayCount.CountExact` | crates/aios-registry/src/schema.rs:120-175 | On every JSON text the answer is exactly whether it is an array of more than the maximum number of elements |
| `JsonReads.TreeSound` | crates/aios-ir/src/parse.rs:75-212 | Whatever the scanner accepts is a proper value that renders to exactly the bytes used |
| `JsonComplete.DocumentExact` | crates/aios-ir/src/parse.rs:43-54 | Within the depth limit the scanner reads a whole text as a value exactly when the value is proper and renders to that text |
| `JsonGuard.GuardSilent` | crates/aios-ir/src/parse.rs:75-78 | On any bytes that pass the depth check the scanner's own guard never fires |
| `MetadataScanner.Scanner.ScanValue` | crates/aios-ir/src/parse.rs:75-90 | Success, end position and recorded replacements are those of the reader at that position |
| `MetadataScanner.Scanner.ScanArray` | crates/aios-ir/src/parse.rs:116-132 | The loop over elements records exactly the replacements of the array, in order |
| `MetadataScanner.Scanner.ScanObject` | crates/aios-ir/src/parse.rs:92-114 | The loop over members records exactly the replacements of the object, treating values under a "metadata" key as inside |
| `MetadataScanner.Scanner.ScanNumber` | crates/aios-ir/src/parse.rs:162-212 | The longest number is consumed; it is recorded exactly when inside metadata and out of range |
| `SanitizeTheorems.SanitizeNumbers` | crates/aios-ir/src/parse.rs:43-66 | The copy around the recorded spans is the modelled sanitized text |
| `SanitizeTheorems.SanitizeExact` | crates/aios-ir/src/parse.rs:43-66 | On every JSON text within the limit the result renders the same value with exactly the out-of-range numbers under a "metadata" key replaced by 0; the spans are ordered, disjoint and in bounds |
| `SanitizeTheorems.SanitizeOther` | crates/aios-ir/src/parse.rs:43-66 | Bytes that are no JSON text are returned unchanged |
| `SanitizeTheorems.SanitizeTwice` | crates/aios-ir/src/parse.rs:43-66 | Sanitizing twice changes nothing more, and nesting is unchanged at every limit |
| `Normalize.NormalizeValue` | crates/aios-ir/src/normalize.rs:22-119 | The member-by-member removals and sorts produce the modelled normal form |
| `Normalize.NormalTwice` | crates/aios-ir/src/normalize.rs:16-119 | Normalization is idempotent |
| `Normalize.NodeIff` | crates/aios-ir/src/normalize.rs:54-119 | Two nodes normalize alike exactly when they differ only in prose, set order and empty versus absent members |
| `Normalize.NormalIff` | crates/aios-ir/src/normalize.rs:16-119 | Programs with distinct node IDs normalize alike exactly when they differ only by node order, set-like array order, prose, and empty versus absent members |
| `NormalOrder.NormalSorted` | crates/aios-ir/src/normalize.rs:22-119 | What the normal form lists: nodes by ID, requests by action and resource, set-like arrays by UTF-16 units, each with the program's own elements; program ID, metadata, descriptions and reasons are gone and empty members absent |
| `NormalOrder.LexIff` | crates/aios-ir/src/normalize.rs:102-109 | The comparison is dictionary order: a prefix, or smaller at the first difference |
| `Normalize.FallbackOrderKept` | crates/aios-ir/src/normalize.rs:16-119 | Changing the fallback list of one node, its order included, always changes the normal form |
| `SnapshotId.ValidateEntries` | crates/aios-registry/src/hash.rs:487-506 | The loop accepts exactly well-formed entries in which each family occurs once |
| `SnapshotId.RegistrySnapshotId` | crates/aios-registry/src/hash.rs:95-133 | The computed identity is the digest of the sorted view, or an error |
| `SnapshotId.ReorderingKeepsId` | crates/aios-registry/src/hash.rs:95-133 | Any reordering of the entries gives the same identity, or the same rejection |
| `SnapshotId.IdNamesEntries` | crates/aios-registry/src/hash.rs:467-485 | Equal identities mean equal entries, or the digest collides on the two views |
| `NormalOrder.ViewSorted` | crates/aios-registry/src/hash.rs:95-133 | The hashed view lists the entries by ID and, under one ID, by rising major version |

## Left out

- warn_unused_pure_nodes (crates/aios-ir/src/semantics.rs:1058-1123): reports warnings only and never changes a verdict.
- The per-key detail vocabulary of journal events (crates/aios-provenance/src/lib.rs:2110-2837): an abstract predicate here.
- JSONL framing, manifest text and duplicate-key parsing of exported bundles: the bundle is a value here; only its records, manifest fields and chain are modelled.
- Order in which shape bounds and alias namespaces are visited: the source uses worklists, the model recursion on values; the answers do not depend on the order.
- Saturation of the expected sequence at the unsigned 64-bit limit: the column is a signed 64-bit integer, so it cannot be reached.
- Order in which ready nodes are popped and diagnostics are listed: sets here; message text, pointers and truncation of strings are not modelled, only which codes are reported and the sticky error flag.
- SQL triggers, migrations, the semantic_current_usable_snapshots view and re-attestation rows: whether the view lists a snapshot is a parameter of activation; the triggers that make rows immutable appear as the absence of such steps.
- activation_pointer and default_snapshot (crates/aios-registry/src/store.rs:1386-1453): reads of the pointer that activation maintains.
- StoreLock and file identity: a store is either in memory or locked; which file a lock names is not modelled.
- Claims are single steps: a claim holds the write lock from its first statement to its commit, so no other step can be seen in between.
- Grant, receipt and approval joins of the deadline query: one Boolean per check, chosen freely; the approval texts and caps themselves are modelled.
- The tolerance number profile (crates/aios-registry/src/numbers.rs:52-68): it rests on binary64 parsing, which is library code.
- Decoding of the sanitized and prepared text by the JSON library, and duplicate-key classification: library behaviour.
- Semantic views of single contracts (crates/aios-registry/src/hash.rs:135-440): field selections; admission treats the view as the contract without its prose.
- Normalize.NormalizeValue: documents are records whose removable keys are optional, not generic JSON maps, so updates are made on values and aliasing inside the JSON value is not captured.
- The CLI, the reason-code catalogue, explanation text, binding receipts and the coordinator.
