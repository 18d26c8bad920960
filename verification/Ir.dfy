/** AIOS IR programs, capability contracts and the bounded diagnostic collector. */
module Ir {
  import opened Values

  datatype EffectClass =
    | Pure | ArtifactRead | ArtifactWrite | Network | DataEgress | ExternalMessage | SecretAccess
    | PersistentState | DeviceAccess | SystemChange | LegacyOpaque

  datatype ExecutionClass = Deterministic | BoundedNondeterministic | Probabilistic | OpaqueExternal

  datatype EgressMode = Deny | Policy

  datatype Locality = Local | Peer | Remote | Hybrid

  datatype OperationKind = Invoke | VerifyResult

  datatype Role = Ordinary | Verifier

  datatype CachePolicy = Never | DeterministicOnly | ContentAddressed

  datatype FailurePolicy = Stop | Retry(attempts: nat) | Fallback(capabilities: seq<string>) | Replan(replans: nat)

  datatype ValueRef = InputRef(name: string) | NodeRef(node: string, port: string)

  datatype Request = Request(action: string, resource: string)

  datatype ProgramInput = ProgramInput(typeRef: string, required: bool)

  datatype Node = Node(
    id: string,
    kind: OperationKind,
    capability: string,
    executionClass: ExecutionClass,
    inputs: map<string, ValueRef>,
    outputs: map<string, string>,
    requests: seq<Request>,
    egressMode: EgressMode,
    destinations: seq<string>,
    locality: seq<Locality>,
    failure: FailurePolicy,
    cache: CachePolicy
  )

  datatype Program = Program(
    inputs: map<string, ProgramInput>,
    nodes: seq<Node>,
    outputs: map<string, ValueRef>
  )

  datatype Port = Port(typeRef: string, required: bool)

  datatype Contract = Contract(
    capability: string,
    role: Role,
    inputs: map<string, Port>,
    outputs: map<string, Port>,
    allowedExecution: seq<ExecutionClass>,
    requiredEffects: seq<EffectClass>,
    allowedEffects: seq<EffectClass>,
    requiredAuthority: seq<string>,
    allowedAuthority: seq<string>,
    allowedEgress: seq<EgressMode>
  )

  /** The closed authority-to-effect mapping. */
  function EffectFor(authority: string): Option<EffectClass> {
    if authority == "artifact.read" then Some(ArtifactRead)
    else if authority == "artifact.write" then Some(ArtifactWrite)
    else if authority == "network.connect" then Some(Network)
    else if authority == "data.egress" then Some(DataEgress)
    else if authority == "external.send" then Some(ExternalMessage)
    else if authority == "secret.use" then Some(SecretAccess)
    else if authority == "state.write" then Some(PersistentState)
    else if authority == "device.use" then Some(DeviceAccess)
    else if authority == "system.change" then Some(SystemChange)
    else None
  }

  lemma EffectForIsProtected(authority: string)
    ensures EffectFor(authority) != Some(Pure) && EffectFor(authority) != Some(LegacyOpaque)
  {}

  /** The effects named by a set of authority classes. */
  ghost function Image(actions: set<string>): set<EffectClass> {
    set a | a in actions && EffectFor(a).Some? :: EffectFor(a).value
  }

  /** What the analyser looks up: capability contracts by reference, and the type references that resolve. */
  datatype Registry = Registry(contracts: map<string, Contract>, types: set<string>)

  function RoleFor(kind: OperationKind): Role {
    if kind.Invoke? then Ordinary else Verifier
  }

  predicate DistinctIds(program: Program) {
    DistinctBy(program.nodes, (n: Node) => n.id)
  }

  datatype Code =
    | DuplicateNodeId | ReferenceInputNotFound | ReferenceNodeNotFound | ReferencePortNotFound | OutputNotFound
    | TypeNotFound | CapabilityPortMismatch | OptionalInputToRequiredPort | TypeMismatch
    | GraphCycle | UnusedPureNode
    | AuthorityDuplicateRequest | AuthorityClassNotAllowed | EffectClassNotAllowed
    | RequiredAuthorityMissing | EgressNotAllowed | EgressContradiction | EgressAuthorityMismatch
    | CacheExecutionClassMismatch
    | RecursiveFallback | CapabilityNotFound | FallbackPortMismatch | ExecutionClassIncompatible
    | CapabilityRoleMismatch | FallbackEffectBroadening | FallbackAuthorityBroadening
    | FallbackEgressBroadening

  predicate IsError(code: Code) {
    code != UnusedPureNode
  }

  /**
   Bounded collection of diagnostics. The error flag is sticky: it is set by every reported error,
   including those that no longer fit.
   */
  class Collector {
    const limit: nat
    var codes: seq<Code>
    var truncated: bool
    var sawError: bool
    ghost var reported: set<Code>

    ghost predicate Valid()
      reads this
    {
      && |codes| <= limit
      && (forall c | c in codes :: c in reported)
      && (!truncated ==> forall c | c in reported :: c in codes)
      && (sawError <==> exists c | c in reported :: IsError(c))
    }

    constructor (limit: nat)
      ensures Valid() && this.limit == limit && reported == {} && !sawError
    {
      this.limit := limit;
      codes, truncated, sawError, reported := [], false, false, {};
    }

    method Push(code: Code)
      requires Valid()
      modifies this
      ensures Valid() && reported == old(reported) + {code}
      ensures sawError <==> old(sawError) || IsError(code)
    {
      sawError := sawError || IsError(code);
      if |codes| < limit {
        codes := codes + [code];
      } else {
        truncated := true;
      }
      reported := reported + {code};
    }
  }
}
