/**
 Derived effects of IR nodes. The loader's contract checks and the analyser's node checks together
 make the protected effects of a node exactly the image of the authority it requests.
 */
module Effects {
  import opened Values
  import opened Ir

  // ---------------------------------------------------------------- contracts the loader accepts

  predicate EgressConsistent(c: Contract) {
    var permitsPolicy := Policy in c.allowedEgress;
    var requiresPolicy := Deny !in c.allowedEgress;
    && permitsPolicy == (DataEgress in c.allowedEffects)
    && permitsPolicy == ("data.egress" in c.allowedAuthority)
    && requiresPolicy == (DataEgress in c.requiredEffects)
    && requiresPolicy == ("data.egress" in c.requiredAuthority)
  }

  predicate Protected(effect: EffectClass) {
    effect != Pure && effect != LegacyOpaque
  }

  /** The envelope checks of `validate_capability_contract`. */
  predicate ContractAccepted(c: Contract) {
    && c.allowedExecution != [] && c.allowedEffects != [] && c.allowedEgress != []
    && (c.requiredEffects == [] ==> Pure in c.allowedEffects)
    && (forall e | e in c.requiredEffects :: e in c.allowedEffects)
    && (forall a | a in c.requiredAuthority :: a in c.allowedAuthority)
    && EgressConsistent(c)
    && (Pure in c.requiredEffects ==> forall e | e in c.requiredEffects + c.allowedEffects :: e == Pure)
    && (forall e | e in c.requiredEffects && Protected(e) ::
          exists a | a in c.requiredAuthority :: EffectFor(a) == Some(e))
    && (forall a | a in c.requiredAuthority ::
          EffectFor(a).Some? && EffectFor(a).value in c.requiredEffects)
    && (forall a | a in c.allowedAuthority ::
          EffectFor(a).Some? && EffectFor(a).value in c.allowedEffects)
  }

  // ---------------------------------------------------------------- what the analyser reports

  function Actions(requests: seq<Request>): (r: set<string>)
    ensures forall a :: a in r <==> exists i | 0 <= i < |requests| :: requests[i].action == a
  {
    if requests == [] then {}
    else
      var n := |requests| - 1;
      Actions(requests[..n]) + {requests[n].action}
  }

  /** Every allowed placement of the node is remote. */
  predicate NonLocalOnly(node: Node) {
    node.locality != [] && Local !in node.locality
  }

  function RequestedEffects(requests: seq<Request>): (r: set<EffectClass>)
    ensures forall e :: e in r <==> exists i | 0 <= i < |requests| :: EffectFor(requests[i].action) == Some(e)
  {
    if requests == [] then {}
    else
      var n := |requests| - 1;
      var effect := EffectFor(requests[n].action);
      RequestedEffects(requests[..n]) + if effect.Some? then {effect.value} else {}
  }

  function RequiredNonPure(c: Contract): set<EffectClass> {
    set e | e in c.requiredEffects && e != Pure
  }

  function PlacementEffects(node: Node): set<EffectClass> {
    if !NonLocalOnly(node) then {}
    else if |node.inputs| == 0 then {Network} else {Network, DataEgress}
  }

  function DerivedEffects(node: Node, c: Contract): set<EffectClass> {
    var effects := RequiredNonPure(c) + RequestedEffects(node.requests) + PlacementEffects(node);
    if effects == {} then {Pure} else effects
  }

  predicate HasDuplicate(requests: seq<Request>) {
    exists i, j | 0 <= i < j < |requests| :: requests[i] == requests[j]
  }

  predicate OutsideEnvelope(requests: seq<Request>, c: Contract) {
    exists i | 0 <= i < |requests| :: requests[i].action !in c.allowedAuthority
  }

  predicate Unmapped(requests: seq<Request>) {
    exists i | 0 <= i < |requests| :: EffectFor(requests[i].action).None?
  }

  predicate RequestFault(requests: seq<Request>, c: Contract, code: Code) {
    match code
    case AuthorityDuplicateRequest => HasDuplicate(requests)
    case AuthorityClassNotAllowed => OutsideEnvelope(requests, c)
    case EffectClassNotAllowed => Unmapped(requests)
    case _ => false
  }

  predicate StartsWith(s: string, prefix: string) {
    prefix <= s
  }

  /** A bound artifact input whose read authority is not requested for that very input. */
  predicate UncoveredArtifactInput(program: Program, node: Node, c: Contract, port: string) {
    && port in node.inputs
    && node.inputs[port].InputRef?
    && port in c.inputs
    && (var name := node.inputs[port].name;
        && name in program.inputs
        && StartsWith(c.inputs[port].typeRef, "artifact.")
        && StartsWith(program.inputs[name].typeRef, "artifact.")
        && Request("artifact.read", "input:" + name) !in node.requests)
  }

  predicate ReadUncovered(program: Program, node: Node, c: Contract) {
    exists port | port in node.inputs :: UncoveredArtifactInput(program, node, c, port)
  }

  predicate PlacementUnauthorised(node: Node) {
    NonLocalOnly(node) &&
      ("network.connect" !in Actions(node.requests)
       || (|node.inputs| != 0 && "data.egress" !in Actions(node.requests)))
  }

  function EgressResources(node: Node): set<string> {
    set r | r in node.requests && r.action == "data.egress" :: r.resource
  }

  function Destinations(node: Node): set<string> {
    set d | d in node.destinations :: "destination:" + d
  }

  predicate EgressFault(node: Node, c: Contract, effects: set<EffectClass>, code: Code) {
    match code
    case EgressNotAllowed => node.egressMode !in c.allowedEgress
    case EgressContradiction =>
      node.egressMode.Deny? && (node.destinations != [] || EgressResources(node) != {} || DataEgress in effects)
    case EgressAuthorityMismatch =>
      node.egressMode.Policy? && (Destinations(node) == {} || Destinations(node) != EgressResources(node))
    case _ => false
  }

  predicate OutsideEffects(node: Node, c: Contract) {
    exists e | e in DerivedEffects(node, c) :: e !in c.allowedEffects
  }

  /** Whether the analyser reports a code for one node. */
  predicate NodeFault(program: Program, node: Node, c: Contract, code: Code) {
    match code
    case RequiredAuthorityMissing => AuthorityMissing(program, node, c) || PlacementUnauthorised(node)
    case EffectClassNotAllowed => Unmapped(node.requests) || OutsideEffects(node, c)
    case CacheExecutionClassMismatch => !node.cache.Never? && !node.executionClass.Deterministic?
    case _ => RequestFault(node.requests, c, code) || EgressFault(node, c, DerivedEffects(node, c), code)
  }

  ghost predicate FaultFree(program: Program, node: Node, c: Contract) {
    forall code :: !NodeFault(program, node, c, code)
  }

  // ---------------------------------------------------------------- the analyser's loops

  /** What one more request adds to the faults. */
  predicate AddedFault(request: Request, repeated: bool, c: Contract, code: Code) {
    match code
    case AuthorityDuplicateRequest => repeated
    case AuthorityClassNotAllowed => request.action !in c.allowedAuthority
    case EffectClassNotAllowed => EffectFor(request.action).None?
    case _ => false
  }

  lemma FaultSnoc(requests: seq<Request>, i: nat, c: Contract, code: Code)
    requires i < |requests|
    ensures RequestFault(requests[..i + 1], c, code) <==>
            RequestFault(requests[..i], c, code) || AddedFault(requests[i], requests[i] in requests[..i], c, code)
  {
    hide EffectFor, Actions, RequestedEffects, HasDuplicate, OutsideEnvelope, Unmapped;
    RequestsSnoc(requests, i, c);
  }

  /** One request against the earlier ones, the contract's envelope and the effect table. */
  method CheckRequest(request: Request, repeated: bool, c: Contract, collector: Collector)
    returns (effect: Option<EffectClass>)
    requires collector.Valid()
    modifies collector
    ensures collector.Valid() && effect == EffectFor(request.action)
    ensures forall code :: code in collector.reported <==>
              code in old(collector.reported) || AddedFault(request, repeated, c, code)
  {
    hide EffectFor;
    if repeated { collector.Push(AuthorityDuplicateRequest); }
    if request.action !in c.allowedAuthority { collector.Push(AuthorityClassNotAllowed); }
    effect := EffectFor(request.action);
    if effect.None? { collector.Push(EffectClassNotAllowed); }
  }

  /** The loop over one node's authority requests. */
  method CheckRequests(node: Node, c: Contract, collector: Collector)
    returns (actions: set<string>, effects: set<EffectClass>)
    requires collector.Valid()
    modifies collector
    ensures collector.Valid()
    ensures actions == Actions(node.requests)
    ensures effects == RequiredNonPure(c) + RequestedEffects(node.requests)
    ensures forall code :: code in collector.reported <==>
              code in old(collector.reported) || RequestFault(node.requests, c, code)
  {
    hide EffectFor, Actions, RequestedEffects, HasDuplicate, OutsideEnvelope, Unmapped, RequiredNonPure, RequestFault,
         AddedFault;
    var pairs: set<Request> := {};
    actions, effects := {}, RequiredNonPure(c);
    var i := 0;
    assert node.requests[..0] == [];
    NoRequests(c);
    while i < |node.requests|
      invariant i <= |node.requests| && collector.Valid()
      invariant forall r :: r in pairs <==> r in node.requests[..i]
      invariant actions == Actions(node.requests[..i])
      invariant effects == RequiredNonPure(c) + RequestedEffects(node.requests[..i])
      invariant forall code :: code in collector.reported <==>
                  code in old(collector.reported) || RequestFault(node.requests[..i], c, code)
    {
      var request := node.requests[i];
      RequestsSnoc(node.requests, i, c);
      forall code ensures RequestFault(node.requests[..i + 1], c, code) <==>
                          || RequestFault(node.requests[..i], c, code)
                          || AddedFault(request, request in pairs, c, code)
      {
        FaultSnoc(node.requests, i, c, code);
      }
      actions := actions + {request.action};
      var effect := CheckRequest(request, request in pairs, c, collector);
      pairs := pairs + {request};
      if effect.Some? { effects := effects + {effect.value}; }
      i := i + 1;
    }
    assert node.requests[..i] == node.requests;
  }

  lemma NoRequests(c: Contract)
    ensures Actions([]) == {} && RequestedEffects([]) == {}
    ensures forall code :: !RequestFault([], c, code)
  {}

  lemma RequestsSnoc(requests: seq<Request>, i: nat, c: Contract)
    requires i < |requests|
    ensures var shorter, longer, r := requests[..i], requests[..i + 1], requests[i];
            && (forall x :: x in longer <==> x in shorter || x == r)
            && Actions(longer) == Actions(shorter) + {r.action}
            && RequestedEffects(longer)
               == RequestedEffects(shorter) + (if EffectFor(r.action).Some? then {EffectFor(r.action).value} else {})
            && (HasDuplicate(longer) <==> HasDuplicate(shorter) || r in shorter)
            && (OutsideEnvelope(longer, c) <==> OutsideEnvelope(shorter, c) || r.action !in c.allowedAuthority)
            && (Unmapped(longer) <==> Unmapped(shorter) || EffectFor(r.action).None?)
  {
    hide EffectFor, HasDuplicate, OutsideEnvelope, Unmapped, Actions, RequestedEffects;
    var shorter, longer := requests[..i], requests[..i + 1];
    assert longer == shorter + [requests[i]];
    DuplicateSnoc(shorter, requests[i]);
    EnvelopeSnoc(shorter, requests[i], c);
    ActionsSnoc(shorter, requests[i]);
  }

  lemma ActionsSnoc(shorter: seq<Request>, r: Request)
    ensures Actions(shorter + [r]) == Actions(shorter) + {r.action}
    ensures RequestedEffects(shorter + [r])
         == RequestedEffects(shorter) + (if EffectFor(r.action).Some? then {EffectFor(r.action).value} else {})
  {
    hide EffectFor;
    assert (shorter + [r])[..|shorter|] == shorter;
  }

  lemma EnvelopeSnoc(shorter: seq<Request>, r: Request, c: Contract)
    ensures OutsideEnvelope(shorter + [r], c) <==> OutsideEnvelope(shorter, c) || r.action !in c.allowedAuthority
    ensures Unmapped(shorter + [r]) <==> Unmapped(shorter) || EffectFor(r.action).None?
  {
    hide EffectFor;
    var longer := shorter + [r];
    assert forall k | 0 <= k < |shorter| :: longer[k] == shorter[k];
    assert longer[|shorter|] == r;
  }

  lemma DuplicateSnoc(shorter: seq<Request>, r: Request)
    ensures HasDuplicate(shorter + [r]) <==> HasDuplicate(shorter) || r in shorter
  {
    var longer := shorter + [r];
    if HasDuplicate(shorter) {
      var a, b :| 0 <= a < b < |shorter| && shorter[a] == shorter[b];
      assert longer[a] == longer[b];
    }
    if r in shorter {
      var a :| 0 <= a < |shorter| && shorter[a] == r;
      assert longer[a] == longer[|shorter|];
    }
    if HasDuplicate(longer) {
      var a, b :| 0 <= a < b < |longer| && longer[a] == longer[b];
      if b < |shorter| { assert shorter[a] == shorter[b]; } else { assert shorter[a] == r; }
    }
  }

  /** `validate_egress`. */
  method CheckEgress(node: Node, c: Contract, effects: set<EffectClass>, collector: Collector)
    requires collector.Valid()
    modifies collector
    ensures collector.Valid()
    ensures forall code :: code in collector.reported <==>
              code in old(collector.reported) || EgressFault(node, c, effects, code)
  {
    if node.egressMode !in c.allowedEgress { collector.Push(EgressNotAllowed); }
    var resources := EgressResources(node);
    match node.egressMode {
      case Deny =>
        if node.destinations != [] || resources != {} || DataEgress in effects {
          collector.Push(EgressContradiction);
        }
      case Policy =>
        var expected := Destinations(node);
        if || expected == {}
           || (exists resource | resource in expected :: resource !in resources)
           || (exists resource | resource in resources :: resource !in expected) {
          collector.Push(EgressAuthorityMismatch);
        }
    }
  }

  /** The required authority at one position is not requested, or does not cover what is read. */
  predicate MissingAt(program: Program, node: Node, c: Contract, k: nat)
    requires k < |c.requiredAuthority|
  {
    var a := c.requiredAuthority[k];
    a !in Actions(node.requests) || (a == "artifact.read" && ReadUncovered(program, node, c))
  }

  predicate AuthorityMissing(program: Program, node: Node, c: Contract) {
    exists k | 0 <= k < |c.requiredAuthority| :: MissingAt(program, node, c, k)
  }

  /** `validate_required_artifact_read_resources`: one report for every bound artifact that is not covered. */
  method CheckReadResources(program: Program, node: Node, c: Contract, collector: Collector)
    requires collector.Valid()
    modifies collector
    ensures collector.Valid()
    ensures forall code :: code in collector.reported <==>
              code in old(collector.reported) || (code == RequiredAuthorityMissing && ReadUncovered(program, node, c))
  {
    var rest := node.inputs.Keys;
    while rest != {}
      invariant rest <= node.inputs.Keys && collector.Valid()
      invariant forall code :: code in collector.reported <==>
                  || code in old(collector.reported)
                  || (code == RequiredAuthorityMissing
                      && exists port | port in node.inputs.Keys - rest :: UncoveredArtifactInput(program, node, c, port))
      decreases rest
    {
      var port :| port in rest;
      ghost var done := node.inputs.Keys - rest;
      if node.inputs[port].InputRef? && port in c.inputs {
        var name := node.inputs[port].name;
        if name in program.inputs && StartsWith(c.inputs[port].typeRef, "artifact.")
           && StartsWith(program.inputs[name].typeRef, "artifact.")
           && Request("artifact.read", "input:" + name) !in node.requests
        {
          collector.Push(RequiredAuthorityMissing);
        }
      }
      rest := rest - {port};
      assert node.inputs.Keys - rest == done + {port};
    }
    assert node.inputs.Keys - rest == node.inputs.Keys;
  }

  method CheckRequired(program: Program, node: Node, c: Contract, actions: set<string>, collector: Collector)
    requires collector.Valid() && actions == Actions(node.requests)
    modifies collector
    ensures collector.Valid()
    ensures forall code :: code in collector.reported <==>
              code in old(collector.reported) || (code == RequiredAuthorityMissing && AuthorityMissing(program, node, c))
  {
    hide ReadUncovered, Actions;
    var i := 0;
    while i < |c.requiredAuthority|
      invariant i <= |c.requiredAuthority| && collector.Valid()
      invariant forall code :: code in collector.reported <==>
                  code in old(collector.reported)
                  || (code == RequiredAuthorityMissing && exists k | 0 <= k < i :: MissingAt(program, node, c, k))
    {
      var required := c.requiredAuthority[i];
      ghost var missing := MissingAt(program, node, c, i);
      if required !in actions {
        collector.Push(RequiredAuthorityMissing);
      } else if required == "artifact.read" {
        CheckReadResources(program, node, c, collector);
      }
      i := i + 1;
    }
  }

  method CheckPlacement(node: Node, actions: set<string>, collector: Collector) returns (effects: set<EffectClass>)
    requires collector.Valid() && actions == Actions(node.requests)
    modifies collector
    ensures collector.Valid() && effects == PlacementEffects(node)
    ensures forall code :: code in collector.reported <==>
              code in old(collector.reported) || (code == RequiredAuthorityMissing && PlacementUnauthorised(node))
  {
    hide Actions;
    effects := {};
    if NonLocalOnly(node) {
      if "network.connect" !in actions { collector.Push(RequiredAuthorityMissing); }
      effects := effects + {Network};
      if |node.inputs| != 0 {
        if "data.egress" !in actions { collector.Push(RequiredAuthorityMissing); }
        effects := effects + {DataEgress};
      }
    }
  }

  /** The body of `validate_effects` for one node. */
  method CheckNode(program: Program, node: Node, c: Contract, collector: Collector)
    returns (effects: set<EffectClass>)
    requires collector.Valid()
    modifies collector
    ensures collector.Valid()
    ensures effects == DerivedEffects(node, c)
    ensures forall code :: code in collector.reported <==>
              code in old(collector.reported) || NodeFault(program, node, c, code)
  {
    hide EgressResources, Destinations, HasDuplicate, OutsideEnvelope, Unmapped, RequestedEffects, Actions, AuthorityMissing,
         PlacementUnauthorised, PlacementEffects, RequiredNonPure, EffectFor;
    var actions, base := CheckRequests(node, c, collector);
    CheckRequired(program, node, c, actions, collector);
    var placed := CheckPlacement(node, actions, collector);
    effects := base + placed;
    if effects == {} { effects := {Pure}; }
    assert effects == DerivedEffects(node, c);
    assert (exists e | e in effects :: e !in c.allowedEffects) <==> OutsideEffects(node, c);
    if exists e | e in effects :: e !in c.allowedEffects { collector.Push(EffectClassNotAllowed); }
    CheckEgress(node, c, effects, collector);
    if node.cache != Never && node.executionClass != Deterministic { collector.Push(CacheExecutionClassMismatch); }
  }

  predicate SomeNodeFault(program: Program, count: nat, capabilities: map<string, Contract>, code: Code)
    requires count <= |program.nodes|
    requires forall i | 0 <= i < |program.nodes| :: program.nodes[i].id in capabilities
  {
    exists i | 0 <= i < count :: NodeFault(program, program.nodes[i], capabilities[program.nodes[i].id], code)
  }

  lemma FreshId(program: Program, i: nat)
    requires DistinctIds(program) && i < |program.nodes|
    ensures forall k | 0 <= k < i :: program.nodes[k].id != program.nodes[i].id
  {
  }

  lemma NoNodeFault(program: Program, capabilities: map<string, Contract>)
    requires forall i | 0 <= i < |program.nodes| :: program.nodes[i].id in capabilities
    ensures forall code :: !SomeNodeFault(program, 0, capabilities, code)
  {
  }

  lemma NodeFaultSnoc(program: Program, n: nat, capabilities: map<string, Contract>, code: Code)
    requires n < |program.nodes| && forall i | 0 <= i < |program.nodes| :: program.nodes[i].id in capabilities
    ensures SomeNodeFault(program, n + 1, capabilities, code) <==>
            || SomeNodeFault(program, n, capabilities, code)
            || NodeFault(program, program.nodes[n], capabilities[program.nodes[n].id], code)
  {
    hide NodeFault;
  }

  /** `validate_effects`: derived effects per node, and every fault of every node reported. */
  method ValidateEffects(program: Program, capabilities: map<string, Contract>, collector: Collector)
    returns (all: map<string, set<EffectClass>>)
    requires collector.Valid() && DistinctIds(program)
    requires forall i | 0 <= i < |program.nodes| :: program.nodes[i].id in capabilities
    modifies collector
    ensures collector.Valid()
    ensures forall i | 0 <= i < |program.nodes| ::
              var n := program.nodes[i]; n.id in all && all[n.id] == DerivedEffects(n, capabilities[n.id])
    ensures forall id | id in all :: exists i | 0 <= i < |program.nodes| :: program.nodes[i].id == id
    ensures forall code :: code in collector.reported <==>
              code in old(collector.reported) || SomeNodeFault(program, |program.nodes|, capabilities, code)
  {
    hide NodeFault, DerivedEffects, SomeNodeFault, DistinctIds;
    NoNodeFault(program, capabilities);
    all := map[];
    var i := 0;
    while i < |program.nodes|
      invariant i <= |program.nodes| && collector.Valid()
      invariant forall k | 0 <= k < i ::
                  var n := program.nodes[k]; n.id in all && all[n.id] == DerivedEffects(n, capabilities[n.id])
      invariant forall id | id in all :: exists k | 0 <= k < i :: program.nodes[k].id == id
      invariant forall code :: code in collector.reported <==>
                  code in old(collector.reported) || SomeNodeFault(program, i, capabilities, code)
    {
      var node := program.nodes[i];
      FreshId(program, i);
      forall code ensures SomeNodeFault(program, i + 1, capabilities, code) <==>
                          || SomeNodeFault(program, i, capabilities, code)
                          || NodeFault(program, node, capabilities[node.id], code)
      {
        NodeFaultSnoc(program, i, capabilities, code);
      }
      var effects := CheckNode(program, node, capabilities[node.id], collector);
      all := all[node.id := effects];
      i := i + 1;
    }
  }

  // ---------------------------------------------------------------- the effect equation

  /** The protected part of a set of effects. */
  ghost function ProtectedOf(effects: set<EffectClass>): set<EffectClass> {
    set e | e in effects && Protected(e)
  }

  lemma FaultFreeMeans(program: Program, node: Node, c: Contract)
    requires FaultFree(program, node, c)
    ensures !OutsideEnvelope(node.requests, c) && !Unmapped(node.requests)
    ensures !AuthorityMissing(program, node, c) && !PlacementUnauthorised(node)
    ensures !OutsideEffects(node, c)
    ensures forall code :: !EgressFault(node, c, DerivedEffects(node, c), code)
  {
    hide DerivedEffects, AuthorityMissing, PlacementUnauthorised, HasDuplicate, OutsideEnvelope, Unmapped, OutsideEffects;
    assert !NodeFault(program, node, c, AuthorityClassNotAllowed);
    assert !NodeFault(program, node, c, EffectClassNotAllowed);
    assert !NodeFault(program, node, c, RequiredAuthorityMissing);
    assert !NodeFault(program, node, c, EgressNotAllowed);
    assert !NodeFault(program, node, c, EgressContradiction);
    assert !NodeFault(program, node, c, EgressAuthorityMismatch);
  }

  lemma ImageOfActions(requests: seq<Request>)
    ensures Image(Actions(requests)) == RequestedEffects(requests)
  {
    hide EffectFor;
    forall e | e in RequestedEffects(requests) ensures e in Image(Actions(requests)) {
      var i :| 0 <= i < |requests| && EffectFor(requests[i].action) == Some(e);
      assert requests[i].action in Actions(requests);
    }
  }

  lemma RequestedAreProtected(requests: seq<Request>)
    ensures forall e | e in RequestedEffects(requests) :: Protected(e)
  {
    hide EffectFor;
    forall e | e in RequestedEffects(requests) ensures Protected(e) {
      var i :| 0 <= i < |requests| && EffectFor(requests[i].action) == Some(e);
      EffectForIsProtected(requests[i].action);
    }
  }

  /** Protected effects of an accepted node are exactly those its requested authority names. */
  lemma EffectEquation(program: Program, node: Node, c: Contract)
    requires ContractAccepted(c) && FaultFree(program, node, c)
    ensures ProtectedOf(DerivedEffects(node, c)) == Image(Actions(node.requests))
  {
    hide EffectFor, FaultFree, EgressFault, EgressConsistent, AuthorityMissing, RequestedEffects, Actions, Image;
    FaultFreeMeans(program, node, c);
    ImageOfActions(node.requests);
    RequestedAreProtected(node.requests);
    forall e | e in RequiredNonPure(c) && Protected(e) ensures e in RequestedEffects(node.requests) {
      var a :| a in c.requiredAuthority && EffectFor(a) == Some(e);
      RequiredIsRequested(program, node, c, a);
      ActionNames(node.requests, a, e);
    }
    forall e | e in PlacementEffects(node) ensures e in RequestedEffects(node.requests) {
      NetworkEffects();
      ActionNames(node.requests, if e == Network then "network.connect" else "data.egress", e);
    }
  }

  lemma ActionNames(requests: seq<Request>, a: string, e: EffectClass)
    requires a in Actions(requests) && EffectFor(a) == Some(e)
    ensures e in RequestedEffects(requests)
  {
    hide EffectFor;
  }

  lemma RequiredIsRequested(program: Program, node: Node, c: Contract, a: string)
    requires !AuthorityMissing(program, node, c) && a in c.requiredAuthority
    ensures a in Actions(node.requests)
  {
    hide ReadUncovered, Actions;
    var k :| 0 <= k < |c.requiredAuthority| && c.requiredAuthority[k] == a;
    assert !MissingAt(program, node, c, k);
  }

  lemma NetworkEffects()
    ensures EffectFor("network.connect") == Some(Network) && EffectFor("data.egress") == Some(DataEgress)
  {}

  /** A node that denies egress carries no data egress, whatever its contract allows. */
  lemma DenyMeansNoEgress(program: Program, node: Node, c: Contract)
    requires FaultFree(program, node, c) && node.egressMode.Deny?
    ensures DataEgress !in DerivedEffects(node, c) && "data.egress" !in Actions(node.requests)
  {
    hide FaultFree, DerivedEffects, EffectFor;
    FaultFreeMeans(program, node, c);
    assert !EgressFault(node, c, DerivedEffects(node, c), EgressContradiction);
    forall i | 0 <= i < |node.requests| ensures node.requests[i].action != "data.egress" {
      assert node.requests[i] in node.requests;
      assert node.requests[i].resource !in EgressResources(node);
    }
  }

  // ---------------------------------------------------------------- the program summary

  datatype Summary = Summary(
    effects: set<EffectClass>,
    authorities: set<string>,
    egressModes: set<EgressMode>,
    barriers: set<string>,
    containsProbabilistic: bool,
    containsOpaque: bool
  )

  function AllEffects(nodes: seq<Node>, effects: map<string, set<EffectClass>>): (r: set<EffectClass>)
    requires forall i | 0 <= i < |nodes| :: nodes[i].id in effects
    ensures forall e :: e in r <==> exists i | 0 <= i < |nodes| :: e in effects[nodes[i].id]
  {
    if nodes == [] then {}
    else var n := |nodes| - 1; AllEffects(nodes[..n], effects) + effects[nodes[n].id]
  }

  function AllActions(nodes: seq<Node>): set<string> {
    if nodes == [] then {}
    else var n := |nodes| - 1; AllActions(nodes[..n]) + Actions(nodes[n].requests)
  }

  lemma {:induction false} AllActionsMembers(nodes: seq<Node>, a: string)
    ensures a in AllActions(nodes) <==> exists i | 0 <= i < |nodes| :: a in Actions(nodes[i].requests)
  {
    hide Actions;
    if nodes != [] {
      var n := |nodes| - 1;
      AllActionsMembers(nodes[..n], a);
      assert forall i | 0 <= i < n :: nodes[..n][i] == nodes[i];
    }
  }

  /** The order of the verification barriers and node lines follows the sorted node IDs; as sets they are: */
  function Barriers(nodes: seq<Node>): set<string> {
    set i | 0 <= i < |nodes| && nodes[i].kind.VerifyResult? :: nodes[i].id
  }

  function Modes(nodes: seq<Node>): set<EgressMode> {
    set i | 0 <= i < |nodes| :: nodes[i].egressMode
  }

  /** `build_summary`. */
  method BuildSummary(program: Program, effects: map<string, set<EffectClass>>) returns (s: Summary)
    requires forall i | 0 <= i < |program.nodes| :: program.nodes[i].id in effects
    requires forall id | id in effects :: exists i | 0 <= i < |program.nodes| :: program.nodes[i].id == id
    ensures s.effects == var all := AllEffects(program.nodes, effects); if all == {Pure} then all else all - {Pure}
    ensures s.authorities == AllActions(program.nodes)
    ensures s.egressModes == Modes(program.nodes) && s.barriers == Barriers(program.nodes)
    ensures s.containsProbabilistic <==>
              exists i | 0 <= i < |program.nodes| :: program.nodes[i].executionClass.Probabilistic?
    ensures s.containsOpaque <==>
              || (exists i | 0 <= i < |program.nodes| :: program.nodes[i].executionClass.OpaqueExternal?)
              || LegacyOpaque in AllEffects(program.nodes, effects)
  {
    hide Actions, AllEffects, AllActions, Modes, Barriers;
    var nodes := program.nodes;
    var all, authorities, modes, barriers := Accumulate(nodes, effects);
    var kept := all;
    if |all| > 1 { kept := all - {Pure}; }
    if Pure in all { PureAlone(all); }
    LegacySomewhere(nodes, effects);
    s := Summary(kept, authorities, modes, barriers,
                 exists k | 0 <= k < |nodes| :: nodes[k].executionClass.Probabilistic?,
                 (exists k | 0 <= k < |nodes| :: nodes[k].executionClass.OpaqueExternal?)
                 || exists id | id in effects :: LegacyOpaque in effects[id]);
  }

  /** The loop of `build_summary` over the nodes. */
  method Accumulate(nodes: seq<Node>, effects: map<string, set<EffectClass>>)
    returns (all: set<EffectClass>, authorities: set<string>, modes: set<EgressMode>, barriers: set<string>)
    requires forall i | 0 <= i < |nodes| :: nodes[i].id in effects
    ensures all == AllEffects(nodes, effects) && authorities == AllActions(nodes)
    ensures modes == Modes(nodes) && barriers == Barriers(nodes)
  {
    hide Actions, AllEffects, AllActions, Modes, Barriers;
    NoSummary(nodes, effects);
    all, authorities, modes, barriers := {}, {}, {}, {};
    for i := 0 to |nodes|
      invariant all == AllEffects(nodes[..i], effects)
      invariant authorities == AllActions(nodes[..i])
      invariant modes == Modes(nodes[..i]) && barriers == Barriers(nodes[..i])
    {
      var node := nodes[i];
      SummarySnoc(nodes, i, effects);
      all := all + effects[node.id];
      authorities := authorities + Actions(node.requests);
      modes := modes + {node.egressMode};
      if node.kind.VerifyResult? { barriers := barriers + {node.id}; }
    }
    assert nodes[..|nodes|] == nodes;
  }

  lemma SummarySnoc(nodes: seq<Node>, i: nat, effects: map<string, set<EffectClass>>)
    requires i < |nodes| && forall k | 0 <= k < |nodes| :: nodes[k].id in effects
    ensures AllEffects(nodes[..i + 1], effects) == AllEffects(nodes[..i], effects) + effects[nodes[i].id]
    ensures AllActions(nodes[..i + 1]) == AllActions(nodes[..i]) + Actions(nodes[i].requests)
    ensures Modes(nodes[..i + 1]) == Modes(nodes[..i]) + {nodes[i].egressMode}
    ensures Barriers(nodes[..i + 1])
         == if nodes[i].kind.VerifyResult? then Barriers(nodes[..i]) + {nodes[i].id} else Barriers(nodes[..i])
  {
    hide Actions;
    var shorter, longer := nodes[..i], nodes[..i + 1];
    assert longer[..i] == shorter && longer[i] == nodes[i];
    assert forall k | 0 <= k < i :: longer[k] == shorter[k];
  }

  lemma NoSummary(nodes: seq<Node>, effects: map<string, set<EffectClass>>)
    requires forall k | 0 <= k < |nodes| :: nodes[k].id in effects
    ensures AllEffects(nodes[..0], effects) == {} && AllActions(nodes[..0]) == {}
    ensures Modes(nodes[..0]) == {} && Barriers(nodes[..0]) == {}
  {
  }

  lemma LegacySomewhere(nodes: seq<Node>, effects: map<string, set<EffectClass>>)
    requires forall i | 0 <= i < |nodes| :: nodes[i].id in effects
    requires forall id | id in effects :: exists i | 0 <= i < |nodes| :: nodes[i].id == id
    ensures (exists id | id in effects :: LegacyOpaque in effects[id]) <==> LegacyOpaque in AllEffects(nodes, effects)
  {
    if id :| id in effects && LegacyOpaque in effects[id] {
      var i :| 0 <= i < |nodes| && nodes[i].id == id;
      assert LegacyOpaque in effects[nodes[i].id];
    }
  }

  lemma PureAlone(all: set<EffectClass>)
    requires Pure in all
    ensures |all| > 1 <==> all != {Pure}
  {
    if |all| <= 1 {
      assert all == {Pure} + (all - {Pure});
      assert |all - {Pure}| == |all| - 1;
    }
  }

  /** Every node of the program is fault-free against an accepted contract. */
  ghost predicate Analysed(program: Program, capabilities: map<string, Contract>, effects: map<string, set<EffectClass>>) {
    forall i | 0 <= i < |program.nodes| ::
      var n := program.nodes[i];
      && n.id in capabilities && n.id in effects
      && ContractAccepted(capabilities[n.id])
      && FaultFree(program, n, capabilities[n.id])
      && effects[n.id] == DerivedEffects(n, capabilities[n.id])
  }

  /** The same equation for the whole program: the summary's effects are those its authorities name. */
  lemma SummaryEquation(program: Program, capabilities: map<string, Contract>, effects: map<string, set<EffectClass>>)
    requires Analysed(program, capabilities, effects)
    ensures ProtectedOf(AllEffects(program.nodes, effects)) == Image(AllActions(program.nodes))
  {
    hide ContractAccepted, FaultFree, DerivedEffects, EffectFor, Actions;
    var left, right := ProtectedOf(AllEffects(program.nodes, effects)), Image(AllActions(program.nodes));
    forall e | e in left ensures e in right {
      var i :| 0 <= i < |program.nodes| && e in effects[program.nodes[i].id];
      EffectEquation(program, program.nodes[i], capabilities[program.nodes[i].id]);
      assert e in Image(Actions(program.nodes[i].requests));
      var a :| a in Actions(program.nodes[i].requests) && EffectFor(a) == Some(e);
      AllActionsMembers(program.nodes, a);
    }
    forall e | e in right ensures e in left {
      var a :| a in AllActions(program.nodes) && EffectFor(a) == Some(e);
      AllActionsMembers(program.nodes, a);
      var i :| 0 <= i < |program.nodes| && a in Actions(program.nodes[i].requests);
      EffectEquation(program, program.nodes[i], capabilities[program.nodes[i].id]);
      assert e in ProtectedOf(DerivedEffects(program.nodes[i], capabilities[program.nodes[i].id]));
    }
  }
}
