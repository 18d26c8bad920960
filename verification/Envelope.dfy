/**
 What the analyser demands of a program, said of its nodes, requests, ports and fallbacks alone, and that it
 accepts exactly the programs that meet it.
 */
module Envelope {
  import opened Values
  import opened Ir
  import opened Digraph
  import opened Effects
  import opened Fallbacks
  import opened References
  import opened Types

  predicate Requests(node: Node, action: string) {
    exists r | r in node.requests :: r.action == action
  }

  /** Wherever an artifact of the program flows into an artifact port of the contract, reading that very input is
      requested. */
  predicate ReadsCovered(program: Program, node: Node, c: Contract) {
    forall port | port in node.inputs && node.inputs[port].InputRef? && port in c.inputs ::
      var name := node.inputs[port].name;
      name in program.inputs && "artifact." <= c.inputs[port].typeRef && "artifact." <= program.inputs[name].typeRef
      ==> Request("artifact.read", "input:" + name) in node.requests
  }

  /** The node may only be placed away from this device. */
  predicate RemoteOnly(node: Node) {
    node.locality != [] && forall l | l in node.locality :: l == Peer || l == Remote || l == Hybrid
  }

  /** A source of the effect: the contract requires it, a request names it, or the placement implies it. */
  ghost predicate Carries(node: Node, c: Contract, e: EffectClass) {
    || (e in c.requiredEffects && e != Pure)
    || (exists r | r in node.requests :: EffectFor(r.action) == Some(e))
    || (RemoteOnly(node) && (e == Network || (e == DataEgress && node.inputs != map[])))
  }

  ghost predicate AuthorityMeets(program: Program, node: Node, c: Contract) {
    && (forall i, j | 0 <= i < j < |node.requests| :: node.requests[i] != node.requests[j])
    && (forall r | r in node.requests :: r.action in c.allowedAuthority && EffectFor(r.action).Some?)
    && (forall a | a in c.requiredAuthority :: Requests(node, a))
    && ("artifact.read" in c.requiredAuthority ==> ReadsCovered(program, node, c))
    && (RemoteOnly(node) ==> Requests(node, "network.connect") && (node.inputs != map[] ==> Requests(node, "data.egress")))
  }

  ghost predicate EffectsMeet(node: Node, c: Contract) {
    && (forall e | Carries(node, c, e) :: e in c.allowedEffects)
    && ((forall e :: !Carries(node, c, e)) ==> Pure in c.allowedEffects)
  }

  ghost predicate EgressMeets(node: Node, c: Contract) {
    && node.egressMode in c.allowedEgress
    && (node.egressMode == Deny ==>
          node.destinations == [] && !Requests(node, "data.egress") && !Carries(node, c, DataEgress))
    && (node.egressMode == Policy ==>
          && node.destinations != []
          && (forall d | d in node.destinations :: Request("data.egress", "destination:" + d) in node.requests)
          && (forall r | r in node.requests && r.action == "data.egress" ::
                exists d | d in node.destinations :: r.resource == "destination:" + d))
  }

  /** Everything demanded of a node against its contract. */
  ghost predicate NodeMeets(program: Program, node: Node, c: Contract) {
    && AuthorityMeets(program, node, c) && EffectsMeet(node, c) && EgressMeets(node, c)
    && (node.cache != Never ==> node.executionClass == Deterministic)
  }

  // ---------------------------------------------------------------- nodes

  lemma ReadsCoveredIff(program: Program, node: Node, c: Contract)
    ensures ReadUncovered(program, node, c) <==> !ReadsCovered(program, node, c)
  {
    if !ReadsCovered(program, node, c) {
      var port :| port in node.inputs && node.inputs[port].InputRef? && port in c.inputs
                  && (var name := node.inputs[port].name;
                      && name in program.inputs && "artifact." <= c.inputs[port].typeRef
                      && "artifact." <= program.inputs[name].typeRef
                      && Request("artifact.read", "input:" + name) !in node.requests);
      assert UncoveredArtifactInput(program, node, c, port);
    }
  }

  lemma ActionsIff(node: Node, a: string)
    ensures a in Actions(node.requests) <==> Requests(node, a)
  {
    if a in Actions(node.requests) {
      var i :| 0 <= i < |node.requests| && node.requests[i].action == a;
      assert node.requests[i] in node.requests;
    }
  }

  lemma RemoteIff(node: Node)
    ensures NonLocalOnly(node) <==> RemoteOnly(node)
    ensures |node.inputs| == 0 <==> node.inputs == map[]
  {
  }

  lemma AuthorityIff(program: Program, node: Node, c: Contract)
    ensures AuthorityMeets(program, node, c) <==>
            && !HasDuplicate(node.requests) && !OutsideEnvelope(node.requests, c) && !Unmapped(node.requests)
            && !AuthorityMissing(program, node, c) && !PlacementUnauthorised(node)
  {
    hide EffectFor, Actions, ReadUncovered, ReadsCovered, Requests;
    ReadsCoveredIff(program, node, c);
    RemoteIff(node);
    hide NonLocalOnly, RemoteOnly;
    forall a ensures a in Actions(node.requests) <==> Requests(node, a) { ActionsIff(node, a); }
    MissingIff(program, node, c);
    hide AuthorityMissing;
    assert !OutsideEnvelope(node.requests, c) && !Unmapped(node.requests) <==>
           forall r | r in node.requests :: r.action in c.allowedAuthority && EffectFor(r.action).Some? by {
      EnvelopeIff(node.requests, c);
    }
    hide OutsideEnvelope, Unmapped;
  }

  lemma EnvelopeIff(requests: seq<Request>, c: Contract)
    ensures !OutsideEnvelope(requests, c) && !Unmapped(requests) <==>
            forall r | r in requests :: r.action in c.allowedAuthority && EffectFor(r.action).Some?
  {
    hide EffectFor;
    if !OutsideEnvelope(requests, c) && !Unmapped(requests) {
      forall r | r in requests ensures r.action in c.allowedAuthority && EffectFor(r.action).Some? {
        var i :| 0 <= i < |requests| && requests[i] == r;
      }
    }
    if forall r | r in requests :: r.action in c.allowedAuthority && EffectFor(r.action).Some? {
      assert forall i | 0 <= i < |requests| :: requests[i] in requests;
    }
  }

  lemma MissingIff(program: Program, node: Node, c: Contract)
    ensures !AuthorityMissing(program, node, c) <==>
            && (forall a | a in c.requiredAuthority :: a in Actions(node.requests))
            && ("artifact.read" in c.requiredAuthority ==> !ReadUncovered(program, node, c))
  {
    hide Actions, ReadUncovered;
    if !AuthorityMissing(program, node, c) {
      forall a | a in c.requiredAuthority
        ensures a in Actions(node.requests) && (a == "artifact.read" ==> !ReadUncovered(program, node, c))
      {
        var k :| 0 <= k < |c.requiredAuthority| && c.requiredAuthority[k] == a;
        assert !MissingAt(program, node, c, k);
      }
    }
    if k :| 0 <= k < |c.requiredAuthority| && MissingAt(program, node, c, k) {
      assert c.requiredAuthority[k] in c.requiredAuthority;
    }
  }

  /** The derived effects are the carried ones, or `Pure` when there are none. */
  lemma DerivedIff(node: Node, c: Contract, e: EffectClass)
    ensures e in DerivedEffects(node, c) <==> Carries(node, c, e) || (e == Pure && forall x :: !Carries(node, c, x))
  {
    hide Carries, RequiredNonPure, PlacementEffects, RequestedEffects;
    var all := RequiredNonPure(c) + RequestedEffects(node.requests) + PlacementEffects(node);
    forall x ensures x in all <==> Carries(node, c, x) { CarriedIff(node, c, x); }
    assert all == {} <==> forall x :: !Carries(node, c, x);
  }

  lemma CarriedIff(node: Node, c: Contract, e: EffectClass)
    ensures e in RequiredNonPure(c) + RequestedEffects(node.requests) + PlacementEffects(node) <==> Carries(node, c, e)
  {
    hide EffectFor, RequestedEffects;
    RemoteIff(node);
    hide NonLocalOnly, RemoteOnly;
    if e in RequestedEffects(node.requests) {
      var i :| 0 <= i < |node.requests| && EffectFor(node.requests[i].action) == Some(e);
      assert node.requests[i] in node.requests;
    }
    if r :| r in node.requests && EffectFor(r.action) == Some(e) {
      var i :| 0 <= i < |node.requests| && node.requests[i] == r;
    }
  }

  lemma EffectsIff(node: Node, c: Contract)
    ensures EffectsMeet(node, c) <==> !OutsideEffects(node, c)
  {
    hide Carries, DerivedEffects;
    forall e ensures e in DerivedEffects(node, c) <==> Carries(node, c, e) || (e == Pure && forall x :: !Carries(node, c, x)) {
      DerivedIff(node, c, e);
    }
  }

  lemma EgressIff(node: Node, c: Contract)
    ensures EgressMeets(node, c) <==> forall code :: !EgressFault(node, c, DerivedEffects(node, c), code)
  {
    hide Carries, DerivedEffects, Requests;
    DerivedIff(node, c, DataEgress);
    ResourcesIff(node);
    DestinationsIff(node);
    hide EgressResources, Destinations;
    var effects := DerivedEffects(node, c);
    if EgressMeets(node, c) {
      forall code ensures !EgressFault(node, c, effects, code) { }
    }
    if forall code :: !EgressFault(node, c, effects, code) {
      assert !EgressFault(node, c, effects, EgressNotAllowed);
      assert !EgressFault(node, c, effects, EgressContradiction);
      assert !EgressFault(node, c, effects, EgressAuthorityMismatch);
    }
  }

  lemma ResourcesIff(node: Node)
    ensures EgressResources(node) == {} <==> !Requests(node, "data.egress")
  {
    if r :| r in node.requests && r.action == "data.egress" { assert r.resource in EgressResources(node); }
    if x :| x in EgressResources(node) {
      var r :| r in node.requests && r.action == "data.egress" && r.resource == x;
    }
  }

  lemma DestinationsIff(node: Node)
    ensures Destinations(node) == {} <==> node.destinations == []
    ensures Destinations(node) == EgressResources(node) <==>
            && (forall d | d in node.destinations :: Request("data.egress", "destination:" + d) in node.requests)
            && (forall r | r in node.requests && r.action == "data.egress" ::
                  exists d | d in node.destinations :: r.resource == "destination:" + d)
  {
    var named, asked := Destinations(node), EgressResources(node);
    if node.destinations != [] { assert "destination:" + node.destinations[0] in named; }
    if named == asked {
      forall d | d in node.destinations ensures Request("data.egress", "destination:" + d) in node.requests {
        assert "destination:" + d in asked;
        var r :| r in node.requests && r.action == "data.egress" && r.resource == "destination:" + d;
        assert r == Request("data.egress", "destination:" + d);
      }
      forall r | r in node.requests && r.action == "data.egress"
        ensures exists d | d in node.destinations :: r.resource == "destination:" + d
      {
        assert r.resource in named;
      }
    }
    if && (forall d | d in node.destinations :: Request("data.egress", "destination:" + d) in node.requests)
       && (forall r | r in node.requests && r.action == "data.egress" ::
             exists d | d in node.destinations :: r.resource == "destination:" + d)
    {
      forall x | x in named ensures x in asked {
        var d :| d in node.destinations && x == "destination:" + d;
        assert Request("data.egress", "destination:" + d) in node.requests;
      }
      assert named == asked;
    }
  }

  /** A node is reported for nothing exactly when it meets every demand. */
  lemma NodeMeetsIff(program: Program, node: Node, c: Contract)
    ensures FaultFree(program, node, c) <==> NodeMeets(program, node, c)
  {
    AuthorityIff(program, node, c);
    EffectsIff(node, c);
    EgressIff(node, c);
    hide AuthorityMeets, EffectsMeet, EgressMeets, HasDuplicate, OutsideEnvelope, Unmapped, AuthorityMissing,
         PlacementUnauthorised, OutsideEffects, DerivedEffects, EgressFault;
    FaultFreeParts(program, node, c);
    hide FaultFree;
  }

  lemma FaultFreeParts(program: Program, node: Node, c: Contract)
    ensures FaultFree(program, node, c) <==>
            && !HasDuplicate(node.requests) && !OutsideEnvelope(node.requests, c) && !Unmapped(node.requests)
            && !AuthorityMissing(program, node, c) && !PlacementUnauthorised(node) && !OutsideEffects(node, c)
            && (forall code :: !EgressFault(node, c, DerivedEffects(node, c), code))
            && (node.cache.Never? || node.executionClass.Deterministic?)
  {
    hide HasDuplicate, OutsideEnvelope, Unmapped, AuthorityMissing, PlacementUnauthorised, OutsideEffects, DerivedEffects;
    if FaultFree(program, node, c) {
      FaultFreeMeans(program, node, c);
      assert !NodeFault(program, node, c, AuthorityDuplicateRequest);
      assert !NodeFault(program, node, c, CacheExecutionClassMismatch);
    }
  }

  // ---------------------------------------------------------------- fallbacks

  /** Some node or program output reads the port of the node. */
  ghost predicate Consumed(program: Program, node: Node, port: string) {
    || (exists i, name | 0 <= i < |program.nodes| && name in program.nodes[i].inputs ::
          program.nodes[i].inputs[name] == NodeRef(node.id, port))
    || (exists name | name in program.outputs :: program.outputs[name] == NodeRef(node.id, port))
  }

  /** The fallback takes what the node is given and yields what is read from it. */
  ghost predicate Substitutes(program: Program, node: Node, primary: Contract, fallback: Contract) {
    && (forall port | port in node.inputs ::
          && port in primary.inputs && port in fallback.inputs
          && fallback.inputs[port].typeRef == primary.inputs[port].typeRef
          && (fallback.inputs[port].required ==>
                forall name | node.inputs[port] == InputRef(name) && name in program.inputs :: program.inputs[name].required))
    && (forall port | port in fallback.inputs && port !in node.inputs :: !fallback.inputs[port].required)
    && (forall port | Consumed(program, node, port) ::
          && port in node.outputs && port in fallback.outputs
          && fallback.outputs[port].typeRef == node.outputs[port])
  }

  /** Everything demanded of one fallback, but for cycles. */
  ghost predicate FallbackMeets(program: Program, contracts: map<string, Contract>, node: Node, primary: Contract, f: string) {
    && f != node.capability && f in contracts
    && var fallback := contracts[f];
       && ("artifact.read" in fallback.requiredAuthority ==> ReadsCovered(program, node, fallback))
       && Substitutes(program, node, primary, fallback)
       && node.executionClass in fallback.allowedExecution
       && (fallback.role == Verifier <==> node.kind == VerifyResult)
       && (forall e | e in fallback.allowedEffects && e != Pure :: Carries(node, primary, e))
       && (forall a | a in fallback.allowedAuthority :: Requests(node, a))
       && (node.egressMode == Deny ==> forall m | m in fallback.allowedEgress :: m == Deny)
  }

  lemma PortsIff(program: Program, node: Node, primary: Contract, fallback: Contract)
    ensures PortsCompatible(program, node, primary, fallback) <==> Substitutes(program, node, primary, fallback)
  {
    if PortsCompatible(program, node, primary, fallback) {
      forall port | Consumed(program, node, port)
        ensures port in node.outputs && port in fallback.outputs && fallback.outputs[port].typeRef == node.outputs[port]
      {
        assert ReferenceFits(node, fallback, NodeRef(node.id, port));
      }
      forall port | port in node.inputs
        ensures BoundInputFits(program, node, primary, fallback, port) {}
    }
    if Substitutes(program, node, primary, fallback) {
      forall i, name | 0 <= i < |program.nodes| && name in program.nodes[i].inputs
        ensures ReferenceFits(node, fallback, program.nodes[i].inputs[name])
      {
        var value := program.nodes[i].inputs[name];
        if value.NodeRef? && value.node == node.id {
          assert program.nodes[i].inputs[name] == NodeRef(node.id, value.port);
          assert Consumed(program, node, value.port);
        }
      }
      forall name | name in program.outputs ensures ReferenceFits(node, fallback, program.outputs[name]) {
        var value := program.outputs[name];
        if value.NodeRef? && value.node == node.id {
          assert program.outputs[name] == NodeRef(node.id, value.port);
          assert Consumed(program, node, value.port);
        }
      }
      forall port | port in node.inputs ensures BoundInputFits(program, node, primary, fallback, port) {
        var value := node.inputs[port];
        assert value.InputRef? ==> value == InputRef(value.name);
      }
    }
  }

  lemma BroadeningIff(node: Node, primary: Contract, fallback: Contract)
    ensures !BroadensEffects(fallback, DerivedEffects(node, primary)) <==>
            forall e | e in fallback.allowedEffects && e != Pure :: Carries(node, primary, e)
    ensures !BroadensAuthority(fallback, Actions(node.requests)) <==>
            forall a | a in fallback.allowedAuthority :: Requests(node, a)
    ensures (Policy in fallback.allowedEgress) <==> !(forall m | m in fallback.allowedEgress :: m == Deny)
  {
    hide Carries, DerivedEffects, Requests, Actions;
    forall e ensures e in DerivedEffects(node, primary) <==> Carries(node, primary, e) || (e == Pure && forall x :: !Carries(node, primary, x)) {
      DerivedIff(node, primary, e);
    }
    forall a ensures a in Actions(node.requests) <==> Requests(node, a) { ActionsIff(node, a); }
  }

  /** A fallback is reported for nothing exactly when it meets every demand and does not lead back. */
  lemma FallbackMeetsIff(program: Program, r: Edges, contracts: map<string, Contract>, node: Node, primary: Contract, f: string)
    ensures (forall code :: !FallbackFault(program, r, contracts, node, primary, DerivedEffects(node, primary), f, code)) <==>
            FallbackMeets(program, contracts, node, primary, f) && !Reaches(r, f, node.capability)
  {
    if f != node.capability && f in contracts {
      PortsIff(program, node, primary, contracts[f]);
      BroadeningIff(node, primary, contracts[f]);
      ReadsCoveredIff(program, node, contracts[f]);
    }
    hide PortsCompatible, Substitutes, ReadUncovered, ReadsCovered, BroadensEffects, BroadensAuthority, Carries, Requests,
         DerivedEffects, Actions, Reaches;
    var effects := DerivedEffects(node, primary);
    if forall code :: !FallbackFault(program, r, contracts, node, primary, effects, f, code) {
      assert !FallbackFault(program, r, contracts, node, primary, effects, f, RecursiveFallback);
      assert !FallbackFault(program, r, contracts, node, primary, effects, f, CapabilityNotFound);
      CleanSubstitution(program, r, contracts, node, primary, effects, f);
      CleanBroadening(program, r, contracts, node, primary, effects, f);
    }
  }

  lemma CleanSubstitution(program: Program, r: Edges, contracts: map<string, Contract>, node: Node, primary: Contract,
                          effects: set<EffectClass>, f: string)
    requires forall code :: !FallbackFault(program, r, contracts, node, primary, effects, f, code)
    requires f != node.capability && f in contracts
    ensures forall code :: !SubstitutionFault(program, node, primary, contracts[f], code)
    ensures "artifact.read" in contracts[f].requiredAuthority ==> !ReadUncovered(program, node, contracts[f])
    ensures PortsCompatible(program, node, primary, contracts[f])
    ensures node.executionClass in contracts[f].allowedExecution && contracts[f].role == RoleFor(node.kind)
  {
    hide PortsCompatible, ReadUncovered, BroadeningFault, Reaches;
    assert !FallbackFault(program, r, contracts, node, primary, effects, f, RequiredAuthorityMissing);
    assert !FallbackFault(program, r, contracts, node, primary, effects, f, FallbackPortMismatch);
    assert !FallbackFault(program, r, contracts, node, primary, effects, f, ExecutionClassIncompatible);
    assert !FallbackFault(program, r, contracts, node, primary, effects, f, CapabilityRoleMismatch);
  }

  lemma CleanBroadening(program: Program, r: Edges, contracts: map<string, Contract>, node: Node, primary: Contract,
                        effects: set<EffectClass>, f: string)
    requires forall code :: !FallbackFault(program, r, contracts, node, primary, effects, f, code)
    requires f != node.capability && f in contracts
    ensures !BroadensEffects(contracts[f], effects) && !BroadensAuthority(contracts[f], Actions(node.requests))
    ensures !(node.egressMode.Deny? && Policy in contracts[f].allowedEgress)
  {
    hide SubstitutionFault, BroadensEffects, BroadensAuthority, Actions, Reaches;
    assert !FallbackFault(program, r, contracts, node, primary, effects, f, FallbackEffectBroadening);
    assert !FallbackFault(program, r, contracts, node, primary, effects, f, FallbackAuthorityBroadening);
    assert !FallbackFault(program, r, contracts, node, primary, effects, f, FallbackEgressBroadening);
  }

  // ---------------------------------------------------------------- cycles of fallbacks

  lemma {:induction false} MergedExists(nodes: seq<Node>) returns (r: Edges)
    ensures Merged(nodes, r)
  {
    if nodes == [] {
      r := map[];
    } else {
      var n := |nodes| - 1;
      var before := MergedExists(nodes[..n]);
      var node := nodes[n];
      r := if node.failure.Fallback?
           then before[node.capability := (if node.capability in before then before[node.capability] else {})
                                          + (set f | f in node.failure.capabilities)]
           else before;
      assert nodes[..n + 1] == nodes;
      forall a, b ensures Edge(r, a, b) <==> FallsBack(nodes, a, b) {
        EdgeSnoc(nodes, n, a, b);
        assert Edge(before, a, b) <==> FallsBack(nodes[..n], a, b);
      }
    }
  }

  lemma CycleFrom(r: Edges, a: string, b: string)
    requires Edge(r, a, b) && Reaches(r, b, a)
    ensures HasCycle(r)
  {
    var p :| IsWalk(r, p) && p[0] == b && p[|p| - 1] == a;
    var q := [a] + p;
    forall i | 0 <= i < |q| - 1 ensures Edge(r, q[i], q[i + 1]) { if i > 0 { assert Edge(r, p[i - 1], p[i]); } }
    assert IsWalk(r, q) && |q| >= 2 && q[0] == q[|q| - 1];
  }

  /** A relation without a cycle is one in which no fallback leads back. */
  lemma LeadsBackIff(nodes: seq<Node>, r: Edges)
    requires Merged(nodes, r)
    ensures !HasCycle(r) <==>
            forall i, f | 0 <= i < |nodes| && FallsBackTo(nodes[i], f) :: !Reaches(r, f, nodes[i].capability)
  {
    hide FallsBackTo;
    if !HasCycle(r) {
      forall i, f | 0 <= i < |nodes| && FallsBackTo(nodes[i], f) ensures !Reaches(r, f, nodes[i].capability) {
        assert FallsBack(nodes, nodes[i].capability, f);
        assert Edge(r, nodes[i].capability, f);
        if Reaches(r, f, nodes[i].capability) { CycleFrom(r, nodes[i].capability, f); }
      }
    }
    if forall i, f | 0 <= i < |nodes| && FallsBackTo(nodes[i], f) :: !Reaches(r, f, nodes[i].capability) {
      forall p | IsWalk(r, p) && |p| >= 2 ensures p[0] != p[|p| - 1] {
        assert Edge(r, p[0], p[1]);
        assert FallsBack(nodes, p[0], p[1]);
        var i :| 0 <= i < |nodes| && nodes[i].capability == p[0] && FallsBackTo(nodes[i], p[1]);
        TailIsWalk(r, p);
      }
    }
  }

  // ---------------------------------------------------------------- wiring and types

  /** The value exists and has the type. */
  ghost predicate Supplies(program: Program, value: ValueRef, typeRef: string) {
    match value
    case InputRef(name) => name in program.inputs && program.inputs[name].typeRef == typeRef
    case NodeRef(id, port) =>
      exists i | 0 <= i < |program.nodes| ::
        program.nodes[i].id == id && port in program.nodes[i].outputs && program.nodes[i].outputs[port] == typeRef
  }

  /** Every bound port is one of the contract's, supplied with its type, and a required one is not fed by an
      optional program input. */
  ghost predicate InputsTyped(program: Program, node: Node, c: Contract) {
    && (forall p | p in c.inputs && c.inputs[p].required :: p in node.inputs)
    && forall p | p in node.inputs ::
         && p in c.inputs && Supplies(program, node.inputs[p], c.inputs[p].typeRef)
         && (c.inputs[p].required && node.inputs[p].InputRef? ==> program.inputs[node.inputs[p].name].required)
  }

  ghost predicate OutputsTyped(registry: Registry, node: Node, c: Contract) {
    && (forall p | p in c.outputs && c.outputs[p].required :: p in node.outputs)
    && forall p | p in node.outputs ::
         p in c.outputs && node.outputs[p] == c.outputs[p].typeRef && node.outputs[p] in registry.types
  }

  /** A known capability in its role and execution class, with the ports of its contract. */
  ghost predicate NodeTyped(program: Program, registry: Registry, node: Node) {
    && node.capability in registry.contracts
    && var c := registry.contracts[node.capability];
       && (c.role == Verifier <==> node.kind == VerifyResult)
       && node.executionClass in c.allowedExecution
       && InputsTyped(program, node, c) && OutputsTyped(registry, node, c)
  }

  /** Every program output is some node's output, and an input selector names a program input that the node
      reads. */
  ghost predicate Wired(program: Program) {
    && (forall name | name in program.outputs :: exists t :: program.outputs[name].NodeRef? && Supplies(program, program.outputs[name], t))
    && forall i, r, name: string | 0 <= i < |program.nodes| && r in program.nodes[i].requests && r.resource == "input:" + name ::
         && name in program.inputs
         && exists port | port in program.nodes[i].inputs :: program.nodes[i].inputs[port] == InputRef(name)
  }

  lemma SuppliesIff(program: Program, value: ValueRef, typeRef: string)
    requires DistinctIds(program)
    ensures Supplies(program, value, typeRef) <==> ActualType(program, value) == Some(typeRef)
    ensures Supplies(program, value, typeRef) ==> RefOk(program, value)
  {
    if value.NodeRef? {
      if i :| 0 <= i < |program.nodes| && program.nodes[i].id == value.node && value.port in program.nodes[i].outputs
              && program.nodes[i].outputs[value.port] == typeRef
      {
        OutputTypeFound(program.nodes, i, value.port);
      }
      if OutputType(program.nodes, value.node, value.port) == Some(typeRef) {
        var i := DeclaredSomewhere(program.nodes, value.node, value.port);
      }
    }
  }

  lemma {:induction false} DeclaredSomewhere(nodes: seq<Node>, id: string, port: string) returns (i: nat)
    requires OutputType(nodes, id, port).Some?
    ensures i < |nodes| && nodes[i].id == id && port in nodes[i].outputs
    ensures OutputType(nodes, id, port) == Some(nodes[i].outputs[port])
  {
    var n := |nodes| - 1;
    if nodes[n].id == id && port in nodes[n].outputs { i := n; } else { i := DeclaredSomewhere(nodes[..n], id, port); }
  }

  lemma InputsIff(program: Program, node: Node, c: Contract)
    requires DistinctIds(program)
    ensures InputsTyped(program, node, c) <==>
            && (forall p | p in c.inputs && c.inputs[p].required :: p in node.inputs)
            && (forall p | p in node.inputs :: p in c.inputs)
            && FlowsMatch(program, node, c)
    ensures InputsTyped(program, node, c) ==> forall p | p in node.inputs :: RefOk(program, node.inputs[p])
  {
    hide ActualType, RefOk;
    forall p | p in node.inputs && p in c.inputs
      ensures Supplies(program, node.inputs[p], c.inputs[p].typeRef) <==>
              ActualType(program, node.inputs[p]) == Some(c.inputs[p].typeRef)
      ensures Supplies(program, node.inputs[p], c.inputs[p].typeRef) ==> RefOk(program, node.inputs[p])
    {
      SuppliesIff(program, node.inputs[p], c.inputs[p].typeRef);
    }
  }

  lemma NodeTypedIff(program: Program, registry: Registry, node: Node)
    requires DistinctIds(program)
    ensures NodeTyped(program, registry, node) <==> NodeTypesOk(program, registry, node)
    ensures NodeTyped(program, registry, node) ==> forall p | p in node.inputs :: RefOk(program, node.inputs[p])
  {
    if node.capability in registry.contracts { InputsIff(program, node, registry.contracts[node.capability]); }
    hide InputsTyped, FlowsMatch, RefOk;
  }

  lemma SelectorIff(program: Program, node: Node, resource: string)
    ensures SelectorOk(program, node, resource) <==>
            forall name: string | resource == "input:" + name ::
              name in program.inputs && exists port | port in node.inputs :: node.inputs[port] == InputRef(name)
  {
    if Selects(resource) { assert resource == "input:" + resource[6..]; }
    forall name: string | resource == "input:" + name ensures Selects(resource) && resource[6..] == name {
      assert resource[..6] == "input:" && resource[6..] == name;
    }
  }

  lemma OutputIff(program: Program, value: ValueRef)
    ensures OutputOk(program, value) <==> exists t :: value.NodeRef? && Supplies(program, value, t)
  {
    if OutputOk(program, value) {
      var i :| 0 <= i < |program.nodes| && program.nodes[i].id == value.node && value.port in program.nodes[i].outputs;
      assert Supplies(program, value, program.nodes[i].outputs[value.port]);
    }
  }

  lemma WiredIff(program: Program)
    requires forall i, p | 0 <= i < |program.nodes| && p in program.nodes[i].inputs :: RefOk(program, program.nodes[i].inputs[p])
    ensures Wired(program) <==> ReferencesOk(program)
  {
    hide RefOk, Supplies, SelectorOk, OutputOk;
    forall name | name in program.outputs
      ensures OutputOk(program, program.outputs[name]) <==>
              exists t :: program.outputs[name].NodeRef? && Supplies(program, program.outputs[name], t)
    {
      OutputIff(program, program.outputs[name]);
    }
    forall i, k | 0 <= i < |program.nodes| && 0 <= k < |program.nodes[i].requests|
      ensures SelectorOk(program, program.nodes[i], program.nodes[i].requests[k].resource) <==>
              forall name: string | program.nodes[i].requests[k].resource == "input:" + name ::
                name in program.inputs && exists port | port in program.nodes[i].inputs :: program.nodes[i].inputs[port] == InputRef(name)
    {
      SelectorIff(program, program.nodes[i], program.nodes[i].requests[k].resource);
    }
    if ReferencesOk(program) {
      forall i, r, name: string | 0 <= i < |program.nodes| && r in program.nodes[i].requests && r.resource == "input:" + name
        ensures name in program.inputs && exists port | port in program.nodes[i].inputs :: program.nodes[i].inputs[port] == InputRef(name)
      {
        assert NodeRefsOk(program, program.nodes[i]);
        var k :| 0 <= k < |program.nodes[i].requests| && program.nodes[i].requests[k] == r;
        assert SelectorOk(program, program.nodes[i], program.nodes[i].requests[k].resource);
      }
    }
    if Wired(program) {
      forall i | 0 <= i < |program.nodes| ensures NodeRefsOk(program, program.nodes[i]) {
        forall k | 0 <= k < |program.nodes[i].requests|
          ensures SelectorOk(program, program.nodes[i], program.nodes[i].requests[k].resource)
        {
          assert program.nodes[i].requests[k] in program.nodes[i].requests;
        }
      }
    }
  }

  /** The reference and type phases together ask exactly for this. */
  lemma TypedIff(program: Program, registry: Registry)
    requires DistinctIds(program)
    ensures ReferencesOk(program) && TypesOk(program, registry) <==>
            && Wired(program)
            && (forall name | name in program.inputs :: program.inputs[name].typeRef in registry.types)
            && (forall i | 0 <= i < |program.nodes| :: NodeTyped(program, registry, program.nodes[i]))
  {
    hide NodeTyped, NodeTypesOk, Wired, RefOk, DistinctIds;
    forall i | 0 <= i < |program.nodes|
      ensures NodeTyped(program, registry, program.nodes[i]) <==> NodeTypesOk(program, registry, program.nodes[i])
      ensures NodeTyped(program, registry, program.nodes[i]) ==>
                forall p | p in program.nodes[i].inputs :: RefOk(program, program.nodes[i].inputs[p])
    {
      NodeTypedIff(program, registry, program.nodes[i]);
    }
    if forall i | 0 <= i < |program.nodes| :: NodeTypesOk(program, registry, program.nodes[i]) {
      WiredIff(program);
    }
  }
}
