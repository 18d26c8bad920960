/** Fallback analysis: breadth-first search over the merged relation, and what a clean report implies. */
module Fallbacks {
  import opened Ir
  import opened Digraph
  import opened Effects

  // ---------------------------------------------------------------- the search

  ghost predicate ClosedUnder(r: Edges, visited: set<string>, inside: set<string>) {
    forall v | v in visited && v in r :: r[v] <= inside
  }

  lemma {:induction false} PathStaysInside(r: Edges, visited: set<string>, p: seq<string>, k: nat)
    requires IsWalk(r, p) && p[0] in visited && ClosedUnder(r, visited, visited) && k < |p|
    ensures p[k] in visited
  {
    if k > 0 { PathStaysInside(r, visited, p, k - 1); }
  }

  lemma ReachStep(r: Edges, start: string, v: string, w: string)
    requires Reaches(r, start, v) && Edge(r, v, w)
    ensures Reaches(r, start, w)
  {
    var p :| IsWalk(r, p) && p[0] == start && p[|p| - 1] == v;
    var q := p + [w];
    assert IsWalk(r, q) && q[0] == start && q[|q| - 1] == w;
  }

  lemma ReachSelf(r: Edges, v: string)
    ensures Reaches(r, v, v)
  {
    assert IsWalk(r, [v]);
  }

  ghost function Universe(r: Edges, start: string): set<string> {
    (set a, b | a in r && b in r[a] :: b) + {start}
  }

  /** Appends the members of a set to the queue. */
  method Enqueue(pending: seq<string>, more: set<string>) returns (r: seq<string>)
    ensures forall x :: x in r <==> x in pending || x in more
  {
    r := pending;
    var rest := more;
    while rest != {}
      invariant rest <= more
      invariant forall x :: x in r <==> x in pending || x in more - rest
      decreases rest
    {
      var x :| x in rest;
      r, rest := r + [x], rest - {x};
    }
  }

  /** `fallback_path_exists`: the queue search answers exactly reachability. */
  method FallbackPathExists(r: Edges, start: string, target: string) returns (found: bool)
    ensures found <==> Reaches(r, start, target)
  {
    var pending := [start];
    var visited: set<string> := {};
    ReachSelf(r, start);
    while pending != []
      invariant visited <= Universe(r, start) && (forall x | x in pending :: x in Universe(r, start))
      invariant target !in visited
      invariant start in visited || start in pending
      invariant forall x | x in visited || x in pending :: Reaches(r, start, x)
      invariant forall v | v in visited && v in r :: forall w | w in r[v] :: w in visited || w in pending
      decreases Universe(r, start) - visited, |pending|
    {
      var capability := pending[0];
      ghost var before := pending;
      assert capability in pending;
      pending := pending[1..];
      assert forall x :: x in before <==> x == capability || x in pending;
      if capability == target { return true; }
      if capability in visited { continue; }
      visited := visited + {capability};
      if capability in r {
        forall w | w in r[capability] ensures Reaches(r, start, w) { ReachStep(r, start, capability, w); }
        pending := Enqueue(pending, r[capability]);
      }
    }
    found := false;
    if Reaches(r, start, target) {
      var p :| IsWalk(r, p) && p[0] == start && p[|p| - 1] == target;
      assert ClosedUnder(r, visited, visited);
      PathStaysInside(r, visited, p, |p| - 1);
      assert false;
    }
  }

  // ---------------------------------------------------------------- the merged relation

  predicate FallsBackTo(node: Node, capability: string) {
    node.failure.Fallback? && capability in node.failure.capabilities
  }

  ghost predicate FallsBack(nodes: seq<Node>, a: string, b: string) {
    exists i | 0 <= i < |nodes| :: nodes[i].capability == a && FallsBackTo(nodes[i], b)
  }

  ghost predicate Merged(nodes: seq<Node>, r: Edges) {
    forall a, b :: Edge(r, a, b) <==> FallsBack(nodes, a, b)
  }

  /** `build_fallback_relation`. */
  method BuildRelation(program: Program) returns (r: Edges)
    ensures Merged(program.nodes, r)
  {
    r := map[];
    var i := 0;
    while i < |program.nodes|
      invariant i <= |program.nodes|
      invariant Merged(program.nodes[..i], r)
    {
      var node := program.nodes[i];
      ghost var before := r;
      if node.failure.Fallback? {
        var earlier: set<string> := if node.capability in r then r[node.capability] else {};
        r := r[node.capability := earlier + set f | f in node.failure.capabilities];
      }
      forall a, b ensures Edge(r, a, b) <==> FallsBack(program.nodes[..i + 1], a, b) {
        EdgeSnoc(program.nodes, i, a, b);
      }
      i := i + 1;
    }
    assert program.nodes[..i] == program.nodes;
  }

  lemma EdgeSnoc(nodes: seq<Node>, i: nat, a: string, b: string)
    requires i < |nodes|
    ensures FallsBack(nodes[..i + 1], a, b) <==> FallsBack(nodes[..i], a, b) || (nodes[i].capability == a && FallsBackTo(nodes[i], b))
  {
    var shorter, longer := nodes[..i], nodes[..i + 1];
    assert longer[i] == nodes[i] && forall k | 0 <= k < i :: longer[k] == shorter[k];
  }

  // ---------------------------------------------------------------- one fallback of one node

  predicate BoundInputFits(program: Program, node: Node, primary: Contract, fallback: Contract, name: string)
    requires name in node.inputs
  {
    && name in primary.inputs && name in fallback.inputs
    && fallback.inputs[name].typeRef == primary.inputs[name].typeRef
    && (fallback.inputs[name].required ==>
          var value := node.inputs[name];
          !(value.InputRef? && value.name in program.inputs && !program.inputs[value.name].required))
  }

  /** A reference that reads an output of the node can be served by the fallback. */
  predicate ReferenceFits(node: Node, fallback: Contract, value: ValueRef) {
    value.NodeRef? && value.node == node.id ==>
      && value.port in node.outputs && value.port in fallback.outputs
      && fallback.outputs[value.port].typeRef == node.outputs[value.port]
  }

  /** `fallback_ports_compatible`; consumed ports are declared, by the earlier reference check. */
  predicate PortsCompatible(program: Program, node: Node, primary: Contract, fallback: Contract) {
    && (forall name | name in node.inputs :: BoundInputFits(program, node, primary, fallback, name))
    && (forall name | name in fallback.inputs && fallback.inputs[name].required :: name in node.inputs)
    && (forall i, name | 0 <= i < |program.nodes| && name in program.nodes[i].inputs ::
          ReferenceFits(node, fallback, program.nodes[i].inputs[name]))
    && (forall name | name in program.outputs :: ReferenceFits(node, fallback, program.outputs[name]))
  }

  predicate BroadensEffects(fallback: Contract, effects: set<EffectClass>) {
    exists e | e in fallback.allowedEffects :: e != Pure && e !in effects
  }

  predicate BroadensAuthority(fallback: Contract, actions: set<string>) {
    exists a | a in fallback.allowedAuthority :: a !in actions
  }

  /** Whether a resolved fallback cannot stand in for the primary capability. */
  predicate SubstitutionFault(program: Program, node: Node, primary: Contract, fallback: Contract, code: Code) {
    match code
    case RequiredAuthorityMissing =>
      "artifact.read" in fallback.requiredAuthority && ReadUncovered(program, node, fallback)
    case FallbackPortMismatch => !PortsCompatible(program, node, primary, fallback)
    case ExecutionClassIncompatible => node.executionClass !in fallback.allowedExecution
    case CapabilityRoleMismatch => fallback.role != RoleFor(node.kind)
    case _ => false
  }

  /** Whether a resolved fallback exceeds the envelope of its node. */
  predicate BroadeningFault(node: Node, effects: set<EffectClass>, fallback: Contract, code: Code) {
    match code
    case FallbackEffectBroadening => BroadensEffects(fallback, effects)
    case FallbackAuthorityBroadening => BroadensAuthority(fallback, Actions(node.requests))
    case FallbackEgressBroadening => node.egressMode.Deny? && Policy in fallback.allowedEgress
    case _ => false
  }

  /** Whether the analyser reports a code for fallback `f` of a node. */
  ghost predicate FallbackFault(program: Program, r: Edges, registry: map<string, Contract>, node: Node,
                                primary: Contract, effects: set<EffectClass>, f: string, code: Code)
  {
    if f == node.capability then code == RecursiveFallback
    else if code == RecursiveFallback then Reaches(r, f, node.capability)
    else if f !in registry then code == CapabilityNotFound
    else
      || SubstitutionFault(program, node, primary, registry[f], code)
      || BroadeningFault(node, effects, registry[f], code)
  }

  /** No fallback of any node is reported. */
  ghost predicate FallbacksClean(program: Program, r: Edges, registry: map<string, Contract>,
                                 capabilities: map<string, Contract>, effects: map<string, set<EffectClass>>)
    requires forall i | 0 <= i < |program.nodes| ::
               program.nodes[i].id in capabilities && program.nodes[i].id in effects
  {
    forall i, f, code | 0 <= i < |program.nodes| && FallsBackTo(program.nodes[i], f) ::
      var n := program.nodes[i];
      !FallbackFault(program, r, registry, n, capabilities[n.id], effects[n.id], f, code)
  }

  method CheckSubstitution(program: Program, node: Node, primary: Contract, fallback: Contract, collector: Collector)
    requires collector.Valid()
    modifies collector
    ensures collector.Valid()
    ensures forall code :: code in collector.reported <==>
              code in old(collector.reported) || SubstitutionFault(program, node, primary, fallback, code)
  {
    hide PortsCompatible, ReadUncovered;
    if "artifact.read" in fallback.requiredAuthority {
      CheckReadResources(program, node, fallback, collector);
    }
    if !PortsCompatible(program, node, primary, fallback) { collector.Push(FallbackPortMismatch); }
    if node.executionClass !in fallback.allowedExecution { collector.Push(ExecutionClassIncompatible); }
    if fallback.role != RoleFor(node.kind) { collector.Push(CapabilityRoleMismatch); }
  }

  method CheckBroadening(node: Node, effects: set<EffectClass>, fallback: Contract, collector: Collector)
    requires collector.Valid()
    modifies collector
    ensures collector.Valid()
    ensures forall code :: code in collector.reported <==>
              code in old(collector.reported) || BroadeningFault(node, effects, fallback, code)
  {
    hide Actions, BroadensEffects, BroadensAuthority;
    if BroadensEffects(fallback, effects) { collector.Push(FallbackEffectBroadening); }
    if BroadensAuthority(fallback, Actions(node.requests)) { collector.Push(FallbackAuthorityBroadening); }
    if node.egressMode.Deny? && exists m | m in fallback.allowedEgress :: m != Deny {
      collector.Push(FallbackEgressBroadening);
    }
  }

  method CheckFallback(program: Program, r: Edges, registry: map<string, Contract>, node: Node,
                       primary: Contract, effects: set<EffectClass>, f: string, collector: Collector)
    requires collector.Valid()
    modifies collector
    ensures collector.Valid()
    ensures forall code :: code in collector.reported <==>
              code in old(collector.reported)
              || FallbackFault(program, r, registry, node, primary, effects, f, code)
  {
    hide Reaches, PortsCompatible, ReadUncovered, Actions, BroadensEffects, BroadensAuthority;
    if f == node.capability {
      collector.Push(RecursiveFallback);
      return;
    }
    var recursive := FallbackPathExists(r, f, node.capability);
    if recursive { collector.Push(RecursiveFallback); }
    if f !in registry {
      collector.Push(CapabilityNotFound);
      return;
    }
    CheckSubstitution(program, node, primary, registry[f], collector);
    CheckBroadening(node, effects, registry[f], collector);
  }

  /** The loop over the fallbacks of one node. */
  method CheckNodeFallbacks(program: Program, r: Edges, registry: map<string, Contract>, node: Node,
                            primary: Contract, effects: set<EffectClass>, collector: Collector)
    requires collector.Valid() && node.failure.Fallback?
    modifies collector
    ensures collector.Valid()
    ensures forall code :: code in collector.reported <==>
              code in old(collector.reported)
              || exists f | FallsBackTo(node, f) :: FallbackFault(program, r, registry, node, primary, effects, f, code)
  {
    hide FallbackFault;
    var fallbacks := node.failure.capabilities;
    var k := 0;
    while k < |fallbacks|
      invariant k <= |fallbacks| && collector.Valid()
      invariant forall code :: code in collector.reported <==>
                  code in old(collector.reported)
                  || exists j | 0 <= j < k :: FallbackFault(program, r, registry, node, primary, effects, fallbacks[j], code)
    {
      CheckFallback(program, r, registry, node, primary, effects, fallbacks[k], collector);
      k := k + 1;
    }
    forall code | exists f | FallsBackTo(node, f) :: FallbackFault(program, r, registry, node, primary, effects, f, code)
      ensures code in collector.reported
    {
      var f :| FallsBackTo(node, f) && FallbackFault(program, r, registry, node, primary, effects, f, code);
      var j :| 0 <= j < |fallbacks| && fallbacks[j] == f;
    }
  }

  /** Some fallback of one of the first nodes is reported with this code. */
  ghost predicate SomeFallbackFault(program: Program, count: nat, r: Edges, registry: map<string, Contract>,
                                    capabilities: map<string, Contract>, effects: map<string, set<EffectClass>>, code: Code)
    requires count <= |program.nodes|
    requires forall i | 0 <= i < |program.nodes| ::
               program.nodes[i].id in capabilities && program.nodes[i].id in effects
  {
    exists i, f | 0 <= i < count && FallsBackTo(program.nodes[i], f) ::
      var n := program.nodes[i];
      FallbackFault(program, r, registry, n, capabilities[n.id], effects[n.id], f, code)
  }

  /** `validate_fallbacks`. */
  method ValidateFallbacks(program: Program, registry: map<string, Contract>, capabilities: map<string, Contract>,
                           effects: map<string, set<EffectClass>>, collector: Collector)
    returns (ghost r: Edges)
    requires collector.Valid()
    requires forall i | 0 <= i < |program.nodes| ::
               program.nodes[i].id in capabilities && program.nodes[i].id in effects
    modifies collector
    ensures collector.Valid() && Merged(program.nodes, r)
    ensures forall code :: code in collector.reported <==>
              code in old(collector.reported)
              || SomeFallbackFault(program, |program.nodes|, r, registry, capabilities, effects, code)
  {
    hide FallbackFault, Merged;
    var relation := BuildRelation(program);
    r := relation;
    var i := 0;
    while i < |program.nodes|
      invariant i <= |program.nodes| && collector.Valid()
      invariant forall code :: code in collector.reported <==>
                  code in old(collector.reported)
                  || SomeFallbackFault(program, i, relation, registry, capabilities, effects, code)
    {
      var node := program.nodes[i];
      if node.failure.Fallback? {
        CheckNodeFallbacks(program, relation, registry, node, capabilities[node.id], effects[node.id], collector);
      }
      i := i + 1;
    }
  }

  // ---------------------------------------------------------------- what a clean report implies

  /** With no fallback reported, the relation merged over all nodes has no cycle. */
  lemma FallbacksAcyclic(program: Program, r: Edges, registry: map<string, Contract>,
                         capabilities: map<string, Contract>, effects: map<string, set<EffectClass>>)
    requires Merged(program.nodes, r)
    requires forall i | 0 <= i < |program.nodes| ::
               program.nodes[i].id in capabilities && program.nodes[i].id in effects
    requires FallbacksClean(program, r, registry, capabilities, effects)
    ensures !HasCycle(r)
  {
    hide PortsCompatible, ReadUncovered, Actions, BroadensEffects, BroadensAuthority;
    forall p | IsWalk(r, p) && |p| >= 2 ensures p[0] != p[|p| - 1] {
      assert Edge(r, p[0], p[1]);
      assert FallsBack(program.nodes, p[0], p[1]);
      var i :| 0 <= i < |program.nodes| && program.nodes[i].capability == p[0] && FallsBackTo(program.nodes[i], p[1]);
      var n := program.nodes[i];
      assert !FallbackFault(program, r, registry, n, capabilities[n.id], effects[n.id], p[1], RecursiveFallback);
      assert !Reaches(r, p[1], p[0]);
      TailIsWalk(r, p);
    }
  }

  lemma TailIsWalk(r: Edges, p: seq<string>)
    requires IsWalk(r, p) && |p| >= 2
    ensures Reaches(r, p[1], p[|p| - 1])
  {
    var q := p[1..];
    forall i | 0 <= i < |q| - 1 ensures Edge(r, q[i], q[i + 1]) {
      assert q[i] == p[i + 1];
    }
    assert IsWalk(r, q) && q[0] == p[1] && q[|q| - 1] == p[|p| - 1];
  }

  /**
   A reported-clean fallback cannot do more than its node: its effects lie within the node's and so
   within the program's, its required authority is already requested, and it keeps a denied egress.
   */
  lemma FallbackStaysWithinNode(program: Program, r: Edges, registry: map<string, Contract>,
                                capabilities: map<string, Contract>, effects: map<string, set<EffectClass>>,
                                i: nat, f: string)
    requires forall k | 0 <= k < |program.nodes| ::
               program.nodes[k].id in capabilities && program.nodes[k].id in effects
    requires FallbacksClean(program, r, registry, capabilities, effects)
    requires forall c | c in registry :: ContractAccepted(registry[c])
    requires i < |program.nodes| && FallsBackTo(program.nodes[i], f)
    ensures f in registry && f != program.nodes[i].capability
    ensures forall e | e in registry[f].allowedEffects && e != Pure ::
              e in effects[program.nodes[i].id] && e in AllEffects(program.nodes, effects)
    ensures forall a | a in registry[f].requiredAuthority :: a in Actions(program.nodes[i].requests)
    ensures forall a | a in registry[f].requiredAuthority ::
              EffectFor(a).Some? && EffectFor(a).value in effects[program.nodes[i].id]
    ensures program.nodes[i].egressMode.Deny? ==> forall m | m in registry[f].allowedEgress :: m == Deny
  {
    hide PortsCompatible, ReadUncovered, Actions, Reaches, EffectFor, EgressConsistent;
    var n := program.nodes[i];
    var primary, own := capabilities[n.id], effects[n.id];
    assert !FallbackFault(program, r, registry, n, primary, own, f, RecursiveFallback);
    assert !FallbackFault(program, r, registry, n, primary, own, f, CapabilityNotFound);
    assert !FallbackFault(program, r, registry, n, primary, own, f, FallbackEffectBroadening);
    assert !FallbackFault(program, r, registry, n, primary, own, f, FallbackAuthorityBroadening);
    assert !FallbackFault(program, r, registry, n, primary, own, f, FallbackEgressBroadening);
    assert ContractAccepted(registry[f]);
    forall a | a in registry[f].requiredAuthority
      ensures EffectFor(a).Some? && EffectFor(a).value in own
    {
      EffectForIsProtected(a);
    }
  }
}
