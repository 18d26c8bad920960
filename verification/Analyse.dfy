/** The analysis pipeline: each phase runs only when no earlier phase reported an error. */
module Analyse {
  import opened Values
  import opened Ir
  import opened Effects
  import opened Digraph
  import opened Fallbacks
  import opened References
  import opened Types
  import opened Envelope
  import Graph

  /** No fallback has a fault against the contracts of the registry and the effects the nodes derive. */
  ghost predicate FallbacksAccepted(program: Program, registry: Registry)
    requires forall i | 0 <= i < |program.nodes| :: program.nodes[i].capability in registry.contracts
  {
    forall r: Edges, i, f, code | Merged(program.nodes, r) && 0 <= i < |program.nodes| && FallsBackTo(program.nodes[i], f) ::
      var n := program.nodes[i];
      var primary := registry.contracts[n.capability];
      !FallbackFault(program, r, registry.contracts, n, primary, DerivedEffects(n, primary), f, code)
  }

  ghost predicate AcyclicFlow(program: Program) {
    forall e: Edges | (forall p, c :: Edge(e, p, c) <==> Graph.Reads(program, p, c)) :: !HasCycle(e)
  }

  /** What the analyser demands, stated over the program and its registry alone. */
  ghost predicate Accepted(program: Program, registry: Registry) {
    && DistinctIds(program) && ReferencesOk(program) && AcyclicFlow(program) && TypesOk(program, registry)
    && (forall i | 0 <= i < |program.nodes| ::
          program.nodes[i].capability in registry.contracts
          && FaultFree(program, program.nodes[i], registry.contracts[program.nodes[i].capability]))
    && FallbacksAccepted(program, registry)
  }

  /** The same demands, phase by phase, in the terms of the program's own nodes, requests, ports and fallbacks. */
  ghost predicate Meets(program: Program, registry: Registry) {
    && DistinctIds(program) && AcyclicFlow(program) && Wired(program)
    && (forall name | name in program.inputs :: program.inputs[name].typeRef in registry.types)
    && (forall i | 0 <= i < |program.nodes| ::
          var n := program.nodes[i];
          && NodeTyped(program, registry, n)
          && NodeMeets(program, n, registry.contracts[n.capability])
          && forall f | FallsBackTo(n, f) :: FallbackMeets(program, registry.contracts, n, registry.contracts[n.capability], f))
    && (forall r: Edges | Merged(program.nodes, r) :: !HasCycle(r))
  }

  /** What an accepted program guarantees. */
  ghost predicate Guaranteed(program: Program, registry: map<string, Contract>, s: Summary) {
    && ProtectedOf(s.effects) == Image(s.authorities)
    && s.authorities == AllActions(program.nodes)
    && (forall r: Edges | Merged(program.nodes, r) :: !HasCycle(r))
    && (forall i | 0 <= i < |program.nodes| ::
          var n := program.nodes[i];
          && n.capability in registry
          && ("artifact.read" in registry[n.capability].requiredAuthority ==>
                ReadsCovered(program, n, registry[n.capability])))
    && forall i, f | 0 <= i < |program.nodes| && FallsBackTo(program.nodes[i], f) ::
         && f in registry
         && (forall x | x in registry[f].allowedEffects && x != Pure :: x in s.effects)
         && (forall a | a in registry[f].requiredAuthority :: a in Actions(program.nodes[i].requests))
         && ("artifact.read" in registry[f].requiredAuthority ==> ReadsCovered(program, program.nodes[i], registry[f]))
  }

  /** `analyze`: a summary is returned exactly for the accepted programs, with all the guarantees. */
  method Analyze(program: Program, registry: Registry, collector: Collector)
    returns (r: Option<Summary>)
    requires collector.Valid() && !collector.sawError
    requires forall c | c in registry.contracts :: ContractAccepted(registry.contracts[c])
    modifies collector
    ensures collector.Valid()
    ensures r.Some? <==> !collector.sawError
    ensures r.Some? <==> Meets(program, registry)
    ensures r.Some? ==> Guaranteed(program, registry.contracts, r.value)
  {
    hide ContractAccepted, FallbackFault, NodeFault, Merged, HasCycle, Edge, Graph.Reads,
         DerivedEffects, Actions, Graph.LargestTrapped, IsWalk, Guaranteed, ReferencesOk, Graph.ReferencesResolve,
         AcyclicFlow, TypesOk, SomeNodeFault, SomeFallbackFault, FallbacksAccepted, FaultFree, FallbacksClean, Accepted, Meets;
    AcceptedIff(program, registry);
    AcceptedParts(program, registry);
    IndexNodes(program, collector);
    if collector.sawError { return None; }
    ValidateReferences(program, collector);
    if collector.sawError { return None; }
    ghost var edges, cyclic := Graph.ValidateAcyclic(program, collector);
    FlowIff(program, edges);
    if collector.sawError { return None; }
    var capabilities := ValidateTypes(program, registry, collector);
    if collector.sawError { return None; }
    ghost var before := collector.reported;
    var effects := ValidateEffects(program, capabilities, collector);
    NodesIff(program, registry, capabilities, before, collector.reported);
    if collector.sawError { return None; }
    before := collector.reported;
    ghost var relation := ValidateFallbacks(program, registry.contracts, capabilities, effects, collector);
    FallbacksIff(program, registry, capabilities, effects, relation, before, collector.reported);
    if collector.sawError { return None; }
    var summary := BuildSummary(program, effects);
    Conclude(program, registry.contracts, capabilities, effects, relation, summary);
    r := Some(summary);
  }

  /** The analyser's own conditions are the demands on the program. */
  lemma AcceptedIff(program: Program, registry: Registry)
    ensures Accepted(program, registry) <==> Meets(program, registry)
  {
    hide AcyclicFlow, DistinctIds, Wired, NodeTyped, NodeMeets, FallbackMeets, FaultFree, HasCycle, Merged, NodeTypesOk,
         ReferencesOk, FallbackFault, FallsBackTo;
    if DistinctIds(program) {
      TypedIff(program, registry);
      if forall i | 0 <= i < |program.nodes| :: program.nodes[i].capability in registry.contracts {
        forall i | 0 <= i < |program.nodes|
          ensures var n := program.nodes[i];
                  var c := registry.contracts[n.capability]; FaultFree(program, n, c) <==> NodeMeets(program, n, c)
        {
          NodeMeetsIff(program, program.nodes[i], registry.contracts[program.nodes[i].capability]);
        }
        FallbacksMeetIff(program, registry);
      }
      hide FallbacksAccepted;
      KnownCapabilities(program, registry);
    }
  }

  lemma KnownCapabilities(program: Program, registry: Registry)
    ensures forall i | 0 <= i < |program.nodes| && NodeTyped(program, registry, program.nodes[i]) ::
              program.nodes[i].capability in registry.contracts
  {
    hide InputsTyped, OutputsTyped;
  }

  lemma FallbacksMeetIff(program: Program, registry: Registry)
    requires forall i | 0 <= i < |program.nodes| :: program.nodes[i].capability in registry.contracts
    ensures FallbacksAccepted(program, registry) <==>
            && (forall i, f | 0 <= i < |program.nodes| && FallsBackTo(program.nodes[i], f) ::
                  var n := program.nodes[i];
                  FallbackMeets(program, registry.contracts, n, registry.contracts[n.capability], f))
            && (forall r: Edges | Merged(program.nodes, r) :: !HasCycle(r))
  {
    hide FallbackMeets, FallbackFault, Merged, HasCycle, Reaches, FallsBackTo, DerivedEffects;
    var contracts := registry.contracts;
    forall r: Edges, i, f | Merged(program.nodes, r) && 0 <= i < |program.nodes| && FallsBackTo(program.nodes[i], f)
      ensures var n := program.nodes[i];
              var primary := contracts[n.capability];
              (forall code :: !FallbackFault(program, r, contracts, n, primary, DerivedEffects(n, primary), f, code)) <==>
              FallbackMeets(program, contracts, n, primary, f) && !Reaches(r, f, n.capability)
    {
      var n := program.nodes[i];
      FallbackMeetsIff(program, r, contracts, n, contracts[n.capability], f);
    }
    forall r: Edges | Merged(program.nodes, r)
      ensures !HasCycle(r) <==>
              forall i, f | 0 <= i < |program.nodes| && FallsBackTo(program.nodes[i], f) :: !Reaches(r, f, program.nodes[i].capability)
    {
      LeadsBackIff(program.nodes, r);
    }
    var some := MergedExists(program.nodes);
  }

  lemma AcceptedParts(program: Program, registry: Registry)
    ensures Accepted(program, registry) <==>
            && DistinctIds(program) && ReferencesOk(program) && AcyclicFlow(program) && TypesOk(program, registry)
            && (forall i | 0 <= i < |program.nodes| ::
                  program.nodes[i].capability in registry.contracts
                  && FaultFree(program, program.nodes[i], registry.contracts[program.nodes[i].capability]))
            && FallbacksAccepted(program, registry)
  {
    hide DistinctIds, ReferencesOk, AcyclicFlow, TypesOk, FaultFree, FallbacksAccepted;
  }

  /** Whichever successor sets hold the data-flow edges, they agree on cycles. */
  lemma FlowIff(program: Program, edges: Edges)
    requires forall p, c :: Edge(edges, p, c) <==> Graph.Reads(program, p, c)
    ensures AcyclicFlow(program) <==> !HasCycle(edges)
  {
    hide Edge, Graph.Reads, HasCycle;
    forall e: Edges | forall p, c :: Edge(e, p, c) <==> Graph.Reads(program, p, c)
      ensures HasCycle(e) <==> HasCycle(edges)
    {
      assert SameEdges(e, edges);
      SameWalks(e, edges);
    }
  }

  ghost predicate NoErrors(codes: set<Code>) {
    forall code | code in codes :: !IsError(code)
  }

  /** No error is reported for the nodes exactly when each is free of faults. */
  lemma NodesIff(program: Program, registry: Registry, capabilities: map<string, Contract>, before: set<Code>,
                 after: set<Code>)
    requires forall i | 0 <= i < |program.nodes| ::
               var n := program.nodes[i];
               n.capability in registry.contracts && n.id in capabilities
               && capabilities[n.id] == registry.contracts[n.capability]
    requires NoErrors(before)
    requires forall code :: code in after <==>
               code in before || SomeNodeFault(program, |program.nodes|, capabilities, code)
    ensures NoErrors(after) <==>
            forall i | 0 <= i < |program.nodes| ::
              FaultFree(program, program.nodes[i], registry.contracts[program.nodes[i].capability])
  {
    hide NodeFault;
    if NoErrors(after) {
      forall i, code | 0 <= i < |program.nodes|
        ensures !NodeFault(program, program.nodes[i], registry.contracts[program.nodes[i].capability], code)
      {
        var n := program.nodes[i];
        if NodeFault(program, n, capabilities[n.id], code) {
          assert SomeNodeFault(program, |program.nodes|, capabilities, code);
          OnlyWarning(program, n, capabilities[n.id], code);
        }
      }
    }
  }

  /** The same for the fallbacks, whichever successor sets hold the relation. */
  lemma FallbacksIff(program: Program, registry: Registry, capabilities: map<string, Contract>,
                     effects: map<string, set<EffectClass>>, r: Edges, before: set<Code>, after: set<Code>)
    requires forall i | 0 <= i < |program.nodes| ::
               var n := program.nodes[i];
               && n.capability in registry.contracts && n.id in capabilities && n.id in effects
               && capabilities[n.id] == registry.contracts[n.capability]
               && effects[n.id] == DerivedEffects(n, capabilities[n.id])
    requires NoErrors(before) && Merged(program.nodes, r)
    requires forall code :: code in after <==>
               code in before
               || SomeFallbackFault(program, |program.nodes|, r, registry.contracts, capabilities, effects, code)
    ensures NoErrors(after) <==> FallbacksAccepted(program, registry)
    ensures NoErrors(after) ==> FallbacksClean(program, r, registry.contracts, capabilities, effects)
  {
    hide FallbackFault, Merged, DerivedEffects;
    if NoErrors(after) {
      forall q: Edges, i, f, code | Merged(program.nodes, q) && 0 <= i < |program.nodes| && FallsBackTo(program.nodes[i], f)
        ensures var n := program.nodes[i];
                var primary := registry.contracts[n.capability];
                && !FallbackFault(program, r, registry.contracts, n, capabilities[n.id], effects[n.id], f, code)
                && !FallbackFault(program, q, registry.contracts, n, primary, DerivedEffects(n, primary), f, code)
      {
        var n := program.nodes[i];
        if FallbackFault(program, r, registry.contracts, n, capabilities[n.id], effects[n.id], f, code) {
          assert SomeFallbackFault(program, |program.nodes|, r, registry.contracts, capabilities, effects, code);
          NoFallbackWarning(program, r, registry.contracts, n, capabilities[n.id], effects[n.id], f, code);
        }
        SameFault(program, r, q, registry.contracts, n, capabilities[n.id], effects[n.id], f, code);
      }
    }
  }

  lemma SameFault(program: Program, r: Edges, q: Edges, registry: map<string, Contract>, n: Node, primary: Contract,
                  effects: set<EffectClass>, f: string, code: Code)
    requires Merged(program.nodes, r) && Merged(program.nodes, q)
    ensures FallbackFault(program, r, registry, n, primary, effects, f, code)
       <==> FallbackFault(program, q, registry, n, primary, effects, f, code)
  {
    hide SubstitutionFault, BroadeningFault, Edge, FallsBack, Reaches;
    assert SameEdges(r, q);
    SameWalks(r, q);
  }

  lemma OnlyWarning(program: Program, node: Node, c: Contract, code: Code)
    requires NodeFault(program, node, c, code)
    ensures IsError(code)
  {}

  lemma NoFallbackWarning(program: Program, r: Edges, registry: map<string, Contract>, node: Node,
                          primary: Contract, effects: set<EffectClass>, f: string, code: Code)
    requires FallbackFault(program, r, registry, node, primary, effects, f, code)
    ensures IsError(code)
  {}

  lemma Conclude(program: Program, registry: map<string, Contract>, capabilities: map<string, Contract>,
                 effects: map<string, set<EffectClass>>, r: Edges, s: Summary)
    requires forall c | c in registry :: ContractAccepted(registry[c])
    requires forall i | 0 <= i < |program.nodes| ::
               var n := program.nodes[i];
               && n.capability in registry && n.id in capabilities && capabilities[n.id] == registry[n.capability]
               && n.id in effects && effects[n.id] == DerivedEffects(n, capabilities[n.id])
               && FaultFree(program, n, capabilities[n.id])
    requires Merged(program.nodes, r) && FallbacksClean(program, r, registry, capabilities, effects)
    requires s.authorities == AllActions(program.nodes)
    requires s.effects == var all := AllEffects(program.nodes, effects); if all == {Pure} then all else all - {Pure}
    ensures Guaranteed(program, registry, s)
  {
    hide ContractAccepted, FaultFree, DerivedEffects, Actions, HasCycle, Merged, FallbacksClean, EffectFor, AllEffects,
         AllActions, Analysed;
    NodesAnalysed(program, registry, capabilities, effects);
    SummaryEquation(program, capabilities, effects);
    var all := AllEffects(program.nodes, effects);
    assert forall x | x != Pure :: x in s.effects <==> x in all;
    assert ProtectedOf(s.effects) == ProtectedOf(all);
    FallbacksAcyclic(program, r, registry, capabilities, effects);
    forall q: Edges | Merged(program.nodes, q) ensures !HasCycle(q) { SameCycles(program.nodes, r, q); }
    ConcludeReads(program, registry, capabilities, effects, r);
    hide ReadsCovered;
    forall i, f | 0 <= i < |program.nodes| && FallsBackTo(program.nodes[i], f)
      ensures && f in registry
              && (forall x | x in registry[f].allowedEffects && x != Pure :: x in s.effects)
              && (forall a | a in registry[f].requiredAuthority :: a in Actions(program.nodes[i].requests))
              && ("artifact.read" in registry[f].requiredAuthority ==> ReadsCovered(program, program.nodes[i], registry[f]))
    {
      FallbackStaysWithinNode(program, r, registry, capabilities, effects, i, f);
    }
  }

  /** Every artifact that a node or one of its fallbacks must be able to read is requested by name. */
  lemma ConcludeReads(program: Program, registry: map<string, Contract>, capabilities: map<string, Contract>,
                      effects: map<string, set<EffectClass>>, r: Edges)
    requires forall i | 0 <= i < |program.nodes| ::
               var n := program.nodes[i];
               && n.capability in registry && n.id in capabilities && capabilities[n.id] == registry[n.capability]
               && n.id in effects && effects[n.id] == DerivedEffects(n, capabilities[n.id])
               && FaultFree(program, n, capabilities[n.id])
    requires FallbacksClean(program, r, registry, capabilities, effects)
    ensures forall i | 0 <= i < |program.nodes| && "artifact.read" in registry[program.nodes[i].capability].requiredAuthority ::
              ReadsCovered(program, program.nodes[i], registry[program.nodes[i].capability])
    ensures forall i, f | 0 <= i < |program.nodes| && FallsBackTo(program.nodes[i], f) && f in registry
                          && "artifact.read" in registry[f].requiredAuthority ::
              ReadsCovered(program, program.nodes[i], registry[f])
  {
    hide FaultFree, DerivedEffects, ReadsCovered, FallbackFault, FallsBackTo, Reaches;
    forall i | 0 <= i < |program.nodes| && "artifact.read" in registry[program.nodes[i].capability].requiredAuthority
      ensures ReadsCovered(program, program.nodes[i], registry[program.nodes[i].capability])
    {
      var n := program.nodes[i];
      NodeReads(program, n, registry[n.capability]);
    }
    forall i, f | 0 <= i < |program.nodes| && FallsBackTo(program.nodes[i], f) && f in registry
                  && "artifact.read" in registry[f].requiredAuthority
      ensures ReadsCovered(program, program.nodes[i], registry[f])
    {
      var n := program.nodes[i];
      assert forall code :: !FallbackFault(program, r, registry, n, capabilities[n.id], effects[n.id], f, code);
      FallbackReads(program, r, registry, n, capabilities[n.id], f);
    }
  }

  lemma NodeReads(program: Program, node: Node, c: Contract)
    requires FaultFree(program, node, c) && "artifact.read" in c.requiredAuthority
    ensures ReadsCovered(program, node, c)
  {
    NodeMeetsIff(program, node, c);
    hide FaultFree, ReadsCovered, EffectsMeet, EgressMeets;
  }

  lemma FallbackReads(program: Program, r: Edges, contracts: map<string, Contract>, node: Node, primary: Contract, f: string)
    requires forall code :: !FallbackFault(program, r, contracts, node, primary, DerivedEffects(node, primary), f, code)
    requires f in contracts && "artifact.read" in contracts[f].requiredAuthority
    ensures ReadsCovered(program, node, contracts[f])
  {
    hide FallbackFault, ReadsCovered, Substitutes, DerivedEffects, Carries;
    FallbackMeetsIff(program, r, contracts, node, primary, f);
  }

  lemma NodesAnalysed(program: Program, registry: map<string, Contract>, capabilities: map<string, Contract>,
                      effects: map<string, set<EffectClass>>)
    requires forall c | c in registry :: ContractAccepted(registry[c])
    requires forall i | 0 <= i < |program.nodes| ::
               var n := program.nodes[i];
               && n.capability in registry && n.id in capabilities && capabilities[n.id] == registry[n.capability]
               && n.id in effects && effects[n.id] == DerivedEffects(n, capabilities[n.id])
               && FaultFree(program, n, capabilities[n.id])
    ensures Analysed(program, capabilities, effects)
  {
    hide ContractAccepted, FaultFree, DerivedEffects;
  }

  lemma SameCycles(nodes: seq<Node>, r: Edges, q: Edges)
    requires Merged(nodes, r) && Merged(nodes, q) && !HasCycle(r)
    ensures !HasCycle(q)
  {
    hide Edge, FallsBack, HasCycle;
    assert SameEdges(r, q);
    SameWalks(r, q);
  }
}
