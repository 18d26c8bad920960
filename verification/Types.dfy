/** The type and port phase of the analyser: known types, contract envelopes, port shapes and flows. */
module Types {
  import opened Values
  import opened Ir
  import opened References

  // ---------------------------------------------------------------- what is checked

  /** The output type that a referenced node declares for a port. */
  function OutputType(nodes: seq<Node>, id: string, port: string): Option<string> {
    if nodes == [] then None
    else
      var last := nodes[|nodes| - 1];
      if last.id == id && port in last.outputs then Some(last.outputs[port])
      else OutputType(nodes[..|nodes| - 1], id, port)
  }

  /** The type a value carries into a port. */
  function ActualType(program: Program, value: ValueRef): Option<string> {
    match value
    case InputRef(name) => if name in program.inputs then Some(program.inputs[name].typeRef) else None
    case NodeRef(node, port) => OutputType(program.nodes, node, port)
  }

  predicate OptionalInput(program: Program, value: ValueRef) {
    value.InputRef? && value.name in program.inputs && !program.inputs[value.name].required
  }

  function MissingInputs(node: Node, c: Contract): set<string> {
    set p | p in c.inputs && c.inputs[p].required && p !in node.inputs
  }

  function UndeclaredInputs(node: Node, c: Contract): set<string> {
    set p | p in node.inputs && p !in c.inputs
  }

  function MissingOutputs(node: Node, c: Contract): set<string> {
    set p | p in c.outputs && c.outputs[p].required && p !in node.outputs
  }

  function WrongOutputs(node: Node, c: Contract): set<string> {
    set p | p in node.outputs && (p !in c.outputs || c.outputs[p].typeRef != node.outputs[p])
  }

  function UnknownOutputs(node: Node, types: set<string>): set<string> {
    set p | p in node.outputs && node.outputs[p] !in types
  }

  function OptionalFeeds(program: Program, node: Node, c: Contract): set<string> {
    set p | p in node.inputs && p in c.inputs && c.inputs[p].required && OptionalInput(program, node.inputs[p])
  }

  function WrongFlows(program: Program, node: Node, c: Contract): set<string> {
    set p | p in node.inputs && p in c.inputs && ActualType(program, node.inputs[p]) != Some(c.inputs[p].typeRef)
  }

  /** Inputs and outputs of the node are those of the contract, with the contract's types. */
  predicate PortsMatch(node: Node, c: Contract) {
    && (forall p | p in c.inputs && c.inputs[p].required :: p in node.inputs)
    && (forall p | p in node.inputs :: p in c.inputs)
    && (forall p | p in c.outputs && c.outputs[p].required :: p in node.outputs)
    && (forall p | p in node.outputs :: p in c.outputs && c.outputs[p].typeRef == node.outputs[p])
  }

  /** Every value flows into a port of its own type, and nothing optional into a required port. */
  predicate FlowsMatch(program: Program, node: Node, c: Contract) {
    forall p | p in node.inputs && p in c.inputs ::
      && ActualType(program, node.inputs[p]) == Some(c.inputs[p].typeRef)
      && !(c.inputs[p].required && OptionalInput(program, node.inputs[p]))
  }

  predicate ContractFits(program: Program, node: Node, c: Contract) {
    && c.role == RoleFor(node.kind) && node.executionClass in c.allowedExecution
    && PortsMatch(node, c) && FlowsMatch(program, node, c)
  }

  predicate NodeTypesOk(program: Program, registry: Registry, node: Node) {
    && (forall p | p in node.outputs :: node.outputs[p] in registry.types)
    && node.capability in registry.contracts
    && ContractFits(program, node, registry.contracts[node.capability])
  }

  /** Everything the phase demands of a program. */
  ghost predicate TypesOk(program: Program, registry: Registry) {
    && (forall name | name in program.inputs :: program.inputs[name].typeRef in registry.types)
    && forall i | 0 <= i < |program.nodes| :: NodeTypesOk(program, registry, program.nodes[i])
  }

  // ---------------------------------------------------------------- the phase

  /** One diagnostic for every offending port. */
  method PushEach(bad: set<string>, code: Code, collector: Collector)
    requires collector.Valid() && IsError(code)
    modifies collector
    ensures collector.Valid()
    ensures collector.sawError <==> old(collector.sawError) || bad != {}
  {
    var rest := bad;
    while rest != {}
      invariant rest <= bad && collector.Valid()
      invariant collector.sawError <==> old(collector.sawError) || rest != bad
      decreases |rest|
    {
      var port :| port in rest;
      collector.Push(code);
      rest := rest - {port};
    }
  }

  /** `validate_port_shape` and `validate_flow_types`. */
  method CheckPorts(program: Program, node: Node, c: Contract, collector: Collector)
    requires collector.Valid()
    modifies collector
    ensures collector.Valid()
    ensures collector.sawError <==> old(collector.sawError) || !(PortsMatch(node, c) && FlowsMatch(program, node, c))
  {
    PortSets(program, node, c);
    hide MissingInputs, UndeclaredInputs, MissingOutputs, WrongOutputs, OptionalFeeds, WrongFlows, PortsMatch, FlowsMatch;
    PushEach(MissingInputs(node, c), CapabilityPortMismatch, collector);
    PushEach(UndeclaredInputs(node, c), CapabilityPortMismatch, collector);
    PushEach(MissingOutputs(node, c), CapabilityPortMismatch, collector);
    PushEach(WrongOutputs(node, c), CapabilityPortMismatch, collector);
    PushEach(OptionalFeeds(program, node, c), OptionalInputToRequiredPort, collector);
    PushEach(WrongFlows(program, node, c), TypeMismatch, collector);
  }

  lemma PortSets(program: Program, node: Node, c: Contract)
    ensures PortsMatch(node, c) <==>
            MissingInputs(node, c) == {} && UndeclaredInputs(node, c) == {} && MissingOutputs(node, c) == {}
            && WrongOutputs(node, c) == {}
    ensures FlowsMatch(program, node, c) <==> OptionalFeeds(program, node, c) == {} && WrongFlows(program, node, c) == {}
  {
    PortShapeSets(node, c);
    hide ActualType, OptionalInput, MissingInputs, UndeclaredInputs, MissingOutputs, WrongOutputs, PortsMatch;
    assert forall p :: p in OptionalFeeds(program, node, c) || p in WrongFlows(program, node, c) ==>
             p in node.inputs && p in c.inputs;
    if OptionalFeeds(program, node, c) == {} && WrongFlows(program, node, c) == {} {
      forall p | p in node.inputs && p in c.inputs
        ensures ActualType(program, node.inputs[p]) == Some(c.inputs[p].typeRef)
                && !(c.inputs[p].required && OptionalInput(program, node.inputs[p]))
      {
        assert p !in OptionalFeeds(program, node, c) && p !in WrongFlows(program, node, c);
      }
    }
  }

  lemma PortShapeSets(node: Node, c: Contract)
    ensures PortsMatch(node, c) <==>
            MissingInputs(node, c) == {} && UndeclaredInputs(node, c) == {} && MissingOutputs(node, c) == {}
            && WrongOutputs(node, c) == {}
  {
    var a, b, x, y := MissingInputs(node, c), UndeclaredInputs(node, c), MissingOutputs(node, c), WrongOutputs(node, c);
    assert a == {} <==> forall p | p in c.inputs && c.inputs[p].required :: p in node.inputs by {
      assert forall p :: p in a <==> p in c.inputs && c.inputs[p].required && p !in node.inputs;
    }
    assert b == {} <==> forall p | p in node.inputs :: p in c.inputs by {
      assert forall p :: p in b <==> p in node.inputs && p !in c.inputs;
    }
    assert x == {} <==> forall p | p in c.outputs && c.outputs[p].required :: p in node.outputs by {
      assert forall p :: p in x <==> p in c.outputs && c.outputs[p].required && p !in node.outputs;
    }
    assert y == {} <==> forall p | p in node.outputs :: p in c.outputs && c.outputs[p].typeRef == node.outputs[p] by {
      assert forall p :: p in y <==> p in node.outputs && (p !in c.outputs || c.outputs[p].typeRef != node.outputs[p]);
    }
  }

  /** The checks of one node. */
  method CheckNodeTypes(program: Program, registry: Registry, node: Node, collector: Collector)
    requires collector.Valid()
    modifies collector
    ensures collector.Valid()
    ensures collector.sawError <==> old(collector.sawError) || !NodeTypesOk(program, registry, node)
  {
    hide PortsMatch, FlowsMatch;
    var unknown := UnknownOutputs(node, registry.types);
    assert unknown == {} <==> forall p | p in node.outputs :: node.outputs[p] in registry.types by {
      assert forall p :: p in unknown <==> p in node.outputs && node.outputs[p] !in registry.types;
    }
    PushEach(unknown, TypeNotFound, collector);
    if node.capability !in registry.contracts {
      collector.Push(CapabilityNotFound);
      return;
    }
    var c := registry.contracts[node.capability];
    if c.role != RoleFor(node.kind) { collector.Push(CapabilityRoleMismatch); }
    if node.executionClass !in c.allowedExecution { collector.Push(ExecutionClassIncompatible); }
    CheckPorts(program, node, c, collector);
  }

  /** `validate_types_and_capabilities`: an error is reported exactly when a type, capability, envelope,
      port or flow does not fit; otherwise every node has its contract. */
  method ValidateTypes(program: Program, registry: Registry, collector: Collector)
    returns (capabilities: map<string, Contract>)
    requires collector.Valid() && DistinctIds(program)
    modifies collector
    ensures collector.Valid()
    ensures collector.sawError <==> old(collector.sawError) || !TypesOk(program, registry)
    ensures !collector.sawError ==> forall i | 0 <= i < |program.nodes| ::
              var n := program.nodes[i];
              n.capability in registry.contracts && n.id in capabilities
              && capabilities[n.id] == registry.contracts[n.capability]
  {
    hide ContractFits;
    var unknown := set name | name in program.inputs && program.inputs[name].typeRef !in registry.types;
    assert unknown == {} <==> forall name | name in program.inputs :: program.inputs[name].typeRef in registry.types by {
      assert forall n :: n in unknown <==> n in program.inputs && program.inputs[n].typeRef !in registry.types;
    }
    PushEach(unknown, TypeNotFound, collector);
    ghost var before := collector.sawError;
    capabilities := map[];
    for i := 0 to |program.nodes|
      invariant collector.Valid()
      invariant collector.sawError <==>
                before || exists k | 0 <= k < i :: !NodeTypesOk(program, registry, program.nodes[k])
      invariant forall k | 0 <= k < i && program.nodes[k].capability in registry.contracts ::
                  var n := program.nodes[k];
                  n.id in capabilities && capabilities[n.id] == registry.contracts[n.capability]
    {
      var node := program.nodes[i];
      if node.capability in registry.contracts {
        capabilities := capabilities[node.id := registry.contracts[node.capability]];
      }
      CheckNodeTypes(program, registry, node, collector);
    }
    if !collector.sawError {
      forall k | 0 <= k < |program.nodes| ensures program.nodes[k].capability in registry.contracts {
        assert NodeTypesOk(program, registry, program.nodes[k]);
      }
    }
  }

  // ---------------------------------------------------------------- what a clean phase means

  /** Where references resolve, every value has a type: nothing is compared with an absent one. */
  lemma {:induction false} OutputTypeFound(nodes: seq<Node>, i: nat, port: string)
    requires i < |nodes| && port in nodes[i].outputs
    requires forall a, b | 0 <= a < b < |nodes| :: nodes[a].id != nodes[b].id
    ensures OutputType(nodes, nodes[i].id, port) == Some(nodes[i].outputs[port])
  {
    var n := |nodes| - 1;
    if i < n {
      assert nodes[..n][i] == nodes[i];
      OutputTypeFound(nodes[..n], i, port);
    }
  }

  lemma ActualTypeFound(program: Program, value: ValueRef)
    requires DistinctIds(program) && RefOk(program, value)
    ensures ActualType(program, value).Some?
  {
    if value.NodeRef? {
      var i :| 0 <= i < |program.nodes| && program.nodes[i].id == value.node && value.port in program.nodes[i].outputs;
      OutputTypeFound(program.nodes, i, value.port);
    }
  }

  /** In an accepted program an edge joins ports of one type: what the consumer's contract expects is what
      the producer's contract declares. */
  lemma EdgesAreTyped(program: Program, registry: Registry, c: nat, port: string, p: nat, out: string)
    requires DistinctIds(program) && TypesOk(program, registry)
    requires c < |program.nodes| && port in program.nodes[c].inputs
    requires p < |program.nodes| && out in program.nodes[p].outputs
    requires program.nodes[c].inputs[port] == NodeRef(program.nodes[p].id, out)
    ensures var consumer, producer := program.nodes[c], program.nodes[p];
            && consumer.capability in registry.contracts && producer.capability in registry.contracts
            && port in registry.contracts[consumer.capability].inputs
            && out in registry.contracts[producer.capability].outputs
            && registry.contracts[consumer.capability].inputs[port].typeRef
               == registry.contracts[producer.capability].outputs[out].typeRef
            && registry.contracts[producer.capability].outputs[out].typeRef in registry.types
  {
    hide OutputType;
    assert NodeTypesOk(program, registry, program.nodes[c]) && NodeTypesOk(program, registry, program.nodes[p]);
    OutputTypeFound(program.nodes, p, out);
  }
}
