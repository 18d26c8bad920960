/** The first two phases of the analyser: node identities and references. */
module References {
  import opened Ir
  import Graph

  predicate HasNode(program: Program, id: string) {
    exists i | 0 <= i < |program.nodes| :: program.nodes[i].id == id
  }

  predicate Produces(program: Program, id: string, port: string) {
    exists i | 0 <= i < |program.nodes| :: program.nodes[i].id == id && port in program.nodes[i].outputs
  }

  /** A reference names a program input, or an output port that some node declares. */
  predicate RefOk(program: Program, value: ValueRef) {
    match value
    case InputRef(name) => name in program.inputs
    case NodeRef(node, port) => Produces(program, node, port)
  }

  predicate Selects(resource: string) {
    |resource| >= 6 && resource[..6] == "input:"
  }

  /** An input selector names a program input that the node reads. */
  predicate SelectorOk(program: Program, node: Node, resource: string) {
    Selects(resource) ==>
      && resource[6..] in program.inputs
      && exists port | port in node.inputs :: node.inputs[port] == InputRef(resource[6..])
  }

  ghost predicate NodeRefsOk(program: Program, node: Node) {
    && (forall port | port in node.inputs :: RefOk(program, node.inputs[port]))
    && forall i | 0 <= i < |node.requests| :: SelectorOk(program, node, node.requests[i].resource)
  }

  ghost predicate OutputOk(program: Program, value: ValueRef) {
    value.NodeRef? && RefOk(program, value)
  }

  /** Every reference, selector and program output resolves. */
  ghost predicate ReferencesOk(program: Program) {
    && (forall i | 0 <= i < |program.nodes| :: NodeRefsOk(program, program.nodes[i]))
    && forall name | name in program.outputs :: OutputOk(program, program.outputs[name])
  }

  /** `index_nodes`: a repeated ID is reported, once per repetition. */
  method IndexNodes(program: Program, collector: Collector)
    requires collector.Valid()
    modifies collector
    ensures collector.Valid()
    ensures collector.sawError <==> old(collector.sawError) || !DistinctIds(program)
  {
    var seen: set<string> := {};
    for i := 0 to |program.nodes|
      invariant collector.Valid()
      invariant forall id :: id in seen <==> exists k | 0 <= k < i :: program.nodes[k].id == id
      invariant collector.sawError <==>
                || old(collector.sawError)
                || exists k, j | 0 <= k < j < i :: program.nodes[k].id == program.nodes[j].id
    {
      var id := program.nodes[i].id;
      if id in seen { collector.Push(DuplicateNodeId); }
      seen := seen + {id};
    }
  }

  /** `validate_value_ref`. */
  method CheckRef(program: Program, value: ValueRef, collector: Collector)
    requires collector.Valid()
    modifies collector
    ensures collector.Valid()
    ensures collector.sawError <==> old(collector.sawError) || !RefOk(program, value)
  {
    match value
    case InputRef(name) =>
      if name !in program.inputs { collector.Push(ReferenceInputNotFound); }
    case NodeRef(node, port) =>
      if !HasNode(program, node) {
        collector.Push(ReferenceNodeNotFound);
      } else if !Produces(program, node, port) {
        collector.Push(ReferencePortNotFound);
      }
  }

  method CheckNodeRefs(program: Program, node: Node, collector: Collector)
    requires collector.Valid()
    modifies collector
    ensures collector.Valid()
    ensures collector.sawError <==> old(collector.sawError) || !NodeRefsOk(program, node)
  {
    hide RefOk, SelectorOk;
    var ports := node.inputs.Keys;
    while ports != {}
      invariant collector.Valid() && ports <= node.inputs.Keys
      invariant collector.sawError <==>
                || old(collector.sawError)
                || exists p | p in node.inputs && p !in ports :: !RefOk(program, node.inputs[p])
      decreases |ports|
    {
      var port :| port in ports;
      CheckRef(program, node.inputs[port], collector);
      ports := ports - {port};
    }
    ghost var refsOk := !collector.sawError;
    for i := 0 to |node.requests|
      invariant collector.Valid()
      invariant collector.sawError <==>
                !refsOk || exists k | 0 <= k < i :: !SelectorOk(program, node, node.requests[k].resource)
    {
      if !SelectorOk(program, node, node.requests[i].resource) { collector.Push(ReferenceInputNotFound); }
    }
  }

  /** `validate_references`: an error is reported exactly when something does not resolve. */
  method ValidateReferences(program: Program, collector: Collector)
    requires collector.Valid()
    modifies collector
    ensures collector.Valid()
    ensures collector.sawError <==> old(collector.sawError) || !ReferencesOk(program)
    ensures !collector.sawError ==> Graph.ReferencesResolve(program)
  {
    hide NodeRefsOk, RefOk;
    for i := 0 to |program.nodes|
      invariant collector.Valid()
      invariant collector.sawError <==>
                old(collector.sawError) || exists k | 0 <= k < i :: !NodeRefsOk(program, program.nodes[k])
    {
      CheckNodeRefs(program, program.nodes[i], collector);
    }
    ghost var nodesOk := !collector.sawError;
    var names := program.outputs.Keys;
    while names != {}
      invariant collector.Valid() && names <= program.outputs.Keys
      invariant collector.sawError <==>
                || !nodesOk
                || exists n | n in program.outputs && n !in names :: !OutputOk(program, program.outputs[n])
      decreases |names|
    {
      var name :| name in names;
      if program.outputs[name].InputRef? {
        collector.Push(OutputNotFound);
      } else {
        CheckRef(program, program.outputs[name], collector);
      }
      names := names - {name};
    }
    if !collector.sawError { ResolvedProducers(program); }
  }

  lemma ResolvedProducers(program: Program)
    requires forall i | 0 <= i < |program.nodes| :: NodeRefsOk(program, program.nodes[i])
    ensures Graph.ReferencesResolve(program)
  {
    forall i, port | 0 <= i < |program.nodes| && port in program.nodes[i].inputs
      ensures program.nodes[i].inputs[port].NodeRef? ==> program.nodes[i].inputs[port].node in Graph.Ids(program)
    {
      assert NodeRefsOk(program, program.nodes[i]);
      assert RefOk(program, program.nodes[i].inputs[port]);
    }
  }
}
