/** Kahn's algorithm over the data-flow graph of a program. */
module Graph {
  import opened Ir
  import opened Digraph

  /** Node `c` reads an output of node `p`. */
  predicate Reads(program: Program, p: string, c: string) {
    exists i, port | 0 <= i < |program.nodes| && port in program.nodes[i].inputs ::
      program.nodes[i].id == c && ReadsFrom(program.nodes[i].inputs[port], p)
  }

  predicate ReadsFrom(value: ValueRef, p: string) {
    value.NodeRef? && value.node == p
  }

  function Ids(program: Program): set<string> {
    set i | 0 <= i < |program.nodes| :: program.nodes[i].id
  }

  /** Every referenced producer is a node, as the earlier reference check established. */
  predicate ReferencesResolve(program: Program) {
    forall i, port | 0 <= i < |program.nodes| && port in program.nodes[i].inputs ::
      program.nodes[i].inputs[port].NodeRef? ==> program.nodes[i].inputs[port].node in Ids(program)
  }

  ghost function Preds(e: Edges, c: string): set<string> {
    set p | p in e && c in e[p]
  }

  lemma PredsAreEdges(e: Edges, p: string, c: string)
    ensures p in Preds(e, c) <==> Edge(e, p, c)
  {}

  /** Edges stay among the nodes. */
  ghost predicate Within(e: Edges, nodes: set<string>) {
    forall p, c | Edge(e, p, c) :: p in nodes && c in nodes
  }

  // ---------------------------------------------------------------- sets that cannot start

  /** Every member waits for another member. */
  ghost predicate Trapped(e: Edges, x: set<string>) {
    forall c | c in x :: exists p | p in x :: Edge(e, p, c)
  }

  lemma {:induction false} DistinctFits(s: seq<string>, x: set<string>)
    requires forall i | 0 <= i < |s| :: s[i] in x
    requires forall i, j | 0 <= i < j < |s| :: s[i] != s[j]
    ensures |s| <= |x|
  {
    if s != [] {
      var front := s[..|s| - 1];
      DistinctFits(front, x - {s[|s| - 1]});
    }
  }

  lemma Repetition(s: seq<string>, x: set<string>) returns (i: nat, j: nat)
    requires |s| > |x| && forall i | 0 <= i < |s| :: s[i] in x
    ensures i < j < |s| && s[i] == s[j]
  {
    if forall i, j | 0 <= i < j < |s| :: s[i] != s[j] {
      DistinctFits(s, x);
      assert false;
    }
    i, j :| 0 <= i < j < |s| && s[i] == s[j];
  }

  /** Inside a trapped set, walks of every length exist. */
  lemma Waits(e: Edges, x: set<string>, c: string) returns (p: string)
    requires Trapped(e, x) && c in x
    ensures p in x && Edge(e, p, c)
  {
    hide Edge;
    p :| p in x && Edge(e, p, c);
  }

  lemma {:induction false} LongWalk(e: Edges, x: set<string>, n: nat) returns (w: seq<string>)
    requires Trapped(e, x) && x != {}
    ensures |w| == n + 1 && IsWalk(e, w) && forall i | 0 <= i < |w| :: w[i] in x
  {
    hide Edge, IsWalk, Trapped;
    if n == 0 {
      var c :| c in x;
      w := [c];
      OneNodeWalk(e, c);
    } else {
      var rest := LongWalk(e, x, n - 1);
      var p := Waits(e, x, rest[0]);
      w := [p] + rest;
      WalkCons(e, p, rest);
    }
  }

  lemma OneNodeWalk(e: Edges, c: string)
    ensures IsWalk(e, [c])
  {}

  lemma WalkCons(e: Edges, p: string, rest: seq<string>)
    requires IsWalk(e, rest) && Edge(e, p, rest[0])
    ensures IsWalk(e, [p] + rest)
  {
    hide Edge;
    var w := [p] + rest;
    forall i | 0 <= i < |w| - 1 ensures Edge(e, w[i], w[i + 1]) {
      if i > 0 { assert w[i] == rest[i - 1] && w[i + 1] == rest[i - 1 + 1]; }
    }
  }

  lemma WalkSlice(e: Edges, w: seq<string>, i: nat, j: nat)
    requires IsWalk(e, w) && i < j <= |w|
    ensures IsWalk(e, w[i..j])
  {
    hide Edge;
    var cut := w[i..j];
    forall k | 0 <= k < |cut| - 1 ensures Edge(e, cut[k], cut[k + 1]) {
      assert cut[k] == w[i + k] && cut[k + 1] == w[i + k + 1];
    }
  }

  lemma TrappedHasCycle(e: Edges, x: set<string>)
    requires Trapped(e, x) && x != {}
    ensures HasCycle(e)
  {
    hide Edge, IsWalk, Trapped;
    var w := LongWalk(e, x, |x|);
    var i, j := Repetition(w, x);
    WalkSlice(e, w, i, j + 1);
    var cycle := w[i..j + 1];
    assert |cycle| >= 2 && cycle[0] == cycle[|cycle| - 1];
  }

  lemma CycleIsTrapped(e: Edges, w: seq<string>)
    requires IsWalk(e, w) && |w| >= 2 && w[0] == w[|w| - 1]
    ensures Trapped(e, set i | 0 <= i < |w| :: w[i])
  {
    var x := set i | 0 <= i < |w| :: w[i];
    forall c | c in x ensures exists p | p in x :: Edge(e, p, c) {
      var i :| 0 <= i < |w| && w[i] == c;
      var k := if i == 0 then |w| - 1 else i;
      assert w[k] == c && w[k - 1] in x && Edge(e, w[k - 1], w[k - 1 + 1]);
    }
  }

  // ---------------------------------------------------------------- Kahn's algorithm

  /** Each popped node was popped after all its predecessors. */
  ghost predicate Ordered(e: Edges, order: seq<string>) {
    forall i | 0 <= i < |order| :: Preds(e, order[i]) <= Elements(order[..i])
  }

  ghost function Elements(s: seq<string>): set<string> {
    set x | x in s
  }

  lemma {:induction false} TrappedNeverPopped(e: Edges, order: seq<string>, x: set<string>, i: nat)
    requires Ordered(e, order) && Trapped(e, x) && i <= |order|
    ensures Elements(order[..i]) !! x
  {
    hide Edge, Preds;
    if i > 0 {
      TrappedNeverPopped(e, order, x, i - 1);
      assert order[..i] == order[..i - 1] + [order[i - 1]];
      assert Preds(e, order[i - 1]) <= Elements(order[..i - 1]);
      if order[i - 1] in x {
        var p :| p in x && Edge(e, p, order[i - 1]);
        PredsAreEdges(e, p, order[i - 1]);
        assert false;
      }
    }
  }

  /** How many predecessors have not been popped yet. */
  ghost function Waiting(e: Edges, c: string, done: set<string>): nat {
    |Preds(e, c) - done|
  }

  /** What holds between two pops. */
  ghost predicate KahnState(e: Edges, nodes: set<string>, indegree: map<string, nat>, ready: set<string>, order: seq<string>) {
    && indegree.Keys == nodes
    && Elements(order) <= nodes
    && |Elements(order)| == |order|
    && Ordered(e, order)
    && (forall c | c in nodes :: indegree[c] == Waiting(e, c, Elements(order)))
    && (forall c | c in nodes :: c in ready <==> indegree[c] == 0 && c !in Elements(order))
    && ready <= nodes
  }

  lemma KahnFacts(e: Edges, nodes: set<string>, indegree: map<string, nat>, ready: set<string>, order: seq<string>)
    requires KahnState(e, nodes, indegree, ready, order)
    ensures indegree.Keys == nodes && Elements(order) <= nodes && |Elements(order)| == |order| && Ordered(e, order)
    ensures forall c | c in nodes :: indegree[c] == Waiting(e, c, Elements(order))
    ensures forall c | c in nodes :: c in ready <==> indegree[c] == 0 && c !in Elements(order)
    ensures ready <= nodes
  {}

  lemma KahnIntro(e: Edges, nodes: set<string>, indegree: map<string, nat>, ready: set<string>, order: seq<string>)
    requires indegree.Keys == nodes && Elements(order) <= nodes && |Elements(order)| == |order| && Ordered(e, order)
    requires forall c | c in nodes :: indegree[c] == Waiting(e, c, Elements(order))
    requires forall c | c in nodes :: c in ready <==> indegree[c] == 0 && c !in Elements(order)
    requires ready <= nodes
    ensures KahnState(e, nodes, indegree, ready, order)
  {}

  lemma Lowered(e: Edges, c: string, done: set<string>, id: string)
    ensures Edge(e, id, c) && id !in done ==> Waiting(e, c, done) == Waiting(e, c, done + {id}) + 1
    ensures !Edge(e, id, c) ==> Waiting(e, c, done) == Waiting(e, c, done + {id})
  {
    if Edge(e, id, c) && id !in done {
      assert Preds(e, c) - done == (Preds(e, c) - (done + {id})) + {id};
    } else if !Edge(e, id, c) {
      assert Preds(e, c) - done == Preds(e, c) - (done + {id});
    }
  }

  lemma NoneWaiting(e: Edges, c: string, done: set<string>)
    ensures Waiting(e, c, done) == 0 <==> Preds(e, c) <= done
  {
    hide Preds;
    if Preds(e, c) <= done { assert Preds(e, c) - done == {}; }
    if Waiting(e, c, done) == 0 {
      assert Preds(e, c) - done == {};
      assert forall x | x in Preds(e, c) :: x !in Preds(e, c) - done;
    }
  }

  lemma ConsumerNotPopped(e: Edges, order: seq<string>, id: string, c: string)
    requires Ordered(e, order) && id !in Elements(order) && Edge(e, id, c) && Preds(e, id) <= Elements(order)
    ensures c !in Elements(order) + {id}
  {
    hide Edge, Preds;
    PredsAreEdges(e, id, c);
    forall i | 0 <= i < |order| ensures order[i] != c {
      assert Preds(e, order[i]) <= Elements(order[..i]);
      assert Elements(order[..i]) <= Elements(order);
    }
  }

  lemma OrderSnoc(e: Edges, order: seq<string>, id: string)
    requires Ordered(e, order) && |Elements(order)| == |order|
    requires id !in Elements(order) && Preds(e, id) <= Elements(order)
    ensures Elements(order + [id]) == Elements(order) + {id}
    ensures Ordered(e, order + [id]) && |Elements(order + [id])| == |order + [id]|
  {
    var longer := order + [id];
    assert Elements(longer) == Elements(order) + {id};
    forall i | 0 <= i < |longer| ensures Preds(e, longer[i]) <= Elements(longer[..i]) {
      if i < |order| {
        assert longer[..i] == order[..i];
        assert Preds(e, order[i]) <= Elements(order[..i]);
      } else {
        assert longer[..i] == order;
      }
    }
  }

  /** Lowers the indegree of every consumer of a popped node; none of them is zero before. */
  method Release(ghost e: Edges, ghost nodes: set<string>, indegree: map<string, nat>, ready: set<string>,
                 next: set<string>, ghost id: string, ghost order: seq<string>)
    returns (indegree': map<string, nat>, ready': set<string>)
    requires KahnState(e, nodes, indegree, ready + {id}, order) && id in nodes && id !in ready
    requires id !in Elements(order) && next <= nodes
    requires forall c :: c in next <==> Edge(e, id, c)
    ensures KahnState(e, nodes, indegree', ready', order + [id])
  {
    hide Ordered, Elements, Preds, Edge, KahnState, Waiting;
    indegree', ready' := indegree, ready;
    var rest := next;
    ghost var done := Elements(order);
    ghost var done' := done + {id};
    KahnFacts(e, nodes, indegree, ready + {id}, order);
    NoneWaiting(e, id, done);
    OrderSnoc(e, order, id);
    forall c | c in nodes ensures c !in next ==> Waiting(e, c, done) == Waiting(e, c, done') {
      Lowered(e, c, done, id);
    }
    while rest != {}
      invariant rest <= next && indegree'.Keys == nodes && ready' <= nodes
      invariant forall c | c in nodes ::
                  indegree'[c] == if c in rest then Waiting(e, c, done) else Waiting(e, c, done')
      invariant forall c | c in nodes :: c in ready' <==> indegree'[c] == 0 && c !in done'
      decreases rest
    {
      var consumer :| consumer in rest;
      Lowered(e, consumer, done, id);
      ConsumerNotPopped(e, order, id, consumer);
      indegree' := indegree'[consumer := indegree'[consumer] - 1];
      rest := rest - {consumer};
      if indegree'[consumer] == 0 { ready' := ready' + {consumer}; }
    }
    KahnIntro(e, nodes, indegree', ready', order + [id]);
  }

  // ---------------------------------------------------------------- building the graph

  /** The part of the graph contributed by the first nodes, and by the first ports of the next one. */
  ghost predicate Built(program: Program, count: nat, ports: set<string>, e: Edges)
    requires count <= |program.nodes|
  {
    forall p, c :: Edge(e, p, c) <==>
      || (exists i, port | 0 <= i < count && port in program.nodes[i].inputs ::
            program.nodes[i].id == c && ReadsFrom(program.nodes[i].inputs[port], p))
      || (count < |program.nodes| && program.nodes[count].id == c
          && exists port | port in ports && port in program.nodes[count].inputs ::
               ReadsFrom(program.nodes[count].inputs[port], p))
  }

  ghost predicate Counted(e: Edges, nodes: set<string>, indegree: map<string, nat>) {
    indegree.Keys == nodes && forall c | c in nodes :: indegree[c] == |Preds(e, c)|
  }

  /** `consumers.entry(producer).or_default().insert(id)`, counting only a new edge. */
  method AddEdge(e: Edges, indegree: map<string, nat>, ghost nodes: set<string>, p: string, c: string)
    returns (e': Edges, indegree': map<string, nat>)
    requires Counted(e, nodes, indegree) && Within(e, nodes) && p in nodes && c in nodes
    ensures Counted(e', nodes, indegree') && Within(e', nodes)
    ensures forall q, d :: Edge(e', q, d) <==> Edge(e, q, d) || (q == p && d == c)
  {
    hide Preds;
    indegree' := indegree;
    var earlier: set<string> := if p in e then e[p] else {};
    e' := e[p := earlier + {c}];
    EdgeAdded(e, p, c, e');
    if c !in earlier { indegree' := indegree[c := indegree[c] + 1]; }
  }

  lemma EdgeAdded(e: Edges, p: string, c: string, e': Edges)
    requires e' == e[p := (if p in e then e[p] else {}) + {c}]
    ensures forall q, d :: Edge(e', q, d) <==> Edge(e, q, d) || (q == p && d == c)
    ensures forall d :: |Preds(e', d)| == |Preds(e, d)| + if d == c && !Edge(e, p, c) then 1 else 0
  {
    assert forall q, d :: Edge(e', q, d) <==> Edge(e, q, d) || (q == p && d == c);
    forall d ensures |Preds(e', d)| == |Preds(e, d)| + if d == c && !Edge(e, p, c) then 1 else 0 {
      PredsAdded(e, p, c, e', d);
    }
  }

  lemma PredsAdded(e: Edges, p: string, c: string, e': Edges, d: string)
    requires forall q, d :: Edge(e', q, d) <==> Edge(e, q, d) || (q == p && d == c)
    ensures |Preds(e', d)| == |Preds(e, d)| + if d == c && !Edge(e, p, c) then 1 else 0
  {
    assert forall q :: q in Preds(e, d) <==> Edge(e, q, d);
    assert forall q :: q in Preds(e', d) <==> Edge(e', q, d);
    hide Preds, Edge;
    if d == c && !Edge(e, p, c) {
      assert Preds(e', d) == Preds(e, d) + {p} && p !in Preds(e, d);
    } else {
      assert Preds(e', d) == Preds(e, d);
    }
  }

  method BuildGraph(program: Program) returns (e: Edges, indegree: map<string, nat>)
    requires ReferencesResolve(program)
    ensures Counted(e, Ids(program), indegree) && Within(e, Ids(program))
    ensures forall p, c :: Edge(e, p, c) <==> Reads(program, p, c)
  {
    hide Counted, Within;
    ghost var nodes := Ids(program);
    e, indegree := map[], map id | id in Ids(program) :: 0;
    EmptyCounted(nodes);
    var i := 0;
    while i < |program.nodes|
      invariant i <= |program.nodes|
      invariant Counted(e, nodes, indegree) && Within(e, nodes) && Built(program, i, {}, e)
    {
      var node := program.nodes[i];
      var rest := node.inputs.Keys;
      while rest != {}
        invariant rest <= node.inputs.Keys
        invariant Counted(e, nodes, indegree) && Within(e, nodes)
        invariant Built(program, i, node.inputs.Keys - rest, e)
        decreases rest
      {
        var port :| port in rest;
        var value := node.inputs[port];
        ghost var before := e;
        if value.NodeRef? {
          e, indegree := AddEdge(e, indegree, nodes, value.node, node.id);
        }
        BuiltPort(program, i, node.inputs.Keys - rest, port, before, e);
        rest := rest - {port};
        assert node.inputs.Keys - rest == (node.inputs.Keys - (rest + {port})) + {port};
      }
      BuiltNode(program, i, node.inputs.Keys - rest, e);
      i := i + 1;
    }
  }

  lemma EmptyCounted(nodes: set<string>)
    ensures Counted(map[], nodes, map id | id in nodes :: 0) && Within(map[], nodes)
  {}

  lemma BuiltPort(program: Program, i: nat, ports: set<string>, port: string, e: Edges, e': Edges)
    requires i < |program.nodes| && port in program.nodes[i].inputs && Built(program, i, ports, e)
    requires var value := program.nodes[i].inputs[port];
             forall q, d :: Edge(e', q, d) <==> Edge(e, q, d) || (ReadsFrom(value, q) && d == program.nodes[i].id)
    ensures Built(program, i, ports + {port}, e')
  {
    hide Edge;
  }

  lemma BuiltNode(program: Program, i: nat, ports: set<string>, e: Edges)
    requires i < |program.nodes| && ports == program.nodes[i].inputs.Keys && Built(program, i, ports, e)
    ensures Built(program, i + 1, {}, e)
  {
    hide Edge;
    forall p, c
      ensures Edge(e, p, c) <==> exists k, port | 0 <= k < i + 1 && port in program.nodes[k].inputs ::
                program.nodes[k].id == c && ReadsFrom(program.nodes[k].inputs[port], p)
    {}
  }

  // ---------------------------------------------------------------- validate_acyclic

  /** The largest trapped set: exactly the nodes that wait, directly or not, on a cycle. */
  ghost predicate LargestTrapped(e: Edges, nodes: set<string>, x: set<string>) {
    x <= nodes && Trapped(e, x) && forall y | y <= nodes && Trapped(e, y) :: y <= x
  }

  /** The loop that pops ready nodes until none is left. */
  method PopAll(e: Edges, nodes: set<string>, start: map<string, nat>)
    returns (visited: nat, indegree: map<string, nat>)
    requires Counted(e, nodes, start) && Within(e, nodes)
    ensures indegree.Keys == nodes
    ensures LargestTrapped(e, nodes, set c | c in nodes && indegree[c] > 0)
    ensures visited + |set c | c in nodes && indegree[c] > 0| == |nodes|
  {
    hide Ordered, Preds, Edge, KahnState, Elements, LargestTrapped;
    indegree := start;
    var ready := set c | c in nodes && indegree[c] == 0;
    ghost var order: seq<string> := [];
    visited := 0;
    StartState(e, nodes, indegree, ready);
    while ready != {}
      invariant KahnState(e, nodes, indegree, ready, order) && visited == |order|
      decreases nodes - Elements(order)
    {
      var id :| id in ready;
      ghost var before := ready;
      ready := ready - {id};
      assert ready + {id} == before;
      visited := visited + 1;
      var next := if id in e then e[id] else {};
      NextNodes(e, nodes, id, next);
      KahnFacts(e, nodes, indegree, before, order);
      ElementsSnoc(order, id);
      indegree, ready := Release(e, nodes, indegree, ready, next, id, order);
      order := order + [id];
    }
    KahnFacts(e, nodes, indegree, {}, order);
    FinalState(e, nodes, indegree, order);
  }

  lemma ElementsSnoc(order: seq<string>, id: string)
    ensures Elements(order + [id]) == Elements(order) + {id}
  {}

  lemma NextNodes(e: Edges, nodes: set<string>, id: string, next: set<string>)
    requires Within(e, nodes) && next == (if id in e then e[id] else {})
    ensures next <= nodes && forall c :: c in next <==> Edge(e, id, c)
  {
    forall c | c in next ensures c in nodes { assert Edge(e, id, c); }
  }

  lemma StartState(e: Edges, nodes: set<string>, indegree: map<string, nat>, ready: set<string>)
    requires Counted(e, nodes, indegree) && ready == set c | c in nodes && indegree[c] == 0
    ensures KahnState(e, nodes, indegree, ready, [])
  {
    assert Elements([]) == {};
    forall c | c in nodes ensures Waiting(e, c, {}) == |Preds(e, c)| {
      assert Preds(e, c) - {} == Preds(e, c);
    }
  }

  lemma FinalState(e: Edges, nodes: set<string>, indegree: map<string, nat>, order: seq<string>)
    requires KahnState(e, nodes, indegree, {}, order) && Within(e, nodes)
    ensures var left := set c | c in nodes && indegree[c] > 0;
            left == nodes - Elements(order) && LargestTrapped(e, nodes, left) && |order| + |left| == |nodes|
  {
    hide Edge, Preds, Ordered, Elements, Waiting, Trapped;
    var done := Elements(order);
    var left := set c | c in nodes && indegree[c] > 0;
    forall c | c in done ensures indegree[c] == 0 {
      PoppedPreds(e, order, c);
      NoneWaiting(e, c, done);
    }
    assert left == nodes - done;
    assert |done| + |left| == |nodes| by { assert nodes == done + left && done !! left; }
    LeftIsTrapped(e, nodes, done);
    forall y | y <= nodes && Trapped(e, y) ensures y <= left {
      TrappedNeverPopped(e, order, y, |order|);
      assert order[..|order|] == order;
    }
  }

  lemma LeftIsTrapped(e: Edges, nodes: set<string>, done: set<string>)
    requires Within(e, nodes) && forall c | c in nodes - done :: Waiting(e, c, done) != 0
    ensures Trapped(e, nodes - done)
  {
    hide Edge, Preds, Waiting;
    forall c | c in nodes - done ensures exists p | p in nodes - done :: Edge(e, p, c) {
      NoneWaiting(e, c, done);
      var p :| p in Preds(e, c) && p !in done;
      PredsAreEdges(e, p, c);
      assert Edge(e, p, c);
    }
  }

  lemma PoppedPreds(e: Edges, order: seq<string>, c: string)
    requires Ordered(e, order) && c in Elements(order)
    ensures Preds(e, c) <= Elements(order)
  {
    hide Preds;
    var i :| 0 <= i < |order| && order[i] == c;
    assert Preds(e, order[i]) <= Elements(order[..i]);
    assert Elements(order[..i]) <= Elements(order);
  }

  lemma CyclesAreTheTrapped(e: Edges, nodes: set<string>, left: set<string>)
    requires Within(e, nodes) && LargestTrapped(e, nodes, left)
    ensures HasCycle(e) <==> left != {}
    ensures forall w | IsWalk(e, w) && |w| >= 2 && w[0] == w[|w| - 1] :: forall i | 0 <= i < |w| :: w[i] in left
  {
    if left != {} { TrappedHasCycle(e, left); }
    forall w, i | IsWalk(e, w) && |w| >= 2 && w[0] == w[|w| - 1] && 0 <= i < |w| ensures w[i] in left {
      var x := set k | 0 <= k < |w| :: w[k];
      CycleIsTrapped(e, w);
      forall c | c in x ensures c in nodes {
        var p :| p in x && Edge(e, p, c);
      }
      assert x <= left && w[i] in x;
    }
    if HasCycle(e) {
      var w :| IsWalk(e, w) && |w| >= 2 && w[0] == w[|w| - 1];
      assert w[0] in left;
    }
  }

  /**
   `validate_acyclic` reports a cycle exactly when the data-flow graph has one. The nodes it names
   are the largest set in which every node waits on another: it contains every cycle.
   */
  method ValidateAcyclic(program: Program, collector: Collector) returns (ghost e: Edges, cyclic: set<string>)
    requires DistinctIds(program) && ReferencesResolve(program) && collector.Valid()
    modifies collector
    ensures collector.Valid()
    ensures forall p, c :: Edge(e, p, c) <==> Reads(program, p, c)
    ensures collector.reported == old(collector.reported) + if HasCycle(e) then {GraphCycle} else {}
    ensures LargestTrapped(e, Ids(program), cyclic)
    ensures HasCycle(e) <==> cyclic != {}
    ensures forall w | IsWalk(e, w) && |w| >= 2 && w[0] == w[|w| - 1] :: forall i | 0 <= i < |w| :: w[i] in cyclic
  {
    hide LargestTrapped, Within, Counted, HasCycle, IsWalk, Edge, Reads;
    var nodes := Ids(program);
    var edges, indegree := BuildGraph(program);
    e := edges;
    var visited, after := PopAll(edges, nodes, indegree);
    cyclic := set c | c in nodes && after[c] > 0;
    CyclesAreTheTrapped(edges, nodes, cyclic);
    if visited != |nodes| { collector.Push(GraphCycle); }
  }
}
