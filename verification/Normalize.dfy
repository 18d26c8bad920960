/**
 The canonical semantic form of a program. A document is the serialized program: every key that
 normalization may remove is optional.
 */
module Normalize {
  import opened Values
  import opened Ordering

  datatype Request = Request(action: string, resource: string, reason: Option<string>)

  datatype Egress = Egress(mode: string, destinations: Option<seq<string>>)

  /** `rest` holds the latency, cost, memory and accelerator members. */
  datatype Constraints = Constraints(locality: Option<seq<string>>, rest: map<string, Json>)

  datatype Failure = Stop | Retry(attempts: nat) | Fallback(capabilities: seq<string>) | Replan(replans: nat)

  /** `body` holds the operation, execution class, ports and cache policy. */
  datatype Node = Node(
    id: string,
    body: Json,
    requests: seq<Request>,
    egress: Egress,
    constraints: Option<Constraints>,
    failure: Failure,
    description: Option<string>,
    metadata: Option<Json>
  )

  datatype Input = Input(typeRef: string, required: bool, mediaTypes: Option<seq<string>>, description: Option<string>)

  datatype Doc = Doc(
    version: string,
    programId: Option<string>,
    kind: string,
    inputs: map<string, Input>,
    nodes: seq<Node>,
    outputs: map<string, Json>,
    metadata: Option<Json>
  )

  // ---------------------------------------------------------------- normalization

  function TextKey(s: string): Key {
    [Utf16(s)]
  }

  function RequestKey(r: Request): Key {
    [Codes(r.action), Codes(r.resource)]
  }

  function NodeKey(n: Node): Key {
    [Codes(n.id)]
  }

  /** `sort_string_array` followed by `remove_empty_array`. */
  function SortedSet(s: Option<seq<string>>): Option<seq<string>> {
    if s.None? || s.value == [] then None else Some(Sort(s.value, TextKey))
  }

  function Unreasoned(r: Request): Request {
    r.(reason := None)
  }

  function UnreasonedAll(rs: seq<Request>): (r: seq<Request>)
    ensures |r| == |rs| && forall i | 0 <= i < |rs| :: r[i] == Unreasoned(rs[i])
  {
    if rs == [] then [] else UnreasonedAll(rs[..|rs| - 1]) + [Unreasoned(rs[|rs| - 1])]
  }

  function NormalConstraints(c: Option<Constraints>): Option<Constraints> {
    if c.None? then None
    else
      var kept := Constraints(SortedSet(c.value.locality), c.value.rest);
      if kept.locality.None? && kept.rest == map[] then None else Some(kept)
  }

  function NormalNode(n: Node): Node {
    n.(description := None,
       metadata := None,
       requests := Sort(UnreasonedAll(n.requests), RequestKey),
       egress := Egress(n.egress.mode, SortedSet(n.egress.destinations)),
       constraints := NormalConstraints(n.constraints))
  }

  function NormalNodes(ns: seq<Node>): (r: seq<Node>)
    ensures |r| == |ns| && forall i | 0 <= i < |ns| :: r[i] == NormalNode(ns[i])
  {
    if ns == [] then [] else NormalNodes(ns[..|ns| - 1]) + [NormalNode(ns[|ns| - 1])]
  }

  function NormalInput(i: Input): Input {
    i.(description := None, mediaTypes := SortedSet(i.mediaTypes))
  }

  function Normal(d: Doc): Doc {
    d.(programId := None,
       metadata := None,
       inputs := map k | k in d.inputs :: NormalInput(d.inputs[k]),
       nodes := Sort(NormalNodes(d.nodes), NodeKey))
  }

  /** `normalize_semantic_value`: removes keys and sorts arrays member by member. */
  method NormalizeValue(value: Doc) returns (root: Doc)
    ensures root == Normal(value)
  {
    hide Sort, NormalNode, NormalInput;
    root := value.(programId := None, metadata := None);
    var pending := value.inputs.Keys;
    while pending != {}
      invariant pending <= value.inputs.Keys && root.inputs.Keys == value.inputs.Keys
      invariant root == value.(programId := None, metadata := None, inputs := root.inputs)
      invariant forall k | k in value.inputs ::
                  root.inputs[k] == if k in pending then value.inputs[k] else NormalInput(value.inputs[k])
      decreases |pending|
    {
      var name :| name in pending;
      root := root.(inputs := root.inputs[name := NormalInput(root.inputs[name])]);
      pending := pending - {name};
    }
    var nodes := [];
    for i := 0 to |root.nodes|
      invariant nodes == NormalNodes(root.nodes[..i])
    {
      assert root.nodes[..i + 1][..i] == root.nodes[..i];
      nodes := nodes + [NormalNode(root.nodes[i])];
    }
    assert root.nodes[..|root.nodes|] == root.nodes;
    root := root.(nodes := Sort(nodes, NodeKey));
    assert root.inputs == Normal(value).inputs;
  }

  // ---------------------------------------------------------------- idempotence

  lemma SetTwice(s: Option<seq<string>>)
    ensures SortedSet(SortedSet(s)) == SortedSet(s)
  {
    if s.Some? && s.value != [] {
      SortSorted(s.value, TextKey);
      SortMultiset(s.value, TextKey);
      SortIdle(Sort(s.value, TextKey), TextKey);
    }
  }

  lemma ConstraintsTwice(c: Option<Constraints>)
    ensures NormalConstraints(NormalConstraints(c)) == NormalConstraints(c)
  {
    if c.Some? { SetTwice(c.value.locality); }
  }

  lemma UnreasonedIdle(rs: seq<Request>)
    requires forall r | r in rs :: r.reason.None?
    ensures UnreasonedAll(rs) == rs
  {
    var u := UnreasonedAll(rs);
    assert forall i | 0 <= i < |rs| :: u[i] == rs[i];
  }

  lemma RequestsTwice(rs: seq<Request>)
    ensures var s := Sort(UnreasonedAll(rs), RequestKey); Sort(UnreasonedAll(s), RequestKey) == s
  {
    var u := UnreasonedAll(rs);
    var s := Sort(u, RequestKey);
    SortMultiset(u, RequestKey);
    SortSorted(u, RequestKey);
    hide Sort;
    forall r | r in s ensures r.reason.None? { assert r in multiset(u); }
    UnreasonedIdle(s);
    SortIdle(s, RequestKey);
  }

  lemma NodeTwice(n: Node)
    ensures NormalNode(NormalNode(n)) == NormalNode(n)
  {
    hide Sort, NormalConstraints, SortedSet, UnreasonedAll;
    RequestsTwice(n.requests);
    SetTwice(n.egress.destinations);
    ConstraintsTwice(n.constraints);
  }

  lemma NodesIdle(ns: seq<Node>)
    requires forall n | n in ns :: NormalNode(n) == n
    ensures NormalNodes(ns) == ns
  {
    hide NormalNode;
    var r := NormalNodes(ns);
    assert forall i | 0 <= i < |ns| :: r[i] == ns[i];
  }

  lemma NodesTwice(ns: seq<Node>)
    ensures var s := Sort(NormalNodes(ns), NodeKey); Sort(NormalNodes(s), NodeKey) == s
  {
    hide NormalNode, Sort;
    var u := NormalNodes(ns);
    var s := Sort(u, NodeKey);
    SortMultiset(u, NodeKey);
    SortSorted(u, NodeKey);
    forall n | n in s ensures NormalNode(n) == n {
      assert n in multiset(u);
      var i :| 0 <= i < |u| && u[i] == n;
      NodeTwice(ns[i]);
    }
    NodesIdle(s);
    SortIdle(s, NodeKey);
  }

  /** Normalizing a normal form changes nothing. */
  lemma NormalTwice(d: Doc)
    ensures Normal(Normal(d)) == Normal(d)
  {
    hide NormalNode, Sort, SortedSet;
    NodesTwice(d.nodes);
    var once := Normal(d);
    forall k | k in once.inputs ensures NormalInput(once.inputs[k]) == once.inputs[k] {
      SetTwice(d.inputs[k].mediaTypes);
    }
    assert Normal(once).inputs == once.inputs;
  }

  // ---------------------------------------------------------------- semantic equivalence

  function Elements(s: Option<seq<string>>): multiset<string> {
    if s.Some? then multiset(s.value) else multiset{}
  }

  function Pairs(rs: seq<Request>): multiset<(string, string)> {
    if rs == [] then multiset{}
    else Pairs(rs[..|rs| - 1]) + multiset{(rs[|rs| - 1].action, rs[|rs| - 1].resource)}
  }

  function Locality(c: Option<Constraints>): multiset<string> {
    if c.Some? then Elements(c.value.locality) else multiset{}
  }

  function Rest(c: Option<Constraints>): map<string, Json> {
    if c.Some? then c.value.rest else map[]
  }

  /** Nodes that differ only in prose, set order, and empty versus absent members. */
  ghost predicate SameNode(a: Node, b: Node) {
    && a.id == b.id && a.body == b.body && a.failure == b.failure
    && Pairs(a.requests) == Pairs(b.requests)
    && a.egress.mode == b.egress.mode && Elements(a.egress.destinations) == Elements(b.egress.destinations)
    && Locality(a.constraints) == Locality(b.constraints) && Rest(a.constraints) == Rest(b.constraints)
  }

  ghost predicate SameInput(a: Input, b: Input) {
    a.typeRef == b.typeRef && a.required == b.required && Elements(a.mediaTypes) == Elements(b.mediaTypes)
  }

  /** Programs that differ only by node order, set order, prose, and empty versus absent members. */
  ghost predicate SameMeaning(p: Doc, q: Doc) {
    && p.version == q.version && p.kind == q.kind && p.outputs == q.outputs
    && p.inputs.Keys == q.inputs.Keys && (forall k | k in p.inputs :: SameInput(p.inputs[k], q.inputs[k]))
    && Covered(p.nodes, q.nodes) && Covered(q.nodes, p.nodes)
  }

  /** Every node has a counterpart. */
  ghost predicate Covered(a: seq<Node>, b: seq<Node>) {
    forall n | n in a :: exists m :: m in b && SameNode(n, m)
  }

  predicate DistinctNodes(ns: seq<Node>) {
    DistinctBy(ns, (n: Node) => n.id)
  }

  lemma {:induction false} TextKeyed(s: seq<string>)
    ensures Keyed(s, TextKey)
  {
    forall x, y | x in s && y in s && TextKey(x) == TextKey(y) ensures x == y {
      assert TextKey(x)[0] == TextKey(y)[0];
      Utf16Injective(x, y);
    }
  }

  lemma SetIff(a: Option<seq<string>>, b: Option<seq<string>>)
    ensures SortedSet(a) == SortedSet(b) <==> Elements(a) == Elements(b)
  {
    var x := if a.Some? then a.value else [];
    var y := if b.Some? then b.value else [];
    hide TextKey, Sort;
    TextKeyed(x);
    SortAlike(x, y, TextKey);
    SortMultiset(x, TextKey);
    SortMultiset(y, TextKey);
    EmptyMultiset(x);
    EmptyMultiset(y);
    EmptyMultiset(Sort(x, TextKey));
  }

  lemma EmptyMultiset(s: seq<string>)
    ensures s == [] <==> multiset(s) == multiset{}
  {
    if s != [] { assert s[0] in multiset(s); }
  }

  lemma RequestsKeyed(rs: seq<Request>)
    ensures Keyed(UnreasonedAll(rs), RequestKey)
  {
    var u := UnreasonedAll(rs);
    forall x, y | x in u && y in u && RequestKey(x) == RequestKey(y) ensures x == y {
      assert RequestKey(x)[0] == RequestKey(y)[0] && RequestKey(x)[1] == RequestKey(y)[1];
      CodesInjective(x.action, y.action);
      CodesInjective(x.resource, y.resource);
    }
  }

  /** The requests without reasons and the action-resource pairs hold the same information. */
  lemma {:induction false} PairsCount(rs: seq<Request>, a: string, r: string)
    ensures multiset(UnreasonedAll(rs))[Request(a, r, None)] == Pairs(rs)[(a, r)]
  {
    if rs != [] {
      var n := |rs| - 1;
      PairsCount(rs[..n], a, r);
      assert UnreasonedAll(rs) == UnreasonedAll(rs[..n]) + [Unreasoned(rs[n])];
    }
  }

  lemma UnreasonedOnly(rs: seq<Request>, x: Request)
    ensures x.reason.Some? ==> multiset(UnreasonedAll(rs))[x] == 0
  {
    if x in multiset(UnreasonedAll(rs)) { assert x in UnreasonedAll(rs); }
  }

  lemma RequestsIff(a: seq<Request>, b: seq<Request>)
    ensures Sort(UnreasonedAll(a), RequestKey) == Sort(UnreasonedAll(b), RequestKey) <==> Pairs(a) == Pairs(b)
  {
    hide Sort, UnreasonedAll, Pairs;
    RequestsKeyed(a);
    SortAlike(UnreasonedAll(a), UnreasonedAll(b), RequestKey);
    var x, y := multiset(UnreasonedAll(a)), multiset(UnreasonedAll(b));
    if Pairs(a) == Pairs(b) {
      forall r: Request ensures x[r] == y[r] {
        UnreasonedOnly(a, r);
        UnreasonedOnly(b, r);
        PairsCount(a, r.action, r.resource);
        PairsCount(b, r.action, r.resource);
      }
      assert x == y;
    }
    if x == y {
      forall p: (string, string) ensures Pairs(a)[p] == Pairs(b)[p] {
        PairsCount(a, p.0, p.1);
        PairsCount(b, p.0, p.1);
      }
    }
  }

  lemma ConstraintsIff(a: Option<Constraints>, b: Option<Constraints>)
    ensures NormalConstraints(a) == NormalConstraints(b) <==> Locality(a) == Locality(b) && Rest(a) == Rest(b)
  {
    var x := if a.Some? then a.value.locality else None;
    var y := if b.Some? then b.value.locality else None;
    SetIff(x, y);
    SetIff(x, None);
    SetIff(y, None);
    hide SortedSet, Elements;
    assert SortedSet(None) == None by { NoSet(); }
    assert Elements(None) == multiset{} by { NoSet(); }
  }

  lemma NoSet()
    ensures SortedSet(None) == None && Elements(None) == multiset{}
  {
  }

  /** Nodes normalize alike exactly when they mean the same. */
  lemma NodeIff(a: Node, b: Node)
    ensures NormalNode(a) == NormalNode(b) <==> SameNode(a, b)
  {
    hide Sort, NormalConstraints, SortedSet, UnreasonedAll, Pairs, Elements, Locality, Rest;
    RequestsIff(a.requests, b.requests);
    SetIff(a.egress.destinations, b.egress.destinations);
    ConstraintsIff(a.constraints, b.constraints);
  }

  lemma NodesKeyed(ns: seq<Node>)
    requires DistinctNodes(ns)
    ensures Keyed(NormalNodes(ns), NodeKey)
  {
    var u := NormalNodes(ns);
    forall x, y | x in u && y in u && NodeKey(x) == NodeKey(y) ensures x == y {
      assert NodeKey(x)[0] == NodeKey(y)[0];
      CodesInjective(x.id, y.id);
      var i :| 0 <= i < |u| && u[i] == x;
      var j :| 0 <= j < |u| && u[j] == y;
    }
  }

  lemma NormalId(n: Node)
    ensures NormalNode(n).id == n.id
  {
  }

  lemma {:induction false} DistinctOnce(ns: seq<Node>, n: Node)
    requires DistinctNodes(ns)
    ensures multiset(NormalNodes(ns))[n] == if n in NormalNodes(ns) then 1 else 0
  {
    hide NormalNode;
    if ns != [] {
      var k := |ns| - 1;
      DistinctOnce(ns[..k], n);
      var u := NormalNodes(ns[..k]);
      assert NormalNodes(ns) == u + [NormalNode(ns[k])];
      if n in u {
        var i :| 0 <= i < |u| && u[i] == n;
        NormalId(ns[i]);
        NormalId(ns[k]);
      }
    }
  }

  lemma NodeSetsIff(a: seq<Node>, b: seq<Node>)
    requires DistinctNodes(a) && DistinctNodes(b)
    ensures multiset(NormalNodes(a)) == multiset(NormalNodes(b)) <==>
            forall n :: n in NormalNodes(a) <==> n in NormalNodes(b)
  {
    var x, y := multiset(NormalNodes(a)), multiset(NormalNodes(b));
    if x == y {
      forall n ensures n in NormalNodes(a) <==> n in NormalNodes(b) { assert n in x <==> n in y; }
    }
    if forall n :: n in NormalNodes(a) <==> n in NormalNodes(b) {
      forall n: Node ensures x[n] == y[n] {
        DistinctOnce(a, n);
        DistinctOnce(b, n);
      }
    }
  }

  lemma CoveredForward(a: seq<Node>, b: seq<Node>, n: Node)
    requires Covered(a, b) && n in NormalNodes(a)
    ensures n in NormalNodes(b)
  {
    hide NormalNode, SameNode;
    var x, y := NormalNodes(a), NormalNodes(b);
    var i :| 0 <= i < |x| && x[i] == n;
    assert a[i] in a;
    var m :| m in b && SameNode(a[i], m);
    var j :| 0 <= j < |b| && b[j] == m;
    NodeIff(a[i], m);
    assert y[j] == n;
  }

  lemma CoveredBackward(a: seq<Node>, b: seq<Node>, n: Node)
    requires (forall m | m in NormalNodes(a) :: m in NormalNodes(b)) && n in a
    ensures exists m :: m in b && SameNode(n, m)
  {
    hide NormalNode, SameNode;
    var x, y := NormalNodes(a), NormalNodes(b);
    var i :| 0 <= i < |a| && a[i] == n;
    assert x[i] in x;
    var j :| 0 <= j < |y| && y[j] == x[i];
    NodeIff(n, b[j]);
    assert b[j] in b && SameNode(n, b[j]);
  }

  lemma CoveredIff(a: seq<Node>, b: seq<Node>)
    ensures Covered(a, b) <==> forall n | n in NormalNodes(a) :: n in NormalNodes(b)
  {
    hide NormalNodes, SameNode;
    if Covered(a, b) {
      forall n | n in NormalNodes(a) ensures n in NormalNodes(b) { CoveredForward(a, b, n); }
    }
    if forall n | n in NormalNodes(a) :: n in NormalNodes(b) {
      forall n | n in a ensures exists m :: m in b && SameNode(n, m) { CoveredBackward(a, b, n); }
    }
  }

  lemma NodesIff(a: seq<Node>, b: seq<Node>)
    requires DistinctNodes(a) && DistinctNodes(b)
    ensures Sort(NormalNodes(a), NodeKey) == Sort(NormalNodes(b), NodeKey) <==> Covered(a, b) && Covered(b, a)
  {
    hide Sort, NormalNodes, Covered;
    NodesKeyed(a);
    SortAlike(NormalNodes(a), NormalNodes(b), NodeKey);
    NodeSetsIff(a, b);
    CoveredIff(a, b);
    CoveredIff(b, a);
  }

  lemma InputsIff(a: map<string, Input>, b: map<string, Input>)
    ensures (map k | k in a :: NormalInput(a[k])) == (map k | k in b :: NormalInput(b[k])) <==>
            a.Keys == b.Keys && forall k | k in a :: SameInput(a[k], b[k])
  {
    hide SortedSet, Elements;
    var x := map k | k in a :: NormalInput(a[k]);
    var y := map k | k in b :: NormalInput(b[k]);
    if x == y {
      assert a.Keys == x.Keys && b.Keys == y.Keys;
      forall k | k in a ensures SameInput(a[k], b[k]) {
        assert x[k] == y[k];
        SetIff(a[k].mediaTypes, b[k].mediaTypes);
      }
    }
    if a.Keys == b.Keys && forall k | k in a :: SameInput(a[k], b[k]) {
      forall k | k in a ensures k in b && x[k] == y[k] { SetIff(a[k].mediaTypes, b[k].mediaTypes); }
      assert x.Keys == y.Keys;
    }
  }

  /** Programs with distinct node IDs normalize alike exactly when they differ only by node order,
      set-like array order, prose, and empty versus absent members. */
  lemma NormalIff(p: Doc, q: Doc)
    requires DistinctNodes(p.nodes) && DistinctNodes(q.nodes)
    ensures Normal(p) == Normal(q) <==> SameMeaning(p, q)
  {
    hide Sort, NormalNodes, Covered, NormalInput, SameInput, DistinctNodes;
    NodesIff(p.nodes, q.nodes);
    InputsIff(p.inputs, q.inputs);
  }

  /** Fallback order is meaning: reordering the fallbacks of one node changes the normal form. */
  lemma FallbackOrderKept(p: Doc, i: nat, order: seq<string>)
    requires DistinctNodes(p.nodes) && i < |p.nodes| && p.nodes[i].failure.Fallback?
    requires order != p.nodes[i].failure.capabilities
    ensures Normal(p.(nodes := p.nodes[i := p.nodes[i].(failure := Fallback(order))])) != Normal(p)
  {
    hide Pairs, Elements, Locality, Rest, Normal;
    var changed := p.nodes[i].(failure := Fallback(order));
    var q := p.(nodes := p.nodes[i := changed]);
    NormalIff(q, p);
    assert q.nodes[i] == changed && changed in q.nodes;
  }
}
