/** The orders in which normal forms and snapshot views list their members, said of the text itself. */
module NormalOrder {
  import opened Values
  import opened Ordering
  import opened Normalize
  import SnapshotId

  // ---------------------------------------------------------------- dictionary order

  /** The first is a prefix of the second, or smaller at the first difference. */
  ghost predicate Upto(a: seq<nat>, b: seq<nat>) {
    a <= b || exists i :: 0 <= i < |a| && i < |b| && a[..i] == b[..i] && a[i] < b[i]
  }

  lemma {:induction false} LexIff(a: seq<nat>, b: seq<nat>)
    ensures Lex(a, b) <==> Upto(a, b)
  {
    if a == [] {
      assert a <= b;
    } else if b != [] {
      var c, d := a[1..], b[1..];
      LexIff(c, d);
      assert a == [a[0]] + c && b == [b[0]] + d;
      if a[0] < b[0] { assert a[..0] == b[..0]; }
      if a[0] == b[0] && Upto(c, d) {
        if i :| 0 <= i < |c| && i < |d| && c[..i] == d[..i] && c[i] < d[i] {
          assert a[..i + 1] == [a[0]] + c[..i] && b[..i + 1] == [b[0]] + d[..i];
          assert a[i + 1] < b[i + 1];
        } else {
          assert c <= d;
        }
      }
      if Upto(a, b) { UptoTail(a, b); }
    }
  }

  lemma UptoTail(a: seq<nat>, b: seq<nat>)
    requires a != [] && b != [] && Upto(a, b)
    ensures a[0] < b[0] || (a[0] == b[0] && Upto(a[1..], b[1..]))
  {
    var c, d := a[1..], b[1..];
    if a <= b {
      assert a[0] == b[0] && c <= d;
    } else {
      var i :| 0 <= i < |a| && i < |b| && a[..i] == b[..i] && a[i] < b[i];
      if i > 0 {
        assert a[..i][0] == b[..i][0];
        assert c[..i - 1] == a[..i][1..] && d[..i - 1] == b[..i][1..];
        assert c[i - 1] < d[i - 1];
      }
    }
  }

  /** One-component keys compare as their component. */
  lemma OneKey(a: seq<nat>, b: seq<nat>)
    ensures Leq([a], [b]) <==> Upto(a, b)
  {
    LexIff(a, b);
    LexTotal(a, a);
    assert [a][1..] == [] && [b][1..] == [];
    hide Upto;
  }

  // ---------------------------------------------------------------- UTF-16

  /** A character is its own unit below 0x10000, and otherwise a surrogate pair that spells it. */
  lemma UnitsSpell(c: char)
    ensures var u, n := Units(c), c as int;
            if n < 0x10000 then u == [n]
            else && |u| == 2 && 0xD800 <= u[0] < 0xDC00 && 0xDC00 <= u[1] < 0xE000
                 && n == 0x10000 + (u[0] - 0xD800) * 0x400 + (u[1] - 0xDC00)
  {
  }

  lemma {:induction false} Utf16Joins(a: string, b: string)
    ensures Utf16(a + b) == Utf16(a) + Utf16(b)
  {
    hide Units;
    if a == "" {
      assert a + b == b;
    } else {
      assert (a + b)[1..] == a[1..] + b && (a + b)[0] == a[0];
      Utf16Joins(a[1..], b);
    }
  }

  lemma Utf16One(c: char)
    ensures Utf16([c]) == Units(c)
  {
    hide Units;
    assert [c][1..] == "";
  }

  // ---------------------------------------------------------------- normal forms

  ghost predicate InUnitOrder(s: seq<string>) {
    forall i, j | 0 <= i < j < |s| :: Upto(Utf16(s[i]), Utf16(s[j]))
  }

  /** A set-like array keeps its elements, in the order of UTF-16 units, and is absent when empty. */
  ghost predicate ListedAs(was: Option<seq<string>>, now: Option<seq<string>>) {
    if was.None? || was.value == [] then now.None?
    else now.Some? && InUnitOrder(now.value) && multiset(now.value) == multiset(was.value)
  }

  lemma SetListed(s: Option<seq<string>>)
    ensures ListedAs(s, SortedSet(s))
  {
    if s.Some? && s.value != [] {
      SortSorted(s.value, TextKey);
      SortMultiset(s.value, TextKey);
      var t := Sort(s.value, TextKey);
      hide Sort, Upto, Utf16, Leq;
      forall i, j | 0 <= i < j < |t| ensures Upto(Utf16(t[i]), Utf16(t[j])) {
        assert Leq(TextKey(t[i]), TextKey(t[j]));
        OneKey(Utf16(t[i]), Utf16(t[j]));
      }
    }
  }

  /** By action, and by resource under one action. */
  ghost predicate InRequestOrder(rs: seq<Request>) {
    forall i, j | 0 <= i < j < |rs| ::
      if rs[i].action == rs[j].action then Upto(Codes(rs[i].resource), Codes(rs[j].resource))
      else Upto(Codes(rs[i].action), Codes(rs[j].action))
  }

  lemma RequestOrder(a: Request, b: Request)
    requires Leq(RequestKey(a), RequestKey(b))
    ensures if a.action == b.action then Upto(Codes(a.resource), Codes(b.resource))
            else Upto(Codes(a.action), Codes(b.action))
  {
    var x, y := RequestKey(a), RequestKey(b);
    assert x[1..] == [Codes(a.resource)] && y[1..] == [Codes(b.resource)];
    if a.action == b.action {
      OneKey(Codes(a.resource), Codes(b.resource));
    } else {
      if x[0] == y[0] { CodesInjective(a.action, b.action); }
      LexIff(x[0], y[0]);
    }
    hide Upto;
  }

  /** The members of a normal node: prose gone, everything set-like listed in order, the rest as it was. */
  ghost predicate NodeListedAs(was: Node, now: Node) {
    && now.description.None? && now.metadata.None?
    && now.id == was.id && now.body == was.body && now.failure == was.failure && now.egress.mode == was.egress.mode
    && ListedAs(was.egress.destinations, now.egress.destinations)
    && InRequestOrder(now.requests) && Pairs(now.requests) == Pairs(was.requests)
    && (forall r | r in now.requests :: r.reason.None?)
    && ConstrainedAs(was.constraints, now.constraints)
  }

  /** Constraints keep their members and are absent when nothing is left of them. */
  ghost predicate ConstrainedAs(was: Option<Constraints>, now: Option<Constraints>) {
    && Rest(now) == Rest(was)
    && ListedAs(if was.Some? then was.value.locality else None, if now.Some? then now.value.locality else None)
    && (now.Some? ==> now.value.locality.Some? || now.value.rest != map[])
  }

  lemma ConstraintsListed(c: Option<Constraints>)
    ensures ConstrainedAs(c, NormalConstraints(c))
  {
    SetListed(if c.Some? then c.value.locality else None);
    NoneListed();
    hide ListedAs, SortedSet;
  }

  lemma RequestsListed(rs: seq<Request>)
    ensures var now := Sort(UnreasonedAll(rs), RequestKey);
            InRequestOrder(now) && Pairs(now) == Pairs(rs) && forall r | r in now :: r.reason.None?
  {
    var u := UnreasonedAll(rs);
    var now := Sort(u, RequestKey);
    SortSorted(u, RequestKey);
    SortMultiset(u, RequestKey);
    RequestsTwice(rs);
    RequestsIff(rs, now);
    hide Sort, Upto, Leq, Pairs;
    forall r | r in now ensures r.reason.None? { assert r in multiset(u); }
    forall i, j | 0 <= i < j < |now|
      ensures if now[i].action == now[j].action then Upto(Codes(now[i].resource), Codes(now[j].resource))
              else Upto(Codes(now[i].action), Codes(now[j].action))
    {
      RequestOrder(now[i], now[j]);
    }
  }

  lemma NodeListed(n: Node)
    ensures NodeListedAs(n, NormalNode(n))
  {
    SetListed(n.egress.destinations);
    ConstraintsListed(n.constraints);
    RequestsListed(n.requests);
    hide Sort, UnreasonedAll, Pairs, InRequestOrder, ListedAs, SortedSet, ConstrainedAs, NormalConstraints;
  }

  lemma NoneListed()
    ensures forall s :: ListedAs(s, None) <==> s.None? || s.value == []
    ensures forall s :: SortedSet(s).None? <==> s.None? || s.value == []
  {
  }

  /**
   What normalization leaves: the program ID, metadata and descriptions are gone, the nodes are those of the
   program in the order of their IDs, and every set-like array keeps its elements in its fixed order.
   */
  lemma NormalSorted(d: Doc)
    ensures var now := Normal(d);
            && now.programId.None? && now.metadata.None?
            && now.version == d.version && now.kind == d.kind && now.outputs == d.outputs
            && now.inputs.Keys == d.inputs.Keys
            && (forall k | k in d.inputs ::
                  && now.inputs[k].typeRef == d.inputs[k].typeRef && now.inputs[k].required == d.inputs[k].required
                  && now.inputs[k].description.None? && ListedAs(d.inputs[k].mediaTypes, now.inputs[k].mediaTypes))
            && |now.nodes| == |d.nodes|
            && (forall i, j | 0 <= i < j < |now.nodes| :: Upto(Codes(now.nodes[i].id), Codes(now.nodes[j].id)))
            && (forall n | n in now.nodes :: exists m :: m in d.nodes && NodeListedAs(m, n))
            && (forall m | m in d.nodes :: exists n :: n in now.nodes && NodeListedAs(m, n))
  {
    hide NormalNode, Upto, Leq, SortedSet, ListedAs, NodeListedAs;
    var u := NormalNodes(d.nodes);
    var nodes := Normal(d).nodes;
    SortSorted(u, NodeKey);
    SortMultiset(u, NodeKey);
    hide Sort;
    forall i, j | 0 <= i < j < |nodes| ensures Upto(Codes(nodes[i].id), Codes(nodes[j].id)) {
      assert Leq(NodeKey(nodes[i]), NodeKey(nodes[j]));
      OneKey(Codes(nodes[i].id), Codes(nodes[j].id));
    }
    forall n | n in nodes ensures exists m :: m in d.nodes && NodeListedAs(m, n) {
      assert n in multiset(u);
      var i :| 0 <= i < |u| && u[i] == n;
      NodeListed(d.nodes[i]);
      assert d.nodes[i] in d.nodes;
    }
    forall m | m in d.nodes ensures exists n :: n in nodes && NodeListedAs(m, n) {
      var i :| 0 <= i < |d.nodes| && d.nodes[i] == m;
      NodeListed(m);
      assert u[i] in multiset(nodes);
    }
    forall k | k in d.inputs ensures ListedAs(d.inputs[k].mediaTypes, Normal(d).inputs[k].mediaTypes) {
      SetListed(d.inputs[k].mediaTypes);
    }
  }

  // ---------------------------------------------------------------- snapshot views

  /** The entries of a snapshot view are listed by ID and, under one ID, by rising major version. */
  lemma ViewSorted(env: SnapshotId.Env, entries: seq<SnapshotId.Entry>, i: nat, j: nat)
    requires SnapshotId.EntriesOk(env, entries)
    ensures var listed := SnapshotId.ViewOf(env, entries, entries).types;
            && multiset(listed) == multiset(entries)
            && (i < j < |listed| ==>
                  && env.parse(listed[i].version).Some? && env.parse(listed[j].version).Some?
                  && if listed[i].id == listed[j].id
                     then env.parse(listed[i].version).value.major < env.parse(listed[j].version).value.major
                     else Upto(Codes(listed[i].id), Codes(listed[j].id)))
  {
    var key := (e: SnapshotId.Entry) => SnapshotId.EntryKey(env, e);
    var listed := Sort(entries, key);
    SortSorted(entries, key);
    SortMultiset(entries, key);
    hide Sort, Upto;
    if i < j < |listed| {
      SnapshotId.ValidReordered(env, entries, listed);
      EntryOrder(env, listed[i], listed[j]);
    }
  }

  lemma EntryOrder(env: SnapshotId.Env, a: SnapshotId.Entry, b: SnapshotId.Entry)
    requires SnapshotId.EntryOk(env, a) && SnapshotId.EntryOk(env, b)
    requires SnapshotId.Family(env, a) != SnapshotId.Family(env, b)
    requires Leq(SnapshotId.EntryKey(env, a), SnapshotId.EntryKey(env, b))
    ensures if a.id == b.id then env.parse(a.version).value.major < env.parse(b.version).value.major
            else Upto(Codes(a.id), Codes(b.id))
  {
    var x, y := SnapshotId.EntryKey(env, a), SnapshotId.EntryKey(env, b);
    assert x[0] == Codes(a.id) && y[0] == Codes(b.id);
    LexIff(x[0], y[0]);
    if a.id == b.id {
      assert x[1..][0] == [env.parse(a.version).value.major] && y[1..][0] == [env.parse(b.version).value.major];
    } else if x[0] == y[0] {
      CodesInjective(a.id, b.id);
    }
  }
}
