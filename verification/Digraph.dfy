/** Finite directed graphs as successor sets, their walks and cycles. */
module Digraph {

  type Edges = map<string, set<string>>

  predicate Edge(e: Edges, p: string, c: string) {
    p in e && c in e[p]
  }

  ghost predicate IsWalk(e: Edges, w: seq<string>) {
    |w| >= 1 && forall i | 0 <= i < |w| - 1 :: Edge(e, w[i], w[i + 1])
  }

  /** A walk of zero or more steps. */
  ghost predicate Reaches(e: Edges, start: string, target: string) {
    exists w | IsWalk(e, w) :: w[0] == start && w[|w| - 1] == target
  }

  ghost predicate HasCycle(e: Edges) {
    exists w | IsWalk(e, w) :: |w| >= 2 && w[0] == w[|w| - 1]
  }

  ghost predicate SameEdges(e: Edges, f: Edges) {
    forall p, c :: Edge(e, p, c) <==> Edge(f, p, c)
  }

  /** Cycles and reachability depend on the edges alone, not on which successor sets are stored. */
  lemma SameWalks(e: Edges, f: Edges)
    requires SameEdges(e, f)
    ensures forall w :: IsWalk(e, w) <==> IsWalk(f, w)
    ensures HasCycle(e) <==> HasCycle(f)
    ensures forall a, b :: Reaches(e, a, b) <==> Reaches(f, a, b)
  {
    hide Edge;
    assert forall w :: IsWalk(e, w) <==> IsWalk(f, w);
    hide IsWalk;
    if HasCycle(e) {
      var w :| IsWalk(e, w) && |w| >= 2 && w[0] == w[|w| - 1];
      assert IsWalk(f, w);
    }
    if HasCycle(f) {
      var w :| IsWalk(f, w) && |w| >= 2 && w[0] == w[|w| - 1];
      assert IsWalk(e, w);
    }
    forall a, b ensures Reaches(e, a, b) <==> Reaches(f, a, b) {
      ReachesIn(e, f, a, b);
      ReachesIn(f, e, a, b);
    }
  }

  lemma ReachesIn(e: Edges, f: Edges, a: string, b: string)
    requires forall w :: IsWalk(e, w) <==> IsWalk(f, w)
    ensures Reaches(e, a, b) ==> Reaches(f, a, b)
  {
    if Reaches(e, a, b) {
      var w :| IsWalk(e, w) && w[0] == a && w[|w| - 1] == b;
      assert IsWalk(f, w);
    }
  }
}
