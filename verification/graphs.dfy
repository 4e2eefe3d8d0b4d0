/** Directed graphs as adjacency maps, and reachability along paths.
    Shared by the call-graph modules. */
module Graphs {

  type Graph = map<nat, seq<nat>>

  predicate Edge(g: Graph, u: nat, v: nat) {
    u in g && v in g[u]
  }

  /** Every edge ends at a node of the graph. */
  ghost predicate Closed(g: Graph) {
    forall u: nat, v: nat :: Edge(g, u, v) ==> v in g
  }

  ghost predicate Path(g: Graph, p: seq<nat>) {
    && |p| > 0
    && forall k | 0 <= k < |p| - 1 :: Edge(g, p[k], p[k + 1])
  }

  ghost predicate Reach(g: Graph, u: nat, v: nat) {
    exists p :: Path(g, p) && p[0] == u && p[|p| - 1] == v
  }

  ghost predicate Mutual(g: Graph, u: nat, v: nat) {
    Reach(g, u, v) && Reach(g, v, u)
  }

  lemma ReachRefl(g: Graph, u: nat)
    ensures Reach(g, u, u)
  {
    assert Path(g, [u]);
  }

  lemma ReachEdge(g: Graph, u: nat, v: nat)
    requires Edge(g, u, v)
    ensures Reach(g, u, v)
  {
    assert Path(g, [u, v]);
  }

  lemma ReachTrans(g: Graph, u: nat, v: nat, w: nat)
    requires Reach(g, u, v) && Reach(g, v, w)
    ensures Reach(g, u, w)
  {
    var p :| Path(g, p) && p[0] == u && p[|p| - 1] == v;
    var q :| Path(g, q) && q[0] == v && q[|q| - 1] == w;
    var r := p + q[1..];
    forall k | 0 <= k < |r| - 1 ensures Edge(g, r[k], r[k + 1]) {
      if k < |p| - 1 {
        assert Edge(g, p[k], p[k + 1]);
      } else {
        assert Edge(g, q[k - |p| + 1], q[k - |p| + 2]);
      }
    }
    assert Path(g, r);
    assert r[|r| - 1] == w;
  }

  /** A path that leaves a set crosses its border along some edge. */
  lemma FirstExit(g: Graph, S: set<nat>, x: nat, y: nat) returns (a: nat, b: nat)
    requires Reach(g, x, y) && x in S && y !in S
    ensures a in S && b !in S && Edge(g, a, b)
    ensures Reach(g, x, a) && Reach(g, b, y)
  {
    var p :| Path(g, p) && p[0] == x && p[|p| - 1] == y;
    var k := 0;
    while p[k + 1] in S
      invariant 0 <= k < |p| - 1
      invariant p[k] in S
      decreases |p| - k
    {
      k := k + 1;
    }
    a, b := p[k], p[k + 1];
    assert Path(g, p[..k + 1]);
    assert Path(g, p[k + 1..]);
    assert p[..k + 1][0] == x && p[..k + 1][k] == a;
    assert p[k + 1..][0] == b && p[k + 1..][|p| - k - 2] == y;
  }

  ghost predicate ClosedSet(g: Graph, S: set<nat>) {
    forall u: nat, v: nat :: u in S && Edge(g, u, v) ==> v in S
  }

  /** A set that no edge leaves contains everything reachable from it. */
  lemma ReachStays(g: Graph, S: set<nat>, x: nat, y: nat)
    requires ClosedSet(g, S) && x in S && Reach(g, x, y)
    ensures y in S
  {
    if y !in S {
      var a, b := FirstExit(g, S, x, y);
    }
  }

  /** Splits a nontrivial path at its first edge. */
  lemma ReachStep(g: Graph, x: nat, y: nat) returns (b: nat)
    requires Reach(g, x, y) && x != y
    ensures Edge(g, x, b) && Reach(g, b, y)
  {
    var a;
    a, b := FirstExit(g, {x}, x, y);
  }
}
