/** The SCC pass as it runs: arrays of node records, an array stack and counters. */
module SccPass {
  import opened Graphs
  import opened Sequences
  import Spec = SccSpec
  import Proof = SccProof

  class NodeTable {
    const n: nat
    const dfn: array<nat>
    const low: array<nat>
    const pos: array<nat>
    const comp: array<nat>
    const dfnStack: array<nat>
    var dfnTop: nat
    var nextDfn: nat
    var nextComp: nat

    ghost predicate Shape()
    {
      && dfn.Length == low.Length == pos.Length == comp.Length == dfnStack.Length == n
      && dfn != low && dfn != pos && dfn != comp && dfn != dfnStack
      && low != pos && low != comp && low != dfnStack
      && pos != comp && pos != dfnStack && comp != dfnStack
    }

    ghost function State(): Spec.State
      requires dfnTop <= dfnStack.Length
      reads this, dfn, low, pos, comp, dfnStack
    {
      Spec.State(dfn[..], low[..], pos[..], comp[..], dfnStack[..dfnTop], nextDfn, nextComp)
    }

    /** The stack cannot overflow: its nodes are distinct and visited. */
    ghost predicate Valid()
      reads this, dfn, low, pos, comp, dfnStack
    {
      && Shape()
      && dfnTop <= n
      && Spec.Sized(n, State())
      && dfnTop + |Spec.Unvisited(State())| <= n
    }

    constructor (n: nat)
      ensures Valid() && State() == Spec.Init(n) && this.n == n
      ensures fresh(dfn) && fresh(low) && fresh(pos) && fresh(comp) && fresh(dfnStack)
    {
      this.n := n;
      dfn := new nat[n](_ => 0);
      low := new nat[n](_ => 0);
      pos := new nat[n](_ => 0);
      comp := new nat[n](_ => 0);
      dfnStack := new nat[n](_ => 0);
      dfnTop, nextDfn, nextComp := 0, 1, 1;
      new;
      InitFits(n);
      assert dfn[..] == Spec.Init(n).dfn;
      assert comp[..] == Spec.Init(n).comp;
      assert State() == Spec.Init(n);
    }

    method Open(v: nat)
      requires Valid() && v < n && dfn[v] == 0
      modifies this, dfn, low, pos, dfnStack
      ensures Valid() && State() == Spec.Open(old(State()), v)
    {
      ghost var s := State();
      OpenFits(s, v, n);
      dfn[v] := nextDfn;
      low[v] := nextDfn;
      nextDfn := nextDfn + 1;
      dfnStack[dfnTop] := v;
      pos[v] := dfnTop;
      dfnTop := dfnTop + 1;
      assert dfnStack[..dfnTop] == s.stack + [v];
      assert State() == Spec.Open(s, v);
    }

    /** Labels the stack from the top down to position bottom. */
    method LabelDown(bottom: nat)
      requires Shape() && bottom <= dfnTop <= n
      requires forall k | 0 <= k < dfnTop :: dfnStack[k] < n
      modifies comp
      ensures comp[..] == Spec.Label(old(comp[..]), dfnStack[bottom..dfnTop], nextComp)
    {
      ghost var part := dfnStack[bottom..dfnTop];
      ghost var was := comp[..];
      var j := dfnTop;
      while j > bottom
        invariant bottom <= j <= dfnTop
        invariant Spec.Label(comp[..], part[..j - bottom], nextComp) == Spec.Label(was, part, nextComp)
      {
        j := j - 1;
        assert part[..j + 1 - bottom][..j - bottom] == part[..j - bottom];
        assert dfnStack[j] == part[j - bottom];
        comp[dfnStack[j]] := nextComp;
      }
    }

    /** Gives the top of the stack, from v up, one label and pops it. */
    method Pop(v: nat)
      requires Valid() && v < n && pos[v] <= dfnTop && low[v] == dfn[v]
      modifies this, comp
      ensures Valid() && State() == Spec.Close(old(State()), v)
    {
      ghost var s := State();
      assert forall k | 0 <= k < dfnTop :: dfnStack[k] == s.stack[k];
      LabelDown(pos[v]);
      nextComp := nextComp + 1;
      dfnTop := pos[v];
      assert dfnStack[pos[v]..|s.stack|] == s.stack[pos[v]..];
      assert dfnStack[..dfnTop] == s.stack[..pos[v]];
      assert State() == Spec.Close(s, v);
      assert Spec.Unvisited(State()) == Spec.Unvisited(s);
    }

    method LowerTo(v: nat, w: nat)
      requires Valid() && v < n && w < n
      modifies low
      ensures Valid() && State() == Spec.Lower(old(State()), v, w)
    {
      ghost var s := State();
      if low[w] < low[v] {
        low[v] := low[w];
      }
      assert State() == Spec.Lower(s, v, w);
      assert Spec.Unvisited(State()) == Spec.Unvisited(s);
    }

    /** The recursive pass from one node. */
    method ComputeScc(g: Graph, from: nat)
      requires Valid() && Spec.Numbered(g, n) && from < n && dfn[from] == 0
      modifies this, dfn, low, pos, comp, dfnStack
      ensures Valid() && State() == Spec.Visit(g, old(State()), from)
      decreases Spec.Unvisited(State()), 1
    {
      ghost var s := State();
      assert from in Spec.Unvisited(s);
      Open(from);
      ghost var s1 := State();
      assert from !in Spec.Unvisited(s1);
      if |g[from]| > 0 {
        var i := 0;
        while i < |g[from]|
          invariant i <= |g[from]| && Valid()
          invariant Spec.Grew(s1, State())
          invariant Spec.VisitEdges(g, State(), from, i) == Spec.VisitEdges(g, s1, from, 0)
        {
          Follow(g, from, i);
          i := i + 1;
        }
        if low[from] == dfn[from] {
          Pop(from);
        }
      } else {
        comp[from] := nextComp;
        nextComp := nextComp + 1;
      }
    }

    /** One turn of the edge loop. */
    method Follow(g: Graph, from: nat, i: nat)
      requires Valid() && Spec.Numbered(g, n) && from < n && dfn[from] != 0 && i < |g[from]|
      modifies this, dfn, low, pos, comp, dfnStack
      ensures Valid() && Spec.Grew(old(State()), State())
      ensures Spec.VisitEdges(g, State(), from, i + 1) == Spec.VisitEdges(g, old(State()), from, i)
      decreases Spec.Unvisited(State()), 2
    {
      var to := g[from][i];
      assert Edge(g, from, to);
      if dfn[to] == 0 {
        ComputeScc(g, to);
        LowerTo(from, to);
      } else if dfn[to] < dfn[from] && comp[to] == 0 {
        LowerTo(from, to);
      }
    }

    /** The driver loop over all nodes. */
    method ComputeAll(g: Graph)
      requires Valid() && Spec.Numbered(g, n) && State() == Spec.Init(n)
      modifies this, dfn, low, pos, comp, dfnStack
      ensures Valid() && State() == Spec.Drive(g, Spec.Init(n), 0)
      ensures Proof.LabelsComponents(g, comp[..]) <==> !Proof.SinkAhead(g, n)
    {
      var i := 0;
      while i < n
        invariant i <= n && Valid()
        invariant Spec.Drive(g, State(), i) == Spec.Drive(g, Spec.Init(n), 0)
      {
        if dfn[i] == 0 {
          ComputeScc(g, i);
        }
        i := i + 1;
      }
      Proof.SccLabelling(g, n);
    }
  }

  lemma OpenFits(s: Spec.State, v: nat, n: nat)
    requires Spec.Sized(n, s) && |s.dfn| == n && v < n && s.dfn[v] == 0
    requires |s.stack| + |Spec.Unvisited(s)| <= n
    ensures |s.stack| < n
    ensures |s.stack| + 1 + |Spec.Unvisited(Spec.Open(s, v))| <= n
  {
    var U := Spec.Unvisited(s);
    assert v in U;
    assert Spec.Unvisited(Spec.Open(s, v)) == U - {v};
  }

  lemma InitFits(n: nat)
    ensures |Spec.Unvisited(Spec.Init(n))| <= n
  {
    Below(n, Spec.Unvisited(Spec.Init(n)));
  }

  lemma {:induction false} Below(n: nat, S: set<nat>)
    requires forall u :: u in S ==> u < n
    ensures |S| <= n
  {
    if n > 0 {
      Below(n - 1, S - {n - 1});
    } else {
      assert S == {};
    }
  }

  // ------------------------------------------------------------------
  // From a list of calls to node numbers and back.

  /** Every edge from a listed call leads to a listed call. */
  predicate ClosedList(G: Graph, list: seq<nat>) {
    && (forall i | 0 <= i < |list| :: list[i] in G)
    && (forall i, k | 0 <= i < |list| && 0 <= k < |G[list[i]]| :: G[list[i]][k] in list)
  }

  /** The number stored for a call, or 0 (NULL) if it is not in the table. */
  function Lookup(table: map<nat, nat>, id: nat): nat {
    if id in table then table[id] else 0
  }

  ghost predicate Numbers(table: map<nat, nat>, list: seq<nat>) {
    && (forall i: nat | i < |list| :: list[i] in table && table[list[i]] == i)
    && (forall id: nat | id in table :: id in list)
  }

  /** The graph on node numbers that the pass walks through the table. */
  function NumberGraph(G: Graph, list: seq<nat>, table: map<nat, nat>): Graph
    requires forall i | 0 <= i < |list| :: list[i] in G
  {
    map i: nat | i < |list| :: seq(|G[list[i]]|, k requires 0 <= k < |G[list[i]]| => Lookup(table, G[list[i]][k]))
  }

  lemma NumberEdge(G: Graph, list: seq<nat>, table: map<nat, nat>, i: nat, j: nat)
    requires ClosedList(G, list) && Numbers(table, list) && i < |list|
    ensures Edge(NumberGraph(G, list, table), i, j) <==> j < |list| && Edge(G, list[i], list[j])
  {
    var H := NumberGraph(G, list, table);
    if Edge(H, i, j) {
      var k :| 0 <= k < |H[i]| && H[i][k] == j;
      assert G[list[i]][k] in list;
    }
    if j < |list| && Edge(G, list[i], list[j]) {
      var k :| 0 <= k < |G[list[i]]| && G[list[i]][k] == list[j];
      assert H[i][k] == j;
    }
  }

  lemma NumberGraphNumbered(G: Graph, list: seq<nat>, table: map<nat, nat>)
    requires ClosedList(G, list) && Numbers(table, list)
    ensures Spec.Numbered(NumberGraph(G, list, table), |list|)
  {
    var H := NumberGraph(G, list, table);
    forall u: nat, v: nat | Edge(H, u, v) ensures v in H {
      NumberEdge(G, list, table, u, v);
    }
  }

  lemma NumberReach(G: Graph, list: seq<nat>, table: map<nat, nat>, i: nat, j: nat)
    requires ClosedList(G, list) && Numbers(table, list) && i < |list| && j < |list|
    ensures Reach(NumberGraph(G, list, table), i, j) <==> Reach(G, list[i], list[j])
  {
    var H := NumberGraph(G, list, table);
    if Reach(H, i, j) {
      var p :| Path(H, p) && p[0] == i && p[|p| - 1] == j;
      NumberPathDown(G, list, table, p);
    }
    if Reach(G, list[i], list[j]) {
      var q :| Path(G, q) && q[0] == list[i] && q[|q| - 1] == list[j];
      NumberPathUp(G, list, table, q);
    }
  }

  lemma {:induction false} NumberPathDown(G: Graph, list: seq<nat>, table: map<nat, nat>, p: seq<nat>)
    requires ClosedList(G, list) && Numbers(table, list)
    requires Path(NumberGraph(G, list, table), p) && p[0] < |list|
    ensures p[|p| - 1] < |list| && Reach(G, list[p[0]], list[p[|p| - 1]])
    decreases |p|
  {
    var H := NumberGraph(G, list, table);
    if |p| == 1 {
      ReachRefl(G, list[p[0]]);
    } else {
      assert Edge(H, p[0], p[1]);
      NumberEdge(G, list, table, p[0], p[1]);
      PathTail(H, p);
      NumberPathDown(G, list, table, p[1..]);
      ReachEdge(G, list[p[0]], list[p[1]]);
      ReachTrans(G, list[p[0]], list[p[1]], list[p[|p| - 1]]);
    }
  }

  lemma {:induction false} NumberPathUp(G: Graph, list: seq<nat>, table: map<nat, nat>, q: seq<nat>)
    requires ClosedList(G, list) && Numbers(table, list)
    requires Path(G, q) && q[0] in list
    ensures q[|q| - 1] in list
    ensures Reach(NumberGraph(G, list, table), Lookup(table, q[0]), Lookup(table, q[|q| - 1]))
    decreases |q|
  {
    var H := NumberGraph(G, list, table);
    var i := Lookup(table, q[0]);
    if |q| == 1 {
      ReachRefl(H, i);
    } else {
      assert Edge(G, q[0], q[1]);
      var i0 :| 0 <= i0 < |list| && list[i0] == q[0];
      var k :| 0 <= k < |G[list[i0]]| && G[list[i0]][k] == q[1];
      PathTail(G, q);
      NumberPathUp(G, list, table, q[1..]);
      var j := Lookup(table, q[1]);
      NumberEdge(G, list, table, i, j);
      ReachEdge(H, i, j);
      ReachTrans(H, i, j, Lookup(table, q[|q| - 1]));
    }
  }

  lemma PathTail(g: Graph, p: seq<nat>)
    requires Path(g, p) && |p| > 1
    ensures Path(g, p[1..]) && p[1..][0] == p[1] && p[1..][|p| - 2] == p[|p| - 1]
  {
    forall k | 0 <= k < |p[1..]| - 1 ensures Edge(g, p[1..][k], p[1..][k + 1]) {
      assert Edge(g, p[k + 1], p[k + 2]);
    }
  }

  /** Some listed call reaches a later listed call that has no out-edges. */
  ghost predicate LeafAhead(G: Graph, list: seq<nat>) {
    exists k: nat, l: nat :: k < l < |list| && list[l] in G && G[list[l]] == [] && Reach(G, list[k], list[l])
  }

  lemma LeafAheadNumbered(G: Graph, list: seq<nat>, table: map<nat, nat>)
    requires ClosedList(G, list) && Numbers(table, list)
    ensures LeafAhead(G, list) <==> Proof.SinkAhead(NumberGraph(G, list, table), |list|)
  {
    if LeafAhead(G, list) {
      var k: nat, l: nat :| k < l < |list| && list[l] in G && G[list[l]] == [] && Reach(G, list[k], list[l]);
      NumberReach(G, list, table, k, l);
      assert Proof.Sink(NumberGraph(G, list, table), l);
    }
    if Proof.SinkAhead(NumberGraph(G, list, table), |list|) {
      SinkToLeaf(G, list, table, NumberGraph(G, list, table));
    }
  }

  lemma SinkToLeaf(G: Graph, list: seq<nat>, table: map<nat, nat>, H: Graph)
    requires ClosedList(G, list) && Numbers(table, list) && H == NumberGraph(G, list, table)
    requires Proof.SinkAhead(H, |list|)
    ensures LeafAhead(G, list)
  {
    var k: nat, l: nat :| k < |list| && k < l && Proof.Sink(H, l) && Reach(H, k, l);
    NumberReach(G, list, table, k, l);
    assert |H[l]| == |G[list[l]]|;
  }

  /** Equal labels are exactly mutual dependency of the listed calls. */
  ghost predicate LabelsCalls(G: Graph, list: seq<nat>, comp: seq<nat>)
    requires |comp| == |list|
  {
    forall i: nat, j: nat | i < |list| && j < |list| :: comp[i] == comp[j] <==> Mutual(G, list[i], list[j])
  }

  lemma LabelsNumbered(G: Graph, list: seq<nat>, table: map<nat, nat>, comp: seq<nat>)
    requires ClosedList(G, list) && Numbers(table, list) && |comp| == |list|
    ensures LabelsCalls(G, list, comp) <==> Proof.LabelsComponents(NumberGraph(G, list, table), comp)
  {
    var H := NumberGraph(G, list, table);
    forall i: nat, j: nat | i < |list| && j < |list| ensures Mutual(H, i, j) <==> Mutual(G, list[i], list[j]) {
      NumberReach(G, list, table, i, j);
      NumberReach(G, list, table, j, i);
    }
  }

  /** Fills the table; a call is entered unless the lookup finds a nonzero number. */
  method NumberCalls(list: seq<nat>) returns (table: map<nat, nat>)
    requires list != [] && NoDup(list)
    ensures Numbers(table, list)
  {
    table := map[list[0] := 0];
    var count := 1;
    var i := 1;
    while i < |list|
      invariant 1 <= i <= |list| && count == i
      invariant forall j: nat | j < i :: list[j] in table && table[list[j]] == j
      invariant forall id: nat | id in table :: id in list[..i]
    {
      if Lookup(table, list[i]) == 0 {
        table := table[list[i] := count];
        count := count + 1;
      }
      i := i + 1;
    }
  }

  /** Labels the listed calls with their strongly connected components. */
  method GetIncrSccs(G: Graph, list: seq<nat>) returns (labels: seq<nat>)
    requires list != [] && NoDup(list) && ClosedList(G, list)
    ensures |labels| == |list|
    ensures LabelsCalls(G, list, labels) <==> !LeafAhead(G, list)
  {
    var table := NumberCalls(list);
    var H := NumberGraph(G, list, table);
    NumberGraphNumbered(G, list, table);
    var nodes := new NodeTable(|list|);
    nodes.ComputeAll(H);
    labels := nodes.comp[..];
    LeafAheadNumbered(G, list, table);
    LabelsNumbered(G, list, table, labels);
  }
}
