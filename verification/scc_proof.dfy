/** Invariants of the SCC pass and the proof that its labels are right
    exactly when no sink is visited from inside another call. */
module SccProof {
  import opened Graphs
  import opened SccSpec

  predicate Sink(g: Graph, u: nat) {
    u in g && g[u] == []
  }

  /** Visited and not yet labelled. */
  predicate Live(s: State, u: nat) {
    u < |s.dfn| && u < |s.comp| && s.dfn[u] != 0 && s.comp[u] == 0
  }

  ghost predicate Shape(g: Graph, s: State) {
    && Sized(|s.dfn|, s)
    && (forall k | 0 <= k < |s.stack| :: s.dfn[s.stack[k]] != 0 && s.pos[s.stack[k]] == k)
    && (forall j, k | 0 <= j < k < |s.stack| :: s.dfn[s.stack[j]] < s.dfn[s.stack[k]])
    && (forall u | 0 <= u < |s.dfn| :: s.dfn[u] < s.nextDfn && s.comp[u] < s.nextComp)
    && (forall u | 0 <= u < |s.dfn| && s.comp[u] != 0 :: s.dfn[u] != 0)
    && (forall u: nat :: Live(s, u) ==> s.pos[u] < |s.stack| && s.stack[s.pos[u]] == u)
    && (forall k | 0 <= k < |s.stack| :: Live(s, s.stack[k]) || Sink(g, s.stack[k]))
  }

  /** Finished nodes have no unvisited successor. */
  ghost predicate NoLeak(g: Graph, s: State, G: set<nat>) {
    forall u: nat, w: nat :: Edge(g, u, w) && u < |s.dfn| && w < |s.dfn| && s.dfn[u] != 0 && u !in G ==> s.dfn[w] != 0
  }

  /** A node in progress reaches every live node opened after it. */
  ghost predicate Down(g: Graph, s: State, G: set<nat>) {
    forall x: nat, y: nat :: x in G && Live(s, x) && Live(s, y) && s.dfn[x] <= s.dfn[y] ==> Reach(g, x, y)
  }

  ghost predicate HasGray(g: Graph, s: State, G: set<nat>, y: nat)
    requires Live(s, y)
  {
    exists x: nat :: x in G && Live(s, x) && s.dfn[x] <= s.dfn[y] && Reach(g, y, x)
  }

  /** Every live node reaches a node in progress opened no later. */
  ghost predicate Up(g: Graph, s: State, G: set<nat>) {
    forall y: nat {:trigger HasGray(g, s, G, y)} :: Live(s, y) ==> HasGray(g, s, G, y)
  }

  /** Equal labels are exactly mutual reachability, as far as labels are given. */
  ghost predicate Labelled(g: Graph, s: State) {
    forall u: nat, v: nat :: u < |s.comp| && v < |s.comp| && s.comp[u] != 0 ==>
        (s.comp[v] == s.comp[u] <==> Mutual(g, u, v))
  }

  ghost predicate LowAt(g: Graph, s: State, y: nat)
    requires Live(s, y) && y < |s.low|
  {
    && s.low[y] <= s.dfn[y]
    && exists z: nat :: Live(s, z) && s.dfn[z] == s.low[y] && Reach(g, y, z)
  }

  /** The low link of a live node is the number of a live node it reaches. */
  ghost predicate LowLinks(g: Graph, s: State) {
    forall y: nat {:trigger LowAt(g, s, y)} :: Live(s, y) && y < |s.low| ==> LowAt(g, s, y)
  }

  ghost predicate Inv(g: Graph, s: State, G: set<nat>) {
    && Numbered(g, |s.dfn|)
    && Shape(g, s)
    && (forall x: nat :: x in G ==> Live(s, x))
    && NoLeak(g, s, G)
    && Down(g, s, G)
    && Up(g, s, G)
    && Labelled(g, s)
    && LowLinks(g, s)
  }

  /** Two off-stack nodes share a label although one of them is a sink. */
  ghost predicate Spoiled(g: Graph, s: State) {
    exists l: nat, x: nat :: SpoiledBy(g, s, l, x)
  }

  ghost predicate SpoiledBy(g: Graph, s: State, l: nat, x: nat) {
    && l < |s.dfn| && x < |s.dfn| && |s.comp| == |s.dfn| && l != x && Sink(g, l)
    && s.dfn[l] != 0 && s.dfn[x] != 0 && l !in s.stack && x !in s.stack
    && s.comp[l] == s.comp[x] != 0
  }

  ghost predicate NestedSink(g: Graph, s: State, v: nat) {
    exists l: nat :: l < |s.dfn| && s.dfn[l] == 0 && Sink(g, l) && l != v && Reach(g, v, l)
  }

  // ------------------------------------------------------------------
  // Labels off the stack are final.

  ghost predicate StackVisited(s: State) {
    Sized(|s.dfn|, s) && forall u: nat :: u in s.stack ==> u < |s.dfn| && s.dfn[u] != 0
  }

  ghost predicate OffStackKept(s: State, r: State) {
    && |s.dfn| == |r.dfn| == |s.comp| == |r.comp|
    && forall u: nat {:trigger s.comp[u]} {:trigger r.comp[u]} | u < |s.dfn| && s.dfn[u] != 0 && u !in s.stack ::
         r.comp[u] == s.comp[u] && u !in r.stack
  }

  lemma {:induction false} VisitKeeps(g: Graph, s: State, v: nat)
    requires Numbered(g, |s.dfn|) && StackVisited(s)
    requires v < |s.dfn| && s.dfn[v] == 0
    ensures StackVisited(Visit(g, s, v)) && OffStackKept(s, Visit(g, s, v))
    decreases Unvisited(s), 0, 0
  {
    var s1 := Open(s, v);
    assert v in Unvisited(s) && v !in Unvisited(s1);
    if |g[v]| > 0 {
      EdgesKeep(g, s1, v, 0);
      var r := VisitEdges(g, s1, v, 0);
      assert r.pos[v] == |s.stack|;
    }
  }

  lemma {:induction false} EdgesKeep(g: Graph, s: State, v: nat, i: nat)
    requires Numbered(g, |s.dfn|) && StackVisited(s)
    requires v < |s.dfn| && s.dfn[v] != 0 && i <= |g[v]|
    ensures StackVisited(VisitEdges(g, s, v, i)) && OffStackKept(s, VisitEdges(g, s, v, i))
    decreases Unvisited(s), 1, |g[v]| - i
  {
    if i < |g[v]| {
      var w := g[v][i];
      assert Edge(g, v, w);
      if s.dfn[w] == 0 {
        VisitKeeps(g, s, w);
        EdgesKeep(g, Lower(Visit(g, s, w), v, w), v, i + 1);
      } else if s.dfn[w] < s.dfn[v] && s.comp[w] == 0 {
        EdgesKeep(g, Lower(s, v, w), v, i + 1);
      } else {
        EdgesKeep(g, s, v, i + 1);
      }
    }
  }

  lemma SpoiledStays(g: Graph, s: State, r: State)
    requires Spoiled(g, s) && OffStackKept(s, r) && Grew(s, r)
    ensures Spoiled(g, r)
  {
    var l, x :| SpoiledBy(g, s, l, x);
    assert SpoiledBy(g, r, l, x);
  }

  // ------------------------------------------------------------------
  // What one call of Visit does.

  /** Edges from nodes opened after v to live nodes below v are seen in low[v]. */
  ghost predicate Bound(g: Graph, s: State, v: nat, a: nat, b: nat)
    requires v < |s.dfn| && v < |s.low|
  {
    Edge(g, a, b) && Live(s, a) && Live(s, b) && s.dfn[b] < s.dfn[v] ==> s.low[v] <= s.dfn[b]
  }

  /** The same for the inner nodes of v's subtree and v's first i edges. */
  ghost predicate BoundUpTo(g: Graph, s: State, v: nat, i: nat)
    requires v < |s.dfn| && v < |s.low| && v in g && i <= |g[v]|
  {
    && (forall a: nat, b: nat :: Live(s, a) && s.dfn[a] > s.dfn[v] ==> Bound(g, s, v, a, b))
    && (forall k | 0 <= k < i :: Bound(g, s, v, v, g[v][k]))
  }

  /** Nodes visited before the call keep their label and, except v, their low link. */
  ghost predicate Kept(s: State, r: State, v: nat) {
    && Grew(s, r)
    && Sized(|s.dfn|, s) && Sized(|s.dfn|, r)
    && s.nextDfn <= r.nextDfn
    && (forall u: nat | u < |s.dfn| && s.dfn[u] != 0 :: r.comp[u] == s.comp[u])
    && (forall u: nat | u < |s.dfn| && s.dfn[u] != 0 && u != v :: r.low[u] == s.low[u])
  }

  /** Nodes visited during the call are numbered late and reachable from v;
      sinks among them are still on the stack. */
  ghost predicate Fresh(g: Graph, s: State, r: State, v: nat)
    requires |s.dfn| == |r.dfn|
  {
    forall u: nat | u < |s.dfn| && s.dfn[u] == 0 && r.dfn[u] != 0 ::
      && r.dfn[u] >= s.nextDfn && Reach(g, v, u)
      && (Sink(g, u) ==> u in r.stack && !Live(r, u))
  }

  ghost predicate Visited(g: Graph, s: State, v: nat, r: State) {
    && Kept(s, r, v)
    && Fresh(g, s, r, v)
    && v < |s.dfn| && v in g
    && r.dfn[v] == s.nextDfn
    && (Live(r, v) ==> forall a: nat, b: nat :: Live(r, a) && r.dfn[a] >= r.dfn[v] ==> Bound(g, r, v, a, b))
    && (!Live(r, v) ==> r.low[v] == r.dfn[v] && r.stack == if Sink(g, v) then s.stack + [v] else s.stack)
  }

  ghost predicate EdgesVisited(g: Graph, s: State, v: nat, r: State) {
    && v < |s.dfn| && v in g
    && Kept(s, r, v)
    && Fresh(g, s, r, v)
    && Live(r, v)
    && BoundUpTo(g, r, v, |g[v]|)
    && (forall k | 0 <= k < |g[v]| :: g[v][k] < |r.dfn| && r.dfn[g[v][k]] != 0)
  }

  /** Lowering low[v] to the low link of a live successor keeps the low links right. */
  lemma LowerLinks(g: Graph, s: State, v: nat, w: nat)
    requires Sized(|s.dfn|, s) && LowLinks(g, s) && Live(s, v) && Edge(g, v, w) && Live(s, w)
    ensures LowLinks(g, Lower(s, v, w))
  {
    var r := Lower(s, v, w);
    forall y: nat | Live(r, y) && y < |r.low| ensures LowAt(g, r, y) {
      var y' := if y == v && r.low[v] != s.low[v] then w else y;
      assert LowAt(g, s, v) && LowAt(g, s, y');
      var z: nat :| Live(s, z) && s.dfn[z] == s.low[y'] && Reach(g, y', z);
      assert Live(r, z) && r.dfn[z] == r.low[y];
      if y' != y {
        ReachEdge(g, v, w);
        ReachTrans(g, v, w, z);
      }
    }
  }

  /** r has the same live nodes with the same numbers as s. */
  ghost predicate SameLive(s: State, r: State) {
    && |r.dfn| == |s.dfn|
    && (forall u: nat {:trigger Live(r, u)} :: Live(r, u) == Live(s, u))
    && (forall u: nat :: Live(s, u) ==> r.dfn[u] == s.dfn[u])
  }

  lemma SameUpDown(g: Graph, s: State, r: State, G: set<nat>)
    requires SameLive(s, r) && Up(g, s, G) && Down(g, s, G)
    ensures Up(g, r, G) && Down(g, r, G)
  {
    forall y: nat | Live(r, y) ensures HasGray(g, r, G, y) {
      assert HasGray(g, s, G, y);
    }
  }

  lemma LowerKeeps(g: Graph, s: State, v: nat, w: nat, G: set<nat>)
    requires Inv(g, s, G) && Live(s, v) && Edge(g, v, w) && Live(s, w)
    ensures Inv(g, Lower(s, v, w), G)
  {
    var r := Lower(s, v, w);
    LowerLinks(g, s, v, w);
    LowerShape(g, s, v, w);
    assert SameLive(s, r);
    SameUpDown(g, s, r, G);
    assert NoLeak(g, r, G);
    assert Labelled(g, r);
  }

  lemma LowerShape(g: Graph, s: State, v: nat, w: nat)
    requires Shape(g, s) && v < |s.dfn| && w < |s.dfn|
    ensures Shape(g, Lower(s, v, w))
  {
    var r := Lower(s, v, w);
    forall u: nat | Live(r, u) ensures r.pos[u] < |r.stack| && r.stack[r.pos[u]] == u {
      assert Live(s, u);
    }
    forall k | 0 <= k < |r.stack| ensures Live(r, r.stack[k]) || Sink(g, r.stack[k]) {
      assert Live(s, s.stack[k]) || Sink(g, s.stack[k]);
    }
  }

  lemma OpenShape(g: Graph, s: State, v: nat)
    requires Shape(g, s) && v < |s.dfn| && s.dfn[v] == 0
    ensures Shape(g, Open(s, v))
  {
    var r := Open(s, v);
    assert s.comp[v] == 0;
    forall u: nat | Live(r, u) ensures r.pos[u] < |r.stack| && r.stack[r.pos[u]] == u {
      assert u == v || Live(s, u);
    }
    forall k | 0 <= k < |r.stack| ensures Live(r, r.stack[k]) || Sink(g, r.stack[k]) {
      if k < |s.stack| {
        assert Live(s, s.stack[k]) || Sink(g, s.stack[k]);
      }
    }
  }

  /** r has one more live node than s, numbered last. */
  ghost predicate OneMore(s: State, r: State, v: nat) {
    && |r.dfn| == |s.dfn|
    && Live(r, v)
    && (forall u: nat {:trigger Live(r, u)} :: Live(r, u) == (Live(s, u) || u == v))
    && (forall u: nat :: Live(s, u) ==> r.dfn[u] == s.dfn[u] < r.dfn[v])
  }

  lemma OneMoreDown(g: Graph, s: State, r: State, v: nat, G: set<nat>, G1: set<nat>)
    requires OneMore(s, r, v) && G1 == G + {v}
    requires Down(g, s, G)
    requires forall x: nat :: x in G ==> Live(s, x) && Reach(g, x, v)
    ensures Down(g, r, G1)
  {
    ReachRefl(g, v);
  }

  lemma OneMoreUp(g: Graph, s: State, r: State, v: nat, G: set<nat>, G1: set<nat>)
    requires OneMore(s, r, v) && G1 == G + {v}
    requires Up(g, s, G)
    ensures Up(g, r, G1)
  {
    ReachRefl(g, v);
    forall y: nat | Live(r, y) ensures HasGray(g, r, G1, y) {
      if y == v {
        assert v in G1;
      } else {
        assert HasGray(g, s, G, y);
        var x: nat :| x in G && Live(s, x) && s.dfn[x] <= s.dfn[y] && Reach(g, y, x);
        assert x in G1 && Live(r, x);
      }
    }
  }

  lemma OneMoreLinks(g: Graph, s: State, r: State, v: nat)
    requires OneMore(s, r, v) && Sized(|s.dfn|, s) && Sized(|r.dfn|, r) && LowLinks(g, s)
    requires r.low == s.low[v := r.dfn[v]]
    ensures LowLinks(g, r)
  {
    ReachRefl(g, v);
    forall y: nat | Live(r, y) && y < |r.low| ensures LowAt(g, r, y) {
      if y != v {
        assert Live(s, y) && LowAt(g, s, y);
        var z: nat :| Live(s, z) && s.dfn[z] == s.low[y] && Reach(g, y, z);
        assert Live(r, z);
      }
    }
  }

  lemma OpenIsOneMore(g: Graph, s: State, v: nat)
    requires Shape(g, s) && v < |s.dfn| && s.dfn[v] == 0
    ensures OneMore(s, Open(s, v), v)
  {
    assert s.comp[v] == 0;
  }

  lemma OpenNoLeak(g: Graph, s: State, v: nat, G: set<nat>, G1: set<nat>)
    requires NoLeak(g, s, G) && Sized(|s.dfn|, s) && v < |s.dfn| && G1 == G + {v}
    ensures NoLeak(g, Open(s, v), G1)
  {
  }

  /** Opening a node that all nodes in progress reach. */
  lemma OpenKeeps(g: Graph, s: State, v: nat, G: set<nat>)
    requires Inv(g, s, G) && v < |s.dfn| && s.dfn[v] == 0
    requires forall x: nat :: x in G ==> Reach(g, x, v)
    ensures Inv(g, Open(s, v), G + {v})
  {
    var r, G1 := Open(s, v), G + {v};
    OpenShape(g, s, v);
    OpenIsOneMore(g, s, v);
    OneMoreDown(g, s, r, v, G, G1);
    OneMoreUp(g, s, r, v, G, G1);
    OneMoreLinks(g, s, r, v);
    assert Labelled(g, r);
    OpenNoLeak(g, s, v, G, G1);
    assert forall x: nat :: x in G1 ==> Live(r, x);
  }

  // ------------------------------------------------------------------
  // Finishing v: its part of the stack is one whole component.

  /** v is in progress on top of G, and everything it leads to has been seen. */
  ghost predicate Ready(g: Graph, r: State, v: nat, G: set<nat>) {
    && Inv(g, r, G + {v})
    && v in g && v !in G && Live(r, v)
    && (forall x: nat :: x in G ==> r.dfn[x] < r.dfn[v])
    && (forall a: nat, b: nat :: Live(r, a) && r.dfn[a] >= r.dfn[v] ==> Bound(g, r, v, a, b))
    && (forall w: nat :: Edge(g, v, w) ==> w < |r.dfn| && r.dfn[w] != 0)
  }

  ghost function Top(r: State, v: nat): set<nat>
    requires v < |r.dfn|
  {
    set u: nat | u < |r.dfn| && Live(r, u) && r.dfn[u] >= r.dfn[v]
  }

  lemma TopReachesBack(g: Graph, r: State, v: nat, G: set<nat>, w: nat)
    requires Ready(g, r, v, G) && w in Top(r, v)
    ensures Mutual(g, v, w)
  {
    assert v in G + {v};
    assert HasGray(g, r, G + {v}, w);
    var x: nat :| x in G + {v} && Live(r, x) && r.dfn[x] <= r.dfn[w] && Reach(g, w, x);
    assert Reach(g, x, v);
    ReachTrans(g, w, x, v);
  }

  lemma TopVisited(g: Graph, r: State, v: nat, G: set<nat>, a: nat, b: nat)
    requires Ready(g, r, v, G) && a in Top(r, v) && Edge(g, a, b)
    ensures b < |r.dfn| && r.dfn[b] != 0
  {
    assert b in g;
    if a != v {
      assert a !in G + {v};
    }
  }

  lemma TopIsWhole(g: Graph, r: State, v: nat, G: set<nat>, u: nat, w: nat)
    requires Ready(g, r, v, G) && r.low[v] == r.dfn[v]
    requires u in Top(r, v) && Mutual(g, u, w)
    ensures w in Top(r, v)
  {
    if w !in Top(r, v) {
      var a, b := FirstExit(g, Top(r, v), u, w);
      assert Bound(g, r, v, a, b);
      TopVisited(g, r, v, G, a, b);
      ReachEdge(g, a, b);
      ReachTrans(g, u, a, b);
      ReachTrans(g, b, w, u);
    }
  }

  lemma TopIsComponent(g: Graph, r: State, v: nat, G: set<nat>, u: nat, w: nat)
    requires Ready(g, r, v, G) && r.low[v] == r.dfn[v]
    requires u in Top(r, v)
    ensures w in Top(r, v) <==> Mutual(g, u, w)
  {
    if w in Top(r, v) {
      TopReachesBack(g, r, v, G, u);
      TopReachesBack(g, r, v, G, w);
      ReachTrans(g, u, v, w);
      ReachTrans(g, w, v, u);
    } else if Mutual(g, u, w) {
      TopIsWhole(g, r, v, G, u, w);
    }
  }

  /** c is r with the live nodes from v upwards removed. */
  ghost predicate Cut(r: State, c: State, v: nat) {
    && v < |r.dfn|
    && c.dfn == r.dfn && c.low == r.low
    && (forall u: nat {:trigger Live(c, u)} :: Live(c, u) == (Live(r, u) && r.dfn[u] < r.dfn[v]))
  }

  lemma CutUp(g: Graph, r: State, c: State, v: nat, G: set<nat>, G1: set<nat>)
    requires Cut(r, c, v) && G1 == G + {v} && Up(g, r, G1)
    ensures Up(g, c, G)
  {
    forall y: nat | Live(c, y) ensures HasGray(g, c, G, y) {
      assert HasGray(g, r, G1, y);
      var x: nat :| x in G1 && Live(r, x) && r.dfn[x] <= r.dfn[y] && Reach(g, y, x);
      assert x in G && Live(c, x);
    }
  }

  lemma CutLinks(g: Graph, r: State, c: State, v: nat)
    requires Cut(r, c, v) && LowLinks(g, r)
    ensures LowLinks(g, c)
  {
    forall y: nat | Live(c, y) && y < |c.low| ensures LowAt(g, c, y) {
      assert LowAt(g, r, y);
      var z: nat :| Live(r, z) && r.dfn[z] == r.low[y] && Reach(g, y, z);
      assert Live(c, z);
    }
  }

  lemma CutLabelled(g: Graph, r: State, c: State, v: nat, G: set<nat>)
    requires Ready(g, r, v, G) && r.low[v] == r.dfn[v] && Labelled(g, r)
    requires |c.comp| == |r.comp|
    requires forall u: nat | u < |r.comp| :: c.comp[u] == if u in Top(r, v) then r.nextComp else r.comp[u]
    ensures Labelled(g, c)
  {
    forall u: nat, w: nat | u < |c.comp| && w < |c.comp| && c.comp[u] != 0
      ensures c.comp[w] == c.comp[u] <==> Mutual(g, u, w)
    {
      if u in Top(r, v) {
        TopIsComponent(g, r, v, G, u, w);
        assert r.comp[w] < r.nextComp;
      } else {
        assert r.comp[u] < r.nextComp;
        assert r.comp[w] == r.comp[u] <==> Mutual(g, u, w);
      }
    }
  }

  /** Stack positions are ordered like DFN numbers. */
  lemma StackOrder(g: Graph, r: State, u: nat, v: nat)
    requires Shape(g, r) && Live(r, u) && Live(r, v)
    ensures r.pos[u] < r.pos[v] <==> r.dfn[u] < r.dfn[v]
  {
    assert r.stack[r.pos[u]] == u && r.stack[r.pos[v]] == v;
    if r.pos[u] < r.pos[v] {
      assert r.dfn[r.stack[r.pos[u]]] < r.dfn[r.stack[r.pos[v]]];
    } else if r.pos[v] < r.pos[u] {
      assert r.dfn[r.stack[r.pos[v]]] < r.dfn[r.stack[r.pos[u]]];
    }
  }

  /** Where the stack part above v holds live nodes only, it is Top. */
  lemma PartIsTop(g: Graph, r: State, v: nat, u: nat)
    requires Shape(g, r) && Live(r, v) && u < |r.dfn|
    requires forall k | r.pos[v] <= k < |r.stack| :: Live(r, r.stack[k])
    ensures u in r.stack[r.pos[v]..] <==> u in Top(r, v)
  {
    var part := r.stack[r.pos[v]..];
    if u in Top(r, v) {
      StackOrder(g, r, u, v);
      assert part[r.pos[u] - r.pos[v]] == u;
    }
    if u in part {
      var k :| 0 <= k < |part| && part[k] == u;
      assert r.stack[r.pos[v] + k] == u;
      StackOrder(g, r, u, v);
    }
  }

  lemma CloseShape(g: Graph, r: State, v: nat)
    requires Shape(g, r) && Live(r, v) && r.low[v] == r.dfn[v]
    requires forall k | r.pos[v] <= k < |r.stack| :: Live(r, r.stack[k])
    ensures Shape(g, Close(r, v)) && Cut(r, Close(r, v), v)
    ensures forall u: nat | u < |r.comp| :: Close(r, v).comp[u] == if u in Top(r, v) then r.nextComp else r.comp[u]
  {
    var c := Close(r, v);
    forall u: nat | u < |r.comp| ensures c.comp[u] == if u in Top(r, v) then r.nextComp else r.comp[u] {
      PartIsTop(g, r, v, u);
    }
    forall u: nat ensures Live(c, u) == (Live(r, u) && r.dfn[u] < r.dfn[v]) {
      if u < |r.comp| {
        PartIsTop(g, r, v, u);
      }
    }
    CutShape(g, r, c, v);
  }

  lemma CutShape(g: Graph, r: State, c: State, v: nat)
    requires Shape(g, r) && Live(r, v) && Cut(r, c, v) && Sized(|c.dfn|, c)
    requires c.pos == r.pos && c.stack == r.stack[..r.pos[v]]
    requires c.nextDfn == r.nextDfn && c.nextComp == r.nextComp + 1
    requires forall u: nat | u < |r.comp| :: c.comp[u] == if u in Top(r, v) then r.nextComp else r.comp[u]
    ensures Shape(g, c)
  {
    forall u: nat | Live(c, u) ensures c.pos[u] < |c.stack| && c.stack[c.pos[u]] == u {
      StackOrder(g, r, u, v);
    }
    forall k | 0 <= k < |c.stack| ensures Live(c, c.stack[k]) || Sink(g, c.stack[k]) {
      assert Live(r, r.stack[k]) || Sink(g, r.stack[k]);
      assert r.dfn[r.stack[k]] < r.dfn[r.stack[r.pos[v]]];
    }
  }

  lemma ReadyNoLeak(g: Graph, r: State, c: State, v: nat, G: set<nat>)
    requires Ready(g, r, v, G) && c.dfn == r.dfn
    ensures NoLeak(g, c, G)
  {
    assert NoLeak(g, r, G + {v});
  }

  lemma CutDown(g: Graph, r: State, c: State, v: nat, G: set<nat>, G1: set<nat>)
    requires Cut(r, c, v) && G1 == G + {v} && Down(g, r, G1)
    ensures Down(g, c, G)
  {
  }

  lemma ClosePops(g: Graph, r: State, v: nat, G: set<nat>)
    requires Ready(g, r, v, G) && r.low[v] == r.dfn[v]
    requires forall k | r.pos[v] <= k < |r.stack| :: Live(r, r.stack[k])
    ensures Inv(g, Close(r, v), G)
  {
    var c := Close(r, v);
    CloseShape(g, r, v);
    CutLabelled(g, r, c, v, G);
    CutUp(g, r, c, v, G, G + {v});
    CutDown(g, r, c, v, G, G + {v});
    CutLinks(g, r, c, v);
    ReadyNoLeak(g, r, c, v, G);
    forall x: nat | x in G ensures Live(c, x) {
      assert x in G + {v};
    }
  }

  /** If v's low link points below it, v's live nodes hang on a lower node in progress. */
  lemma CloseKeeps(g: Graph, r: State, v: nat, G: set<nat>)
    requires Ready(g, r, v, G) && r.low[v] != r.dfn[v]
    ensures Inv(g, r, G)
  {
    var G1 := G + {v};
    assert LowAt(g, r, v);
    var z: nat :| Live(r, z) && r.dfn[z] == r.low[v] && Reach(g, v, z);
    assert HasGray(g, r, G1, z);
    var t: nat :| t in G1 && Live(r, t) && r.dfn[t] <= r.dfn[z] && Reach(g, z, t);
    ReachTrans(g, v, z, t);
    ShiftUp(g, r, v, t, G, G1);
    ReadyNoLeak(g, r, r, v, G);
    assert Down(g, r, G);
  }

  lemma ShiftUp(g: Graph, r: State, v: nat, t: nat, G: set<nat>, G1: set<nat>)
    requires G1 == G + {v} && Up(g, r, G1) && Live(r, v)
    requires t in G && Live(r, t) && r.dfn[t] < r.dfn[v] && Reach(g, v, t)
    ensures Up(g, r, G)
  {
    forall y: nat | Live(r, y) ensures HasGray(g, r, G, y) {
      assert HasGray(g, r, G1, y);
      var x: nat :| x in G1 && Live(r, x) && r.dfn[x] <= r.dfn[y] && Reach(g, y, x);
      if x == v {
        ReachTrans(g, y, v, t);
      }
    }
  }

  lemma CloseSpoils(g: Graph, r: State, v: nat, k: nat)
    requires Shape(g, r) && Live(r, v) && r.low[v] == r.dfn[v]
    requires r.pos[v] <= k < |r.stack| && !Live(r, r.stack[k])
    ensures Spoiled(g, Close(r, v))
  {
    var c, l := Close(r, v), r.stack[k];
    assert r.stack[r.pos[v]..][k - r.pos[v]] == l;
    assert r.stack[r.pos[v]..][0] == v;
    forall j | 0 <= j < |c.stack| ensures c.stack[j] != l && c.stack[j] != v {
      assert c.stack[j] == r.stack[j] && r.pos[r.stack[j]] == j;
    }
    assert SpoiledBy(g, c, l, v);
  }

  // ------------------------------------------------------------------
  // Induction over the calls.

  lemma SinkReach(g: Graph, v: nat, w: nat)
    requires Sink(g, v) && Reach(g, v, w)
    ensures v == w
  {
    if v != w {
      var b := ReachStep(g, v, w);
    }
  }

  /** The branch for a node without out-edges. */
  function LabelSink(s: State, v: nat): State
    requires v < |s.dfn| && v < |s.low| && v < |s.pos| && v < |s.comp|
  {
    var s1 := Open(s, v);
    s1.(comp := s1.comp[v := s1.nextComp], nextComp := s1.nextComp + 1)
  }

  lemma SinkLabelled(g: Graph, s: State, v: nat)
    requires Sized(|s.dfn|, s) && Labelled(g, s) && Sink(g, v) && v < |s.dfn| && s.comp[v] == 0
    requires forall u: nat | u < |s.comp| :: s.comp[u] < s.nextComp
    ensures Labelled(g, LabelSink(s, v))
  {
    var r := LabelSink(s, v);
    forall u: nat, w: nat | u < |r.comp| && w < |r.comp| && r.comp[u] != 0
      ensures r.comp[w] == r.comp[u] <==> Mutual(g, u, w)
    {
      if u == v {
        if w == v {
          ReachRefl(g, v);
        } else if Mutual(g, u, w) {
          SinkReach(g, v, w);
        }
      } else if w == v {
        assert s.comp[w] == s.comp[u] <==> Mutual(g, u, w);
      } else {
        assert s.comp[w] == s.comp[u] <==> Mutual(g, u, w);
      }
    }
  }

  lemma SinkShape(g: Graph, s: State, v: nat)
    requires Shape(g, s) && Sink(g, v) && v < |s.dfn| && s.dfn[v] == 0
    ensures Shape(g, LabelSink(s, v)) && SameLive(s, LabelSink(s, v))
  {
    var r := LabelSink(s, v);
    forall u: nat ensures Live(r, u) == Live(s, u) {}
    forall k | 0 <= k < |r.stack| ensures Live(r, r.stack[k]) || Sink(g, r.stack[k]) {
      if k < |s.stack| {
        assert Live(s, s.stack[k]) || Sink(g, s.stack[k]);
      }
    }
  }

  lemma SameLinks(g: Graph, s: State, r: State)
    requires SameLive(s, r) && LowLinks(g, s) && |r.low| == |s.low|
    requires forall u: nat :: Live(s, u) && u < |s.low| ==> r.low[u] == s.low[u]
    ensures LowLinks(g, r)
  {
    forall y: nat | Live(r, y) && y < |r.low| ensures LowAt(g, r, y) {
      assert LowAt(g, s, y);
      var z: nat :| Live(s, z) && s.dfn[z] == s.low[y] && Reach(g, y, z);
      assert Live(r, z);
    }
  }

  lemma SinkNoLeak(g: Graph, s: State, v: nat, G: set<nat>)
    requires Sized(|s.dfn|, s) && NoLeak(g, s, G) && Sink(g, v) && v < |s.dfn|
    ensures NoLeak(g, LabelSink(s, v), G)
  {
    forall u: nat, w: nat | Edge(g, u, w) && u < |s.dfn| && w < |s.dfn| && LabelSink(s, v).dfn[u] != 0 && u !in G
      ensures LabelSink(s, v).dfn[w] != 0
    {
      assert u != v;
    }
  }

  lemma SinkKeeps(g: Graph, s: State, v: nat, G: set<nat>)
    requires Inv(g, s, G) && Sink(g, v) && v < |s.dfn| && s.dfn[v] == 0
    ensures Inv(g, LabelSink(s, v), G) && Visited(g, s, v, LabelSink(s, v))
  {
    var r := LabelSink(s, v);
    SinkShape(g, s, v);
    SinkLabelled(g, s, v);
    SameUpDown(g, s, r, G);
    SameLinks(g, s, r);
    SinkNoLeak(g, s, v, G);
    ReachRefl(g, v);
    assert Unvisited(r) <= Unvisited(s);
    assert r.stack[|s.stack|] == v;
  }

  /** v is being processed and its first i edges have been followed. */
  ghost predicate InProgress(g: Graph, s: State, v: nat, i: nat, G: set<nat>) {
    && Inv(g, s, G + {v})
    && v in g && v !in G && Live(s, v)
    && (forall x: nat :: x in G ==> s.dfn[x] < s.dfn[v])
    && i <= |g[v]|
    && BoundUpTo(g, s, v, i)
    && (forall k | 0 <= k < i :: g[v][k] < |s.dfn| && s.dfn[g[v][k]] != 0)
  }

  ghost predicate SpoiledInside(g: Graph, s: State, v: nat, r: State) {
    Spoiled(g, r) && NestedSink(g, s, v)
  }

  lemma CloseOffStack(g: Graph, r: State, v: nat)
    requires v < |r.dfn| && StackVisited(r) && r.pos[v] <= |r.stack|
    ensures OffStackKept(r, Close(r, v))
  {
  }

  lemma CloseSpoiled(g: Graph, r: State, v: nat)
    requires v < |r.dfn| && StackVisited(r) && r.pos[v] <= |r.stack| && Spoiled(g, r)
    ensures Spoiled(g, Close(r, v))
  {
    CloseOffStack(g, r, v);
    var l, x :| SpoiledBy(g, r, l, x);
    assert SpoiledBy(g, Close(r, v), l, x);
  }

  lemma AfterVisitInv(g: Graph, s: State, v: nat, w: nat, G: set<nat>, r: State)
    requires Live(s, v) && Edge(g, v, w) && s.dfn[v] < s.nextDfn
    requires Inv(g, r, G) && Visited(g, s, w, r)
    ensures Inv(g, Lower(r, v, w), G) && Live(r, v) && SameLive(r, Lower(r, v, w))
  {
    assert Live(r, v);
    assert LowAt(g, r, v);
    if Live(r, w) {
      LowerKeeps(g, r, v, w, G);
    } else {
      assert Lower(r, v, w) == r;
    }
  }

  /** A bound known before the call to w still holds after it. */
  lemma AfterVisitOld(g: Graph, s: State, v: nat, w: nat, r: State, a: nat, b: nat)
    requires Shape(g, s) && Live(s, v) && w < |s.dfn| && s.dfn[w] == 0
    requires Live(s, a) && Bound(g, s, v, a, b)
    requires Visited(g, s, w, r)
    ensures Bound(g, Lower(r, v, w), v, a, b)
  {
    var s2 := Lower(r, v, w);
    if Edge(g, a, b) && Live(s2, a) && Live(s2, b) && s2.dfn[b] < s2.dfn[v] {
      assert s.dfn[b] != 0;
      assert Live(s, b);
    }
  }

  lemma AfterVisitBound(g: Graph, s: State, v: nat, i: nat, G: set<nat>, w: nat, r: State, a: nat, b: nat)
    requires InProgress(g, s, v, i, G) && i < |g[v]| && g[v][i] == w
    requires w < |s.dfn| && s.dfn[w] == 0
    requires Shape(g, r) && Visited(g, s, w, r)
    requires Live(r, a) && r.dfn[a] > r.dfn[v]
    ensures Bound(g, Lower(r, v, w), v, a, b)
  {
    if s.dfn[a] != 0 {
      assert Live(s, a);
      assert Bound(g, s, v, a, b);
      AfterVisitOld(g, s, v, w, r, a, b);
    } else {
      NewIsAbove(g, s, w, r, a);
      assert Bound(g, r, w, a, b);
    }
  }

  /** A live node first visited during the call to w shows that w is still live. */
  lemma NewIsAbove(g: Graph, s: State, w: nat, r: State, a: nat)
    requires Shape(g, s) && Shape(g, r) && w < |s.dfn| && s.dfn[w] == 0 && Visited(g, s, w, r)
    requires Live(r, a) && s.dfn[a] == 0
    ensures Live(r, w) && r.dfn[a] >= r.dfn[w]
  {
    hide Bound, Reach, Unvisited;
    assert r.stack[r.pos[a]] == a;
    NewOnTop(s, r, r.pos[a]);
  }

  lemma NewOnTop(s: State, r: State, k: nat)
    requires |s.dfn| == |r.dfn| && s.stack <= r.stack && k < |r.stack|
    requires forall j | 0 <= j < |s.stack| :: s.stack[j] < |s.dfn| && s.dfn[s.stack[j]] != 0
    requires r.stack[k] < |s.dfn| && s.dfn[r.stack[k]] == 0
    ensures k >= |s.stack|
  {
  }

  lemma AfterVisitBounds(g: Graph, s: State, v: nat, i: nat, G: set<nat>, w: nat, r: State)
    requires InProgress(g, s, v, i, G) && i < |g[v]| && g[v][i] == w
    requires w < |s.dfn| && s.dfn[w] == 0
    requires Shape(g, r) && Visited(g, s, w, r)
    ensures BoundUpTo(g, Lower(r, v, w), v, i + 1)
  {
    var s2 := Lower(r, v, w);
    forall a: nat, b: nat | Live(s2, a) && s2.dfn[a] > s2.dfn[v] ensures Bound(g, s2, v, a, b) {
      assert Live(r, a);
      AfterVisitBound(g, s, v, i, G, w, r, a, b);
    }
    forall k | 0 <= k < i + 1 ensures Bound(g, s2, v, v, g[v][k]) {
      AfterVisitOwn(g, s, v, i, G, w, r, k);
    }
  }

  lemma AfterVisitOwn(g: Graph, s: State, v: nat, i: nat, G: set<nat>, w: nat, r: State, k: nat)
    requires InProgress(g, s, v, i, G) && i < |g[v]| && g[v][i] == w
    requires w < |s.dfn| && s.dfn[w] == 0
    requires Visited(g, s, w, r) && k <= i
    ensures Bound(g, Lower(r, v, w), v, v, g[v][k])
  {
    hide Reach, Up, Down, NoLeak, Labelled, LowLinks, Unvisited, Fresh;
    if k < i {
      assert Bound(g, s, v, v, g[v][k]);
      AfterVisitOld(g, s, v, w, r, v, g[v][k]);
    } else {
      assert Lower(r, v, w).dfn[w] > Lower(r, v, w).dfn[v];
    }
  }

  /** The state after following an edge to an unvisited w is again in progress. */
  lemma AfterVisit(g: Graph, s: State, v: nat, i: nat, G: set<nat>, w: nat, r: State)
    requires InProgress(g, s, v, i, G) && i < |g[v]| && g[v][i] == w
    requires w < |s.dfn| && s.dfn[w] == 0
    requires Inv(g, r, G + {v}) && Visited(g, s, w, r)
    ensures InProgress(g, Lower(r, v, w), v, i + 1, G)
  {
    assert Edge(g, v, w);
    AfterVisitInv(g, s, v, w, G + {v}, r);
    AfterVisitBounds(g, s, v, i, G, w, r);
    assert forall x: nat :: x in G ==> x in G + {v};
  }

  lemma FreshTrans(g: Graph, s: State, s2: State, r: State, v: nat)
    requires Kept(s, s2, v) && Kept(s2, r, v)
    requires Fresh(g, s, s2, v) && Fresh(g, s2, r, v)
    ensures Kept(s, r, v) && Fresh(g, s, r, v)
  {
    forall u: nat | u < |s.dfn| && s.dfn[u] == 0 && r.dfn[u] != 0
      ensures r.dfn[u] >= s.nextDfn && Reach(g, v, u) && (Sink(g, u) ==> u in r.stack && !Live(r, u))
    {
      if s2.dfn[u] != 0 && Sink(g, u) {
        assert u in s2.stack;
        var k :| 0 <= k < |s2.stack| && s2.stack[k] == u;
        assert r.stack[k] == u;
      }
    }
  }

  lemma FreshVia(g: Graph, s: State, v: nat, w: nat, r: State)
    requires Edge(g, v, w) && |s.dfn| == |r.dfn| && Fresh(g, s, r, w)
    ensures Fresh(g, s, r, v)
  {
    ReachEdge(g, v, w);
    forall u: nat | u < |s.dfn| && s.dfn[u] == 0 && r.dfn[u] != 0 ensures Reach(g, v, u) {
      ReachTrans(g, v, w, u);
    }
  }

  lemma FreshSelf(g: Graph, s: State, v: nat, w: nat)
    requires Sized(|s.dfn|, s) && v < |s.dfn| && w < |s.dfn|
    ensures Kept(s, Lower(s, v, w), v) && Fresh(g, s, Lower(s, v, w), v)
  {
  }

  /** Following the edge to an already visited w. */
  lemma AfterSkip(g: Graph, s: State, v: nat, i: nat, G: set<nat>, w: nat)
    requires InProgress(g, s, v, i, G) && i < |g[v]| && g[v][i] == w
    requires w < |s.dfn| && s.dfn[w] != 0
    requires !(s.dfn[w] < s.dfn[v] && s.comp[w] == 0)
    ensures InProgress(g, s, v, i + 1, G)
  {
    assert Bound(g, s, v, v, w);
  }

  lemma AfterLower(g: Graph, s: State, v: nat, i: nat, G: set<nat>, w: nat)
    requires InProgress(g, s, v, i, G) && i < |g[v]| && g[v][i] == w
    requires Live(s, w) && s.dfn[w] < s.dfn[v]
    ensures InProgress(g, Lower(s, v, w), v, i + 1, G)
  {
    var s2 := Lower(s, v, w);
    assert Edge(g, v, w);
    LowerKeeps(g, s, v, w, G + {v});
    assert LowAt(g, s, w);
    LowerBounds(g, s, v, i, w);
  }

  lemma LowerBounds(g: Graph, s: State, v: nat, i: nat, w: nat)
    requires Sized(|s.dfn|, s) && Live(s, v) && Live(s, w) && s.low[w] <= s.dfn[w]
    requires v in g && i < |g[v]| && g[v][i] == w && BoundUpTo(g, s, v, i)
    ensures BoundUpTo(g, Lower(s, v, w), v, i + 1)
  {
    var s2 := Lower(s, v, w);
    forall a: nat, b: nat | Live(s2, a) && s2.dfn[a] > s2.dfn[v] ensures Bound(g, s2, v, a, b) {
      assert Live(s, a) && Bound(g, s, v, a, b);
      assert Live(s2, b) == Live(s, b);
    }
    forall k | 0 <= k < i + 1 ensures Bound(g, s2, v, v, g[v][k]) {
      if k < i {
        assert Bound(g, s, v, v, g[v][k]);
        assert Live(s2, g[v][k]) == Live(s, g[v][k]);
      }
    }
  }

  lemma InProgressStack(g: Graph, s: State, v: nat, i: nat, G: set<nat>)
    requires InProgress(g, s, v, i, G)
    ensures StackVisited(s)
  {
    forall u: nat | u in s.stack ensures u < |s.dfn| && s.dfn[u] != 0 {
      var k :| 0 <= k < |s.stack| && s.stack[k] == u;
      assert s.dfn[s.stack[k]] != 0;
    }
  }

  /** What a loop started in s2 does, seen from the earlier state s. */
  lemma EdgesCompose(g: Graph, s: State, s2: State, v: nat, r: State)
    requires Kept(s, s2, v) && Fresh(g, s, s2, v)
    requires EdgesVisited(g, s2, v, r)
    ensures EdgesVisited(g, s, v, r)
  {
    FreshTrans(g, s, s2, r, v);
  }

  lemma NestedBefore(g: Graph, s: State, s2: State, v: nat)
    requires Grew(s, s2) && NestedSink(g, s2, v)
    ensures NestedSink(g, s, v)
  {
    var l: nat :| l < |s2.dfn| && s2.dfn[l] == 0 && Sink(g, l) && l != v && Reach(g, v, l);
    assert s.dfn[l] == 0;
  }

  lemma NestedVia(g: Graph, s: State, v: nat, w: nat)
    requires v < |s.dfn| && s.dfn[v] != 0 && Edge(g, v, w) && w < |s.dfn| && s.dfn[w] == 0
    requires NestedSink(g, s, w)
    ensures NestedSink(g, s, v)
  {
    var l: nat :| l < |s.dfn| && s.dfn[l] == 0 && Sink(g, l) && l != w && Reach(g, w, l);
    ReachEdge(g, v, w);
    ReachTrans(g, v, w, l);
  }

  lemma {:induction false} EdgesCorrect(g: Graph, s: State, v: nat, i: nat, G: set<nat>)
    requires InProgress(g, s, v, i, G)
    ensures var r := VisitEdges(g, s, v, i);
            SpoiledInside(g, s, v, r) || (Inv(g, r, G + {v}) && EdgesVisited(g, s, v, r))
    decreases Unvisited(s), 1, |g[v]| - i
  {
    var r := VisitEdges(g, s, v, i);
    if i == |g[v]| {
      FreshSelf(g, s, v, v);
    } else {
      var w := g[v][i];
      assert Edge(g, v, w);
      if s.dfn[w] == 0 {
        EdgesStep(g, s, v, i, G, w);
      } else if s.dfn[w] < s.dfn[v] && s.comp[w] == 0 {
        var s2 := Lower(s, v, w);
        AfterLower(g, s, v, i, G, w);
        EdgesCorrect(g, s2, v, i + 1, G);
        FreshSelf(g, s, v, w);
        EdgesFinish(g, s, s2, v, r, G);
      } else {
        AfterSkip(g, s, v, i, G, w);
        EdgesCorrect(g, s, v, i + 1, G);
      }
    }
  }

  lemma EdgesFinish(g: Graph, s: State, s2: State, v: nat, r: State, G: set<nat>)
    requires Kept(s, s2, v) && Fresh(g, s, s2, v)
    requires SpoiledInside(g, s2, v, r) || (Inv(g, r, G + {v}) && EdgesVisited(g, s2, v, r))
    ensures SpoiledInside(g, s, v, r) || (Inv(g, r, G + {v}) && EdgesVisited(g, s, v, r))
  {
    if SpoiledInside(g, s2, v, r) {
      NestedBefore(g, s, s2, v);
    } else {
      EdgesCompose(g, s, s2, v, r);
    }
  }

  lemma {:induction false} EdgesStep(g: Graph, s: State, v: nat, i: nat, G: set<nat>, w: nat)
    requires InProgress(g, s, v, i, G)
    requires i < |g[v]| && w == g[v][i] && w < |s.dfn| && s.dfn[w] == 0
    ensures var r := VisitEdges(g, s, v, i);
            SpoiledInside(g, s, v, r) || (Inv(g, r, G + {v}) && EdgesVisited(g, s, v, r))
    decreases Unvisited(s), 1, |g[v]| - i, 0
  {
    var r := VisitEdges(g, s, v, i);
    var r1 := Visit(g, s, w);
    var s2 := Lower(r1, v, w);
    assert Edge(g, v, w);
    EdgeFromTop(g, s, v, i, G, w);
    VisitCorrect(g, s, w, G + {v});
    if SpoiledInside(g, s, w, r1) {
      StepSpoiled(g, s, v, i, G, w);
    } else {
      AfterVisit(g, s, v, i, G, w, r1);
      EdgesCorrect(g, s2, v, i + 1, G);
      StepKept(g, s, v, w, r1);
      EdgesFinish(g, s, s2, v, r, G);
    }
  }

  lemma StepKept(g: Graph, s: State, v: nat, w: nat, r1: State)
    requires v < |s.dfn| && Edge(g, v, w) && Visited(g, s, w, r1) && s.dfn[w] == 0
    ensures Kept(s, Lower(r1, v, w), v) && Fresh(g, s, Lower(r1, v, w), v)
  {
    FreshVia(g, s, v, w, r1);
    FreshSelf(g, r1, v, w);
    FreshTrans(g, s, r1, Lower(r1, v, w), v);
  }

  lemma StepSpoiled(g: Graph, s: State, v: nat, i: nat, G: set<nat>, w: nat)
    requires InProgress(g, s, v, i, G)
    requires i < |g[v]| && w == g[v][i] && w < |s.dfn| && s.dfn[w] == 0
    requires SpoiledInside(g, s, w, Visit(g, s, w))
    ensures SpoiledInside(g, s, v, VisitEdges(g, s, v, i))
  {
    var r1 := Visit(g, s, w);
    var s2 := Lower(r1, v, w);
    assert Edge(g, v, w);
    NestedVia(g, s, v, w);
    InProgressStack(g, s, v, i, G);
    VisitKeeps(g, s, w);
    EdgesKeep(g, s2, v, i + 1);
    SpoiledStays(g, r1, s2);
    SpoiledStays(g, s2, VisitEdges(g, s2, v, i + 1));
  }

  lemma EdgeFromTop(g: Graph, s: State, v: nat, i: nat, G: set<nat>, w: nat)
    requires InProgress(g, s, v, i, G) && Edge(g, v, w)
    ensures forall x: nat :: x in G + {v} ==> Reach(g, x, w)
  {
    ReachEdge(g, v, w);
    assert v in G + {v};
    forall x: nat | x in G + {v} ensures Reach(g, x, w) {
      assert Live(s, x) && s.dfn[x] <= s.dfn[v];
      assert Reach(g, x, v);
      ReachTrans(g, x, v, w);
    }
  }

  /** The edge loop of v seen from the state before v was opened. */
  lemma OpenedKept(g: Graph, s: State, v: nat, r: State)
    requires Shape(g, s) && v < |s.dfn| && s.dfn[v] == 0 && v in g && |g[v]| > 0
    requires EdgesVisited(g, Open(s, v), v, r)
    ensures Kept(s, r, v) && Fresh(g, s, r, v) && r.dfn[v] == s.nextDfn
    ensures r.pos[v] == |s.stack| && s.stack <= r.stack
  {
    var s1 := Open(s, v);
    ReachRefl(g, v);
    assert s1.dfn[v] == s.nextDfn;
    assert Unvisited(s1) <= Unvisited(s);
    assert s.stack <= s1.stack;
  }

  lemma EdgesReady(g: Graph, s: State, v: nat, r: State, G: set<nat>)
    requires Inv(g, s, G) && v < |s.dfn| && s.dfn[v] == 0
    requires Inv(g, r, G + {v}) && EdgesVisited(g, Open(s, v), v, r)
    ensures Ready(g, r, v, G)
  {
    assert v !in G;
    var s1 := Open(s, v);
    forall x: nat | x in G ensures r.dfn[x] < r.dfn[v] {
      assert Live(s, x) && s1.dfn[x] == s.dfn[x];
    }
    forall a: nat, b: nat | Live(r, a) && r.dfn[a] >= r.dfn[v] ensures Bound(g, r, v, a, b) {
      ReadyBound(g, r, v, a, b);
    }
    forall w: nat | Edge(g, v, w) ensures w < |r.dfn| && r.dfn[w] != 0 {
      var k :| 0 <= k < |g[v]| && g[v][k] == w;
    }
  }

  lemma ReadyBound(g: Graph, r: State, v: nat, a: nat, b: nat)
    requires Shape(g, r) && v in g && Live(r, v) && BoundUpTo(g, r, v, |g[v]|)
    requires Live(r, a) && r.dfn[a] >= r.dfn[v]
    ensures Bound(g, r, v, a, b)
  {
    if r.dfn[a] == r.dfn[v] {
      assert r.stack[r.pos[a]] == a && r.stack[r.pos[v]] == v;
      StackOrder(g, r, a, v);
      StackOrder(g, r, v, a);
      if Edge(g, v, b) {
        var k :| 0 <= k < |g[v]| && g[v][k] == b;
        assert Bound(g, r, v, v, g[v][k]);
      }
    }
  }

  lemma ClosedVisited(g: Graph, s: State, v: nat, r: State, c: State)
    requires Shape(g, s) && Shape(g, r) && v < |s.dfn| && s.dfn[v] == 0 && v in g && |g[v]| > 0
    requires Kept(s, r, v) && Fresh(g, s, r, v) && r.dfn[v] == s.nextDfn
    requires r.pos[v] == |s.stack| && s.stack <= r.stack && Live(r, v)
    requires r.low[v] == r.dfn[v]
    requires forall k | r.pos[v] <= k < |r.stack| :: Live(r, r.stack[k])
    requires c == Close(r, v)
    ensures Visited(g, s, v, c)
  {
    CloseShape(g, r, v);
    assert c.stack == s.stack;
    assert Unvisited(c) == Unvisited(r);
    forall u: nat | u < |s.dfn| && s.dfn[u] != 0 ensures c.comp[u] == s.comp[u] {
      assert s.dfn[u] < s.nextDfn;
    }
    forall u: nat | u < |s.dfn| && s.dfn[u] == 0 && c.dfn[u] != 0
      ensures c.dfn[u] >= s.nextDfn && Reach(g, v, u) && !Sink(g, u)
    {
      NewIsLive(g, s, v, r, u);
    }
    assert !Live(c, v);
  }

  lemma NewIsLive(g: Graph, s: State, v: nat, r: State, u: nat)
    requires Shape(g, s) && |s.dfn| == |r.dfn| && s.stack <= r.stack
    requires v < |r.pos| && r.pos[v] == |s.stack|
    requires forall k | r.pos[v] <= k < |r.stack| :: Live(r, r.stack[k])
    requires u < |s.dfn| && s.dfn[u] == 0
    ensures u in r.stack ==> Live(r, u)
  {
    if u in r.stack {
      var k :| 0 <= k < |r.stack| && r.stack[k] == u;
      NewOnTop(s, r, k);
    }
  }

  lemma CloseNested(g: Graph, s: State, v: nat, r: State, k: nat)
    requires Shape(g, s) && Shape(g, r) && v < |s.dfn| && s.dfn[v] == 0
    requires Kept(s, r, v) && Fresh(g, s, r, v) && r.dfn[v] == s.nextDfn && Live(r, v)
    requires r.pos[v] <= k < |r.stack| && !Live(r, r.stack[k])
    ensures NestedSink(g, s, v)
  {
    var l := r.stack[k];
    assert r.stack[r.pos[v]] == v;
    assert Sink(g, l) && r.dfn[l] >= s.nextDfn;
    assert s.dfn[l] < s.nextDfn;
  }

  lemma CloseCorrect(g: Graph, s: State, v: nat, r: State, G: set<nat>)
    requires Inv(g, s, G) && v < |s.dfn| && s.dfn[v] == 0 && |g[v]| > 0
    requires Inv(g, r, G + {v}) && EdgesVisited(g, Open(s, v), v, r)
    ensures var c := Close(r, v);
            SpoiledInside(g, s, v, c) || (Inv(g, c, G) && Visited(g, s, v, c))
  {
    var c := Close(r, v);
    OpenedKept(g, s, v, r);
    EdgesReady(g, s, v, r, G);
    if r.low[v] != r.dfn[v] {
      CloseKeeps(g, r, v, G);
    } else if k :| r.pos[v] <= k < |r.stack| && !Live(r, r.stack[k]) {
      CloseSpoils(g, r, v, k);
      CloseNested(g, s, v, r, k);
    } else {
      ClosePops(g, r, v, G);
      ClosedVisited(g, s, v, r, c);
    }
  }

  lemma CloseSpoiledInside(g: Graph, s: State, v: nat, r: State)
    requires Shape(g, s) && v < |s.dfn| && s.dfn[v] == 0
    requires Grew(Open(s, v), r) && StackVisited(r) && SpoiledInside(g, Open(s, v), v, r)
    ensures r.pos[v] <= |r.stack| && SpoiledInside(g, s, v, Close(r, v))
  {
    var s1 := Open(s, v);
    assert r.pos[v] == s1.pos[v] == |s.stack|;
    CloseSpoiled(g, r, v);
    var l: nat :| l < |s1.dfn| && s1.dfn[l] == 0 && Sink(g, l) && l != v && Reach(g, v, l);
    assert s.dfn[l] == 0;
  }

  lemma {:induction false} VisitCorrect(g: Graph, s: State, v: nat, G: set<nat>)
    requires Inv(g, s, G) && v < |s.dfn| && s.dfn[v] == 0
    requires forall x: nat :: x in G ==> Reach(g, x, v)
    ensures var r := Visit(g, s, v);
            SpoiledInside(g, s, v, r) || (Inv(g, r, G) && Visited(g, s, v, r))
    decreases Unvisited(s), 0, 0
  {
    if |g[v]| == 0 {
      SinkKeeps(g, s, v, G);
    } else {
      var s1 := Open(s, v);
      assert v in Unvisited(s) && v !in Unvisited(s1);
      OpenInProgress(g, s, v, G);
      EdgesCorrect(g, s1, v, 0, G);
      var r := VisitEdges(g, s1, v, 0);
      if SpoiledInside(g, s1, v, r) {
        InProgressStack(g, s1, v, 0, G);
        EdgesKeep(g, s1, v, 0);
        CloseSpoiledInside(g, s, v, r);
      } else {
        CloseCorrect(g, s, v, r, G);
      }
    }
  }

  lemma OpenInProgress(g: Graph, s: State, v: nat, G: set<nat>)
    requires Inv(g, s, G) && v < |s.dfn| && s.dfn[v] == 0
    requires forall x: nat :: x in G ==> Reach(g, x, v)
    ensures InProgress(g, Open(s, v), v, 0, G)
  {
    OpenKeeps(g, s, v, G);
    OpenIsOneMore(g, s, v);
  }

  // ------------------------------------------------------------------
  // The driver loop.

  /** Some node below i reaches a sink with a higher number. */
  ghost predicate SinkAhead(g: Graph, i: nat) {
    exists k: nat, l: nat :: k < i && k < l && Sink(g, l) && Reach(g, k, l)
  }

  ghost predicate Rooted(g: Graph, s: State, i: nat, u: nat) {
    exists k: nat :: k < i && k < |s.dfn| && Reach(g, k, u)
  }

  ghost predicate Driven(g: Graph, s: State, i: nat) {
    && i <= |s.dfn|
    && Numbered(g, |s.dfn|)
    && StackVisited(s)
    && (if SinkAhead(g, i) then Spoiled(g, s)
        else
          && Inv(g, s, {})
          && (forall j | 0 <= j < i :: s.dfn[j] != 0)
          && (forall u: nat | u < |s.dfn| && s.dfn[u] != 0 :: Rooted(g, s, i, u)))
  }

  lemma VisitedClosed(g: Graph, s: State, u: nat, w: nat)
    requires Numbered(g, |s.dfn|) && NoLeak(g, s, {})
    requires u < |s.dfn| && s.dfn[u] != 0 && Reach(g, u, w)
    ensures w < |s.dfn| && s.dfn[w] != 0
  {
    var S := set x: nat | x < |s.dfn| && s.dfn[x] != 0;
    assert ClosedSet(g, S);
    ReachStays(g, S, u, w);
  }

  lemma NothingLive(g: Graph, s: State, u: nat)
    requires Inv(g, s, {})
    ensures !Live(s, u)
  {
    assert Live(s, u) ==> HasGray(g, s, {}, u);
  }

  /** A finished root call leaves no newly visited sink besides itself. */
  lemma NoNewSink(g: Graph, s: State, i: nat, r: State, l: nat)
    requires StackVisited(s) && Visited(g, s, i, r) && !Live(r, i)
    requires Sink(g, l) && l != i && l < |s.dfn| && s.dfn[l] == 0
    ensures r.dfn[l] == 0
  {
    assert l !in s.stack;
  }

  lemma NotReached(g: Graph, s: State, i: nat, r: State, l: nat)
    requires Numbered(g, |r.dfn|) && NoLeak(g, r, {}) && i < |r.dfn| && r.dfn[i] != 0
    requires !SinkAhead(g, i) && Sink(g, l) && i < l < |s.dfn| && |s.dfn| == |r.dfn|
    requires if s.dfn[l] != 0 then Rooted(g, s, i, l) else r.dfn[l] == 0
    ensures !Reach(g, i, l)
  {
    if Reach(g, i, l) {
      VisitedClosed(g, r, i, l);
    }
  }

  /** A higher-numbered sink that i reaches is first visited inside a root call. */
  lemma NoSinkAhead(g: Graph, s: State, i: nat, r: State)
    requires Driven(g, s, i) && i < |s.dfn| && !SinkAhead(g, i)
    requires Inv(g, r, {}) && Grew(s, r) && r.dfn[i] != 0
    requires if s.dfn[i] != 0 then r == s else Visited(g, s, i, r)
    ensures !SinkAhead(g, i + 1)
  {
    NothingLive(g, r, i);
    forall l: nat | Sink(g, l) && i < l ensures !Reach(g, i, l) {
      if s.dfn[l] != 0 {
        assert Rooted(g, s, i, l);
      } else if s.dfn[i] == 0 {
        NoNewSink(g, s, i, r, l);
      }
      NotReached(g, s, i, r, l);
    }
  }

  lemma RootedStep(g: Graph, s: State, i: nat, r: State)
    requires i < |s.dfn| && s.dfn[i] == 0 && Visited(g, s, i, r)
    requires forall u: nat | u < |s.dfn| && s.dfn[u] != 0 :: Rooted(g, s, i, u)
    ensures forall u: nat | u < |r.dfn| && r.dfn[u] != 0 :: Rooted(g, r, i + 1, u)
  {
    forall u: nat | u < |r.dfn| && r.dfn[u] != 0 ensures Rooted(g, r, i + 1, u) {
      if s.dfn[u] != 0 {
        assert Rooted(g, s, i, u);
        var k: nat :| k < i && k < |s.dfn| && Reach(g, k, u);
        assert k < i + 1;
      } else {
        assert Reach(g, i, u);
      }
    }
  }

  lemma DriveStep(g: Graph, s: State, i: nat)
    requires Sized(|s.dfn|, s) && Driven(g, s, i) && i < |s.dfn|
    ensures Driven(g, Round(g, s, i), i + 1)
  {
    var r := Round(g, s, i);
    if s.dfn[i] == 0 {
      VisitKeeps(g, s, i);
    }
    if SinkAhead(g, i) {
      var k: nat, l: nat :| k < i && k < l && Sink(g, l) && Reach(g, k, l);
      assert k < i + 1;
      if s.dfn[i] == 0 {
        SpoiledStays(g, s, r);
      }
    } else if s.dfn[i] == 0 {
      VisitCorrect(g, s, i, {});
      if SpoiledInside(g, s, i, r) {
        var l: nat :| l < |s.dfn| && s.dfn[l] == 0 && Sink(g, l) && l != i && Reach(g, i, l);
        assert i < l;
      } else {
        NoSinkAhead(g, s, i, r);
        RootedStep(g, s, i, r);
      }
    } else {
      NoSinkAhead(g, s, i, r);
      forall u: nat | u < |r.dfn| && r.dfn[u] != 0 ensures Rooted(g, r, i + 1, u) {
        assert Rooted(g, s, i, u);
      }
    }
  }

  ghost predicate Preserved(g: Graph, n: nat, P: (State, nat) -> bool)
    requires Numbered(g, n)
  {
    forall t: State, j: nat | |t.dfn| == n && Sized(n, t) && j < n && P(t, j) :: P(Round(g, t, j), j + 1)
  }

  /** What every round keeps holds after the loop. */
  lemma {:induction false} DriveInduction(g: Graph, s: State, i: nat, P: (State, nat) -> bool)
    requires Numbered(g, |s.dfn|) && Sized(|s.dfn|, s) && i <= |s.dfn| && P(s, i)
    requires Preserved(g, |s.dfn|, P)
    ensures P(Drive(g, s, i), |s.dfn|)
    decreases |s.dfn| - i
  {
    if i < |s.dfn| {
      DriveInduction(g, Round(g, s, i), i + 1, P);
    }
  }

  lemma InitDriven(g: Graph, n: nat)
    requires Numbered(g, n)
    ensures Driven(g, Init(n), 0)
  {
  }

  /** Two nodes get the same label exactly when each reaches the other. */
  ghost predicate LabelsComponents(g: Graph, comp: seq<nat>) {
    forall u: nat, v: nat :: u < |comp| && v < |comp| ==> (comp[u] == comp[v] <==> Mutual(g, u, v))
  }

  lemma SpoiledIsWrong(g: Graph, s: State)
    requires Spoiled(g, s)
    ensures !LabelsComponents(g, s.comp)
  {
    var l, x :| SpoiledBy(g, s, l, x);
    if Mutual(g, l, x) {
      SinkReach(g, l, x);
    }
  }

  /** Main result: the labels are the strongly connected components if and only if
      no node reaches a higher-numbered node without out-edges. */
  lemma SccLabelling(g: Graph, n: nat)
    requires Numbered(g, n)
    ensures LabelsComponents(g, Drive(g, Init(n), 0).comp) <==> !SinkAhead(g, n)
  {
    var f := Drive(g, Init(n), 0);
    DriveCorrect(g, n);
    DrivenLabels(g, f);
  }

  lemma DrivenPreserved(g: Graph, n: nat, P: (State, nat) -> bool)
    requires Numbered(g, n)
    requires forall t: State, j: nat :: P(t, j) == Driven(g, t, j)
    ensures Preserved(g, n, P)
  {
    forall t: State, j: nat | |t.dfn| == n && Sized(n, t) && j < n && P(t, j) ensures P(Round(g, t, j), j + 1) {
      DriveStep(g, t, j);
    }
  }

  lemma DriveCorrect(g: Graph, n: nat)
    requires Numbered(g, n)
    ensures Driven(g, Drive(g, Init(n), 0), n)
  {
    var P := (t: State, j: nat) => Driven(g, t, j);
    InitDriven(g, n);
    DrivenPreserved(g, n, P);
    DriveInduction(g, Init(n), 0, P);
  }

  lemma DrivenLabels(g: Graph, f: State)
    requires Driven(g, f, |f.dfn|)
    ensures LabelsComponents(g, f.comp) <==> !SinkAhead(g, |f.dfn|)
  {
    if SinkAhead(g, |f.dfn|) {
      SpoiledIsWrong(g, f);
    } else {
      forall u: nat, v: nat | u < |f.comp| && v < |f.comp| ensures f.comp[u] == f.comp[v] <==> Mutual(g, u, v) {
        NothingLive(g, f, u);
        assert f.comp[u] != 0;
      }
    }
  }

  /** In particular the labels are right when every node has an out-edge. */
  lemma SccLabellingWithoutSinks(g: Graph, n: nat)
    requires Numbered(g, n) && forall u: nat :: u in g ==> g[u] != []
    ensures LabelsComponents(g, Drive(g, Init(n), 0).comp)
  {
    SccLabelling(g, n);
  }

  /** The single edge 0 -> 1 is already labelled wrongly. */
  lemma SinkMislabelled()
    ensures var g: Graph := map[0 := [1], 1 := []];
            Numbered(g, 2) && !LabelsComponents(g, Drive(g, Init(2), 0).comp)
  {
    var g: Graph := map[0 := [1], 1 := []];
    assert Edge(g, 0, 1);
    assert forall u: nat :: u in g <==> u < 2;
    ReachEdge(g, 0, 1);
    assert Sink(g, 1);
    SccLabelling(g, 2);
  }
}
