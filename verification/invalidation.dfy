/** Invalidation and "nothing changed" propagation: what a whole pass does to the
    counters and flags, on values. */
module InvalidationFacts {
  import opened Graphs
  import opened Sequences

  /** A path whose nodes after the first are all outside D. */
  ghost predicate AvoidingPath(g: Graph, D: set<nat>, p: seq<nat>) {
    Path(g, p) && forall k | 1 <= k < |p| :: p[k] !in D
  }

  ghost predicate ReachAvoiding(g: Graph, D: set<nat>, u: nat, v: nat) {
    exists p :: AvoidingPath(g, D, p) && p[0] == u && p[|p| - 1] == v
  }

  lemma AvoidRefl(g: Graph, D: set<nat>, u: nat)
    ensures ReachAvoiding(g, D, u, u)
  {
    assert AvoidingPath(g, D, [u]);
  }

  lemma AvoidExtend(g: Graph, D: set<nat>, u: nat, v: nat, w: nat)
    requires ReachAvoiding(g, D, u, v) && Edge(g, v, w) && w !in D
    ensures ReachAvoiding(g, D, u, w)
  {
    var p :| AvoidingPath(g, D, p) && p[0] == u && p[|p| - 1] == v;
    var q := p + [w];
    forall k | 0 <= k < |q| - 1 ensures Edge(g, q[k], q[k + 1]) {
      if k < |p| - 1 {
        assert Edge(g, p[k], p[k + 1]);
      }
    }
    assert AvoidingPath(g, D, q) && q[|q| - 1] == w;
  }

  /** A set containing u and closed under edges to nodes outside D contains all of them. */
  lemma AvoidStays(g: Graph, D: set<nat>, S: set<nat>, u: nat, v: nat)
    requires ReachAvoiding(g, D, u, v) && u in S
    requires forall a: nat, b: nat :: a in S && Edge(g, a, b) && b !in D ==> b in S
    ensures v in S
  {
    var p :| AvoidingPath(g, D, p) && p[0] == u && p[|p| - 1] == v;
    var k := 0;
    while k < |p| - 1
      invariant 0 <= k < |p|
      invariant p[k] in S
    {
      assert Edge(g, p[k], p[k + 1]);
      k := k + 1;
    }
  }

  /** Where D is closed under edges, avoiding it costs nothing. */
  lemma AvoidForwardClosed(g: Graph, D: set<nat>, u: nat, v: nat)
    requires ClosedSet(g, D) && u !in D
    ensures ReachAvoiding(g, D, u, v) <==> Reach(g, u, v) && v !in D
  {
    if ReachAvoiding(g, D, u, v) {
      var p :| AvoidingPath(g, D, p) && p[0] == u && p[|p| - 1] == v;
      assert p[|p| - 1] !in D;
    }
    if Reach(g, u, v) && v !in D {
      var p :| Path(g, p) && p[0] == u && p[|p| - 1] == v;
      forall k | 1 <= k < |p| ensures p[k] !in D {
        PathSuffix(g, p, k);
        if p[k] in D {
          ReachStays(g, D, p[k], v);
        }
      }
      assert AvoidingPath(g, D, p);
    }
  }

  lemma PathSuffix(g: Graph, p: seq<nat>, k: nat)
    requires Path(g, p) && k < |p|
    ensures Reach(g, p[k], p[|p| - 1])
  {
    var q := p[k..];
    forall j | 0 <= j < |q| - 1 ensures Edge(g, q[j], q[j + 1]) {
      assert Edge(g, p[k + j], p[k + j + 1]);
    }
    assert Path(g, q) && q[0] == p[k] && q[|q| - 1] == p[|p| - 1];
  }

  /** The predecessors of n within S. */
  ghost function Preds(g: Graph, S: set<nat>, n: nat): set<nat> {
    set p | p in S && Edge(g, p, n)
  }

  /** The nodes newly invalidated when r is invalidated. */
  ghost predicate Invalid(g: Graph, D: set<nat>, r: nat, N: set<nat>) {
    forall n: nat :: n in N <==> ReachAvoiding(g, D, r, n)
  }

  /** What invalidating r does: exactly the nodes reachable without passing through a
      deleted node become deleted, and every node counts its newly invalid predecessors. */
  ghost predicate Invalidated(g: Graph, leaves: set<nat>, r: nat, N: set<nat>,
                              D0: set<nat>, fc0: map<nat, nat>, D1: set<nat>, fc1: map<nat, nat>)
  {
    && Invalid(g, D0, r, N)
    && D1 == D0 + (if r in leaves then N - {r} else N)
    && fc1.Keys == fc0.Keys
    && forall n: nat :: n in fc0 ==> fc1[n] == fc0[n] + (if n == r then 1 else 0) + |Preds(g, N, n)|
  }

  /** Invalidation with a forward-closed deleted set adds exactly the reachable nodes, and the counters grow
      by the predecessors among the new ones. The set stays forward-closed exactly if r is flagged or
      nothing flagged leads to r. */
  lemma ExactInvalidation(g: Graph, leaves: set<nat>, r: nat, N: set<nat>,
                          D0: set<nat>, fc0: map<nat, nat>, D1: set<nat>, fc1: map<nat, nat>)
    requires Invalidated(g, leaves, r, N, D0, fc0, D1, fc1)
    requires ClosedSet(g, D0) && r !in D0
    ensures forall n: nat :: n in D1 <==> n in D0 || (Reach(g, r, n) && !(n == r && r in leaves))
    ensures forall n: nat :: n in fc0 ==> fc1[n] == fc0[n] + (if n == r then 1 else 0) + |Preds(g, D1 - D0 + {r}, n)|
    ensures ClosedSet(g, D1) <==> r !in leaves || forall u: nat | u in D1 :: !Edge(g, u, r)
  {
    forall n: nat ensures n in N <==> Reach(g, r, n) && n !in D0 {
      AvoidForwardClosed(g, D0, r, n);
    }
    ReachRefl(g, r);
    assert N == D1 - D0 + {r};
    forall u: nat, v: nat | u in D1 && Edge(g, u, v) ensures v in D1 || (v == r && r in leaves) {
      if u !in D0 {
        ReachEdge(g, u, v);
        ReachTrans(g, r, u, v);
      }
    }
  }

  /** Nothing depends on what no edge leads to: leaves are only invalidated from outside. */
  ghost predicate NoEdgeToLeaf(g: Graph, leaves: set<nat>) {
    forall u: nat, v: nat :: Edge(g, u, v) ==> v !in leaves
  }

  /** One call: nothing happens for a node already flagged. */
  ghost predicate InvalidationStep(g: Graph, leaves: set<nat>, r: nat, D0: set<nat>, fc0: map<nat, nat>, D1: set<nat>,
                                   fc1: map<nat, nat>)
  {
    if r in D0 then D1 == D0 && fc1 == fc0
    else exists N :: Invalidated(g, leaves, r, N, D0, fc0, D1, fc1)
  }

  /** The flags and counters before each of the calls for rs and after the last one. */
  ghost predicate InvalidationRun(g: Graph, leaves: set<nat>, rs: seq<nat>, Ds: seq<set<nat>>, fcs: seq<map<nat, nat>>)
  {
    && |Ds| == |fcs| == |rs| + 1
    && forall i: nat | i < |rs| :: InvalidationStep(g, leaves, rs[i], Ds[i], fcs[i], Ds[i + 1], fcs[i + 1])
  }

  ghost predicate ReachedFrom(g: Graph, rs: seq<nat>, n: nat) {
    exists r :: r in rs && Reach(g, r, n)
  }

  /** After any number of invalidations exactly what is reachable from the invalidated nodes is
      flagged besides what was. */
  lemma {:induction false} RepeatedInvalidation(g: Graph, leaves: set<nat>, rs: seq<nat>, Ds: seq<set<nat>>,
                                                fcs: seq<map<nat, nat>>)
    requires InvalidationRun(g, leaves, rs, Ds, fcs) && ClosedSet(g, Ds[0]) && NoEdgeToLeaf(g, leaves)
    ensures ClosedSet(g, Ds[|rs|])
    ensures forall n: nat | n !in leaves :: n in Ds[|rs|] <==> n in Ds[0] || ReachedFrom(g, rs, n)
    ensures forall n: nat | n in leaves :: n in Ds[|rs|] <==> n in Ds[0]
  {
    if rs != [] {
      var k := |rs| - 1;
      RepeatedInvalidation(g, leaves, rs[..k], Ds[..k + 1], fcs[..k + 1]);
      assert InvalidationStep(g, leaves, rs[k], Ds[k], fcs[k], Ds[k + 1], fcs[k + 1]);
      FlaggedByOne(g, leaves, rs[k], Ds[k], fcs[k], Ds[k + 1], fcs[k + 1]);
      assert rs == rs[..k] + [rs[k]];
      forall n: nat ensures ReachedFrom(g, rs, n) <==> ReachedFrom(g, rs[..k], n) || Reach(g, rs[k], n) {
      }
    }
  }

  lemma FlaggedByOne(g: Graph, leaves: set<nat>, r: nat, D0: set<nat>, fc0: map<nat, nat>, D1: set<nat>,
                     fc1: map<nat, nat>)
    requires InvalidationStep(g, leaves, r, D0, fc0, D1, fc1) && ClosedSet(g, D0) && NoEdgeToLeaf(g, leaves)
    ensures ClosedSet(g, D1)
    ensures forall n: nat | n !in leaves :: n in D1 <==> n in D0 || Reach(g, r, n)
    ensures forall n: nat | n in leaves :: n in D1 <==> n in D0
  {
    if r in D0 {
      forall n: nat | Reach(g, r, n) ensures n in D0 {
        ReachStays(g, D0, r, n);
      }
    } else {
      var N :| Invalidated(g, leaves, r, N, D0, fc0, D1, fc1);
      ExactInvalidation(g, leaves, r, N, D0, fc0, D1, fc1);
      forall n: nat | Reach(g, r, n) && n in leaves ensures n == r {
        LastEdge(g, r, n);
      }
    }
  }

  lemma LastEdge(g: Graph, u: nat, v: nat)
    requires Reach(g, u, v)
    ensures u == v || exists w: nat :: Edge(g, w, v)
  {
    var p :| Path(g, p) && p[0] == u && p[|p| - 1] == v;
    if |p| > 1 {
      assert Edge(g, p[|p| - 2], p[|p| - 1]);
    }
  }

  // ------------------------------------------------------------------

  function Monus(a: nat, k: nat): nat {
    if k >= a then 0 else a - k
  }

  /** How often n is told that a predecessor did not change, when c and the nodes of Z are. */
  ghost function Hits(g: Graph, c: nat, Z: set<nat>, n: nat): nat {
    (if Edge(g, c, n) then 1 else 0) + |Preds(g, Z, n)|
  }

  /** order lists the revalidated nodes; each is paid for by c and the nodes before it. */
  ghost predicate Causal(g: Graph, c: nat, fc0: map<nat, nat>, order: seq<nat>) {
    NoDup(order) && forall j | 0 <= j < |order| :: PaidAt(g, c, fc0, order, j)
  }

  ghost predicate PaidAt(g: Graph, c: nat, fc0: map<nat, nat>, order: seq<nat>, j: nat)
    requires j < |order|
  {
    order[j] in fc0 && 0 < fc0[order[j]] <= Hits(g, c, Elements(order[..j]), order[j])
  }

  /** What propagating "c did not change" does to the counters. */
  ghost predicate Propagated(g: Graph, c: nat, order: seq<nat>, fc0: map<nat, nat>, fc1: map<nat, nat>) {
    && fc1.Keys == fc0.Keys
    && Causal(g, c, fc0, order)
    && (forall n: nat :: n in fc0 ==> fc1[n] == Monus(fc0[n], Hits(g, c, Elements(order), n)))
    && (forall n: nat :: n in fc0 ==> (n in Elements(order) <==> fc0[n] > 0 && fc1[n] == 0))
  }

  ghost predicate Acyclic(g: Graph) {
    exists rank: map<nat, nat> :: Ranks(g, rank)
  }

  ghost predicate Ranks(g: Graph, rank: map<nat, nat>) {
    forall u: nat, v: nat :: Edge(g, u, v) ==> u in rank && v in rank && rank[u] < rank[v]
  }

  lemma RankedReach(g: Graph, rank: map<nat, nat>, u: nat, v: nat)
    requires Ranks(g, rank) && Reach(g, u, v) && u != v
    ensures u in rank && v in rank && rank[u] < rank[v]
  {
    var p :| Path(g, p) && p[0] == u && p[|p| - 1] == v;
    var k := 1;
    assert Edge(g, p[0], p[1]);
    while k < |p| - 1
      invariant 1 <= k < |p|
      invariant u in rank && p[k] in rank && rank[u] < rank[p[k]]
    {
      assert Edge(g, p[k], p[k + 1]);
      k := k + 1;
    }
  }

  lemma AcyclicNoCycle(g: Graph, u: nat, v: nat)
    requires Acyclic(g) && Edge(g, u, v)
    ensures !Reach(g, v, u)
  {
    var rank: map<nat, nat> :| Ranks(g, rank);
    if Reach(g, v, u) && u != v {
      RankedReach(g, rank, v, u);
    }
  }

  /** The j-th revalidated node is invalid, not r, and all its invalid predecessors come before it. */
  ghost predicate PaidFor(g: Graph, r: nat, N: set<nat>, order: seq<nat>, j: nat)
    requires j < |order|
  {
    order[j] in N && order[j] != r && Preds(g, N, order[j]) <= Elements(order[..j]) + {r}
  }

  /** A node is revalidated only after all its invalid predecessors; r never is. Any graph. */
  lemma RevalidatedAfterPredecessors(g: Graph, leaves: set<nat>, r: nat, N: set<nat>,
                                     fc0: map<nat, nat>, D1: set<nat>, fc1: map<nat, nat>,
                                     order: seq<nat>, fc2: map<nat, nat>)
    requires Invalidated(g, leaves, r, N, {}, fc0, D1, fc1)
    requires Propagated(g, r, order, fc1, fc2)
    requires forall n: nat :: n in fc0 ==> fc0[n] == 0
    ensures forall j | 0 <= j < |order| :: PaidFor(g, r, N, order, j)
  {
    AvoidRefl(g, {}, r);
    forall u: nat, v: nat | u in N && Edge(g, u, v) ensures v in N {
      AvoidExtend(g, {}, r, u, v);
    }
    PaidInduction(g, r, N, fc1, order, |order|);
  }

  lemma {:induction false} PaidInduction(g: Graph, r: nat, N: set<nat>, fc1: map<nat, nat>, order: seq<nat>, m: nat)
    requires Causal(g, r, fc1, order) && m <= |order| && r in N && ClosedSet(g, N)
    requires forall n: nat :: n in fc1 ==> fc1[n] == (if n == r then 1 else 0) + |Preds(g, N, n)|
    ensures forall j | 0 <= j < m :: PaidFor(g, r, N, order, j)
  {
    if m > 0 {
      PaidInduction(g, r, N, fc1, order, m - 1);
      PaidByPredecessors(g, r, N, fc1, order, m - 1);
    }
  }

  lemma PaidByPredecessors(g: Graph, r: nat, N: set<nat>, fc1: map<nat, nat>, order: seq<nat>, j: nat)
    requires Causal(g, r, fc1, order) && j < |order| && r in N && ClosedSet(g, N)
    requires forall n: nat :: n in fc1 ==> fc1[n] == (if n == r then 1 else 0) + |Preds(g, N, n)|
    requires forall i | 0 <= i < j :: PaidFor(g, r, N, order, i)
    ensures PaidFor(g, r, N, order, j)
  {
    assert PaidAt(g, r, fc1, order, j);
    var z, before := order[j], Elements(order[..j]);
    var mine := Preds(g, N, z);
    var paid := Preds(g, before, z) + (if Edge(g, r, z) then {r} else {});
    forall u | u in before ensures u in N && u != r {
      var i :| 0 <= i < j && order[i] == u;
      assert PaidFor(g, r, N, order, i);
    }
    assert Preds(g, before, z) !! (if Edge(g, r, z) then {r} else {});
    assert |paid| == Hits(g, r, before, z);
    assert paid <= mine;
    SubsetSize(paid, mine);
    if mine != {} {
      var p :| p in mine;
      assert Edge(g, p, z);
    }
  }

  // ------------------------------------------------------------------
  // Undo: invalidate, then report that nothing changed.

  ghost predicate RanksWithin(g: Graph, S: set<nat>, rank: map<nat, nat>) {
    && S <= rank.Keys
    && forall u: nat, v: nat :: u in S && v in S && Edge(g, u, v) ==> rank[u] < rank[v]
  }

  /** No cycle runs through S alone. */
  ghost predicate AcyclicWithin(g: Graph, S: set<nat>) {
    exists rank: map<nat, nat> :: RanksWithin(g, S, rank)
  }

  lemma InvalidHasPred(g: Graph, r: nat, N: set<nat>, n: nat)
    requires Invalid(g, {}, r, N) && n in N && n != r
    ensures Preds(g, N, n) != {}
  {
    var p :| AvoidingPath(g, {}, p) && p[0] == r && p[|p| - 1] == n;
    var q := p[..|p| - 1];
    forall k | 0 <= k < |q| - 1 ensures Edge(g, q[k], q[k + 1]) {
      assert Edge(g, p[k], p[k + 1]);
    }
    assert AvoidingPath(g, {}, q) && q[0] == r;
    assert ReachAvoiding(g, {}, r, q[|q| - 1]);
    assert Edge(g, p[|p| - 2], p[|p| - 1]);
    assert q[|q| - 1] in Preds(g, N, n);
  }

  ghost predicate Undone(r: nat, fc: map<nat, nat>) {
    forall n: nat :: n in fc && n != r ==> fc[n] == 0
  }

  /** A node whose invalid predecessors were all revalidated is revalidated. */
  lemma PaidOff(g: Graph, r: nat, N: set<nat>, fc1: map<nat, nat>, order: seq<nat>, fc2: map<nat, nat>, n: nat)
    requires Invalid(g, {}, r, N) && Propagated(g, r, order, fc1, fc2) && r !in Elements(order)
    requires n in N && n != r && n in fc1 && fc1[n] == |Preds(g, N, n)|
    requires Preds(g, N, n) <= Elements(order) + {r}
    ensures n in Elements(order)
  {
    var Z := Elements(order);
    InvalidHasPred(g, r, N, n);
    assert |Preds(g, N, n)| > 0;
    var own: set<nat> := if Edge(g, r, n) then {r} else {};
    assert Preds(g, N, n) <= Preds(g, Z, n) + own;
    SubsetSize(Preds(g, N, n), Preds(g, Z, n) + own);
    DisjointSize(Preds(g, Z, n), own);
    assert Hits(g, r, Z, n) >= fc1[n];
  }

  lemma {:induction false} AcyclicPaysAll(g: Graph, r: nat, N: set<nat>, rank: map<nat, nat>,
                                          fc1: map<nat, nat>, order: seq<nat>, fc2: map<nat, nat>, n: nat)
    requires Invalid(g, {}, r, N) && Propagated(g, r, order, fc1, fc2) && r !in Elements(order)
    requires N <= fc1.Keys && forall m: nat :: m in N && m != r ==> fc1[m] == |Preds(g, N, m)|
    requires RanksWithin(g, N - {r}, rank) && n in N - {r}
    ensures n in Elements(order)
    decreases rank[n]
  {
    forall p | p in Preds(g, N, n) && p != r ensures p in Elements(order) {
      AcyclicPaysAll(g, r, N, rank, fc1, order, fc2, p);
    }
    PaidOff(g, r, N, fc1, order, fc2, n);
  }

  function Positions(order: seq<nat>): (m: map<nat, nat>)
    ensures m.Keys == Elements(order)
    ensures forall x | x in m :: m[x] < |order| && order[m[x]] == x
  {
    if order == [] then map[]
    else
      var last := |order| - 1;
      assert Elements(order) == Elements(order[..last]) + {order[last]} by {
        assert order == order[..last] + [order[last]];
      }
      Positions(order[..last])[order[last] := last]
  }

  lemma OrderRanks(g: Graph, r: nat, N: set<nat>, order: seq<nat>)
    requires NoDup(order) && forall j | 0 <= j < |order| :: PaidFor(g, r, N, order, j)
    requires N - {r} <= Elements(order)
    ensures RanksWithin(g, N - {r}, Positions(order))
  {
    var rank := Positions(order);
    forall u: nat, v: nat | u in N - {r} && v in N - {r} && Edge(g, u, v) ensures rank[u] < rank[v] {
      assert PaidFor(g, r, N, order, rank[v]);
      assert u in Preds(g, N, v);
      var i :| 0 <= i < rank[v] && order[i] == u;
    }
  }

  /** Main result. Starting clean, reporting r unchanged clears every other node again
      exactly when no cycle runs through the invalidated nodes other than r. */
  lemma UndoExactly(g: Graph, leaves: set<nat>, r: nat, N: set<nat>,
                    fc0: map<nat, nat>, D1: set<nat>, fc1: map<nat, nat>,
                    order: seq<nat>, fc2: map<nat, nat>)
    requires Invalidated(g, leaves, r, N, {}, fc0, D1, fc1)
    requires Propagated(g, r, order, fc1, fc2)
    requires forall n: nat :: n in fc0 ==> fc0[n] == 0
    requires N <= fc0.Keys
    ensures Undone(r, fc2) <==> AcyclicWithin(g, N - {r})
    ensures Undone(r, fc2) <==> Elements(order) == N - {r}
  {
    RevalidatedAfterPredecessors(g, leaves, r, N, fc0, D1, fc1, order, fc2);
    OnlyInvalid(g, r, N, order);
    if Undone(r, fc2) {
      forall n: nat | n in N - {r} ensures n in Elements(order) {
        InvalidHasPred(g, r, N, n);
        assert |Preds(g, N, n)| > 0;
      }
    }
    if Elements(order) == N - {r} {
      OrderRanks(g, r, N, order);
      NotInvalidZero(g, leaves, r, N, fc0, D1, fc1, order, fc2);
    }
    if AcyclicWithin(g, N - {r}) {
      var rank: map<nat, nat> :| RanksWithin(g, N - {r}, rank);
      forall n: nat | n in N - {r} ensures n in Elements(order) {
        AcyclicPaysAll(g, r, N, rank, fc1, order, fc2, n);
      }
    }
  }

  /** 0 -> 1, 1 -> 2, 2 -> 1. */
  function CyclicGraph(): Graph {
    map[0 := [1], 1 := [2], 2 := [1]]
  }

  lemma CyclicEdges()
    ensures forall u: nat, v: nat :: Edge(CyclicGraph(), u, v) <==>
            (u == 0 && v == 1) || (u == 1 && v == 2) || (u == 2 && v == 1)
  {
    var g := CyclicGraph();
    assert g[0] == [1] && g[1] == [2] && g[2] == [1];
  }

  lemma CyclicInvalid()
    ensures Invalid(CyclicGraph(), {}, 0, {0, 1, 2})
    ensures Preds(CyclicGraph(), {0, 1, 2}, 0) == {} && Preds(CyclicGraph(), {0, 1, 2}, 1) == {0, 2}
    ensures Preds(CyclicGraph(), {0, 1, 2}, 2) == {1}
  {
    var g := CyclicGraph();
    CyclicEdges();
    hide CyclicGraph, Edge, ReachAvoiding;
    AvoidRefl(g, {}, 0);
    AvoidExtend(g, {}, 0, 0, 1);
    AvoidExtend(g, {}, 0, 1, 2);
    forall n: nat | ReachAvoiding(g, {}, 0, n) ensures n in {0, 1, 2} {
      AvoidStays(g, {}, {0, 1, 2}, 0, n);
    }
  }

  lemma CyclicHits()
    ensures Elements<nat>([]) == {} && NoDup<nat>([])
    ensures forall n: nat :: Hits(CyclicGraph(), 0, {}, n) == if n == 1 then 1 else 0
  {
    CyclicEdges();
    hide CyclicGraph, Edge;
    assert forall n: nat :: Preds(CyclicGraph(), {}, n) == {};
  }

  /** On a graph where 1 and 2 depend on each other, 1 keeps its invalid predecessor 2 and nothing is revalidated. */
  lemma CycleNotUndone(clean: map<nat, nat>, fc1: map<nat, nat>, fc2: map<nat, nat>)
    requires clean == map[0 := 0, 1 := 0, 2 := 0] && fc1 == map[0 := 1, 1 := 2, 2 := 1]
             && fc2 == map[0 := 1, 1 := 1, 2 := 1]
    ensures Invalidated(CyclicGraph(), {}, 0, {0, 1, 2}, {}, clean, {0, 1, 2}, fc1)
    ensures Propagated(CyclicGraph(), 0, [], fc1, fc2) && !Undone(0, fc2) && !AcyclicWithin(CyclicGraph(), {1, 2})
  {
    var g, N: set<nat> := CyclicGraph(), {0, 1, 2};
    CyclicEdges();
    CyclicInvalid();
    hide CyclicGraph, Edge, Invalid, AcyclicWithin, NoDup;
    CyclicHits();
    hide Preds;
    assert Invalidated(g, {}, 0, N, {}, clean, N, fc1);
    hide Invalidated;
    assert Propagated(g, 0, [], fc1, fc2) by {
      hide Hits;
    }
    hide Propagated;
    assert fc2[1] != 0;
    UndoExactly(g, {}, 0, N, clean, N, fc1, [], fc2);
    assert N - {0} == {1, 2};
  }

  lemma OnlyInvalid(g: Graph, r: nat, N: set<nat>, order: seq<nat>)
    requires forall j | 0 <= j < |order| :: PaidFor(g, r, N, order, j)
    ensures Elements(order) <= N - {r}
  {
    forall x | x in Elements(order) ensures x in N - {r} {
      var j :| 0 <= j < |order| && order[j] == x;
      assert PaidFor(g, r, N, order, j);
    }
  }

  lemma NotInvalidZero(g: Graph, leaves: set<nat>, r: nat, N: set<nat>,
                       fc0: map<nat, nat>, D1: set<nat>, fc1: map<nat, nat>, order: seq<nat>, fc2: map<nat, nat>)
    requires Invalidated(g, leaves, r, N, {}, fc0, D1, fc1)
    requires Propagated(g, r, order, fc1, fc2)
    requires forall n: nat :: n in fc0 ==> fc0[n] == 0
    requires Elements(order) == N - {r}
    ensures Undone(r, fc2)
  {
    forall n: nat | n in fc2 && n != r ensures fc2[n] == 0 {
      if n !in N {
        forall p | p in N ensures !Edge(g, p, n) {
          if Edge(g, p, n) {
            AvoidExtend(g, {}, r, p, n);
          }
        }
        assert Preds(g, N, n) == {};
      } else {
        assert n in Elements(order);
      }
    }
  }
}
