/** Adding and removing dependency edges and whole call nodes. */
module DependencyEdges {
  import opened Graphs
  import opened Sequences
  import opened EdgeTables

  class EdgeStore {
    var outedges: Graph
    var inedges: Graph
    var outcount: map<nat, int>
    var edgeCount: int
    var nodeCount: int

    ghost predicate Valid()
      reads this
    {
      && Mirrored(outedges, inedges)
      && Counted(outedges, outcount, edgeCount)
      && nodeCount == |outedges.Keys|
    }

    constructor ()
      ensures Valid() && outedges == map[]
    {
      outedges, inedges, outcount := map[], map[], map[];
      edgeCount, nodeCount := 0, 0;
      new;
      assert EdgeSet(outedges) == {};
    }

    /** A new call node without edges. */
    method MakeCallNode(id: nat)
      requires Valid() && id !in outedges
      modifies this
      ensures Valid()
      ensures outedges == old(outedges)[id := []] && inedges == old(inedges)[id := []]
    {
      MakeNodeKeeps(outedges, inedges, outcount, edgeCount, id);
      assert outedges[id := []].Keys == outedges.Keys + {id};
      outedges := outedges[id := []];
      inedges := inedges[id := []];
      outcount := outcount[id := 0];
      nodeCount := nodeCount + 1;
    }

    /** Adds the edge unless it is already there. */
    method AddCallEdge(from: nat, to: nat)
      requires Valid() && from in outedges && to in outedges
      modifies this`outedges, this`inedges, this`outcount, this`edgeCount
      ensures Valid()
      ensures if to in old(outedges)[from] then
                outedges == old(outedges) && inedges == old(inedges) && edgeCount == old(edgeCount)
              else
                && outedges == old(outedges)[from := old(outedges)[from] + [to]]
                && inedges == old(inedges)[to := [from] + old(inedges)[to]]
                && edgeCount == old(edgeCount) + 1
    {
      if to !in outedges[from] {
        AddKeeps(outedges, inedges, outcount, edgeCount, from, to);
        outedges := outedges[from := outedges[from] + [to]];
        inedges := inedges[to := [from] + inedges[to]];
        edgeCount := edgeCount + 1;
        outcount := outcount[from := outcount[from] + 1];
      }
    }

    method RemoveSome(u: nat, n: nat)
      requires Simple(outedges) && Counted(outedges, outcount, edgeCount) && Edge(outedges, u, n)
      modifies this`outedges, this`outcount, this`edgeCount
      ensures outedges == old(outedges)[u := Without(old(outedges)[u], n)]
      ensures Simple(outedges) && Counted(outedges, outcount, edgeCount)
    {
      UnlinkKeeps(outedges, outcount, edgeCount, u, n);
      outedges := outedges[u := Without(outedges[u], n)];
      edgeCount := edgeCount - 1;
      outcount := outcount[u := outcount[u] - 1];
    }

    /** Takes n out of the out-edge tables of the nodes it depends on, itself excepted.
        The list of n's in-edges is left behind. */
    method DeleteDependencyEdges(n: nat)
      requires Valid() && n in outedges
      modifies this`outedges, this`outcount, this`edgeCount
      ensures outedges == Unlinked(old(outedges), Elements(inedges[n]) - {n}, n)
      ensures Simple(outedges) && Counted(outedges, outcount, edgeCount)
    {
      ghost var out0 := outedges;
      var i := 0;
      assert Unlinked(out0, {}, n) == out0;
      while i < |inedges[n]|
        invariant i <= |inedges[n]|
        invariant outedges == Unlinked(out0, Elements(inedges[n][..i]) - {n}, n)
        invariant Simple(outedges) && Counted(outedges, outcount, edgeCount)
      {
        var u := inedges[n][i];
        TakeStep(inedges[n], i, n);
        if u != n {
          StillLinked(out0, inedges, n, i);
          UnlinkedStep(out0, Elements(inedges[n][..i]) - {n}, u, n);
          RemoveSome(u, n);
        }
        i := i + 1;
      }
      assert inedges[n][..i] == inedges[n];
    }

    /** Takes n out of the in-edge lists of the nodes that depend on it, itself excepted.
        Every edge is discounted; n's table is left behind. */
    method DeleteOutEdges(n: nat)
      requires n in outedges && outcount.Keys == outedges.Keys && outcount[n] == |outedges[n]|
      requires forall v | v in outedges[n] :: v in inedges
      modifies this`inedges, this`outcount, this`edgeCount
      ensures inedges == Unlinked(old(inedges), Elements(outedges[n]) - {n}, n)
      ensures edgeCount == old(edgeCount) - |outedges[n]|
      ensures outcount == old(outcount)[n := 0]
    {
      ghost var in0 := inedges;
      var i := 0;
      assert Unlinked(in0, {}, n) == in0;
      while i < |outedges[n]|
        invariant i <= |outedges[n]|
        invariant inedges == Unlinked(in0, Elements(outedges[n][..i]) - {n}, n)
        invariant edgeCount == old(edgeCount) - i
        invariant outcount == old(outcount)
      {
        var v := outedges[n][i];
        TakeStep(outedges[n], i, n);
        if v != n {
          UnlinkedStep(in0, Elements(outedges[n][..i]) - {n}, v, n);
          inedges := inedges[v := Without(inedges[v], n)];
        }
        edgeCount := edgeCount - 1;
        i := i + 1;
      }
      assert outedges[n][..i] == outedges[n];
      if |outedges[n]| > 0 {
        outcount := outcount[n := 0];
      }
    }

    /** Frees a node whose out-edges are gone. Returns false (abort) if some are counted. */
    method DeleteCallNode(n: nat) returns (ok: bool)
      requires n in outedges && n in outcount
      modifies this
      ensures ok == (old(outcount)[n] == 0)
      ensures nodeCount == old(nodeCount) - 1 && edgeCount == old(edgeCount)
      ensures if ok then
                && outedges == old(outedges) - {n}
                && inedges == old(inedges) - {n}
                && outcount == old(outcount) - {n}
              else
                outedges == old(outedges) && inedges == old(inedges) && outcount == old(outcount)
    {
      nodeCount := nodeCount - 1;
      ok := outcount[n] == 0;
      if ok {
        outedges, inedges, outcount := outedges - {n}, inedges - {n}, outcount - {n};
      }
    }

    /** Full removal of a node: only its own edges disappear. */
    method RemoveNode(n: nat)
      requires Valid() && n in outedges
      modifies this
      ensures Valid()
      ensures outedges.Keys == old(outedges).Keys - {n}
      ensures forall u: nat, v: nat :: Edge(outedges, u, v) <==> u != n && v != n && Edge(old(outedges), u, v)
    {
      hide Closed, Simple, Counted, NoDup, EdgeSet, Mirrored, Unlinked;
      ghost var out0, in0 := outedges, inedges;
      DeleteDependencyEdges(n);
      ghost var out1, count1 := outedges, outcount;
      SelfUnlinked(out0, in0, n);
      CountOf(outedges, outcount, edgeCount, n);
      DeleteOutEdges(n);
      var ok := DeleteCallNode(n);
      RemovedMirrored(out0, in0, out1, outedges, inedges, n);
      OwnEdgesGone(outedges, n);
      RemovedCounted(out0, out1, count1, outedges, outcount, n);
    }
  }

  lemma MakeNodeKeeps(out: Graph, inn: Graph, outcount: map<nat, int>, edgeCount: int, id: nat)
    requires Mirrored(out, inn) && Counted(out, outcount, edgeCount) && id !in out
    ensures Mirrored(out[id := []], inn[id := []])
    ensures Counted(out[id := []], outcount[id := 0], edgeCount)
  {
    var out', in' := out[id := []], inn[id := []];
    forall u: nat, v: nat ensures Edge(out', u, v) <==> Edge(out, u, v) {}
    assert EdgeSet(out') == EdgeSet(out);
  }

  lemma AddKeeps(out: Graph, inn: Graph, outcount: map<nat, int>, edgeCount: int, from: nat, to: nat)
    requires Mirrored(out, inn) && Counted(out, outcount, edgeCount)
    requires from in out && to in out && to !in out[from]
    ensures Mirrored(out[from := out[from] + [to]], inn[to := [from] + inn[to]])
    ensures Counted(out[from := out[from] + [to]], outcount[from := outcount[from] + 1], edgeCount + 1)
  {
    AddMirrored(out, inn, from, to);
    EdgeSetAdded(out, from, to);
    assert !Edge(out, from, to);
  }

  lemma AddMirrored(out: Graph, inn: Graph, from: nat, to: nat)
    requires Mirrored(out, inn) && from in out && to in out && to !in out[from]
    ensures Mirrored(out[from := out[from] + [to]], inn[to := [from] + inn[to]])
  {
    var out', in' := out[from := out[from] + [to]], inn[to := [from] + inn[to]];
    NoDupSnoc(out[from], to);
    assert !Edge(out, from, to);
    NoDupCons(from, inn[to]);
    forall u: nat, v: nat ensures Edge(out', u, v) <==> Edge(out, u, v) || (u == from && v == to) {}
  }

  lemma UnlinkKeeps(out: Graph, outcount: map<nat, int>, edgeCount: int, u: nat, n: nat)
    requires Simple(out) && Counted(out, outcount, edgeCount) && Edge(out, u, n)
    ensures Simple(out[u := Without(out[u], n)])
    ensures Counted(out[u := Without(out[u], n)], outcount[u := outcount[u] - 1], edgeCount - 1)
  {
    EdgeSetUnlinkedOne(out, u, n);
    WithoutNoDup(out[u], n);
  }

  /** While the loop has not reached it, the edge from the i-th in-node is still in the tables. */
  lemma StillLinked(out0: Graph, inn: Graph, n: nat, i: nat)
    requires Mirrored(out0, inn) && n in inn && i < |inn[n]| && inn[n][i] != n
    ensures Edge(Unlinked(out0, Elements(inn[n][..i]) - {n}, n), inn[n][i], n)
  {
    assert inn[n][i] !in inn[n][..i];
    assert Edge(out0, inn[n][i], n);
  }

  lemma SelfUnlinked(out: Graph, inn: Graph, n: nat)
    requires Mirrored(out, inn) && n in out
    ensures n in Unlinked(out, Elements(inn[n]) - {n}, n) && Unlinked(out, Elements(inn[n]) - {n}, n)[n] == out[n]
    ensures Unlinked(out, Elements(inn[n]) - {n}, n).Keys == out.Keys
    ensures forall v | v in out[n] :: v in inn
  {
    forall v | v in out[n] ensures v in inn {
      assert Edge(out, n, v);
    }
  }

  lemma CountOf(out: Graph, outcount: map<nat, int>, edgeCount: int, n: nat)
    requires Counted(out, outcount, edgeCount) && n in out
    ensures outcount.Keys == out.Keys && outcount[n] == |out[n]| && edgeCount == |EdgeSet(out)|
  {
  }

  lemma OwnEdgesGone(out: Graph, n: nat)
    requires Closed(out) && n !in out
    ensures forall u: nat :: u in out ==> n !in out[u]
  {
    forall u: nat | u in out ensures n !in out[u] {
      assert n in out[u] ==> Edge(out, u, n);
    }
  }

  lemma RemovedMirrored(out0: Graph, in0: Graph, out1: Graph, out3: Graph, in3: Graph, n: nat)
    requires Mirrored(out0, in0) && n in out0
    requires out1 == Unlinked(out0, Elements(in0[n]) - {n}, n) && Simple(out1)
    requires out3 == out1 - {n}
    requires in3 == Unlinked(in0, Elements(out1[n]) - {n}, n) - {n}
    ensures Mirrored(out3, in3) && Closed(out3)
    ensures forall u: nat, v: nat :: Edge(out3, u, v) <==> u != n && v != n && Edge(out0, u, v)
  {
    forall u: nat, v: nat ensures Edge(out3, u, v) <==> u != n && v != n && Edge(out0, u, v) {
      if u in out0 && u != n && n in out0[u] {
        assert Edge(out0, u, n);
      }
    }
    forall u: nat, v: nat | v in in3 ensures u in in3[v] <==> u != n && v != n && u in in0[v] {
      if n in in0[v] {
        assert Edge(out0, n, v);
      }
    }
    forall v: nat | v in in3 ensures NoDup(in3[v]) {
      WithoutNoDup(in0[v], n);
    }
  }

  lemma RemovedCounted(out0: Graph, out1: Graph, count1: map<nat, int>, out3: Graph, count3: map<nat, int>, n: nat)
    requires n in out0 && out1.Keys == out0.Keys && out1[n] == out0[n] && Simple(out1)
    requires Counted(out1, count1, |EdgeSet(out1)|)
    requires out3 == out1 - {n} && count3 == count1[n := 0] - {n}
    requires forall u: nat :: u in out3 ==> n !in out3[u]
    ensures Counted(out3, count3, |EdgeSet(out1)| - |out1[n]|)
  {
    var own := set v | v in out1[n] :: (n, v);
    OwnEdges(out1[n], n, own);
    assert EdgeSet(out1) == EdgeSet(out3) + own;
    DisjointSize(EdgeSet(out3), own);
  }

  lemma {:induction false} OwnEdges(s: seq<nat>, n: nat, own: set<(nat, nat)>)
    requires NoDup(s) && own == set v | v in s :: (n, v)
    ensures |own| == |s|
  {
    if s == [] {
      assert own == {};
    } else {
      var last := |s| - 1;
      var t := s[..last];
      assert s == t + [s[last]];
      assert s[last] !in t;
      OwnEdges(t, n, own - {(n, s[last])});
    }
  }
}
