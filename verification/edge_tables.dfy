/** What the edge tables of the dependency graph promise, on values. */
module EdgeTables {
  import opened Graphs
  import opened Sequences

  /** All edges as pairs. */
  function EdgeSet(g: Graph): set<(nat, nat)> {
    set u: nat, v: nat | u in g && v in g[u] :: (u, v)
  }

  ghost predicate Simple(g: Graph) {
    forall u: nat :: u in g ==> NoDup(g[u])
  }

  /** In-edge lists and out-edge tables describe one relation, without repetitions. */
  ghost predicate Mirrored(out: Graph, inn: Graph) {
    && out.Keys == inn.Keys
    && Closed(out)
    && Simple(out) && Simple(inn)
    && (forall u: nat, v: nat :: v in inn && u in inn[v] ==> Edge(out, u, v))
    && (forall u: nat, v: nat :: Edge(out, u, v) ==> u in inn[v])
  }

  ghost predicate Counted(out: Graph, outcount: map<nat, int>, edgeCount: int) {
    && outcount.Keys == out.Keys
    && (forall u: nat :: u in out ==> outcount[u] == |out[u]|)
    && edgeCount == |EdgeSet(out)|
  }

  /** The out-edge tables after v has been taken out of those of its callees us. */
  function Unlinked(out: Graph, us: set<nat>, v: nat): Graph {
    map u | u in out :: if u in us then Without(out[u], v) else out[u]
  }

  lemma UnlinkedStep(g: Graph, us: set<nat>, u: nat, x: nat)
    requires u in g
    ensures var h := Unlinked(g, us, x);
            h[u := Without(h[u], x)] == Unlinked(g, us + {u}, x)
  {
    if u in us {
      assert x !in Without(g[u], x);
    }
  }

  /** The first i + 1 elements except n. */
  lemma TakeStep(s: seq<nat>, i: nat, n: nat)
    requires i < |s|
    ensures Elements(s[..i + 1]) - {n} == if s[i] == n then Elements(s[..i]) - {n}
            else (Elements(s[..i]) - {n}) + {s[i]}
  {
    assert s[..i + 1] == s[..i] + [s[i]];
  }

  lemma EdgeSetUnlinkedOne(out: Graph, u: nat, v: nat)
    requires Edge(out, u, v)
    ensures EdgeSet(out[u := Without(out[u], v)]) == EdgeSet(out) - {(u, v)}
    ensures (u, v) in EdgeSet(out)
  {
    var out' := out[u := Without(out[u], v)];
    forall a: nat, b: nat ensures (a, b) in EdgeSet(out') <==> (a, b) in EdgeSet(out) - {(u, v)} {
      if a == u && b != v {
        assert b in out'[u] <==> b in out[u];
      }
    }
  }

  lemma EdgeSetAdded(out: Graph, u: nat, v: nat)
    requires u in out && v !in out[u]
    ensures EdgeSet(out[u := out[u] + [v]]) == EdgeSet(out) + {(u, v)}
    ensures (u, v) !in EdgeSet(out)
  {
    var out' := out[u := out[u] + [v]];
    forall a: nat, b: nat ensures (a, b) in EdgeSet(out') <==> (a, b) in EdgeSet(out) + {(u, v)} {
      if a == u && b != v {
        assert b in out'[u] <==> b in out[u];
      }
    }
  }
}
