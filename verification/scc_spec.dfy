/** The SCC pass over the dependency graph, as a function on its state. */
module SccSpec {
  import opened Graphs

  /** The fields of the node array, indexed by node, together with the used part
      of the DFN stack and the two counters. */
  datatype State = State(
    dfn: seq<nat>, low: seq<nat>, pos: seq<nat>, comp: seq<nat>,
    stack: seq<nat>, nextDfn: nat, nextComp: nat)

  /** Nodes are numbered 0..n and all edges stay among them. */
  ghost predicate Numbered(g: Graph, n: nat) {
    && (forall u: nat :: u in g <==> u < n)
    && Closed(g)
  }

  predicate Sized(n: nat, s: State) {
    && |s.dfn| == |s.low| == |s.pos| == |s.comp| == n
    && s.nextDfn >= 1
    && s.nextComp >= 1
    && (forall k | 0 <= k < |s.stack| :: s.stack[k] < n)
  }

  function Unvisited(s: State): set<nat> {
    set u: nat | u < |s.dfn| && s.dfn[u] == 0
  }

  function Init(n: nat): State {
    State(seq(n, _ => 0), seq(n, _ => 0), seq(n, _ => 0), seq(n, _ => 0), [], 1, 1)
  }

  function Open(s: State, v: nat): State
    requires v < |s.dfn| && v < |s.low| && v < |s.pos|
  {
    s.(dfn := s.dfn[v := s.nextDfn],
       low := s.low[v := s.nextDfn],
       pos := s.pos[v := |s.stack|],
       stack := s.stack + [v],
       nextDfn := s.nextDfn + 1)
  }

  function Lower(s: State, v: nat, w: nat): (r: State)
    requires v < |s.low| && w < |s.low|
  {
    if s.low[w] < s.low[v] then s.(low := s.low[v := s.low[w]]) else s
  }

  /** Labels the stack from the top down to position k. */
  function Label(comp: seq<nat>, part: seq<nat>, c: nat): (r: seq<nat>)
    requires forall k | 0 <= k < |part| :: part[k] < |comp|
    ensures |r| == |comp|
    ensures forall u | 0 <= u < |comp| :: r[u] == if u in part then c else comp[u]
    decreases |part|
  {
    if |part| == 0 then comp
    else Label(comp[part[|part| - 1] := c], part[..|part| - 1], c)
  }

  function Close(s: State, v: nat): (r: State)
    requires v < |s.dfn| && Sized(|s.dfn|, s) && s.pos[v] <= |s.stack|
  {
    if s.low[v] == s.dfn[v] then
      s.(comp := Label(s.comp, s.stack[s.pos[v]..], s.nextComp),
         nextComp := s.nextComp + 1,
         stack := s.stack[..s.pos[v]])
    else s
  }

  ghost predicate Grew(s: State, r: State) {
    && |r.dfn| == |s.dfn| == |s.pos| == |r.pos|
    && (forall u | 0 <= u < |s.dfn| && s.dfn[u] != 0 :: r.dfn[u] == s.dfn[u] && r.pos[u] == s.pos[u])
    && s.stack <= r.stack
    && Unvisited(r) <= Unvisited(s)
  }

  function Visit(g: Graph, s: State, v: nat): (r: State)
    requires Numbered(g, |s.dfn|) && Sized(|s.dfn|, s)
    requires v < |s.dfn| && s.dfn[v] == 0
    ensures Sized(|s.dfn|, r) && Grew(s, r) && r.dfn[v] != 0
    decreases Unvisited(s), 0, 0
  {
    var s1 := Open(s, v);
    assert v in Unvisited(s) && v !in Unvisited(s1);
    if |g[v]| > 0 then
      Close(VisitEdges(g, s1, v, 0), v)
    else
      s1.(comp := s1.comp[v := s1.nextComp], nextComp := s1.nextComp + 1)
  }

  function VisitEdges(g: Graph, s: State, v: nat, i: nat): (r: State)
    requires Numbered(g, |s.dfn|) && Sized(|s.dfn|, s)
    requires v < |s.dfn| && s.dfn[v] != 0 && i <= |g[v]|
    ensures Sized(|s.dfn|, r) && Grew(s, r)
    decreases Unvisited(s), 1, |g[v]| - i
  {
    if i == |g[v]| then s else
      var w := g[v][i];
      assert Edge(g, v, w);
      if s.dfn[w] == 0 then
        VisitEdges(g, Lower(Visit(g, s, w), v, w), v, i + 1)
      else if s.dfn[w] < s.dfn[v] && s.comp[w] == 0 then
        VisitEdges(g, Lower(s, v, w), v, i + 1)
      else
        VisitEdges(g, s, v, i + 1)
  }

  /** One round of the driver loop. */
  function Round(g: Graph, s: State, i: nat): (r: State)
    requires Numbered(g, |s.dfn|) && Sized(|s.dfn|, s) && i < |s.dfn|
    ensures Sized(|s.dfn|, r) && Grew(s, r)
  {
    if s.dfn[i] == 0 then Visit(g, s, i) else s
  }

  /** The driver loop, from node i on. */
  function Drive(g: Graph, s: State, i: nat): (r: State)
    requires Numbered(g, |s.dfn|) && Sized(|s.dfn|, s) && i <= |s.dfn|
    ensures Sized(|s.dfn|, r) && Grew(s, r)
    decreases |s.dfn| - i
  {
    if i == |s.dfn| then s
    else Drive(g, Round(g, s, i), i + 1)
  }
}
