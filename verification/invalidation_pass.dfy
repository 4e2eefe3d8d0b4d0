/** The explicit-stack invalidation pass and the recursive propagation over call nodes. */
module InvalidationPass {
  import opened Graphs
  import opened Sequences
  import opened InvalidationFacts

  /** A DFS frame: a node and the position of its out-edge iterator, -1 before it is created. */
  datatype Frame = Frame(cn: nat, itr: int)

  // ------------------------------------------------------------------
  // The invariant of the explicit-stack loop, on values. done[p] is how many
  // out-edges of p have been followed.

  ghost predicate DoneOk(g: Graph, D0: set<nat>, r: nat, done: map<nat, nat>) {
    && done.Keys <= g.Keys
    && r in done
    && (forall p: nat {:trigger ReachAvoiding(g, D0, r, p)} :: p in done ==> ReachAvoiding(g, D0, r, p))
    && (forall p: nat :: p in done ==> done[p] <= |g[p]|)
    && (forall p: nat, k: nat :: p in done && k < done[p] ==> g[p][k] in done || g[p][k] in D0)
  }

  ghost predicate OnStack(stack: seq<Frame>, p: nat) {
    exists i :: 0 <= i < |stack| && stack[i].cn == p
  }

  ghost predicate StackOk(g: Graph, done: map<nat, nat>, stack: seq<Frame>) {
    && (forall i, j | 0 <= i < j < |stack| :: stack[i].cn != stack[j].cn)
    && (forall i | 0 <= i < |stack| :: stack[i].cn in done && stack[i].itr + 1 == done[stack[i].cn])
    && (forall p: nat {:trigger OnStack(stack, p)} :: p in done && p in g && done[p] != |g[p]| ==> OnStack(stack, p))
  }

  /** The predecessors of n whose edge to n has been followed. */
  ghost function Followed(g: Graph, done: map<nat, nat>, n: nat): set<nat> {
    set p | p in done && p in g && done[p] <= |g[p]| && n in g[p][..done[p]]
  }

  ghost predicate CountOk(g: Graph, done: map<nat, nat>, fc0: map<nat, nat>, fc: map<nat, nat>, n: nat) {
    n in fc0 && n in fc && fc[n] == fc0[n] + |Followed(g, done, n)|
  }

  ghost predicate CountsOk(g: Graph, done: map<nat, nat>, fc0: map<nat, nat>, fc: map<nat, nat>) {
    && fc.Keys == fc0.Keys
    && forall n: nat {:trigger CountOk(g, done, fc0, fc, n)} :: n in fc0 ==> CountOk(g, done, fc0, fc, n)
  }

  function Flagged(flag: map<nat, bool>): set<nat> {
    set n | n in flag && flag[n]
  }

  ghost predicate FlagsOk(leaves: set<nat>, D0: set<nat>, r: nat, done: map<nat, nat>, flag: map<nat, bool>) {
    Flagged(flag) == D0 + (if r in leaves then done.Keys - {r} else done.Keys)
  }

  /** The edge positions not yet followed. */
  ghost function ToDo(g: Graph, done: map<nat, nat>): set<(nat, nat)> {
    set p: nat, k: nat | p in g && k < |g[p]| && !(p in done && k < done[p]) :: (p, k)
  }

  lemma FollowOne(g: Graph, done: map<nat, nat>, p: nat, n: nat)
    requires p in g && p in done && done[p] < |g[p]| && NoDup(g[p])
    ensures Followed(g, done[p := done[p] + 1], n) == Followed(g, done, n) + (if n == g[p][done[p]] then {p} else {})
    ensures g[p][done[p]] !in g[p][..done[p]]
    ensures p !in Followed(g, done, g[p][done[p]])
  {
    var k := done[p];
    assert g[p][..k + 1] == g[p][..k] + [g[p][k]];
    forall i | 0 <= i < k ensures g[p][..k][i] != g[p][k] {}
  }

  lemma FollowCount(g: Graph, done: map<nat, nat>, p: nat, n: nat)
    requires p in g && p in done && done[p] < |g[p]| && NoDup(g[p])
    ensures |Followed(g, done[p := done[p] + 1], n)| == |Followed(g, done, n)| + (if n == g[p][done[p]] then 1 else 0)
  {
    FollowOne(g, done, p, n);
    if n == g[p][done[p]] {
      DisjointSize(Followed(g, done, n), {p});
    } else {
      assert Followed(g, done[p := done[p] + 1], n) == Followed(g, done, n);
    }
  }

  lemma FollowCounts(g: Graph, done: map<nat, nat>, fc0: map<nat, nat>, fc: map<nat, nat>, p: nat)
    requires p in g && p in done && done[p] < |g[p]| && NoDup(g[p]) && CountsOk(g, done, fc0, fc)
    requires g[p][done[p]] in fc
    ensures var n := g[p][done[p]];
            CountsOk(g, done[p := done[p] + 1], fc0, fc[n := fc[n] + 1])
  {
    var m := g[p][done[p]];
    forall n: nat | n in fc0 ensures CountOk(g, done[p := done[p] + 1], fc0, fc[m := fc[m] + 1], n) {
      assert CountOk(g, done, fc0, fc, n);
      FollowCount(g, done, p, n);
    }
  }

  lemma PushCounts(g: Graph, done: map<nat, nat>, fc0: map<nat, nat>, fc: map<nat, nat>, n: nat)
    requires CountsOk(g, done, fc0, fc) && n !in done
    ensures CountsOk(g, done[n := 0], fc0, fc)
  {
    forall m: nat | m in fc0 ensures CountOk(g, done[n := 0], fc0, fc, m) {
      assert CountOk(g, done, fc0, fc, m);
      assert Followed(g, done[n := 0], m) == Followed(g, done, m);
    }
  }

  lemma FollowDone(g: Graph, D0: set<nat>, r: nat, done: map<nat, nat>, p: nat)
    requires DoneOk(g, D0, r, done) && p in done && done[p] < |g[p]|
    requires g[p][done[p]] in done || g[p][done[p]] in D0
    ensures DoneOk(g, D0, r, done[p := done[p] + 1])
  {
  }

  lemma PushDone(g: Graph, D0: set<nat>, r: nat, done: map<nat, nat>, p: nat, n: nat)
    requires DoneOk(g, D0, r, done) && p in done && Edge(g, p, n) && n in g && n !in D0 && n !in done
    ensures DoneOk(g, D0, r, done[n := 0])
  {
    AvoidExtend(g, D0, r, p, n);
  }

  lemma ToDoShrinks(g: Graph, done: map<nat, nat>, p: nat, done': map<nat, nat>)
    requires p in g && p in done && done[p] < |g[p]|
    requires done' == done[p := done[p] + 1] ||
             exists n: nat :: n !in done && done' == done[p := done[p] + 1][n := 0]
    ensures ToDo(g, done') < ToDo(g, done)
  {
    assert (p, done[p]) in ToDo(g, done) && (p, done[p]) !in ToDo(g, done');
    assert ToDo(g, done') <= ToDo(g, done);
  }

  /** When every edge has been followed the pass has done exactly what it should. */
  lemma AllFollowed(g: Graph, D0: set<nat>, r: nat, done: map<nat, nat>)
    requires DoneOk(g, D0, r, done)
    requires forall p: nat :: p in done ==> done[p] == |g[p]|
    ensures Invalid(g, D0, r, done.Keys)
    ensures forall n: nat :: Followed(g, done, n) == Preds(g, done.Keys, n)
  {
    forall n: nat | ReachAvoiding(g, D0, r, n) ensures n in done {
      forall a: nat, b: nat | a in done.Keys && Edge(g, a, b) && b !in D0 ensures b in done.Keys {
        var k :| 0 <= k < |g[a]| && g[a][k] == b;
        assert k < done[a];
      }
      AvoidStays(g, D0, done.Keys, r, n);
    }
    forall n: nat ensures Followed(g, done, n) == Preds(g, done.Keys, n) {
      forall p | p in done ensures g[p][..done[p]] == g[p] {}
    }
  }

  /** The nodes that invalidating r reaches. */
  ghost function InvalidSet(g: Graph, D0: set<nat>, r: nat): set<nat> {
    set n | n in g && ReachAvoiding(g, D0, r, n)
  }

  lemma StackTop(g: Graph, done: map<nat, nat>, stack: seq<Frame>)
    requires StackOk(g, done, stack) && |stack| > 0
    requires var p := stack[|stack| - 1].cn; p in g && done[p] == |g[p]|
    ensures StackOk(g, done, stack[..|stack| - 1])
  {
    var rest := stack[..|stack| - 1];
    forall p: nat | p in done && p in g && done[p] != |g[p]| ensures OnStack(rest, p) {
      assert OnStack(stack, p);
      var i :| 0 <= i < |stack| && stack[i].cn == p;
      assert rest[i].cn == p;
    }
  }

  lemma StackStep(g: Graph, done: map<nat, nat>, stack: seq<Frame>, p: nat)
    requires StackOk(g, done, stack) && |stack| > 0 && stack[|stack| - 1].cn == p
    ensures StackOk(g, done[p := done[p] + 1], stack[..|stack| - 1] + [Frame(p, done[p])])
  {
    var top := |stack| - 1;
    var done', stack' := done[p := done[p] + 1], stack[..top] + [Frame(p, done[p])];
    forall q: nat | q in done' && q in g && done'[q] != |g[q]| ensures OnStack(stack', q) {
      if q == p {
        assert stack'[top].cn == q;
      } else {
        assert OnStack(stack, q);
        var i :| 0 <= i < |stack| && stack[i].cn == q;
        assert stack'[i].cn == q;
      }
    }
  }

  lemma StackPush(g: Graph, done: map<nat, nat>, stack: seq<Frame>, n: nat)
    requires StackOk(g, done, stack) && n !in done
    ensures StackOk(g, done[n := 0], stack + [Frame(n, -1)])
  {
    var done', stack' := done[n := 0], stack + [Frame(n, -1)];
    forall q: nat | q in done' && q in g && done'[q] != |g[q]| ensures OnStack(stack', q) {
      if q == n {
        assert stack'[|stack|].cn == q;
      } else {
        assert OnStack(stack, q);
        var i :| 0 <= i < |stack| && stack[i].cn == q;
        assert stack'[i].cn == q;
      }
    }
  }

  /** Following the last edge position together with pushing its new target. */
  lemma FollowNew(g: Graph, D0: set<nat>, r: nat, done: map<nat, nat>, p: nat)
    requires DoneOk(g, D0, r, done) && p in done && done[p] < |g[p]|
    requires var n := g[p][done[p]]; n in g && n !in D0 && n !in done
    ensures DoneOk(g, D0, r, done[p := done[p] + 1][g[p][done[p]] := 0])
  {
    var n := g[p][done[p]];
    assert Edge(g, p, n);
    PushDone(g, D0, r, done, p, n);
    FollowDone(g, D0, r, done[n := 0], p);
    assert done[n := 0][p := done[p] + 1] == done[p := done[p] + 1][n := 0];
  }

  lemma PushFlags(leaves: set<nat>, D0: set<nat>, r: nat, done: map<nat, nat>, flag: map<nat, bool>, n: nat)
    requires FlagsOk(leaves, D0, r, done, flag) && n in flag && n !in leaves
    ensures FlagsOk(leaves, D0, r, done[n := 0], flag[n := true])
  {
    assert Flagged(flag[n := true]) == Flagged(flag) + {n};
    assert done[n := 0].Keys == done.Keys + {n};
  }

  /** Everything the loop keeps. */
  ghost predicate PassInv(g: Graph, leaves: set<nat>, completed: set<nat>, D0: set<nat>, fc0: map<nat, nat>, r: nat,
                          done: map<nat, nat>, stack: seq<Frame>, flag: map<nat, bool>, fc: map<nat, nat>)
  {
    && DoneOk(g, D0, r, done)
    && StackOk(g, done, stack)
    && CountsOk(g, done, fc0, fc)
    && FlagsOk(leaves, D0, r, done, flag)
    && (forall n: nat :: n in done ==> n in leaves + completed)
  }

  ghost predicate CanFollow(g: Graph, done: map<nat, nat>, stack: seq<Frame>) {
    && |stack| > 0
    && var p := stack[|stack| - 1].cn;
       p in g && p in done && stack[|stack| - 1].itr + 1 == done[p] < |g[p]| && NoDup(g[p])
  }

  /** The next edge of the top frame leads to a node of the graph, reachable if not deleted. */
  lemma TopFollows(g: Graph, leaves: set<nat>, completed: set<nat>, D0: set<nat>, fc0: map<nat, nat>, r: nat,
                   done: map<nat, nat>, stack: seq<Frame>, flag: map<nat, bool>, fc: map<nat, nat>)
    requires PassInv(g, leaves, completed, D0, fc0, r, done, stack, flag, fc)
    requires Closed(g) && flag.Keys == g.Keys && forall u: nat :: u in g ==> NoDup(g[u])
    requires forall u: nat, v: nat :: Edge(g, u, v) ==> v !in leaves
    requires |stack| > 0 && stack[|stack| - 1].itr + 1 < |g[stack[|stack| - 1].cn]|
    ensures CanFollow(g, done, stack)
    ensures var p := stack[|stack| - 1].cn; var n := g[p][done[p]];
            n in g && n !in leaves && (!flag[n] ==> ReachAvoiding(g, D0, r, n))
  {
    var p := stack[|stack| - 1].cn;
    var n := g[p][done[p]];
    assert Edge(g, p, n);
    if !flag[n] {
      assert n !in Flagged(flag);
      AvoidExtend(g, D0, r, p, n);
    }
  }

  /** Following an edge to a node that is already deleted. */
  lemma FollowSeen(g: Graph, leaves: set<nat>, completed: set<nat>, D0: set<nat>, fc0: map<nat, nat>, r: nat,
                   done: map<nat, nat>, stack: seq<Frame>, flag: map<nat, bool>, fc: map<nat, nat>, p: nat, k: nat,
                   done': map<nat, nat>, stack': seq<Frame>, fc': map<nat, nat>)
    requires PassInv(g, leaves, completed, D0, fc0, r, done, stack, flag, fc)
    requires CanFollow(g, done, stack) && p == stack[|stack| - 1].cn && k == done[p]
    requires g[p][k] in flag && flag[g[p][k]] && g[p][k] in fc
    requires done' == done[p := k + 1] && stack' == stack[..|stack| - 1] + [Frame(p, k)]
    requires fc' == fc[g[p][k] := fc[g[p][k]] + 1]
    ensures PassInv(g, leaves, completed, D0, fc0, r, done', stack', flag, fc')
    ensures ToDo(g, done') < ToDo(g, done)
  {
    assert g[p][k] in Flagged(flag);
    StackStep(g, done, stack, p);
    FollowCounts(g, done, fc0, fc, p);
    FollowDone(g, D0, r, done, p);
    ToDoShrinks(g, done, p, done[p := k + 1]);
    assert done[p := k + 1].Keys == done.Keys;
  }

  /** Following an edge to a node that becomes deleted and is pushed. */
  lemma FollowFresh(g: Graph, leaves: set<nat>, completed: set<nat>, D0: set<nat>, fc0: map<nat, nat>, r: nat,
                    done: map<nat, nat>, stack: seq<Frame>, flag: map<nat, bool>, fc: map<nat, nat>, p: nat, k: nat,
                    n: nat, done': map<nat, nat>, stack': seq<Frame>, flag': map<nat, bool>, fc': map<nat, nat>)
    requires PassInv(g, leaves, completed, D0, fc0, r, done, stack, flag, fc)
    requires CanFollow(g, done, stack) && p == stack[|stack| - 1].cn && k == done[p] && n == g[p][k]
    requires n in flag && !flag[n] && n in fc && n in g && n in completed && n !in leaves
    requires done' == done[p := k + 1][n := 0]
    requires stack' == stack[..|stack| - 1] + [Frame(p, k)] + [Frame(n, -1)]
    requires flag' == flag[n := true] && fc' == fc[n := fc[n] + 1]
    ensures PassInv(g, leaves, completed, D0, fc0, r, done', stack', flag', fc')
    ensures ToDo(g, done') < ToDo(g, done)
  {
    assert n !in Flagged(flag);
    var done1 := done[p := k + 1];
    assert done1.Keys == done.Keys;
    StackStep(g, done, stack, p);
    StackPush(g, done1, stack[..|stack| - 1] + [Frame(p, k)], n);
    FollowCounts(g, done, fc0, fc, p);
    PushCounts(g, done1, fc0, fc[n := fc[n] + 1], n);
    FollowNew(g, D0, r, done, p);
    PushFlags(leaves, D0, r, done1, flag, n);
    ToDoShrinks(g, done, p, done1[n := 0]);
  }

  /** With an empty stack the pass is over and did exactly what it should. */
  lemma PassOver(g: Graph, leaves: set<nat>, completed: set<nat>, D0: set<nat>, fc0: map<nat, nat>, fc00: map<nat, nat>,
                 r: nat, done: map<nat, nat>, flag: map<nat, bool>, fc: map<nat, nat>)
    requires PassInv(g, leaves, completed, D0, fc0, r, done, [], flag, fc)
    requires r in fc00 && fc0 == fc00[r := fc00[r] + 1]
    ensures Invalidated(g, leaves, r, InvalidSet(g, D0, r), D0, fc00, Flagged(flag), fc)
    ensures InvalidSet(g, D0, r) <= leaves + completed
  {
    forall p: nat | p in done ensures done[p] == |g[p]| {
      assert !OnStack([], p);
    }
    AllFollowed(g, D0, r, done);
    assert InvalidSet(g, D0, r) == done.Keys;
    forall n: nat | n in fc00 ensures fc[n] == fc00[n] + (if n == r then 1 else 0) + |Preds(g, done.Keys, n)| {
      assert CountOk(g, done, fc0, fc, n);
    }
  }

  lemma PassStart(g: Graph, leaves: set<nat>, completed: set<nat>, D0: set<nat>, fc0: map<nat, nat>, r: nat,
                  flag: map<nat, bool>)
    requires r in g && r in flag && r in leaves + completed && !flag[r]
    requires D0 == Flagged(flag)
    ensures PassInv(g, leaves, completed, D0, fc0, r, map[r := 0], if |g[r]| > 0 then [Frame(r, -1)] else [],
                    if r in leaves then flag else flag[r := true], fc0)
  {
    AvoidRefl(g, D0, r);
    var done := map[r := 0];
    forall n: nat | n in fc0 ensures CountOk(g, done, fc0, fc0, n) {
      assert Followed(g, done, n) == {};
    }
    assert Flagged(flag[r := true]) == Flagged(flag) + {r};
    assert done.Keys == {r};
    if |g[r]| > 0 {
      assert [Frame(r, -1)][0].cn == r;
      assert OnStack([Frame(r, -1)], r);
    }
  }

  // ------------------------------------------------------------------
  // The invariant of the propagation loop.

  ghost function HitsUpTo(g: Graph, c: nat, i: nat, Z: set<nat>, n: nat): nat
    requires c in g && i <= |g[c]|
  {
    (if n in g[c][..i] then 1 else 0) + |Preds(g, Z, n)|
  }

  ghost predicate PaidUpTo(g: Graph, c: nat, i: nat, fc0: map<nat, nat>, order: seq<nat>, j: nat)
    requires c in g && i <= |g[c]| && j < |order|
  {
    order[j] in fc0 && 0 < fc0[order[j]] <= HitsUpTo(g, c, i, Elements(order[..j]), order[j])
  }

  ghost predicate LeftAfter(g: Graph, c: nat, i: nat, order: seq<nat>, fc0: map<nat, nat>, fc: map<nat, nat>, n: nat)
    requires c in g && i <= |g[c]|
  {
    && n in fc0 && n in fc
    && fc[n] == Monus(fc0[n], HitsUpTo(g, c, i, Elements(order), n))
    && (n in order <==> fc0[n] > 0 && fc[n] == 0)
  }

  ghost predicate PropInv(g: Graph, c: nat, i: nat, order: seq<nat>, fc0: map<nat, nat>, fc: map<nat, nat>)
    requires c in g && i <= |g[c]|
  {
    && fc.Keys == fc0.Keys
    && NoDup(order)
    && (forall j: nat | j < |order| :: PaidUpTo(g, c, i, fc0, order, j))
    && (forall n: nat {:trigger LeftAfter(g, c, i, order, fc0, fc, n)} ::
        n in fc0 ==> LeftAfter(g, c, i, order, fc0, fc, n))
  }

  lemma PropStart(g: Graph, c: nat, fc0: map<nat, nat>)
    requires c in g
    ensures PropInv(g, c, 0, [], fc0, fc0)
  {
    forall n: nat | n in fc0 ensures LeftAfter(g, c, 0, [], fc0, fc0, n) {
      assert Preds(g, Elements([]), n) == {};
    }
  }

  lemma PropDone(g: Graph, c: nat, order: seq<nat>, fc0: map<nat, nat>, fc: map<nat, nat>)
    requires c in g && PropInv(g, c, |g[c]|, order, fc0, fc)
    ensures Propagated(g, c, order, fc0, fc)
  {
    assert g[c][..|g[c]|] == g[c];
    forall j: nat | j < |order| ensures PaidAt(g, c, fc0, order, j) {
      assert PaidUpTo(g, c, |g[c]|, fc0, order, j);
    }
    forall n: nat | n in fc0
      ensures fc[n] == Monus(fc0[n], Hits(g, c, Elements(order), n)) && (n in order <==> fc0[n] > 0 && fc[n] == 0)
    {
      assert LeftAfter(g, c, |g[c]|, order, fc0, fc, n);
    }
  }

  lemma TakeOne(s: seq<nat>, i: nat, n: nat)
    requires i < |s| && NoDup(s)
    ensures n in s[..i + 1] <==> n in s[..i] || n == s[i]
    ensures s[i] !in s[..i]
  {
    assert s[..i + 1] == s[..i] + [s[i]];
    forall k | 0 <= k < i ensures s[..i][k] != s[i] {}
  }

  lemma PaidGrows(g: Graph, c: nat, i: nat, fc0: map<nat, nat>, order: seq<nat>, j: nat)
    requires c in g && i < |g[c]| && NoDup(g[c]) && j < |order| && PaidUpTo(g, c, i, fc0, order, j)
    ensures PaidUpTo(g, c, i + 1, fc0, order, j)
  {
    TakeOne(g[c], i, order[j]);
  }

  /** The counter of the i-th successor is decremented, or left alone at zero; nothing is revalidated. */
  lemma PropCount(g: Graph, c: nat, i: nat, order: seq<nat>, fc0: map<nat, nat>, fc: map<nat, nat>, fc': map<nat, nat>)
    requires c in g && i < |g[c]| && NoDup(g[c]) && PropInv(g, c, i, order, fc0, fc)
    requires g[c][i] in fc && fc[g[c][i]] != 1
    requires fc' == fc[g[c][i] := if fc[g[c][i]] == 0 then 0 else fc[g[c][i]] - 1]
    ensures PropInv(g, c, i + 1, order, fc0, fc')
  {
    var m, next := g[c][i], i + 1;
    forall j: nat | j < |order| ensures PaidUpTo(g, c, next, fc0, order, j) {
      PaidGrows(g, c, i, fc0, order, j);
    }
    forall n: nat | n in fc0 ensures LeftAfter(g, c, i + 1, order, fc0, fc', n) {
      assert LeftAfter(g, c, i, order, fc0, fc, n);
      TakeOne(g[c], i, n);
    }
  }

  lemma PredsSplit(g: Graph, A: set<nat>, m: nat, B: set<nat>, n: nat)
    requires m !in A && A !! B && m !in B && m in g
    ensures |Preds(g, A + {m} + B, n)| == |Preds(g, A, n)| + Hits(g, m, B, n)
  {
    var one := Preds(g, {m}, n);
    assert one == if Edge(g, m, n) then {m} else {};
    assert Preds(g, A + {m} + B, n) == Preds(g, A, n) + one + Preds(g, B, n);
    DisjointSize(Preds(g, A, n) + one, Preds(g, B, n));
    DisjointSize(Preds(g, A, n), one);
  }

  lemma ElementsJoin(s: seq<nat>, m: nat, t: seq<nat>)
    ensures Elements(s + [m] + t) == Elements(s) + {m} + Elements(t)
  {
  }

  /** The counter of the i-th successor drops to zero and propagation goes on from it. */
  lemma PropRevalidate(g: Graph, c: nat, i: nat, order: seq<nat>, fc0: map<nat, nat>, fc: map<nat, nat>,
                       m: nat, rest: seq<nat>, fc1: map<nat, nat>, fc2: map<nat, nat>)
    requires c in g && i < |g[c]| && NoDup(g[c]) && PropInv(g, c, i, order, fc0, fc)
    requires m == g[c][i] && m in g && m in fc && fc[m] == 1
    requires fc1 == fc[m := 0] && Propagated(g, m, rest, fc1, fc2)
    ensures PropInv(g, c, i + 1, order + [m] + rest, fc0, fc2)
  {
    var all, next := order + [m] + rest, i + 1;
    RestIsNew(g, c, i, order, fc0, fc, m, rest, fc1, fc2);
    NoDupSnoc(order, m);
    NoDupConcat(order + [m], rest);
    forall n: nat | n in fc0 ensures LeftAfter(g, c, next, all, fc0, fc2, n) {
      RevalidateLeft(g, c, i, order, fc0, fc, m, rest, fc1, fc2, n);
    }
    forall j: nat | j < |all| ensures PaidUpTo(g, c, next, fc0, all, j) {
      RevalidatePaidAt(g, c, i, order, fc0, fc, m, rest, fc1, fc2, j);
    }
  }

  lemma RevalidatePaidAt(g: Graph, c: nat, i: nat, order: seq<nat>, fc0: map<nat, nat>, fc: map<nat, nat>,
                         m: nat, rest: seq<nat>, fc1: map<nat, nat>, fc2: map<nat, nat>, j: nat)
    requires c in g && i < |g[c]| && NoDup(g[c]) && PropInv(g, c, i, order, fc0, fc)
    requires m == g[c][i] && m in g && m in fc && fc[m] == 1
    requires fc1 == fc[m := 0] && Propagated(g, m, rest, fc1, fc2)
    requires m !in order && m !in rest && Elements(order) !! Elements(rest)
    requires j < |order + [m] + rest|
    ensures PaidUpTo(g, c, i + 1, fc0, order + [m] + rest, j)
  {
    var all := order + [m] + rest;
    if j < |order| {
      assert PaidUpTo(g, c, i, fc0, order, j);
      PaidGrows(g, c, i, fc0, order, j);
      assert all[..j] == order[..j];
    } else if j == |order| {
      assert all[..j] == order;
      assert LeftAfter(g, c, i, order, fc0, fc, m);
      TakeOne(g[c], i, m);
    } else {
      RevalidatePaid(g, c, i, order, fc0, fc, m, rest, fc1, fc2, j - |order| - 1);
    }
  }

  lemma RestIsNew(g: Graph, c: nat, i: nat, order: seq<nat>, fc0: map<nat, nat>, fc: map<nat, nat>,
                  m: nat, rest: seq<nat>, fc1: map<nat, nat>, fc2: map<nat, nat>)
    requires c in g && i < |g[c]| && PropInv(g, c, i, order, fc0, fc)
    requires m in fc && fc[m] == 1 && fc1 == fc[m := 0] && Propagated(g, m, rest, fc1, fc2)
    ensures m !in order && m !in rest && Elements(order) !! Elements(rest)
    ensures forall x | x in order :: x !in rest
    ensures forall x | x in order + [m] :: x !in rest
  {
    assert LeftAfter(g, c, i, order, fc0, fc, m);
    assert m !in Elements(rest);
    forall x | x in order ensures x !in Elements(rest) {
      var k :| 0 <= k < |order| && order[k] == x;
      assert PaidUpTo(g, c, i, fc0, order, k);
      assert LeftAfter(g, c, i, order, fc0, fc, x);
    }
  }

  lemma RevalidateLeft(g: Graph, c: nat, i: nat, order: seq<nat>, fc0: map<nat, nat>, fc: map<nat, nat>,
                       m: nat, rest: seq<nat>, fc1: map<nat, nat>, fc2: map<nat, nat>, n: nat)
    requires c in g && i < |g[c]| && NoDup(g[c]) && PropInv(g, c, i, order, fc0, fc)
    requires m == g[c][i] && m in g && m in fc && fc[m] == 1
    requires fc1 == fc[m := 0] && Propagated(g, m, rest, fc1, fc2)
    requires m !in order && m !in rest && Elements(order) !! Elements(rest) && n in fc0
    ensures LeftAfter(g, c, i + 1, order + [m] + rest, fc0, fc2, n)
  {
    ElementsJoin(order, m, rest);
    assert LeftAfter(g, c, i, order, fc0, fc, n);
    TakeOne(g[c], i, n);
    PredsSplit(g, Elements(order), m, Elements(rest), n);
    assert fc2[n] == Monus(fc1[n], Hits(g, m, Elements(rest), n));
    assert n in Elements(rest) <==> fc1[n] > 0 && fc2[n] == 0;
    assert n in order + [m] + rest <==> n in order || n == m || n in rest;
  }

  lemma RevalidatePaid(g: Graph, c: nat, i: nat, order: seq<nat>, fc0: map<nat, nat>, fc: map<nat, nat>,
                       m: nat, rest: seq<nat>, fc1: map<nat, nat>, fc2: map<nat, nat>, j: nat)
    requires c in g && i < |g[c]| && NoDup(g[c]) && PropInv(g, c, i, order, fc0, fc)
    requires m == g[c][i] && m in g && m in fc && fc[m] == 1
    requires fc1 == fc[m := 0] && Propagated(g, m, rest, fc1, fc2)
    requires m !in order && m !in rest && Elements(order) !! Elements(rest) && j < |rest|
    ensures PaidUpTo(g, c, i + 1, fc0, order + [m] + rest, |order| + 1 + j)
  {
    var all, z := order + [m] + rest, rest[j];
    assert all[..|order| + 1 + j] == order + [m] + rest[..j];
    ElementsJoin(order, m, rest[..j]);
    assert PaidAt(g, m, fc1, rest, j);
    assert z in Elements(rest);
    assert LeftAfter(g, c, i, order, fc0, fc, z);
    TakeOne(g[c], i, z);
    PredsSplit(g, Elements(order), m, Elements(rest[..j]), z);
  }

  function Cleared(flag: map<nat, bool>, Z: set<nat>): map<nat, bool> {
    map n | n in flag :: flag[n] && n !in Z
  }

  function Raised(flag: map<nat, bool>, Z: set<nat>): map<nat, bool> {
    map n | n in flag :: flag[n] || n in Z
  }

  lemma FlagsAre(flag: map<nat, bool>, flag': map<nat, bool>, order: seq<nat>)
    ensures forall n: nat | n in flag ::
            n in Cleared(flag, Elements(order)) && Cleared(flag, Elements(order))[n] == (flag[n] && n !in order)
    ensures forall n: nat | n in flag' ::
            n in Raised(flag', Elements(order)) && Raised(flag', Elements(order))[n] == (flag'[n] || n in order)
  {
  }

  lemma NothingFlagged(flag: map<nat, bool>, flag': map<nat, bool>)
    ensures Cleared(flag, Elements([])) == flag && Raised(flag', Elements([])) == flag'
  {
  }

  lemma InvalidReach(g: Graph, D0: set<nat>, r: nat)
    ensures forall n: nat | n in InvalidSet(g, D0, r) :: Reach(g, r, n)
  {
    forall n: nat | n in InvalidSet(g, D0, r) ensures Reach(g, r, n) {
      var p :| AvoidingPath(g, D0, p) && p[0] == r && p[|p| - 1] == n;
      assert Path(g, p);
    }
  }

  /** At any time only nodes of the invalid set have been flagged, and counters have only grown. */
  lemma PassPartial(g: Graph, leaves: set<nat>, completed: set<nat>, D0: set<nat>, fc0: map<nat, nat>, r: nat,
                    done: map<nat, nat>, stack: seq<Frame>, flag: map<nat, bool>, fc: map<nat, nat>)
    requires PassInv(g, leaves, completed, D0, fc0, r, done, stack, flag, fc) && fc0.Keys == g.Keys && Closed(g)
    ensures D0 <= Flagged(flag) <= D0 + InvalidSet(g, D0, r)
    ensures Grown(g, fc0, fc)
  {
    forall n: nat | n in fc0 ensures n in fc && fc[n] >= fc0[n] {
      assert CountOk(g, done, fc0, fc, n);
    }
  }

  lemma PassStack(g: Graph, leaves: set<nat>, completed: set<nat>, D0: set<nat>, fc0: map<nat, nat>, r: nat,
                  done: map<nat, nat>, stack: seq<Frame>, flag: map<nat, bool>, fc: map<nat, nat>)
    requires PassInv(g, leaves, completed, D0, fc0, r, done, stack, flag, fc) && Closed(g)
    ensures StackOk(g, done, stack) && forall p: nat :: p in done ==> p in g && done[p] <= |g[p]|
    ensures forall stack': seq<Frame> | StackOk(g, done, stack') ::
              PassInv(g, leaves, completed, D0, fc0, r, done, stack', flag, fc)
  {
  }

  lemma NotAllComplete(g: Graph, D0: set<nat>, r: nat, checked: set<nat>)
    requires exists n: nat :: n in g && ReachAvoiding(g, D0, r, n) && n !in checked
    ensures !(InvalidSet(g, D0, r) <= checked)
  {
    var n: nat :| n in g && ReachAvoiding(g, D0, r, n) && n !in checked;
    assert n in InvalidSet(g, D0, r);
  }

  lemma StartInvalid(g: Graph, D0: set<nat>, r: nat)
    requires r in g
    ensures r in InvalidSet(g, D0, r)
  {
    AvoidRefl(g, D0, r);
  }

  ghost predicate Grown(g: Graph, fc0: map<nat, nat>, fc: map<nat, nat>) {
    forall n: nat | n in g :: n in fc0 && n in fc && fc[n] >= fc0[n]
  }

  class CallNodes {
    const outedges: Graph
    /** Dynamic (leaf) nodes, and the nodes whose tables are completed. */
    const leaves: set<nat>
    const completed: set<nat>
    var deleted: map<nat, bool>
    var falsecount: map<nat, nat>
    /** recomputable == COMPUTE_DEPENDENCIES_FIRST */
    var dependenciesFirst: map<nat, bool>

    ghost predicate Valid()
      reads this
    {
      && Closed(outedges)
      && (forall u: nat :: u in outedges ==> NoDup(outedges[u]))
      && deleted.Keys == falsecount.Keys == dependenciesFirst.Keys == outedges.Keys
      && (forall u: nat, v: nat :: Edge(outedges, u, v) ==> v !in leaves)
    }

    constructor (g: Graph, leaves: set<nat>, completed: set<nat>)
      requires Closed(g) && forall u: nat :: u in g ==> NoDup(g[u])
      requires forall u: nat, v: nat :: Edge(g, u, v) ==> v !in leaves
      ensures Valid() && outedges == g && this.leaves == leaves && this.completed == completed
      ensures Flagged(deleted) == {} && forall n: nat :: n in g ==> falsecount[n] == 0
    {
      outedges, this.leaves, this.completed := g, leaves, completed;
      deleted := map n | n in g :: false;
      falsecount := map n | n in g :: 0;
      dependenciesFirst := map n | n in g :: true;
    }

    /** The table error is raised for a node that is neither a leaf nor completed. */
    method CheckNonCompleted(n: nat) returns (ok: bool)
      ensures ok <==> n in leaves || n in completed
    {
      ok := n in leaves || n in completed;
    }

    /** The do-while part of the loop: pops frames until the top iterator can move. */
    method PopExhausted(ghost done: map<nat, nat>, stack0: seq<Frame>) returns (stack: seq<Frame>)
      requires StackOk(outedges, done, stack0)
      requires forall p: nat :: p in done ==> p in outedges && done[p] <= |outedges[p]|
      ensures StackOk(outedges, done, stack)
      ensures |stack| > 0 ==> stack[|stack| - 1].itr + 1 < |outedges[stack[|stack| - 1].cn]|
    {
      stack := stack0;
      while |stack| > 0
        invariant StackOk(outedges, done, stack)
        decreases |stack|
      {
        var top := |stack| - 1;
        if stack[top].itr + 1 < |outedges[stack[top].cn]| {
          return;
        }
        StackTop(outedges, done, stack);
        stack := stack[..top];
      }
    }

    /** Follows the next edge of the top frame. Returns false if the table error is raised. */
    method FollowEdge(ghost D0: set<nat>, ghost fc0: map<nat, nat>, ghost r: nat, ghost done: map<nat, nat>,
                      stack: seq<Frame>)
      returns (ok: bool, stack': seq<Frame>, ghost done': map<nat, nat>)
      requires Valid() && PassInv(outedges, leaves, completed, D0, fc0, r, done, stack, deleted, falsecount)
      requires |stack| > 0 && stack[|stack| - 1].itr + 1 < |outedges[stack[|stack| - 1].cn]|
      modifies this`deleted, this`falsecount
      ensures Valid()
      ensures ok ==> PassInv(outedges, leaves, completed, D0, fc0, r, done', stack', deleted, falsecount)
      ensures ok ==> ToDo(outedges, done') < ToDo(outedges, done)
      ensures !ok ==> exists n: nat ::
              n in outedges && ReachAvoiding(outedges, D0, r, n) && n !in leaves && n !in completed
      ensures var cn := outedges[stack[|stack| - 1].cn][stack[|stack| - 1].itr + 1];
              && cn in old(deleted) && (ok <==> old(deleted)[cn] || cn in leaves || cn in completed)
              && cn in old(falsecount) && (!ok ==> falsecount == old(falsecount)[cn := old(falsecount)[cn] + 1])
      ensures !ok ==> deleted == old(deleted)
    {
      hide PassInv, ToDo, StackOk;
      TopFollows(outedges, leaves, completed, D0, fc0, r, done, stack, deleted, falsecount);
      var p, k := stack[|stack| - 1].cn, stack[|stack| - 1].itr + 1;
      var cn := outedges[p][k];
      ok := true;
      if !deleted[cn] {
        ok := CheckNonCompleted(cn);
      }
      if deleted[cn] {
        stack', done' := CountSeen(D0, fc0, r, done, stack, p, k, cn);
      } else if ok {
        stack', done' := EnterFresh(D0, fc0, r, done, stack, p, k, cn);
      } else {
        falsecount := falsecount[cn := falsecount[cn] + 1];
        stack', done' := stack, done;
      }
    }

    /** An edge to a node already invalidated: one more predecessor. */
    method CountSeen(ghost D0: set<nat>, ghost fc0: map<nat, nat>, ghost r: nat, ghost done: map<nat, nat>,
                     stack: seq<Frame>, p: nat, k: nat, cn: nat)
      returns (stack': seq<Frame>, ghost done': map<nat, nat>)
      requires Valid() && PassInv(outedges, leaves, completed, D0, fc0, r, done, stack, deleted, falsecount)
      requires CanFollow(outedges, done, stack) && p == stack[|stack| - 1].cn && k == done[p]
      requires cn == outedges[p][k] && cn in deleted && deleted[cn]
      modifies this`falsecount
      ensures Valid() && PassInv(outedges, leaves, completed, D0, fc0, r, done', stack', deleted, falsecount)
      ensures ToDo(outedges, done') < ToDo(outedges, done)
    {
      hide PassInv, ToDo;
      falsecount := falsecount[cn := falsecount[cn] + 1];
      stack', done' := stack[..|stack| - 1] + [Frame(p, k)], done[p := k + 1];
      FollowSeen(outedges, leaves, completed, D0, fc0, r, done, stack, deleted, old(falsecount), p, k,
                 done', stack', falsecount);
    }

    /** An edge to a node not yet invalidated: it is, and its own edges come next. */
    method EnterFresh(ghost D0: set<nat>, ghost fc0: map<nat, nat>, ghost r: nat, ghost done: map<nat, nat>,
                      stack: seq<Frame>, p: nat, k: nat, cn: nat)
      returns (stack': seq<Frame>, ghost done': map<nat, nat>)
      requires Valid() && PassInv(outedges, leaves, completed, D0, fc0, r, done, stack, deleted, falsecount)
      requires CanFollow(outedges, done, stack) && p == stack[|stack| - 1].cn && k == done[p]
      requires cn == outedges[p][k] && cn in deleted && !deleted[cn] && cn in completed && cn !in leaves
      modifies this`deleted, this`falsecount
      ensures Valid() && PassInv(outedges, leaves, completed, D0, fc0, r, done', stack', deleted, falsecount)
      ensures ToDo(outedges, done') < ToDo(outedges, done)
    {
      hide PassInv, ToDo;
      falsecount := falsecount[cn := falsecount[cn] + 1];
      deleted := deleted[cn := true];
      stack', done' := stack[..|stack| - 1] + [Frame(p, k)] + [Frame(cn, -1)], done[p := k + 1][cn := 0];
      FollowFresh(outedges, leaves, completed, D0, fc0, r, done, stack, old(deleted), old(falsecount), p, k, cn,
                  done', stack', deleted, falsecount);
    }

    /** Invalidates cn and all it affects. Returns false if an incomplete table is met, which happens exactly when one
        would have been invalidated, leaves aside; then some of the affected nodes may have been flagged and counted. */
    method InvalidateCall(cn: nat) returns (ok: bool)
      requires Valid() && cn in outedges
      modifies this`deleted, this`falsecount
      ensures Valid()
      ensures old(deleted)[cn] ==> ok && deleted == old(deleted) && falsecount == old(falsecount)
      ensures !old(deleted)[cn] ==>
                && (ok <==> InvalidSet(outedges, Flagged(old(deleted)), cn) <= leaves + completed)
                && (ok ==> Invalidated(outedges, leaves, cn, InvalidSet(outedges, Flagged(old(deleted)), cn),
                                       Flagged(old(deleted)), old(falsecount), Flagged(deleted), falsecount))
      ensures (forall n: nat | Reach(outedges, cn, n) && n !in leaves :: n in completed) ==> ok
      ensures Flagged(old(deleted)) <= Flagged(deleted) <= Flagged(old(deleted))
              + InvalidSet(outedges, Flagged(old(deleted)), cn)
      ensures Grown(outedges, old(falsecount), falsecount)
    {
      ok := true;
      if !deleted[cn] {
        falsecount := falsecount[cn := falsecount[cn] + 1];
        ok := DfsOutEdges(cn, old(falsecount));
        InvalidReach(outedges, Flagged(old(deleted)), cn);
      }
    }

    method DfsOutEdges(r: nat, ghost fc00: map<nat, nat>) returns (ok: bool)
      requires Valid() && r in outedges && !deleted[r]
      requires r in fc00 && falsecount == fc00[r := fc00[r] + 1]
      modifies this`deleted, this`falsecount
      ensures Valid()
      ensures ok <==> InvalidSet(outedges, Flagged(old(deleted)), r) <= leaves + completed
      ensures ok ==> Invalidated(outedges, leaves, r, InvalidSet(outedges, Flagged(old(deleted)), r),
                                 Flagged(old(deleted)), fc00, Flagged(deleted), falsecount)
      ensures Flagged(old(deleted)) <= Flagged(deleted) <= Flagged(old(deleted))
              + InvalidSet(outedges, Flagged(old(deleted)), r)
      ensures Grown(outedges, old(falsecount), falsecount)
    {
      hide PassInv, ToDo, InvalidSet, Invalidated, StackOk;
      ghost var D0, fc0 := Flagged(deleted), falsecount;
      ok := CheckNonCompleted(r);
      if !ok {
        StartInvalid(outedges, D0, r);
        return;
      }
      PassStart(outedges, leaves, completed, D0, fc0, r, deleted);
      if r !in leaves {
        deleted := deleted[r := true];
      }
      var stack: seq<Frame> := [];
      if |outedges[r]| > 0 {
        stack := [Frame(r, -1)];
      }
      ghost var done: map<nat, nat> := map[r := 0];
      while |stack| > 0
        invariant Valid() && PassInv(outedges, leaves, completed, D0, fc0, r, done, stack, deleted, falsecount)
        decreases ToDo(outedges, done)
      {
        PassStack(outedges, leaves, completed, D0, fc0, r, done, stack, deleted, falsecount);
        stack := PopExhausted(done, stack);
        if |stack| == 0 {
          break;
        }
        PassPartial(outedges, leaves, completed, D0, fc0, r, done, stack, deleted, falsecount);
        ok, stack, done := FollowEdge(D0, fc0, r, done, stack);
        if !ok {
          NotAllComplete(outedges, D0, r, leaves + completed);
          return;
        }
      }
      PassPartial(outedges, leaves, completed, D0, fc0, r, done, stack, deleted, falsecount);
      PassOver(outedges, leaves, completed, D0, fc0, fc00, r, done, deleted, falsecount);
    }

    /** Reports that c did not change; order is the sequence of revalidated nodes. */
    method PropagateNoChange(c: nat) returns (ghost order: seq<nat>)
      requires Valid() && c in outedges
      modifies this`deleted, this`falsecount, this`dependenciesFirst
      ensures Valid()
      ensures Propagated(outedges, c, order, old(falsecount), falsecount)
      ensures deleted == Cleared(old(deleted), Elements(order))
      ensures dependenciesFirst == Raised(old(dependenciesFirst), Elements(order))
      ensures forall n: nat | n in outedges :: deleted[n] == (old(deleted)[n] && n !in order)
      ensures forall n: nat | n in outedges :: dependenciesFirst[n] == (old(dependenciesFirst)[n] || n in order)
      decreases set n | n in falsecount && falsecount[n] > 0, 0
    {
      hide PropInv, Propagated, Cleared, Raised;
      ghost var fc0 := falsecount;
      order := [];
      PropStart(outedges, c, fc0);
      NothingFlagged(deleted, dependenciesFirst);
      var i := 0;
      while i < |outedges[c]|
        invariant i <= |outedges[c]| && Valid()
        invariant PropInv(outedges, c, i, order, fc0, falsecount)
        invariant deleted == Cleared(old(deleted), Elements(order))
        invariant dependenciesFirst == Raised(old(dependenciesFirst), Elements(order))
      {
        var cn := outedges[c][i];
        assert Edge(outedges, c, cn);
        ghost var fc := falsecount;
        if falsecount[cn] > 0 {
          falsecount := falsecount[cn := falsecount[cn] - 1];
          if falsecount[cn] == 0 {
            StillPositive(outedges, c, i, order, fc0, fc, falsecount, cn);
            ghost var fc1 := falsecount;
            ghost var rest := Revalidate(cn);
            PropRevalidate(outedges, c, i, order, fc0, fc, cn, rest, fc1, falsecount);
            ClearedJoin(old(deleted), order, cn, rest);
            RaisedJoin(old(dependenciesFirst), order, cn, rest);
            order := order + [cn] + rest;
          } else {
            PropCount(outedges, c, i, order, fc0, fc, falsecount);
          }
        } else {
          assert fc[cn := 0] == fc;
          PropCount(outedges, c, i, order, fc0, fc, falsecount);
        }
        i := i + 1;
      }
      PropDone(outedges, c, order, fc0, falsecount);
      FlagsAre(old(deleted), old(dependenciesFirst), order);
    }

    /** Clears a node whose counter has dropped to zero and reports it unchanged. */
    method Revalidate(m: nat) returns (ghost rest: seq<nat>)
      requires Valid() && m in outedges && falsecount[m] == 0
      modifies this`deleted, this`falsecount, this`dependenciesFirst
      ensures Valid()
      ensures Propagated(outedges, m, rest, old(falsecount), falsecount)
      ensures deleted == Cleared(old(deleted)[m := false], Elements(rest))
      ensures dependenciesFirst == Raised(old(dependenciesFirst)[m := true], Elements(rest))
      decreases set n | n in falsecount && falsecount[n] > 0, 1
    {
      deleted := deleted[m := false];
      dependenciesFirst := dependenciesFirst[m := true];
      rest := PropagateNoChange(m);
    }

    /** From a clean state, invalidates r and then reports that r did not change.
        Everything but r is clean again exactly when no cycle runs through the other invalid nodes. */
    method InvalidateThenUnchanged(r: nat) returns (ok: bool)
      requires Valid() && r in outedges
      requires Flagged(deleted) == {} && forall n: nat :: n in falsecount ==> falsecount[n] == 0
      modifies this`deleted, this`falsecount, this`dependenciesFirst
      ensures Valid()
      ensures ok <==> InvalidSet(outedges, {}, r) <= leaves + completed
      ensures ok ==> (Undone(r, falsecount) <==> AcyclicWithin(outedges, InvalidSet(outedges, {}, r) - {r}))
      ensures ok ==> (Undone(r, falsecount) <==> Flagged(deleted) == {r} - leaves)
    {
      ghost var N, fc0 := InvalidSet(outedges, {}, r), falsecount;
      assert !deleted[r] by {
        assert r !in Flagged(deleted);
      }
      ok := InvalidateCall(r);
      if ok {
        ghost var flag1, fc1 := deleted, falsecount;
        ghost var order := PropagateNoChange(r);
        UndoFlags(outedges, leaves, r, N, fc0, flag1, fc1, order, falsecount);
      }
    }
  }

  lemma UndoFlags(g: Graph, leaves: set<nat>, r: nat, N: set<nat>, fc0: map<nat, nat>,
                  flag1: map<nat, bool>, fc1: map<nat, nat>, order: seq<nat>, fc2: map<nat, nat>)
    requires Invalidated(g, leaves, r, N, {}, fc0, Flagged(flag1), fc1)
    requires Propagated(g, r, order, fc1, fc2)
    requires N <= fc0.Keys && forall n: nat :: n in fc0 ==> fc0[n] == 0
    requires forall u: nat, v: nat :: Edge(g, u, v) ==> v !in leaves
    ensures Undone(r, fc2) <==> AcyclicWithin(g, N - {r})
    ensures Undone(r, fc2) <==> Flagged(Cleared(flag1, Elements(order))) == {r} - leaves
  {
    UndoExactly(g, leaves, r, N, fc0, Flagged(flag1), fc1, order, fc2);
    UndoOrder(g, leaves, r, N, fc0, Flagged(flag1), fc1, order, fc2);
    ClearedFlags(flag1, Elements(order));
    LeftoverFlags(N, Elements(order), leaves, r);
    InvalidFlags(g, leaves, r, N, fc0, Flagged(flag1), fc1);
  }

  lemma UndoOrder(g: Graph, leaves: set<nat>, r: nat, N: set<nat>, fc0: map<nat, nat>,
                  D1: set<nat>, fc1: map<nat, nat>, order: seq<nat>, fc2: map<nat, nat>)
    requires Invalidated(g, leaves, r, N, {}, fc0, D1, fc1)
    requires Propagated(g, r, order, fc1, fc2)
    requires forall n: nat :: n in fc0 ==> fc0[n] == 0
    ensures r in N && Elements(order) <= N - {r}
  {
    AvoidRefl(g, {}, r);
    RevalidatedAfterPredecessors(g, leaves, r, N, fc0, D1, fc1, order, fc2);
    OnlyInvalid(g, r, N, order);
  }

  lemma InvalidFlags(g: Graph, leaves: set<nat>, r: nat, N: set<nat>, fc0: map<nat, nat>, D1: set<nat>,
                     fc1: map<nat, nat>)
    requires Invalidated(g, leaves, r, N, {}, fc0, D1, fc1)
    requires forall u: nat, v: nat :: Edge(g, u, v) ==> v !in leaves
    ensures D1 == N - ({r} * leaves)
  {
    LeavesUnreached(g, leaves, r, N);
  }

  lemma ClearedFlags(flag: map<nat, bool>, Z: set<nat>)
    ensures Flagged(Cleared(flag, Z)) == Flagged(flag) - Z
  {
  }

  lemma LeftoverFlags(N: set<nat>, E: set<nat>, leaves: set<nat>, r: nat)
    requires r in N && E <= N - {r}
    ensures (N - ({r} * leaves)) - E == {r} - leaves <==> E == N - {r}
  {
    var left := (N - ({r} * leaves)) - E;
    if left == {r} - leaves {
      forall n | n in N - {r} ensures n in E {
        assert n !in left;
      }
    }
  }

  /** Nothing but r itself can be an invalid leaf, since leaves have no in-edges. */
  lemma LeavesUnreached(g: Graph, leaves: set<nat>, r: nat, N: set<nat>)
    requires Invalid(g, {}, r, N)
    requires forall u: nat, v: nat :: Edge(g, u, v) ==> v !in leaves
    ensures N * leaves <= {r}
  {
    forall n | n in N * leaves ensures n == r {
      if n != r {
        assert Preds(g, N, n) == {};
        InvalidHasPred(g, r, N, n);
      }
    }
  }

  lemma ClearedJoin(flag: map<nat, bool>, order: seq<nat>, m: nat, rest: seq<nat>)
    requires m in flag
    ensures Cleared(Cleared(flag, Elements(order))[m := false], Elements(rest)) ==
            Cleared(flag, Elements(order + [m] + rest))
  {
    ElementsJoin(order, m, rest);
  }

  lemma RaisedJoin(flag: map<nat, bool>, order: seq<nat>, m: nat, rest: seq<nat>)
    requires m in flag
    ensures Raised(Raised(flag, Elements(order))[m := true], Elements(rest)) ==
            Raised(flag, Elements(order + [m] + rest))
  {
    ElementsJoin(order, m, rest);
  }

  /** The positive counters shrink, so the recursion ends. */
  lemma StillPositive(g: Graph, c: nat, i: nat, order: seq<nat>, fc0: map<nat, nat>, fc: map<nat, nat>,
                      fc1: map<nat, nat>, m: nat)
    requires c in g && i < |g[c]| && PropInv(g, c, i, order, fc0, fc)
    requires m in fc && fc[m] == 1 && fc1 == fc[m := 0]
    ensures (set n | n in fc1 && fc1[n] > 0) < (set n | n in fc0 && fc0[n] > 0)
  {
    forall n | n in fc && fc[n] > 0 ensures fc0[n] > 0 {
      assert LeftAfter(g, c, i, order, fc0, fc, n);
    }
    var S0, S1 := (set n | n in fc0 && fc0[n] > 0), (set n | n in fc1 && fc1[n] > 0);
    assert m in S0 && m !in S1;
    assert S1 <= S0;
  }
}
