/** Building the list of calls to recompute, walking in-edges backwards. */
module RecomputeOrder {
  import opened Graphs
  import opened Sequences
  import opened InvalidationFacts

  /** The backward graph: from a call to the affected calls it depends on. */
  function Back(inedges: Graph, affected: set<nat>): (b: Graph)
    ensures forall u: nat, v: nat :: Edge(b, u, v) <==> Edge(inedges, u, v) && v in affected
  {
    assert forall u: nat | u in inedges :: forall v: nat ::
        v in KeepIn(inedges[u], affected) <==> v in inedges[u] && v in affected by {
      forall u: nat | u in inedges ensures forall v: nat ::
          v in KeepIn(inedges[u], affected) <==> v in inedges[u] && v in affected
      {
        KeepIfMember(inedges[u], MemberOf(affected));
      }
    }
    map v | v in inedges :: KeepIn(inedges[v], affected)
  }

  /** The nodes blackened between D0 and D1 by a visit to c. */
  ghost predicate Blackened(B: Graph, D0: set<nat>, c: nat, D1: set<nat>) {
    && D0 <= D1 && c in D1
    && (forall n: nat {:trigger ReachAvoiding(B, D0, c, n)} :: n in D1 && n !in D0 ==> ReachAvoiding(B, D0, c, n))
    && (forall n: nat, m: nat :: n in D1 && n !in D0 && Edge(B, n, m) ==> m in D1)
  }

  /** Calls come nearer the head than the calls they depend on, cycles apart. */
  ghost predicate Ordered(B: Graph, list: seq<nat>) {
    forall i: nat, j: nat {:trigger Edge(B, list[i], list[j])} ::
      i < |list| && j < |list| && Edge(B, list[i], list[j]) && !Reach(B, list[j], list[i]) ==> i < j
  }

  /** added lists the blackened calls other than leaves, each once and in order. */
  ghost predicate Listed(B: Graph, leaves: set<nat>, D0: set<nat>, D1: set<nat>, added: seq<nat>) {
    && NoDup(added)
    && (forall n: nat :: n in added <==> n in D1 && n !in D0 && n !in leaves)
    && Ordered(B, added)
  }

  /** A visit blackens exactly the nodes reachable through white ones. */
  lemma BlackenedExactly(B: Graph, D0: set<nat>, c: nat, D1: set<nat>, n: nat)
    requires Blackened(B, D0, c, D1) && c !in D0
    ensures n in D1 <==> n in D0 || ReachAvoiding(B, D0, c, n)
  {
    if ReachAvoiding(B, D0, c, n) {
      AvoidStays(B, D0, D1 - D0, c, n);
    }
  }

  lemma AvoidLess(B: Graph, D0: set<nat>, D1: set<nat>, c: nat, n: nat)
    requires ReachAvoiding(B, D1, c, n) && D0 <= D1
    ensures ReachAvoiding(B, D0, c, n)
  {
    var p :| AvoidingPath(B, D1, p) && p[0] == c && p[|p| - 1] == n;
    assert AvoidingPath(B, D0, p);
  }

  lemma AvoidCons(B: Graph, D0: set<nat>, c: nat, b: nat, n: nat)
    requires Edge(B, c, b) && b !in D0 && ReachAvoiding(B, D0, b, n)
    ensures ReachAvoiding(B, D0, c, n)
  {
    var p :| AvoidingPath(B, D0, p) && p[0] == b && p[|p| - 1] == n;
    var q := [c] + p;
    forall k | 0 <= k < |q| - 1 ensures Edge(B, q[k], q[k + 1]) {
      if k > 0 {
        assert Edge(B, p[k - 1], p[k]);
      }
    }
    assert AvoidingPath(B, D0, q) && q[0] == c && q[|q| - 1] == n;
  }

  lemma AvoidIsReach(B: Graph, D0: set<nat>, c: nat, n: nat)
    requires ReachAvoiding(B, D0, c, n)
    ensures Reach(B, c, n)
  {
    var p :| AvoidingPath(B, D0, p) && p[0] == c && p[|p| - 1] == n;
    assert Path(B, p);
  }

  // ------------------------------------------------------------------
  // The loop over the in-edges of c.

  ghost predicate LoopInv(B: Graph, leaves: set<nat>, D0: set<nat>, c: nat, D: set<nat>, added: seq<nat>) {
    && D0 <= D && c in D && c !in D0 && c !in added
    && (forall n: nat {:trigger ReachAvoiding(B, D0, c, n)} :: n in D && n !in D0 ==> ReachAvoiding(B, D0, c, n))
    && (forall n: nat, m: nat :: n in D && n !in D0 && n != c && Edge(B, n, m) ==> m in D)
    && NoDup(added)
    && (forall n: nat :: n in added <==> n in D && n !in D0 && n != c && n !in leaves)
    && Ordered(B, added)
  }

  /** Two lists of finished calls, the later one in front. */
  lemma OrderedJoin(B: Graph, rec: seq<nat>, added: seq<nat>)
    requires Ordered(B, rec) && Ordered(B, added)
    requires forall u: nat, v: nat :: u in added && v in rec ==> !Edge(B, u, v)
    ensures Ordered(B, rec + added)
  {
    var all := rec + added;
    forall i: nat, j: nat | i < |all| && j < |all| && Edge(B, all[i], all[j]) && !Reach(B, all[j], all[i]) ensures i < j
    {
      assert j < |rec| ==> all[j] in rec;
      if i >= |rec| {
        assert all[i] == added[i - |rec|] && all[i] in added;
        if j >= |rec| {
          assert all[j] == added[j - |rec|];
        }
      } else if j < |rec| {
        assert all[i] == rec[i] && all[j] == rec[j];
      }
    }
  }

  lemma LoopVisit(B: Graph, leaves: set<nat>, D0: set<nat>, c: nat, D: set<nat>, added: seq<nat>,
                  b: nat, D1: set<nat>, rec: seq<nat>)
    requires LoopInv(B, leaves, D0, c, D, added) && Edge(B, c, b) && b !in D
    requires Blackened(B, D, b, D1) && Listed(B, leaves, D, D1, rec)
    ensures LoopInv(B, leaves, D0, c, D1, rec + added)
  {
    forall n: nat | n in D1 && n !in D0 ensures ReachAvoiding(B, D0, c, n) {
      if n !in D {
        assert ReachAvoiding(B, D, b, n);
        AvoidLess(B, D0, D, b, n);
        AvoidCons(B, D0, c, b, n);
      }
    }
    forall u: nat, v: nat | u in added && v in rec ensures !Edge(B, u, v) {}
    OrderedJoin(B, rec, added);
    NoDupConcat(rec, added);
  }

  lemma LoopStart(B: Graph, leaves: set<nat>, D0: set<nat>, c: nat)
    requires c !in D0
    ensures LoopInv(B, leaves, D0, c, D0 + {c}, [])
  {
    AvoidRefl(B, D0, c);
  }

  /** c goes to the head of the list after its loop. */
  lemma LoopOver(B: Graph, leaves: set<nat>, D0: set<nat>, c: nat, D: set<nat>, added: seq<nat>)
    requires LoopInv(B, leaves, D0, c, D, added)
    requires forall m: nat :: Edge(B, c, m) ==> m in D
    ensures Blackened(B, D0, c, D)
    ensures Listed(B, leaves, D0, D, if c in leaves then added else [c] + added)
  {
    var all := [c] + added;
    NoDupCons(c, added);
    forall i: nat, j: nat | i < |all| && j < |all| && Edge(B, all[i], all[j]) && !Reach(B, all[j], all[i]) ensures i < j
    {
      if i > 0 {
        assert all[i] == added[i - 1] && all[i] in added;
        assert ReachAvoiding(B, D0, c, all[i]);
        AvoidIsReach(B, D0, c, all[i]);
        assert all[j] == added[j - 1];
      } else {
        ReachRefl(B, c);
      }
    }
  }

  class CallList {
    const inedges: Graph
    /** Calls with a positive falsecount whose goal is not null. */
    const affected: set<nat>
    const leaves: set<nat>
    const completed: set<nat>
    /** recomputable == COMPUTE_DEPENDENCIES_FIRST */
    var dependenciesFirst: map<nat, bool>
    var lazyAffected: seq<nat>

    ghost function B(): Graph {
      Back(inedges, affected)
    }

    ghost function Black(): set<nat>
      reads this
    {
      set n | n in dependenciesFirst && !dependenciesFirst[n]
    }

    ghost predicate Valid()
      reads this
    {
      && dependenciesFirst.Keys == inedges.Keys
      && Closed(inedges)
    }

    predicate Checked(n: nat) {
      n in leaves || n in completed
    }

    /** c or a call met on an in-edge while walking back from c raises the table error. */
    ghost predicate MeetsIncomplete(D0: set<nat>, c: nat) {
      || !Checked(c)
      || exists p: nat, n: nat :: MetUnchecked(D0, c, p, n)
    }

    ghost predicate MetUnchecked(D0: set<nat>, c: nat, p: nat, n: nat) {
      c !in D0 && ReachAvoiding(B(), D0, c, p) && Edge(B(), p, n) && !Checked(n)
    }

    /** The table error is raised exactly if c, or an affected call on an in-edge of a call walked back to from an
        unvisited c, is neither a leaf nor completed. */
    /** The call is a leaf or completed and, unless it is in D0, so is every affected call on an in-edge of a call it
        reaches outside of D0. */
    ghost predicate OnlyLeavesOrCompleted(D0: set<nat>, c: nat)
      reads this
    {
      && (c in leaves || c in completed)
      && (c !in D0 ==>
            forall p: nat, n: nat | ReachAvoiding(B(), D0, c, p) && Edge(inedges, p, n) && n in affected ::
              n in leaves || n in completed)
    }

    lemma MeetsExactly(D0: set<nat>, c: nat)
      requires Closed(inedges) && c in inedges
      ensures !MeetsIncomplete(D0, c) <==> OnlyLeavesOrCompleted(D0, c)
      ensures inedges.Keys <= leaves + completed ==> !MeetsIncomplete(D0, c)
    {
      if MeetsIncomplete(D0, c) && Checked(c) {
        var p: nat, n: nat :| MetUnchecked(D0, c, p, n);
        assert Edge(inedges, p, n);
      } else if !MeetsIncomplete(D0, c) {
        forall p: nat, n: nat | c !in D0 && ReachAvoiding(B(), D0, c, p) && Edge(inedges, p, n) && n in affected
          ensures n in leaves || n in completed
        {
          assert Edge(B(), p, n) && !MetUnchecked(D0, c, p, n);
        }
      }
    }

    /** Adds call1 and the affected calls behind it to the list. Returns false on the table error, which empties the
        list; with all tables completed there is none. */
    method DfsDependencyEdges(call1: nat) returns (ok: bool)
      requires Valid() && call1 in inedges
      modifies this
      ensures Valid() && Black() >= old(Black())
      ensures ok == !MeetsIncomplete(old(Black()), call1)
      ensures ok <==> old(OnlyLeavesOrCompleted(Black(), call1))
      ensures inedges.Keys <= leaves + completed ==> ok
      ensures !ok ==> lazyAffected == []
      ensures ok && call1 in old(Black()) ==>
                dependenciesFirst == old(dependenciesFirst) && lazyAffected == old(lazyAffected)
      ensures ok && call1 !in old(Black()) ==>
                && Blackened(B(), old(Black()), call1, Black())
                && exists added :: lazyAffected == added + old(lazyAffected)
                                && Listed(B(), leaves, old(Black()), Black(), added)
      decreases inedges.Keys - Black(), 0
    {
      MeetsExactly(Black(), call1);
      hide OnlyLeavesOrCompleted, LoopInv, Blackened, ReachAvoiding, Listed, AllChecked;
      ok := Checked(call1);
      if !ok {
        lazyAffected := [];
        return;
      }
      if !dependenciesFirst[call1] {
        assert call1 in old(Black());
        return;
      }
      ghost var D0, list0 := Black(), lazyAffected;
      dependenciesFirst := dependenciesFirst[call1 := false];
      assert Black() == D0 + {call1};
      LoopStart(B(), leaves, D0, call1);
      ghost var added;
      ok, added := WalkInEdges(call1, D0, list0);
      if !ok {
        return;
      }
      AllSeen(call1, Black());
      LoopOver(B(), leaves, D0, call1, Black(), added);
      NothingMet(D0, call1, Black());
      if call1 !in leaves {
        lazyAffected := [call1] + lazyAffected;
        added := [call1] + added;
      }
      assert lazyAffected == added + list0;
    }

    /** The loop over the in-edges of call1. */
    method WalkInEdges(call1: nat, ghost D0: set<nat>, ghost list0: seq<nat>) returns (ok: bool, ghost added: seq<nat>)
      requires Valid() && call1 in inedges && D0 <= Black()
      requires LoopInv(B(), leaves, D0, call1, Black(), []) && lazyAffected == list0
      requires AllChecked(Black() - D0 - {call1})
      modifies this
      ensures Valid() && Black() >= old(Black())
      ensures !ok ==> MeetsIncomplete(D0, call1) && lazyAffected == []
      ensures ok ==>
                && LoopInv(B(), leaves, D0, call1, Black(), added) && lazyAffected == added + list0
                && AllChecked(Black() - D0 - {call1})
                && forall k | 0 <= k < |inedges[call1]| :: Seen(inedges[call1][k], Black())
      decreases inedges.Keys - Black(), 2
    {
      ok, added := true, [];
      var i := 0;
      while i < |inedges[call1]|
        invariant i <= |inedges[call1]| && Valid() && Black() >= old(Black()) && D0 <= Black()
        invariant LoopInv(B(), leaves, D0, call1, Black(), added)
        invariant ok && lazyAffected == added + list0
        invariant forall k | 0 <= k < i :: Seen(inedges[call1][k], Black())
        invariant AllChecked(Black() - D0 - {call1})
      {
        var b := inedges[call1][i];
        assert Edge(inedges, call1, b);
        if b in affected {
          ok, added := FollowInEdge(call1, b, D0, added, list0);
          if !ok {
            return;
          }
        }
        i := i + 1;
      }
    }

    /** Walks on from an affected call on an in-edge of call1. */
    method FollowInEdge(call1: nat, b: nat, ghost D0: set<nat>, ghost added: seq<nat>, ghost list0: seq<nat>)
      returns (ok: bool, ghost added': seq<nat>)
      requires Valid() && b in inedges && Edge(B(), call1, b) && D0 <= Black()
      requires LoopInv(B(), leaves, D0, call1, Black(), added) && lazyAffected == added + list0
      requires AllChecked(Black() - D0 - {call1})
      modifies this
      ensures Valid() && Black() >= old(Black())
      ensures !ok ==> MeetsIncomplete(D0, call1) && lazyAffected == []
      ensures ok ==>
                && LoopInv(B(), leaves, D0, call1, Black(), added') && lazyAffected == added' + list0
                && AllChecked(Black() - D0 - {call1}) && Seen(b, Black())
      decreases inedges.Keys - Black(), 1
    {
      ghost var D := Black();
      added' := added;
      ok := DfsDependencyEdges(b);
      if !ok {
        MeetsThrough(D0, call1, D, b);
      } else if b !in D {
        ghost var rec :| lazyAffected == rec + (added + list0) && Listed(B(), leaves, D, Black(), rec);
        LoopVisit(B(), leaves, D0, call1, D, added, b, Black(), rec);
        VisitChecked(D0, call1, D, b, Black());
        assert rec + (added + list0) == rec + added + list0;
        added' := rec + added;
      }
    }

    /** An in-edge already dealt with: not affected, or black and checked. */
    predicate Seen(b: nat, D: set<nat>) {
      b in affected ==> b in D && Checked(b)
    }

    /** Every affected call a node of S depends on has passed the table check. */
    ghost predicate AllChecked(S: set<nat>) {
      forall p: nat, n: nat :: p in S && Edge(B(), p, n) ==> Checked(n)
    }

    lemma MeetsThrough(D0: set<nat>, c: nat, D: set<nat>, b: nat)
      requires c !in D0 && D0 <= D && Edge(B(), c, b) && MeetsIncomplete(D, b)
      ensures MeetsIncomplete(D0, c)
    {
      AvoidRefl(B(), D0, c);
      if !Checked(b) {
        assert MetUnchecked(D0, c, c, b);
      } else {
        var p: nat, n: nat :| MetUnchecked(D, b, p, n);
        AvoidLess(B(), D0, D, b, p);
        AvoidCons(B(), D0, c, b, p);
        assert MetUnchecked(D0, c, p, n);
      }
    }

    lemma VisitChecked(D0: set<nat>, c: nat, D: set<nat>, b: nat, D1: set<nat>)
      requires D0 <= D && c in D && AllChecked(D - D0 - {c})
      requires Blackened(B(), D, b, D1) && b !in D && !MeetsIncomplete(D, b)
      ensures AllChecked(D1 - D0 - {c})
    {
      forall p: nat, n: nat | p in D1 - D0 - {c} && Edge(B(), p, n) ensures Checked(n) {
        if p !in D {
          assert ReachAvoiding(B(), D, b, p);
          assert !MetUnchecked(D, b, p, n);
        }
      }
    }

    lemma AllSeen(c: nat, D: set<nat>)
      requires c in inedges && forall k | 0 <= k < |inedges[c]| :: Seen(inedges[c][k], D)
      ensures forall n: nat :: Edge(B(), c, n) ==> n in D && Checked(n)
    {
      forall n: nat | Edge(B(), c, n) ensures n in D && Checked(n) {
        var k :| 0 <= k < |inedges[c]| && inedges[c][k] == n;
        assert Seen(inedges[c][k], D);
      }
    }

    lemma NothingMet(D0: set<nat>, c: nat, D1: set<nat>)
      requires Blackened(B(), D0, c, D1) && c !in D0 && Checked(c)
      requires AllChecked(D1 - D0 - {c})
      requires forall n: nat :: Edge(B(), c, n) ==> Checked(n)
      ensures !MeetsIncomplete(D0, c)
    {
      forall p: nat, n: nat ensures !MetUnchecked(D0, c, p, n) {
        if ReachAvoiding(B(), D0, c, p) && Edge(B(), p, n) {
          BlackenedExactly(B(), D0, c, D1, p);
          AvoidOutside(B(), D0, c, p);
        }
      }
    }
  }

  lemma AvoidOutside(B: Graph, D0: set<nat>, c: nat, n: nat)
    requires ReachAvoiding(B, D0, c, n) && c !in D0
    ensures n !in D0
  {
    var p :| AvoidingPath(B, D0, p) && p[0] == c && p[|p| - 1] == n;
    assert p[|p| - 1] !in D0;
  }

  /** Main result. With no call visited before, the list holds exactly the calls other than leaves
      that c depends on through affected calls; without cycles every call comes before the calls it
      depends on. */
  lemma RecomputeListExact(B: Graph, leaves: set<nat>, c: nat, D1: set<nat>, list: seq<nat>)
    requires Blackened(B, {}, c, D1) && Listed(B, leaves, {}, D1, list)
    ensures NoDup(list)
    ensures forall n: nat :: n in list <==> Reach(B, c, n) && n !in leaves
    ensures Acyclic(B) ==> forall i: nat, j: nat :: i < |list| && j < |list| && Edge(B, list[i], list[j]) ==> i < j
  {
    forall n: nat ensures n in D1 <==> Reach(B, c, n) {
      BlackenedExactly(B, {}, c, D1, n);
      AvoidForwardClosed(B, {}, c, n);
    }
    if Acyclic(B) {
      forall i: nat, j: nat | i < |list| && j < |list| && Edge(B, list[i], list[j]) ensures i < j {
        AcyclicNoCycle(B, list[i], list[j]);
      }
    }
  }
}
