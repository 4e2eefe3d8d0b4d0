/** Retracting clauses, now or at a later garbage collection. */
module ClauseReclamation {
  import opened Sequences
  import opened ClauseChains
  import opened IndexSpec
  import opened ClauseIndex
  import opened ReclaimSpec

  class Reclaimer {
    const pred: IndexedPred
    /** The choice point stack, from the top. */
    var cps: seq<Cp>
    var marked: set<Ref>
    /** Clauses whose entry instruction fails. */
    var failed: set<nat>
    /** Retracted clauses whose space is not reclaimed yet, and the marks of their frames. */
    var delcf: seq<nat>
    var frameMarked: set<nat>
    var retractNum: nat
    /** SOB records left in their chain with a failing instruction. */
    var failedSobs: set<nat>

    ghost predicate Safe()
      reads this, pred, pred.store
    {
      pred.ValidShape() && AllAlive(pred.store.chains, cps)
    }

    ghost predicate Listed(k: nat)
      reads this, pred, pred.store
    {
      pred.ValidShape() && Clause(k) in pred.ShapeScan()
    }

    ghost predicate Valid()
      reads this, pred, pred.store
    {
      Safe() && marked == {} && Deferred()
    }

    /** Deferred clauses are still in the chains and fail when entered. */
    ghost predicate Deferred()
      reads this, pred, pred.store
    {
      && NoDup(delcf) && frameMarked <= Elements(delcf)
      && forall k | k in delcf :: Listed(k) && k in failed
    }

    constructor (p: IndexedPred, stack: seq<Cp>)
      requires p.ValidShape() && AllAlive(p.store.chains, stack)
      ensures Valid() && pred == p && cps == stack && delcf == [] && failed == {}
    {
      pred, cps, marked, failed, delcf, frameMarked, retractNum, failedSobs := p, stack, {}, {}, [], {}, 0, {};
    }

    // ---- marking ------------------------------------------------------

    predicate Dynamic(x: Ref)
      reads this, pred, pred.store
    {
      x in pred.store.op && (pred.store.op[x] == DynRetryOp || pred.store.op[x] == DynTrustOp)
    }

    /** The instruction of a live element is a dynamic retry or trust, which is what the markers look for. */
    lemma AliveIsDynamic(x: Ref)
      requires pred.ValidShape() && Alive(pred.store.chains, x)
      ensures Dynamic(x)
    {
      var g: Ref, i: nat :| g in pred.store.chains && 1 <= i < |pred.store.chains[g]| && pred.store.chains[g][i] == x;
      pred.LinkOf(g, i);
    }

    /** Marks the records choice points are in, until one is in clause k or in a difficult block. */
    method MarkCpStack(k: nat) returns (found: bool)
      requires Safe() && marked == {}
      modifies this`marked
      ensures found == (exists c :: c in cps && (c.BlockCp? || (c.DynCp? && Base(c.at) == Clause(k))))
      ensures marked <= Bases(cps) && (!found ==> marked == Bases(cps))
    {
      found := false;
      var i := 0;
      while i < |cps| && !found
        invariant i <= |cps| && marked <= Bases(cps)
        invariant found == (exists c :: c in cps[..i] && (c.BlockCp? || (c.DynCp? && Base(c.at) == Clause(k))))
        invariant !found ==> marked == Bases(cps[..i])
      {
        var c := cps[i];
        assert cps[..i + 1] == cps[..i] + [c] && c in cps;
        if c.DynCp? {
          AliveIsDynamic(c.at);
        }
        if c.DynCp? && Dynamic(c.at) {
          if Base(c.at) == Clause(k) {
            found := true;
          } else {
            marked := marked + {Base(c.at)};
          }
        } else if c.BlockCp? {
          found := true;
        }
        i := i + 1;
      }
      assert cps[..i] <= cps;
      assert i == |cps| ==> cps[..i] == cps;
    }

    method UnmarkCpStack()
      requires Safe() && marked <= Bases(cps)
      modifies this`marked
      ensures marked == {}
    {
      var i := 0;
      while i < |cps|
        invariant i <= |cps| && marked <= Bases(cps[i..])
      {
        var c := cps[i];
        assert cps[i..] == [c] + cps[i + 1..] && c in cps;
        if c.DynCp? {
          AliveIsDynamic(c.at);
        }
        if c.DynCp? && Dynamic(c.at) {
          marked := marked - {Base(c.at)};
        }
        i := i + 1;
      }
    }

    // ---- physical deletion ---------------------------------------------

    /** No instruction a marked record holds would go, or turn into a try or noop. */
    method DetermineIfSafeToDelete(k: nat) returns (safe: bool)
      requires Listed(k)
      ensures safe == Unpinned(pred.store.chains, marked, Clause(k))
    {
      ghost var s, i, h, j := Places(k);
      if Clause(k) in marked {
        return false;
      }
      OnlyPlaces(k, s, i, h, j);
      var store := pred.store;
      if (store.op[Clause(k)] == TryOp || store.op[Clause(k)] == DynTryOp) && Base(store.next[Clause(k)]) in marked {
        assert WouldBecomeFirst(store.chains, Clause(k), Base(store.chains[Sob(s)][1]));
        return false;
      }
      if (store.op[Ind(k)] == TryOp || store.op[Ind(k)] == DynTryOp) && Base(store.next[Ind(k)]) in marked {
        assert WouldBecomeFirst(store.chains, Clause(k), Base(store.chains[Bucket(s, h)][1]));
        return false;
      }
      safe := true;
    }

    /** The two chains of a clause. */
    lemma Places(k: nat) returns (s: nat, i: nat, h: nat, j: nat)
      requires Listed(k)
      ensures Sob(s) in pred.store.chains && i < |pred.store.chains[Sob(s)]|
              && pred.store.chains[Sob(s)][i] == Clause(k)
      ensures Bucket(s, h) in pred.store.chains && j < |pred.store.chains[Bucket(s, h)]|
              && pred.store.chains[Bucket(s, h)][j] == Ind(k)
    {
      var chains := pred.store.chains;
      pred.Listed();
      var m;
      m, i := ScanMember(chains, chains[HOME], Clause(k));
      s := chains[HOME][m].sob;
      assert Sob(s) in chains[HOME];
      h, j := pred.WordPlace(s, i);
    }

    lemma OnlyPlaces(k: nat, s: nat, i: nat, h: nat, j: nat)
      requires pred.ValidShape()
      requires Sob(s) in pred.store.chains && i < |pred.store.chains[Sob(s)]|
               && pred.store.chains[Sob(s)][i] == Clause(k)
      requires Bucket(s, h) in pred.store.chains && j < |pred.store.chains[Bucket(s, h)]|
               && pred.store.chains[Bucket(s, h)][j] == Ind(k)
      ensures LinkedAt(pred.store.op, pred.store.prev, pred.store.next, Sob(s), pred.store.chains[Sob(s)], i)
      ensures LinkedAt(pred.store.op, pred.store.prev, pred.store.next, Bucket(s, h), pred.store.chains[Bucket(s, h)],
              j)
      ensures forall g: Ref ::
              g in pred.store.chains && |pred.store.chains[g]| >= 2 && Base(pred.store.chains[g][0]) == Clause(k) ==>
                (g == Sob(s) && i == 0) || (g == Bucket(s, h) && j == 0)
    {
      var chains := pred.store.chains;
      pred.LinkOf(Sob(s), i);
      pred.LinkOf(Bucket(s, h), j);
      forall g: Ref | g in chains && |chains[g]| >= 2 && Base(chains[g][0]) == Clause(k)
        ensures (g == Sob(s) && i == 0) || (g == Bucket(s, h) && j == 0)
      {
        assert chains[g][0] in chains[g] && Clause(k) in chains[Sob(s)] && Ind(k) in chains[Bucket(s, h)];
        assert NoDup(chains[g]);
      }
    }

    method DetermineIfSobSafeToDelete(s: nat) returns (safe: bool)
      requires pred.ValidShape() && Sob(s) in pred.store.chains[HOME]
      ensures safe == Unpinned(pred.store.chains, marked, Sob(s))
    {
      var store := pred.store;
      ghost var m :| 0 <= m < |store.chains[HOME]| && store.chains[HOME][m] == Sob(s);
      pred.LinkOf(HOME, m);
      forall g: Ref | g in store.chains && |store.chains[g]| >= 2 && Base(store.chains[g][0]) == Sob(s)
        ensures g == HOME && m == 0
      {
        assert store.chains[g][0] in store.chains[g];
        assert NoDup(store.chains[g]);
      }
      if Sob(s) in marked {
        return false;
      }
      if (store.op[Sob(s)] == TryOp || store.op[Sob(s)] == DynTryOp) && Base(store.next[Sob(s)]) in marked {
        assert WouldBecomeFirst(store.chains, Sob(s), Base(store.chains[HOME][1]));
        return false;
      }
      safe := true;
    }

    lemma EmptySegment(s: nat)
      requires pred.ValidShape() && Sob(s) in pred.store.chains[HOME] && Sob(s) in pred.store.chains
               && pred.store.chains[Sob(s)] == []
      ensures AllEmpty(pred.store.chains, pred.size, s)
    {
      forall h: nat | h < pred.size[s] ensures Bucket(s, h) in pred.store.chains
          && pred.store.chains[Bucket(s, h)] == []
      {
        assert BucketOk(pred.store.chains, s, pred.size[s], pred.keys, [], h);
      }
    }

    /** Drops an emptied SOB record if it is unpinned; otherwise only makes its instruction fail. */
    method DropSobIfSafe(s: nat) returns (dropped: bool)
      requires Safe() && Sob(s) in pred.store.chains[HOME] && Sob(s) in pred.store.chains
               && pred.store.chains[Sob(s)] == []
      requires Bases(cps) <= marked
      modifies pred.store, this`failedSobs
      ensures Safe()
      ensures dropped == Unpinned(old(pred.store.chains), marked, Sob(s)) && (dropped ==> Sob(s) !in marked)
      ensures Kept(old(pred.store.chains), pred.store.chains, if dropped then {Sob(s)} else {})
      ensures AllEmpty(pred.store.chains, pred.size, s)
      ensures failedSobs == if dropped then old(failedSobs) else old(failedSobs) + {s}
    {
      hide AllChains, IndexShape, SobsListed;
      ghost var chains0 := pred.store.chains;
      EmptySegment(s);
      dropped := DetermineIfSobSafeToDelete(s);
      UnpinnedUnmarked(chains0, marked, Sob(s));
      ValidApart();
      if dropped {
        ghost var m := pred.DropSob(s);
        KeptOne(chains0, HOME, m);
        AllAliveUnpinned(chains0, HOME, m, cps, marked);
        KeptEmpty(chains0, pred.store.chains, {Sob(s)}, pred.size, s);
      } else {
        KeptAll(chains0);
        failedSobs := failedSobs + {s};
      }
    }

    lemma ValidApart()
      requires pred.ValidShape()
      ensures Apart(pred.store.chains) && SobsListed(pred.store.chains)
      ensures forall g: Ref :: g in pred.store.chains ==> NoDup(pred.store.chains[g])
    {
      pred.Listed();
    }

    /** Takes an unpinned clause out of its chains, and its emptied SOB record if that is unpinned too. */
    method ReallyDelete(k: nat) returns (ghost ss: set<nat>)
      requires Safe() && Listed(k) && Bases(cps) <= marked && Unpinned(pred.store.chains, marked, Clause(k))
      modifies pred`used, pred.store, this`failedSobs
      ensures Safe()
      ensures Kept(old(pred.store.chains), pred.store.chains, Gone({k}, ss))
      ensures forall s | s in ss :: AllEmpty(pred.store.chains, pred.size, s)
      ensures pred.ShapeScan() == Minus(old(pred.ShapeScan()), Gone({k}, ss))
      ensures forall s | s in failedSobs :: s in old(failedSobs) || AllEmpty(pred.store.chains, pred.size, s)
      ensures SparesMarked({k}, ss, marked)
      ensures Tidy(old(pred.store.chains), pred.store.chains, marked, failedSobs) && old(failedSobs) <= failedSobs
    {
      hide AllChains, IndexShape, Kept, AllAlive, Unpinned, SobsListed, AllEmpty, KeepIf, Minus, ScanOf, Gone, Bases,
          WouldBecomeFirst, Removed, Tidy;
      ghost var s, i, h, j;
      var emptied;
      ghost var chains0 := pred.store.chains;
      ValidApart();
      UnpinnedUnmarked(chains0, marked, Clause(k));
      emptied, s, i, h, j := pred.DeleteClause(k);
      ClauseGone(chains0, k, s, i, h, j, cps, marked);
      ghost var chains1 := pred.store.chains;
      ValidApart();
      OthersKept(chains0, chains1, s, i, h, j);
      ss := DropEmptied(emptied);
      TidyOne(chains0, chains1, pred.store.chains, marked, failedSobs, s, ss);
      OneClauseGone(chains0, chains1, pred.store.chains, k, ss);
      SobsInScan(chains0);
      ScanStillTries(chains0, pred.store.chains, {k}, ss, pred.size, chains0[HOME]);
      HomeKept(chains0, pred.store.chains, Gone({k}, ss));
      ValidApart();
    }

    lemma OthersKept(a: Chains, b: Chains, s: nat, i: nat, h: nat, j: nat)
      requires Sob(s) in a && i < |a[Sob(s)]| && Bucket(s, h) in a && j < |a[Bucket(s, h)]|
      requires b == a[Sob(s) := Removed(a[Sob(s)], i)][Bucket(s, h) := Removed(a[Bucket(s, h)], j)]
      ensures forall t: nat | t != s && Sob(t) in b :: Sob(t) in a && a[Sob(t)] == b[Sob(t)]
    {
    }

    lemma OneClauseGone(a: Chains, b: Chains, c: Chains, k: nat, ss: set<nat>)
      requires Kept(a, b, Gone({k}, {})) && Kept(b, c, Gone({}, ss))
      ensures Kept(a, c, Gone({k}, ss))
    {
      KeptTrans(a, b, c, Gone({k}, {}), Gone({}, ss));
      assert Gone({k}, {}) + Gone({}, ss) == Gone({k}, ss);
    }

    /** The SOB record a deletion has emptied goes too, if it is unpinned. */
    method DropEmptied(emptied: Option<nat>) returns (ghost ss: set<nat>)
      requires Safe() && Bases(cps) <= marked
      requires emptied.Some? ==>
               Sob(emptied.value) in pred.store.chains[HOME] && Sob(emptied.value) in pred.store.chains
      requires emptied.Some? ==> pred.store.chains[Sob(emptied.value)] == []
      modifies pred.store, this`failedSobs
      ensures Safe()
      ensures ss == if emptied.Some? && Unpinned(old(pred.store.chains), marked, Sob(emptied.value))
              then {emptied.value} else {}
      ensures Kept(old(pred.store.chains), pred.store.chains, Gone({}, ss)) && SparesMarked({}, ss, marked)
      ensures forall s | s in ss :: AllEmpty(pred.store.chains, pred.size, s)
      ensures forall s | s in failedSobs :: s in old(failedSobs) || AllEmpty(pred.store.chains, pred.size, s)
      ensures failedSobs == old(failedSobs) + if emptied.Some? && ss == {} then {emptied.value} else {}
    {
      hide AllChains, IndexShape, Kept, AllAlive, Unpinned, SobsListed, AllEmpty;
      ss := {};
      if emptied.Some? {
        var dropped := DropSobIfSafe(emptied.value);
        ss := if dropped then {emptied.value} else {};
        assert Gone({}, ss) == if dropped then {Sob(emptied.value)} else {};
      } else {
        NothingGone();
      }
    }

    lemma UnpinnedUnmarked(chains: Chains, m: set<Ref>, x: Ref)
      ensures Unpinned(chains, m, x) ==> x !in m
    {
    }

    lemma SobsInScan(chains: Chains)
      requires SobsListed(chains)
      ensures HOME in chains && forall x | x in chains[HOME] :: x.Sob? && x in chains
    {
    }

    lemma HomeKept(chains: Chains, chains': Chains, D: set<Ref>)
      requires Kept(chains, chains', D) && HOME in chains
      ensures HOME in chains' && chains'[HOME] == Minus(chains[HOME], D)
    {
    }

    // ---- one clause -----------------------------------------------------

    /** Deletes a clause at once exactly when no choice point could notice; the marks are cleared either way. */
    method TryReclaim(k: nat) returns (done: bool, ghost ss: set<nat>)
      requires Safe() && marked == {} && Listed(k)
      modifies this`marked, this`failedSobs, pred`used, pred.store
      ensures Safe() && marked == {}
      ensures done == Reclaimable(old(pred.store.chains), cps, k)
      ensures Kept(old(pred.store.chains), pred.store.chains, Gone(if done then {k} else {}, ss))
      ensures forall s | s in ss :: AllEmpty(pred.store.chains, pred.size, s)
      ensures pred.ShapeScan() == Minus(old(pred.ShapeScan()), Gone(if done then {k} else {}, ss))
      ensures SparesMarked(if done then {k} else {}, ss, Bases(cps))
      ensures Tidy(old(pred.store.chains), pred.store.chains, Bases(cps), failedSobs) && old(failedSobs) <= failedSobs
      ensures old(pred.Valid()) && Bases(cps) == {} ==> pred.Valid()
    {
      hide AllChains, IndexShape, SobsListed, ScanOf, Kept, AllAlive, Unpinned, AllEmpty, WouldBecomeFirst, Tidy,
          NoneEmpty;
      ghost var chains0 := pred.store.chains;
      WasValid();
      done, ss := false, {};
      var found := MarkCpStack(k);
      ReclaimableWhen(chains0, k, found);
      if !found {
        var safe := DetermineIfSafeToDelete(k);
        if safe {
          ss := ReallyDelete(k);
          done := true;
        }
      }
      if !done {
        NothingGone();
        NothingTidied(Bases(cps));
      }
      UnmarkCpStack();
      ValidAgain(chains0, Gone(if done then {k} else {}, ss));
    }

    lemma NothingTidied(m: set<Ref>)
      requires pred.ValidShape()
      ensures Tidy(pred.store.chains, pred.store.chains, m, failedSobs)
    {
      NothingGone();
      TidyNothing(pred.store.chains, pred.store.chains, m, failedSobs);
    }

    lemma WasValid()
      requires pred.ValidShape()
      ensures HOME in pred.store.chains && (pred.Valid() ==> NoneEmpty(pred.store.chains))
    {
    }

    /** Without choice points no empty record is left. */
    lemma ValidAgain(chains: Chains, D: set<Ref>)
      requires pred.ValidShape() && Kept(chains, pred.store.chains, D)
      requires Tidy(chains, pred.store.chains, Bases(cps), failedSobs)
      ensures HOME in chains && (NoneEmpty(chains) && Bases(cps) == {} ==> pred.Valid())
    {
      ValidApart();
      if NoneEmpty(chains) && Bases(cps) == {} {
        MinusMember(chains[HOME], D);
        forall s: nat | Sob(s) in pred.store.chains[HOME] ensures pred.store.chains[Sob(s)] != [] {
          assert Sob(s) in chains[HOME];
          assert !EmptyIn(pred.store.chains, s);
        }
      }
    }

    /** A clause is deleted at once exactly if no choice point is in a difficult block and none would notice: unlinking
        the clause leaves every retry or trust instruction of the records that choice points are in a retry or trust. */
    lemma ReclaimableExactly(k: nat, chains': Chains)
      requires Safe() && Listed(k) && Kept(pred.store.chains, chains', Gone({k}, {}))
      ensures Reclaimable(pred.store.chains, cps, k) <==>
              KeepsAlive(pred.store.chains, chains', Bases(cps)) && forall c | c in cps :: !c.BlockCp?
    {
      ValidApart();
      assert Gone({k}, {}) == ElementsOf(Clause(k));
      ClauseApart(k);
      hide AllChains, IndexShape, SobsListed, ScanOf, Kept, AllAlive, Unpinned, KeepsAlive, Bases;
      UnpinnedExactly(pred.store.chains, chains', cps, Clause(k));
    }

    /** A clause and its index word are in different chains. */
    lemma ClauseApart(k: nat)
      requires Safe() && Listed(k)
      ensures forall g: Ref | g in pred.store.chains && Clause(k) in pred.store.chains[g] ::
                Ind(k) !in pred.store.chains[g]
    {
      var s, i, h, j := Places(k);
      ValidApart();
      hide IndexShape, SobsListed, ScanOf;
      forall g: Ref | g in pred.store.chains && Clause(k) in pred.store.chains[g]
        ensures Ind(k) !in pred.store.chains[g]
      {
        assert Clause(k) in pred.store.chains[Sob(s)] && Ind(k) in pred.store.chains[Bucket(s, h)];
      }
    }

    lemma ReclaimableWhen(chains: Chains, k: nat, found: bool)
      requires found == (exists c :: c in cps && (c.BlockCp? || (c.DynCp? && Base(c.at) == Clause(k))))
      ensures Reclaimable(chains, cps, k) <==> !found && Unpinned(chains, Bases(cps), Clause(k))
    {
      if Clause(k) in Bases(cps) {
        var c :| c in cps && c.DynCp? && Base(c.at) == Clause(k);
      }
      if found {
        var c :| c in cps && (c.BlockCp? || (c.DynCp? && Base(c.at) == Clause(k)));
        assert c.DynCp? ==> Base(c.at) in Bases(cps);
      }
    }

    lemma NothingGone()
      requires pred.ValidShape()
      ensures Kept(pred.store.chains, pred.store.chains, Gone({}, {}))
      ensures pred.ShapeScan() == Minus(pred.ShapeScan(), Gone({}, {}))
    {
      assert Gone({}, {}) == {};
      KeptAll(pred.store.chains);
      MinusNothing(pred.ShapeScan(), {});
    }

    // ---- garbage collection ----------------------------------------------

    /** Marks the frames of clause x, or all frames if the predicate has an incomplete table. */
    method MarkDelcfSubchain(x: Ref, incomplete: bool)
      modifies this`frameMarked
      ensures frameMarked == old(frameMarked) + FramesOf({x}, incomplete)
    {
      var i := 0;
      while i < |delcf|
        invariant i <= |delcf|
        invariant frameMarked == old(frameMarked) + (set k | k in delcf[..i] && (incomplete || x == Clause(k)))
      {
        assert delcf[..i + 1] == delcf[..i] + [delcf[i]];
        if incomplete {
          frameMarked := frameMarked + {delcf[i]};
        }
        if x == Clause(delcf[i]) {
          frameMarked := frameMarked + {delcf[i]};
        }
        i := i + 1;
      }
      assert delcf[..i] == delcf;
    }

    /** The frames of the clauses in B, or all frames if the predicate has an incomplete table. */
    ghost function FramesOf(B: set<Ref>, incomplete: bool): set<nat>
      reads this`delcf
    {
      set k | k in delcf && B != {} && (incomplete || Clause(k) in B)
    }

    /** Marks the records choice points are in and their frames, until one is in a difficult block. */
    method MarkDynamic(incomplete: bool) returns (found: bool)
      requires Valid()
      modifies this`marked, this`frameMarked
      ensures Safe() && Deferred()
      ensures found == (exists c :: c in cps && c.BlockCp?)
      ensures marked == Bases(BeforeBlock(cps)) <= Bases(cps) && (!found ==> marked == Bases(cps))
      ensures frameMarked == old(frameMarked) + FramesOf(Bases(BeforeBlock(cps)), incomplete)
      ensures !found ==> frameMarked == old(frameMarked) + FramesOf(Bases(cps), incomplete)
    {
      hide AllChains, IndexShape, SobsListed, ScanOf, AllAlive, Bases, FramesOf, IndexedPred.ValidShape;
      found := false;
      var i := 0;
      BasesFirst(0);
      while i < |cps| && !found
        invariant i <= |cps| && marked == Bases(cps[..i]) <= Bases(cps)
        invariant frameMarked == old(frameMarked) + FramesOf(Bases(cps[..i]), incomplete)
        invariant found == (exists c :: c in cps[..i] && c.BlockCp?)
        invariant found ==> Bases(cps[..i]) == Bases(BeforeBlock(cps))
      {
        var c := cps[i];
        BlockAt(cps, i);
        BasesFirst(i);
        FramesMore(Bases(cps[..i]), if c.DynCp? then {Base(c.at)} else {}, incomplete);
        if c.DynCp? {
          LiveAt(c);
          AliveIsDynamic(c.at);
        }
        if c.DynCp? && Dynamic(c.at) {
          marked := marked + {Base(c.at)};
          MarkDelcfSubchain(Base(c.at), incomplete);
        } else if c.BlockCp? {
          found := true;
        }
        i := i + 1;
      }
      assert cps[..i] <= cps;
      assert i == |cps| ==> cps[..i] == cps;
      FramesListed(Bases(cps[..i]), incomplete);
      NoBlock(cps);
    }

    lemma NoBlock(c: seq<Cp>)
      ensures (forall x | x in c :: !x.BlockCp?) ==> BeforeBlock(c) == c
    {
      if forall x | x in c :: !x.BlockCp? {
        assert c[..|c|] == c;
        BeforeFirst(c, |c|);
      }
    }

    lemma BlockAt(c: seq<Cp>, i: nat)
      requires i < |c| && forall x | x in c[..i] :: !x.BlockCp?
      ensures c[i].BlockCp? ==> BeforeBlock(c) == c[..i]
    {
      BeforeFirst(c, i);
    }

    lemma LiveAt(c: Cp)
      requires AllAlive(pred.store.chains, cps) && c in cps && c.DynCp?
      ensures Alive(pred.store.chains, c.at)
    {
    }

    lemma BasesFirst(i: nat)
      requires i <= |cps|
      ensures Bases(cps[..i]) <= Bases(cps) && Bases(cps[..0]) == {} && FramesOf({}, true) == FramesOf({}, false) == {}
      ensures i < |cps| ==> cps[..i + 1] == cps[..i] + [cps[i]]
      ensures i < |cps| ==>
              Bases(cps[..i + 1]) == Bases(cps[..i]) + (if cps[i].DynCp? then {Base(cps[i].at)} else {}) <= Bases(cps)
    {
    }

    lemma FramesMore(A: set<Ref>, B: set<Ref>, incomplete: bool)
      ensures FramesOf(A + B, incomplete) == FramesOf(A, incomplete) + FramesOf(B, incomplete)
    {
    }

    lemma FramesListed(B: set<Ref>, incomplete: bool)
      ensures FramesOf(B, incomplete) <= Elements(delcf)
    {
    }

    /** Visits one frame: a mark is cleared, an unmarked frame goes exactly if its clause is unpinned. */
    method SweepFrame(at: nat) returns (deleted: bool, ghost ss: set<nat>)
      requires Safe() && Deferred() && Bases(cps) <= marked && at < |delcf|
      modifies this`delcf, this`frameMarked, this`failedSobs, pred`used, pred.store
      ensures Safe() && Deferred()
      ensures deleted ==
              (old(delcf)[at] !in old(frameMarked) && Unpinned(old(pred.store.chains), marked, Clause(old(delcf)[at])))
      ensures delcf == if deleted then Removed(old(delcf), at) else old(delcf)
      ensures frameMarked == old(frameMarked) - {old(delcf)[at]}
      ensures Kept(old(pred.store.chains), pred.store.chains, Gone(if deleted then {old(delcf)[at]} else {}, ss))
      ensures forall s | s in ss :: AllEmpty(pred.store.chains, pred.size, s)
      ensures pred.ShapeScan() == Minus(old(pred.ShapeScan()), Gone(if deleted then {old(delcf)[at]} else {}, ss))
      ensures SparesMarked(if deleted then {old(delcf)[at]} else {}, ss, marked)
      ensures Tidy(old(pred.store.chains), pred.store.chains, marked, failedSobs) && old(failedSobs) <= failedSobs
    {
      hide AllChains, IndexShape, SobsListed, ScanOf, Kept, AllAlive, Unpinned, AllEmpty, WouldBecomeFirst, Bases,
          KeepIf, Minus, Tidy;
      ghost var scan0 := pred.ShapeScan();
      var k := delcf[at];
      deleted, ss := false, {};
      if k in frameMarked {
        frameMarked := frameMarked - {k};
      } else {
        var safe := DetermineIfSafeToDelete(k);
        if safe {
          ss := ReallyDelete(k);
          deleted := true;
          RemovedNoDup(delcf, at);
          delcf := delcf[..at] + delcf[at + 1..];
        }
      }
      if !deleted {
        NothingGone();
        NothingTidied(marked);
      }
      DeferredListed(scan0, k, if deleted then {k} else {}, ss);
    }

    /** Deletes exactly the deferred clauses that are unmarked and unpinned; returns how many frames are left. */
    method SweepDynamic() returns (count: nat, ghost ks: set<nat>, ghost ss: set<nat>)
      requires Safe() && Deferred() && Bases(cps) <= marked
      modifies this`delcf, this`frameMarked, this`failedSobs, pred`used, pred.store
      ensures Safe() && Deferred() && frameMarked == {}
      ensures count == |delcf| && delcf == Minus(old(delcf), ks) && ks <= Elements(old(delcf)) - old(frameMarked)
      ensures Kept(old(pred.store.chains), pred.store.chains, Gone(ks, ss))
      ensures forall s | s in ss :: AllEmpty(pred.store.chains, pred.size, s)
      ensures pred.ShapeScan() == Minus(old(pred.ShapeScan()), Gone(ks, ss))
      ensures SparesMarked(ks, ss, marked)
      ensures forall k | k in delcf :: k in old(frameMarked) || !Unpinned(pred.store.chains, marked, Clause(k))
      ensures Tidy(old(pred.store.chains), pred.store.chains, marked, failedSobs) && old(failedSobs) <= failedSobs
    {
      hide AllChains, IndexShape, SobsListed, ScanOf, Kept, AllAlive, Unpinned, AllEmpty, WouldBecomeFirst, Bases,
          KeepIf, Minus, Gone, Tidy;
      count, ks, ss := 0, {}, {};
      NothingGone();
      NothingTidied(marked);
      ghost var chains0, list, scan0 := pred.store.chains, delcf, pred.ShapeScan();
      MinusNothing(list, {});
      ghost var i := 0;
      while count < |delcf|
        invariant i <= |list| && count <= |delcf|
        invariant delcf == Minus(list, ks) && delcf[count..] == list[i..]
        invariant ks <= Elements(list) - old(frameMarked)
        invariant frameMarked <= Elements(list[i..]) && frameMarked == old(frameMarked) * Elements(list[i..])
        invariant Safe() && Deferred() && Bases(cps) <= marked
        invariant Kept(chains0, pred.store.chains, Gone(ks, ss))
        invariant forall s | s in ss :: AllEmpty(pred.store.chains, pred.size, s)
        invariant pred.ShapeScan() == Minus(scan0, Gone(ks, ss)) && SparesMarked(ks, ss, marked)
        invariant AllPinned(pred.store.chains, delcf[..count], old(frameMarked))
        invariant Tidy(chains0, pred.store.chains, marked, failedSobs) && old(failedSobs) <= failedSobs
        decreases |list| - i
      {
        ghost var chains1, delcf1, failed1 := pred.store.chains, delcf, failedSobs;
        ghost var k := delcf[count];
        ValidApart();
        NextFrame(list, i, k);
        assert delcf[count..][0] == k && delcf[count..][1..] == delcf[count + 1..];
        var deleted;
        ghost var ss';
        deleted, ss' := SweepFrame(count);
        ghost var ks' := if deleted then {k} else {};
        SweepStep(chains0, chains1, pred.store.chains, scan0, ks, ss, ks', ss', pred.size);
        TidyTrans(chains0, chains1, pred.store.chains, marked, failed1, failedSobs, ks', ss');
        PinnedStep(chains1, pred.store.chains, delcf1, count, ks', ss', old(frameMarked));
        if deleted {
          MinusOne(delcf1, count);
          MinusMinus(list, ks, {k});
          assert delcf[count..] == delcf1[count + 1..] && delcf[..count] == delcf1[..count];
        } else {
          count := count + 1;
          assert ks + ks' == ks;
        }
        ks, ss := ks + ks', ss + ss';
        i := i + 1;
      }
    }

    /** Frames that were not marked belong to pinned clauses. */
    ghost predicate AllPinned(chains: Chains, frames: seq<nat>, keptMarks: set<nat>)
      reads this`marked
    {
      forall k | k in frames :: k in keptMarks || !Unpinned(chains, marked, Clause(k))
    }

    /** The frames already visited stay pinned, and the one just visited is. */
    lemma PinnedStep(chains: Chains, chains': Chains, frames: seq<nat>, at: nat, ks: set<nat>, ss: set<nat>,
                     keptMarks: set<nat>)
      requires NoDup(frames) && at < |frames| && AllPinned(chains, frames[..at], keptMarks) && ks <= {frames[at]}
      requires Kept(chains, chains', Gone(ks, ss)) && SparesMarked(ks, ss, marked)
      requires ks == {} ==> frames[at] in keptMarks || !Unpinned(chains, marked, Clause(frames[at]))
      ensures AllPinned(chains', frames[..at], keptMarks)
      ensures ks == {} ==> AllPinned(chains', frames[..at + 1], keptMarks)
    {
      hide Kept, Unpinned, Gone;
      forall k | k in frames[..at + 1] && k !in keptMarks && k !in ks ensures !Unpinned(chains', marked, Clause(k)) {
        if k != frames[at] {
          assert k in frames[..at];
        }
        StaysPinned(chains, chains', ks, ss, marked, k);
      }
    }

    lemma NextFrame(list: seq<nat>, i: nat, k: nat)
      requires NoDup(list) && i < |list| && list[i] == k
      ensures list[i..][0] == k && list[i..][1..] == list[i + 1..] && k in list
      ensures Elements(list[i..]) == Elements(list[i + 1..]) + {k} && k !in list[i + 1..]
    {
      assert list[i..] == [k] + list[i + 1..];
    }

    lemma SweepStep(a: Chains, b: Chains, c: Chains, scan: seq<Ref>, ks: set<nat>, ss: set<nat>, ks': set<nat>,
                    ss': set<nat>, size: map<nat, nat>)
      requires Kept(a, b, Gone(ks, ss)) && Kept(b, c, Gone(ks', ss'))
      requires forall s | s in ss :: AllEmpty(b, size, s)
      ensures Kept(a, c, Gone(ks + ks', ss + ss'))
      ensures SparesMarked(ks, ss, marked) && SparesMarked(ks', ss', marked) ==>
              SparesMarked(ks + ks', ss + ss', marked)
      ensures forall s | s in ss :: AllEmpty(c, size, s)
      ensures Minus(Minus(scan, Gone(ks, ss)), Gone(ks', ss')) == Minus(scan, Gone(ks + ks', ss + ss'))
    {
      assert Gone(ks, ss) + Gone(ks', ss') == Gone(ks + ks', ss + ss');
      KeptTrans(a, b, c, Gone(ks, ss), Gone(ks', ss'));
      MinusMinus(scan, Gone(ks, ss), Gone(ks', ss'));
      forall s | s in ss ensures AllEmpty(c, size, s) {
        KeptEmpty(b, c, Gone(ks', ss'), size, s);
      }
    }

    /** The marks of frames after a collection: none if it went through, those made so far if a
        difficult block was met. */
    ghost function MarksLeft(enabled: bool, incomplete: bool): set<nat>
      reads this`delcf, this`cps, this`frameMarked
    {
      if !enabled || delcf == [] then frameMarked
      else if exists c :: c in cps && c.BlockCp? then frameMarked + FramesOf(Bases(BeforeBlock(cps)), incomplete)
      else {}
    }

    /** Collects deferred clauses; -1 if collection is off or a choice point is in a difficult block. */
    method GcDynamic(enabled: bool, incomplete: bool) returns (left: int, ghost ks: set<nat>, ghost ss: set<nat>)
      requires Valid()
      modifies this`delcf, this`marked, this`frameMarked, this`failedSobs, pred`used, pred.store
      ensures Valid()
      ensures left == if !enabled || (old(delcf) != [] && exists c :: c in cps && c.BlockCp?) then -1 else |delcf|
      ensures delcf == Minus(old(delcf), ks) && ks <= Elements(old(delcf)) - old(frameMarked)
              && (left == -1 ==> ks == {})
      ensures frameMarked == old(MarksLeft(enabled, incomplete))
      ensures Kept(old(pred.store.chains), pred.store.chains, Gone(ks, ss))
      ensures forall s | s in ss :: AllEmpty(pred.store.chains, pred.size, s)
      ensures pred.ShapeScan() == Minus(old(pred.ShapeScan()), Gone(ks, ss))
      ensures left != -1 ==> AllCollected(pred.store.chains, delcf, old(frameMarked), incomplete)
      ensures SparesMarked(ks, ss, Bases(cps))
      ensures Tidy(old(pred.store.chains), pred.store.chains, Bases(cps), failedSobs) && old(failedSobs) <= failedSobs
      ensures old(pred.Valid()) && Bases(cps) == {} ==> pred.Valid()
    {
      hide AllChains, IndexShape, SobsListed, ScanOf, Kept, AllAlive, Unpinned, AllEmpty, WouldBecomeFirst, Bases,
          KeepIf, Minus, Gone, Tidy, FramesOf, BeforeBlock, NoneEmpty;
      WasValid();
      ks, ss := {}, {};
      NothingGone();
      NothingTidied(Bases(cps));
      NoBlock(cps);
      MinusNothing(delcf, {});
      if !enabled {
        return -1, ks, ss;
      }
      if delcf == [] {
        return 0, ks, ss;
      }
      left := -1;
      var found := MarkDynamic(incomplete);
      if !found {
        ghost var frames, keptMarks := delcf, frameMarked;
        FramesAre(Bases(cps), incomplete);
        left, ks, ss := SweepDynamic();
        OnlyPinnedLeft(pred.store.chains, frames, old(frameMarked), keptMarks, incomplete, ks);
      }
      UnmarkCpStack();
      ValidAgain(old(pred.store.chains), Gone(ks, ss));
    }

    /** The frames left: marked before, those of an incomplete table somebody is in, and those of pinned clauses. */
    ghost predicate AllCollected(chains: Chains, frames: seq<nat>, keptMarks: set<nat>, incomplete: bool)
      reads this`cps
    {
      forall k | k in frames ::
          k in keptMarks || (incomplete && Bases(cps) != {}) || !Unpinned(chains, Bases(cps), Clause(k))
    }

    lemma FramesAre(B: set<Ref>, incomplete: bool)
      ensures FramesOf(B, incomplete) == set k | k in delcf && B != {} && (incomplete || Clause(k) in B)
    {
    }

    lemma OnlyPinnedLeft(chains: Chains, frames: seq<nat>, keptMarks: set<nat>, allMarks: set<nat>, incomplete: bool,
                         ks: set<nat>)
      requires marked == Bases(cps) && delcf == Minus(frames, ks)
      requires allMarks == keptMarks + set k | k in frames && Bases(cps) != {}
               && (incomplete || Clause(k) in Bases(cps))
      requires forall k | k in delcf :: k in allMarks || !Unpinned(chains, marked, Clause(k))
      ensures AllCollected(chains, delcf, keptMarks, incomplete)
    {
    }

    // ---- retracting -------------------------------------------------------

    /** Counts a retract; every 256th one collects. */
    method GcIfDue(enabled: bool, incomplete: bool) returns (ghost ks: set<nat>, ghost ss: set<nat>)
      requires Valid()
      modifies this`delcf, this`marked, this`frameMarked, this`failedSobs, this`retractNum, pred`used, pred.store
      ensures Valid() && retractNum == old(retractNum) + 1
      ensures delcf == Minus(old(delcf), ks) && ks <= Elements(old(delcf))
      ensures if retractNum % 256 == 0 then frameMarked == old(MarksLeft(enabled, incomplete))
              else ks == {} && pred.store.chains == old(pred.store.chains) && frameMarked == old(frameMarked)
      ensures Kept(old(pred.store.chains), pred.store.chains, Gone(ks, ss))
      ensures forall s | s in ss :: AllEmpty(pred.store.chains, pred.size, s)
      ensures pred.ShapeScan() == Minus(old(pred.ShapeScan()), Gone(ks, ss))
      ensures retractNum % 256 == 0 && enabled && (forall c | c in cps :: !c.BlockCp?) ==>
                AllCollected(pred.store.chains, delcf, old(frameMarked), incomplete)
      ensures SparesMarked(ks, ss, Bases(cps))
      ensures Tidy(old(pred.store.chains), pred.store.chains, Bases(cps), failedSobs) && old(failedSobs) <= failedSobs
      ensures old(pred.Valid()) && Bases(cps) == {} ==> pred.Valid()
    {
      hide AllChains, IndexShape, SobsListed, ScanOf, Kept, AllAlive, Unpinned, AllEmpty, WouldBecomeFirst, Bases,
          KeepIf, Minus, Gone, Tidy, AllCollected, MarksLeft, NoneEmpty;
      WasValid();
      ks, ss := {}, {};
      NothingGone();
      NothingTidied(Bases(cps));
      MinusNothing(delcf, {});
      retractNum := retractNum + 1;
      if retractNum % 256 == 0 {
        var left;
        left, ks, ss := GcDynamic(enabled, incomplete);
      }
    }

    /** Retracts a clause: it fails from now on, and leaves the chains now or at a later collection. */
    method RetractClause(k: nat, enabled: bool, incomplete: bool, cpCells: nat)
      returns (ghost ks: set<nat>, ghost ss: set<nat>, ghost mid: Chains, ghost ss0: set<nat>)
      requires Valid() && Listed(k) && k !in failed
      modifies this`delcf, this`marked, this`frameMarked, this`failedSobs, this`failed, this`retractNum, pred`used,
          pred.store
      ensures Valid() && failed == old(failed) + {k}
      ensures ks <= Elements(old(delcf)) + {k}
      ensures delcf == (if k in ks then [] else [k]) + Minus(old(delcf), ks)
      ensures retractNum == old(retractNum) + 1
      ensures k in ks <==> enabled && !incomplete && cpCells < 10000 && Reclaimable(mid, cps, k)
      ensures Kept(old(pred.store.chains), mid, Gone(ks - {k}, ss0)) && ss0 <= ss
      ensures retractNum % 256 != 0 ==> ks <= {k} && mid == old(pred.store.chains)
      ensures retractNum % 256 == 0 && enabled && (forall c | c in cps :: !c.BlockCp?) ==>
                AllCollected(mid, Minus(old(delcf), ks), old(frameMarked), incomplete)
      ensures Kept(old(pred.store.chains), pred.store.chains, Gone(ks, ss))
      ensures forall s | s in ss :: AllEmpty(pred.store.chains, pred.size, s)
      ensures pred.ShapeScan() == Minus(old(pred.ShapeScan()), Gone(ks, ss))
      ensures forall c | c in cps && c.DynCp? ::
              Continues(old(pred.store.chains), pred.store.chains, Gone(ks, ss), c.at)
      ensures Tidy(old(pred.store.chains), pred.store.chains, Bases(cps), failedSobs) && old(failedSobs) <= failedSobs
      ensures old(pred.Valid()) && Bases(cps) == {} ==> pred.Valid()
      ensures frameMarked == if retractNum % 256 != 0 then old(frameMarked) else old(MarksLeft(enabled, incomplete))
    {
      hide AllChains, IndexShape, SobsListed, ScanOf, Kept, AllAlive, Unpinned, AllEmpty, WouldBecomeFirst, Bases,
          KeepIf, Minus, Gone, Reclaimable;
      hide Continues, AllCollected, Tidy, MarksLeft, NoneEmpty, SparesMarked;
      WasValid();
      ks, ss := GcIfDue(enabled, incomplete);
      ghost var chains1, delcf1, failed1 := pred.store.chains, delcf, failedSobs;
      ValidApart();
      StillListed(old(pred.ShapeScan()), k, ks, ss);
      MinusMember(old(delcf), ks);
      mid, ss0 := chains1, ss;
      var done;
      ghost var ss';
      done, ss' := DeleteOrDefer(k, enabled && !incomplete && cpCells < 10000);
      ghost var ks' := if done then {k} else {};
      SweepStep(old(pred.store.chains), chains1, pred.store.chains, old(pred.ShapeScan()), ks, ss, ks', ss', pred.size);
      MinusMinus(old(delcf), ks, ks');
      MinusNothing(delcf1, ks');
      assert ks + ks' - {k} == ks;
      TidyTrans(old(pred.store.chains), chains1, pred.store.chains, Bases(cps), failed1, failedSobs, ks', ss');
      ks, ss := ks + ks', ss + ss';
      ValidApart();
      ValidAgain(old(pred.store.chains), Gone(ks, ss));
      AllContinue(old(pred.store.chains), pred.store.chains, Gone(ks, ss), cps);
    }

    /** Makes the clause fail and deletes it if that is allowed and safe; otherwise a frame is put in front. */
    method DeleteOrDefer(k: nat, allowed: bool) returns (done: bool, ghost ss: set<nat>)
      requires Valid() && Listed(k) && k !in delcf
      modifies this`delcf, this`marked, this`failedSobs, this`failed, pred`used, pred.store
      ensures Valid() && failed == old(failed) + {k}
      ensures done == (allowed && Reclaimable(old(pred.store.chains), cps, k))
      ensures delcf == if done then old(delcf) else [k] + old(delcf)
      ensures Kept(old(pred.store.chains), pred.store.chains, Gone(if done then {k} else {}, ss))
      ensures forall s | s in ss :: AllEmpty(pred.store.chains, pred.size, s)
      ensures pred.ShapeScan() == Minus(old(pred.ShapeScan()), Gone(if done then {k} else {}, ss))
      ensures SparesMarked(if done then {k} else {}, ss, Bases(cps))
      ensures Tidy(old(pred.store.chains), pred.store.chains, Bases(cps), failedSobs) && old(failedSobs) <= failedSobs
      ensures old(pred.Valid()) && Bases(cps) == {} ==> pred.Valid()
    {
      hide AllChains, IndexShape, SobsListed, ScanOf, Kept, AllAlive, Unpinned, AllEmpty, WouldBecomeFirst, Bases,
          KeepIf, Minus, Gone, Reclaimable, Tidy;
      failed := failed + {k};
      done, ss := false, {};
      ghost var scan0 := pred.ShapeScan();
      if allowed {
        done, ss := TryReclaim(k);
      } else {
        NothingGone();
        NothingTidied(Bases(cps));
      }
      DeferredListed(scan0, k, if done then {k} else {}, ss);
      if !done {
        NoDupCons(k, delcf);
        delcf := [k] + delcf;
      }
    }

    /** Clauses other than the deleted ones stay in the scan. */
    lemma StillListed(scan: seq<Ref>, k: nat, ks: set<nat>, ss: set<nat>)
      requires Clause(k) in scan && k !in ks
      ensures Clause(k) in Minus(scan, Gone(ks, ss))
    {
      MinusMember(scan, Gone(ks, ss));
    }

    lemma DeferredListed(scan: seq<Ref>, k: nat, ks: set<nat>, ss: set<nat>)
      requires ks <= {k}
      ensures forall j: nat :: Clause(j) in scan && j != k ==> Clause(j) in Minus(scan, Gone(ks, ss))
      ensures ks == {} && Clause(k) in scan ==> Clause(k) in Minus(scan, Gone(ks, ss))
    {
      MinusMember(scan, Gone(ks, ss));
    }
  }
}
