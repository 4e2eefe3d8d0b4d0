/** Which retracted clauses may be taken out of the chains while choice points still point into them. */
module ReclaimSpec {
  import opened Sequences
  import opened ClauseChains
  import opened ClauseIndex

  /** A choice point resumes inside a dynamic clause, inside a block that cannot be related to a
      clause, or elsewhere. */
  datatype Cp = DynCp(at: Ref) | BlockCp | OtherCp

  /** The record an instruction belongs to. */
  function Base(x: Ref): Ref {
    if x.Ind? then Clause(x.clause) else x
  }

  function Bases(cps: seq<Cp>): set<Ref> {
    set c | c in cps && c.DynCp? :: Base(c.at)
  }

  /** x is a retry or trust element: not the first of its chain. */
  ghost predicate Alive(chains: Chains, x: Ref) {
    exists g: Ref, i: nat :: g in chains && 1 <= i < |chains[g]| && chains[g][i] == x
  }

  ghost predicate AllAlive(chains: Chains, cps: seq<Cp>) {
    forall c | c in cps && c.DynCp? :: Alive(chains, c.at)
  }

  /** The second element of a chain headed by an instruction of x, which would become a try or noop. */
  ghost predicate WouldBecomeFirst(chains: Chains, x: Ref, y: Ref) {
    exists g: Ref :: g in chains && |chains[g]| >= 2 && Base(chains[g][0]) == x && Base(chains[g][1]) == y
  }

  /** No marked record is x or would be promoted by unlinking x. */
  ghost predicate Unpinned(chains: Chains, marked: set<Ref>, x: Ref) {
    x !in marked && forall y | y in marked :: !WouldBecomeFirst(chains, x, y)
  }

  /** No choice point is in clause k, or on an instruction that unlinking it would turn into a try or noop,
      or somewhere difficult to relate to a clause. */
  ghost predicate Reclaimable(chains: Chains, cps: seq<Cp>, k: nat) {
    Unpinned(chains, Bases(cps), Clause(k)) && forall c | c in cps :: !c.BlockCp?
  }

  /** Exactly the elements of D have left the chains. */
  ghost predicate Kept(chains: Chains, chains': Chains, D: set<Ref>) {
    chains'.Keys == chains.Keys && forall g: Ref :: g in chains ==> chains'[g] == Minus(chains[g], D)
  }

  /** The records of the clauses ks and of the SOBs ss. */
  function Gone(ks: set<nat>, ss: set<nat>): set<Ref> {
    (set k | k in ks :: Clause(k)) + (set k | k in ks :: Ind(k)) + (set s | s in ss :: Sob(s))
  }

  ghost predicate AllEmpty(chains: Chains, size: map<nat, nat>, s: nat) {
    && Sob(s) in chains && chains[Sob(s)] == [] && s in size
    && forall h: nat {:trigger Bucket(s, h)} :: h < size[s] && Bucket(s, h) in chains ==> chains[Bucket(s, h)] == []
  }

  lemma KeptTrans(a: Chains, b: Chains, c: Chains, D: set<Ref>, E: set<Ref>)
    requires Kept(a, b, D) && Kept(b, c, E)
    ensures Kept(a, c, D + E)
  {
    forall g: Ref | g in a ensures c[g] == Minus(a[g], D + E) {
      MinusMinus(a[g], D, E);
    }
  }

  lemma KeptEmpty(a: Chains, b: Chains, D: set<Ref>, size: map<nat, nat>, s: nat)
    requires Kept(a, b, D) && AllEmpty(a, size, s)
    ensures AllEmpty(b, size, s)
  {
  }

  lemma KeptAll(a: Chains)
    ensures Kept(a, a, {})
  {
    forall g: Ref | g in a ensures a[g] == Minus(a[g], {}) {
      MinusNothing(a[g], {});
    }
  }

  lemma KeptOne(chains: Chains, g: Ref, i: nat)
    requires Apart(chains) && g in chains && NoDup(chains[g]) && i < |chains[g]|
    ensures Kept(chains, chains[g := Removed(chains[g], i)], {chains[g][i]})
  {
    var x := chains[g][i];
    MinusOne(chains[g], i);
    assert x in chains[g];
    forall h: Ref | h in chains && h != g ensures chains[h] == Minus(chains[h], {x}) {
      MinusNothing(chains[h], {x});
    }
  }

  lemma AliveOne(chains: Chains, g: Ref, i: nat, x: Ref)
    requires g in chains && i < |chains[g]| && Alive(chains, x) && x != chains[g][i]
    requires i == 0 && |chains[g]| >= 2 ==> x != chains[g][1]
    ensures Alive(chains[g := Removed(chains[g], i)], x)
  {
    var h: Ref, j: nat :| h in chains && 1 <= j < |chains[h]| && chains[h][j] == x;
    var chains' := chains[g := Removed(chains[g], i)];
    var j' := if h == g && j > i then j - 1 else j;
    assert 1 <= j' < |chains'[h]| && chains'[h][j'] == x;
  }

  /** Unlinking an unpinned record's element leaves every choice point on a retry or trust. */
  lemma AllAliveOne(chains: Chains, g: Ref, i: nat, cps: seq<Cp>, marked: set<Ref>)
    requires g in chains && i < |chains[g]| && AllAlive(chains, cps) && Bases(cps) <= marked
    requires Base(chains[g][i]) !in marked
    requires i == 0 && |chains[g]| >= 2 ==> Base(chains[g][1]) !in marked
    ensures AllAlive(chains[g := Removed(chains[g], i)], cps)
  {
    forall c | c in cps && c.DynCp? ensures Alive(chains[g := Removed(chains[g], i)], c.at) {
      assert Base(c.at) in Bases(cps);
      AliveOne(chains, g, i, c.at);
    }
  }

  /** Both elements of an unpinned clause leave: live elements stay live. */
  lemma ClauseGone(chains: Chains, k: nat, s: nat, i: nat, h: nat, j: nat, cps: seq<Cp>, marked: set<Ref>)
    requires Apart(chains) && AllAlive(chains, cps) && Bases(cps) <= marked && Unpinned(chains, marked, Clause(k))
    requires Sob(s) in chains && NoDup(chains[Sob(s)]) && i < |chains[Sob(s)]| && chains[Sob(s)][i] == Clause(k)
    requires Bucket(s, h) in chains && NoDup(chains[Bucket(s, h)]) && j < |chains[Bucket(s, h)]|
             && chains[Bucket(s, h)][j] == Ind(k)
    ensures var chains' := chains[Sob(s) := Removed(chains[Sob(s)], i)]
                                 [Bucket(s, h) := Removed(chains[Bucket(s, h)], j)];
            Kept(chains, chains', Gone({k}, {})) && AllAlive(chains', cps)
  {
    var mid := chains[Sob(s) := Removed(chains[Sob(s)], i)];
    KeptOne(chains, Sob(s), i);
    AllAliveUnpinned(chains, Sob(s), i, cps, marked);
    assert Apart(mid) by {
      RemovedNoDup(chains[Sob(s)], i);
    }
    KeptOne(mid, Bucket(s, h), j);
    assert mid[Bucket(s, h)] == chains[Bucket(s, h)];
    if j == 0 && |mid[Bucket(s, h)]| >= 2 {
      assert WouldBecomeFirst(chains, Clause(k), Base(chains[Bucket(s, h)][1]));
    }
    AllAliveOne(mid, Bucket(s, h), j, cps, marked);
    KeptTrans(chains, mid, mid[Bucket(s, h) := Removed(chains[Bucket(s, h)], j)], {Clause(k)}, {Ind(k)});
    assert {Clause(k)} + {Ind(k)} == Gone({k}, {});
  }

  lemma AllAliveUnpinned(chains: Chains, g: Ref, i: nat, cps: seq<Cp>, marked: set<Ref>)
    requires g in chains && i < |chains[g]| && AllAlive(chains, cps) && Bases(cps) <= marked
    requires Unpinned(chains, marked, Base(chains[g][i]))
    ensures AllAlive(chains[g := Removed(chains[g], i)], cps)
  {
    if i == 0 && |chains[g]| >= 2 {
      assert WouldBecomeFirst(chains, Base(chains[g][0]), Base(chains[g][1]));
    }
    AllAliveOne(chains, g, i, cps, marked);
  }

  // ------------------------------------------------------------------
  // What the safety test decides.

  /** The chain elements of record x. */
  function ElementsOf(x: Ref): set<Ref> {
    if x.Clause? then {x, Ind(x.clause)} else {x}
  }

  /** Every retry or trust instruction of a marked record is one in chains' too. */
  ghost predicate KeepsAlive(chains: Chains, chains': Chains, marked: set<Ref>) {
    forall y: Ref | Alive(chains, y) && Base(y) in marked :: Alive(chains', y)
  }

  /** The safety test succeeds exactly if unlinking the record leaves every retry or trust instruction of the records
      that choice points are in a retry or trust. */
  lemma UnpinnedExactly(chains: Chains, chains': Chains, cps: seq<Cp>, x: Ref)
    requires Apart(chains) && AllAlive(chains, cps) && forall g: Ref :: g in chains ==> NoDup(chains[g])
    requires Base(x) == x && Kept(chains, chains', ElementsOf(x))
    requires x.Clause? ==> forall g: Ref | g in chains && x in chains[g] :: Ind(x.clause) !in chains[g]
    ensures Unpinned(chains, Bases(cps), x) <==> KeepsAlive(chains, chains', Bases(cps))
  {
    var marked, D := Bases(cps), ElementsOf(x);
    if Unpinned(chains, marked, x) {
      forall y: Ref | Alive(chains, y) && Base(y) in marked ensures Alive(chains', y) {
        UnpinnedKeeps(chains, chains', marked, x, y);
      }
    }
    if x in marked {
      var c :| c in cps && c.DynCp? && Base(c.at) == x;
      assert Alive(chains, c.at) && c.at in D;
      GoneNotAlive(chains, chains', D, c.at);
    } else if !Unpinned(chains, marked, x) {
      var y :| y in marked && WouldBecomeFirst(chains, x, y);
      var g: Ref :| g in chains && |chains[g]| >= 2 && Base(chains[g][0]) == x && Base(chains[g][1]) == y;
      assert Alive(chains, chains[g][1]);
      FirstNotAlive(chains, chains', D, g);
    }
  }

  lemma GoneNotAlive(chains: Chains, chains': Chains, D: set<Ref>, y: Ref)
    requires Kept(chains, chains', D) && y in D
    ensures !Alive(chains', y)
  {
    if Alive(chains', y) {
      var g: Ref, i: nat :| g in chains' && 1 <= i < |chains'[g]| && chains'[g][i] == y;
      MinusMember(chains[g], D);
      assert false;
    }
  }

  lemma SecondOnce(c: seq<Ref>, D: set<Ref>)
    requires NoDup(c) && |c| >= 2 && c[0] in D && c[1] !in D
    ensures forall i: nat | 1 <= i < |Minus(c, D)| :: Minus(c, D)[i] != c[1]
  {
    KeepIfUnfold(c, NotMemberOf(D));
    KeepIfUnfold(c[1..], NotMemberOf(D));
    assert c[1..][1..] == c[2..];
    MinusMember(c[2..], D);
    hide KeepIf;
    assert Minus(c, D) == [c[1]] + Minus(c[2..], D);
    forall i: nat | i < |c[2..]| ensures c[2..][i] != c[1] {
      assert c[2..][i] == c[i + 2];
    }
    forall i: nat | 1 <= i < |Minus(c, D)| ensures Minus(c, D)[i] != c[1] {
      assert Minus(c, D)[i] == Minus(c[2..], D)[i - 1] && Minus(c[2..], D)[i - 1] in Minus(c[2..], D);
    }
  }

  lemma FirstNotAlive(chains: Chains, chains': Chains, D: set<Ref>, g: Ref)
    requires Kept(chains, chains', D) && Apart(chains) && g in chains && NoDup(chains[g])
    requires |chains[g]| >= 2 && chains[g][0] in D && chains[g][1] !in D
    ensures !Alive(chains', chains[g][1])
  {
    var y := chains[g][1];
    if Alive(chains', y) {
      var h: Ref, i: nat :| h in chains' && 1 <= i < |chains'[h]| && chains'[h][i] == y;
      MinusMember(chains[h], D);
      assert y in chains[h] && y in chains[g];
      SecondOnce(chains[g], D);
    }
  }

  lemma UnpinnedKeeps(chains: Chains, chains': Chains, marked: set<Ref>, x: Ref, y: Ref)
    requires forall g: Ref :: g in chains ==> NoDup(chains[g])
    requires Base(x) == x && Kept(chains, chains', ElementsOf(x)) && Unpinned(chains, marked, x)
    requires x.Clause? ==> forall g: Ref | g in chains && x in chains[g] :: Ind(x.clause) !in chains[g]
    requires Alive(chains, y) && Base(y) in marked
    ensures Alive(chains', y)
  {
    var D := ElementsOf(x);
    var g: Ref, i: nat :| g in chains && 1 <= i < |chains[g]| && chains[g][i] == y;
    var c := chains[g];
    var kept := if c[0] in D then 1 else 0;
    if c[0] in D {
      assert i == 1 ==> WouldBecomeFirst(chains, x, Base(y));
      assert c[1] in c && c[0] in c && c[0] != c[1];
    }
    assert c[kept] !in D && kept < i;
    var j := |Minus(c[..i], D)|;
    assert c == c[..i] + c[i..];
    KeepIfConcat(c[..i], c[i..], NotMemberOf(D));
    KeepIfUnfold(c[i..], NotMemberOf(D));
    MinusMember(c[..i], D);
    assert c[..i][kept] in c[..i] && c[kept] in Minus(c[..i], D);
    assert chains'[g][j] == y && 1 <= j < |chains'[g]|;
  }

  // ------------------------------------------------------------------

  /** The choice points above the first one in a difficult block. */
  ghost function BeforeBlock(cps: seq<Cp>): seq<Cp> {
    if cps == [] || cps[0].BlockCp? then [] else [cps[0]] + BeforeBlock(cps[1..])
  }

  lemma {:induction false} BeforeFirst(cps: seq<Cp>, i: nat)
    requires i <= |cps| && forall c | c in cps[..i] :: !c.BlockCp?
    ensures i == |cps| || cps[i].BlockCp? ==> BeforeBlock(cps) == cps[..i]
  {
    if i > 0 {
      assert cps[0] in cps[..i] && cps[1..][..i - 1] == cps[..i][1..];
      BeforeFirst(cps[1..], i - 1);
    }
  }

  // ------------------------------------------------------------------
  // Emptied SOB records.

  ghost predicate NoneEmpty(chains: Chains)
    requires HOME in chains
  {
    forall s: nat | Sob(s) in chains[HOME] :: !EmptyIn(chains, s)
  }

  ghost predicate EmptyIn(chains: Chains, s: nat) {
    Sob(s) in chains && chains[Sob(s)] == []
  }

  /** A record that was emptied in between is still there, and its instruction fails. */
  ghost predicate LeftEmpty(chains: Chains, marked: set<Ref>, failed: set<nat>, s: nat)
    requires HOME in chains
  {
    && s in failed
    && (Sob(s) in marked || (|chains[HOME]| >= 2 && chains[HOME][0] == Sob(s) && chains[HOME][1] in marked))
  }

  /** Every emptied record is gone, or it is marked, or it is the first one and the second one is marked. */
  ghost predicate Tidy(chains: Chains, chains': Chains, marked: set<Ref>, failed: set<nat>) {
    && HOME in chains'
    && forall s: nat {:trigger Sob(s) in chains'[HOME]} | Sob(s) in chains'[HOME] && EmptyIn(chains', s) ::
         EmptyIn(chains, s) || LeftEmpty(chains', marked, failed, s)
  }

  lemma TidyNothing(chains: Chains, chains': Chains, marked: set<Ref>, failed: set<nat>)
    requires Kept(chains, chains', Gone({}, {})) && HOME in chains
    ensures Tidy(chains, chains', marked, failed)
  {
    forall g: Ref | g in chains ensures chains'[g] == chains[g] {
      MinusNothing(chains[g], Gone({}, {}));
    }
  }

  lemma TidyTrans(a: Chains, b: Chains, c: Chains, marked: set<Ref>, failed: set<nat>, failed': set<nat>, ks: set<nat>,
                  ss: set<nat>)
    requires Tidy(a, b, marked, failed) && Tidy(b, c, marked, failed') && failed <= failed'
    requires Kept(b, c, Gone(ks, ss)) && SparesMarked(ks, ss, marked) && SobsListed(b)
    ensures Tidy(a, c, marked, failed')
  {
    var D := Gone(ks, ss);
    MinusMember(b[HOME], D);
    forall s: nat | Sob(s) in c[HOME] && EmptyIn(c, s) && !EmptyIn(a, s) ensures LeftEmpty(c, marked, failed', s) {
      if EmptyIn(b, s) {
        assert Sob(s) in b[HOME] && LeftEmpty(b, marked, failed, s);
        if Sob(s) !in marked {
          var y := b[HOME][1];
          assert y in b[HOME] && y == Sob(y.sob) && y !in D;
          SecondStays(b[HOME], D);
        }
      }
    }
  }

  lemma SecondStays(c: seq<Ref>, D: set<Ref>)
    requires |c| >= 2 && c[0] !in D && c[1] !in D
    ensures |Minus(c, D)| >= 2 && Minus(c, D)[0] == c[0] && Minus(c, D)[1] == c[1]
  {
    KeepIfUnfold(c, NotMemberOf(D));
    KeepIfUnfold(c[1..], NotMemberOf(D));
  }

  /** A record that may not be dropped is marked, or it is the first one and the second one is marked. */
  lemma PinnedRecord(chains: Chains, marked: set<Ref>, s: nat)
    requires SobsListed(chains) && Apart(chains) && Sob(s) in chains[HOME] && NoDup(chains[HOME])
    requires !Unpinned(chains, marked, Sob(s))
    ensures Sob(s) in marked || (|chains[HOME]| >= 2 && chains[HOME][0] == Sob(s) && chains[HOME][1] in marked)
  {
    if Sob(s) !in marked {
      var y :| y in marked && WouldBecomeFirst(chains, Sob(s), y);
      var g: Ref :| g in chains && |chains[g]| >= 2 && Base(chains[g][0]) == Sob(s) && Base(chains[g][1]) == y;
      assert chains[g][0] in chains[g] && chains[g][0] == Sob(s);
      assert chains[HOME][1] in chains[HOME];
    }
  }

  /** After a clause of record s is unlinked, s goes exactly if it is emptied and unpinned. */
  lemma TidyOne(a: Chains, b: Chains, c: Chains, marked: set<Ref>, failed: set<nat>, s: nat, ss: set<nat>)
    requires SobsListed(b) && Apart(b) && NoDup(b[HOME]) && Sob(s) in b[HOME]
    requires forall t: nat | t != s && Sob(t) in b :: Sob(t) in a && a[Sob(t)] == b[Sob(t)]
    requires ss == if b[Sob(s)] == [] && Unpinned(b, marked, Sob(s)) then {s} else {}
    requires b[Sob(s)] == [] && ss == {} ==> s in failed
    requires Kept(b, c, Gone({}, ss))
    ensures Tidy(a, c, marked, failed)
  {
    hide KeepIf;
    MinusMember(b[HOME], Gone({}, ss));
    if ss == {} {
      MinusNothing(b[HOME], Gone({}, {}));
      MinusNothing(b[Sob(s)], Gone({}, {}));
      if b[Sob(s)] == [] {
        PinnedRecord(b, marked, s);
      }
    }
    forall t: nat | t != s && Sob(t) in b && b[Sob(t)] != [] ensures c[Sob(t)] != [] {
      MinusMember(b[Sob(t)], Gone({}, ss));
      assert b[Sob(t)][0] in c[Sob(t)];
    }
    hide Unpinned, Minus;
    forall t: nat | Sob(t) in c[HOME] && EmptyIn(c, t) && !EmptyIn(a, t) ensures LeftEmpty(c, marked, failed, t) {
      assert Sob(t) in b[HOME];
    }
  }

  // ------------------------------------------------------------------
  // What a choice point still tries.

  /** A choice point at position i of a chain stays on its element, which is not the first one of the new
      chain, and the rest of the new chain is the rest of the old one without the deleted elements. */
  lemma StillTries(chains: Chains, chains': Chains, D: set<Ref>, g: Ref, i: nat)
    requires Kept(chains, chains', D) && g in chains && i < |chains[g]| && chains[g][i] !in D
    requires Apart(chains') && Alive(chains', chains[g][i]) && NoDup(chains'[g])
    ensures exists j: nat ::
            1 <= j < |chains'[g]| && chains'[g][j] == chains[g][i] && chains'[g][j..] == Minus(chains[g][i..], D)
  {
    var c := chains[g];
    var j := |Minus(c[..i], D)|;
    assert c == c[..i] + c[i..];
    KeepIfConcat(c[..i], c[i..], NotMemberOf(D));
    var d := chains'[g];
    assert d[j..] == Minus(c[i..], D) && d[j] == c[i];
    var h: Ref, j0: nat :| h in chains' && 1 <= j0 < |chains'[h]| && chains'[h][j0] == c[i];
    assert d[j] in d && c[i] in chains'[h];
    assert h == g;
    assert j0 == j;
  }

  /** The same for every place of x: a choice point on x goes on with what it would have tried,
      without the elements of D. */
  ghost predicate Continues(chains: Chains, chains': Chains, D: set<Ref>, x: Ref) {
    forall g: Ref, i: nat | g in chains && i < |chains[g]| && chains[g][i] == x :: StaysOn(chains, chains', D, g, i)
  }

  ghost predicate StaysOn(chains: Chains, chains': Chains, D: set<Ref>, g: Ref, i: nat)
    requires g in chains && i < |chains[g]|
  {
    g in chains' && exists j: nat ::
        1 <= j < |chains'[g]| && chains'[g][j] == chains[g][i] && chains'[g][j..] == Minus(chains[g][i..], D)
  }

  lemma AllContinue(chains: Chains, chains': Chains, D: set<Ref>, cps: seq<Cp>)
    requires Kept(chains, chains', D) && Apart(chains') && AllAlive(chains', cps)
    requires forall g: Ref :: g in chains' ==> NoDup(chains'[g])
    ensures forall c | c in cps && c.DynCp? :: Continues(chains, chains', D, c.at)
  {
    forall c, g: Ref, i: nat | c in cps && c.DynCp? && g in chains && i < |chains[g]| && chains[g][i] == c.at
      ensures StaysOn(chains, chains', D, g, i)
    {
      var h: Ref, j: nat :| h in chains' && 1 <= j < |chains'[h]| && chains'[h][j] == c.at;
      MinusMember(chains[h], D);
      assert chains'[h][j] in chains'[h];
      StillTries(chains, chains', D, g, i);
    }
  }

  /** No marked record leaves. */
  ghost predicate SparesMarked(ks: set<nat>, ss: set<nat>, marked: set<Ref>) {
    (forall k | k in ks :: Clause(k) !in marked) && forall s | s in ss :: Sob(s) !in marked
  }

  /** A clause that is pinned stays pinned while no marked record leaves. */
  lemma StaysPinned(chains: Chains, chains': Chains, ks: set<nat>, ss: set<nat>, marked: set<Ref>, k: nat)
    requires Kept(chains, chains', Gone(ks, ss)) && SparesMarked(ks, ss, marked) && k !in ks
    requires !Unpinned(chains, marked, Clause(k))
    ensures !Unpinned(chains', marked, Clause(k))
  {
    hide KeepIf;
    if Clause(k) !in marked {
      var y :| y in marked && WouldBecomeFirst(chains, Clause(k), y);
      var g: Ref :| g in chains && |chains[g]| >= 2 && Base(chains[g][0]) == Clause(k) && Base(chains[g][1]) == y;
      var c, D := chains[g], Gone(ks, ss);
      assert c[0] !in D && c[1] !in D;
      KeepIfUnfold(c, NotMemberOf(D));
      KeepIfUnfold(c[1..], NotMemberOf(D));
      assert chains'[g][0] == c[0] && chains'[g][1] == c[1];
      assert WouldBecomeFirst(chains', Clause(k), y);
    }
  }

  /** Through a SOB record: the clauses of this and all later segments lose only deleted ones. */
  lemma {:induction false} ScanStillTries(chains: Chains, chains': Chains, ks: set<nat>, ss: set<nat>,
                                          size: map<nat, nat>, sobs: seq<Ref>)
    requires Kept(chains, chains', Gone(ks, ss))
    requires forall x | x in sobs :: x.Sob? && x in chains
    requires forall s | s in ss :: AllEmpty(chains', size, s)
    ensures forall x | x in Minus(sobs, Gone(ks, ss)) :: x in sobs && x in chains'
    ensures ScanOf(chains', Minus(sobs, Gone(ks, ss))) == Minus(ScanOf(chains, sobs), Gone(ks, ss))
  {
    hide ScanOf, KeepIf;
    var D := Gone(ks, ss);
    MinusMember(sobs, D);
    KeepIfUnfold(sobs, NotMemberOf(D));
    ScanUnfold(chains, sobs);
    if sobs == [] {
      KeepIfUnfold([], NotMemberOf(D));
      ScanUnfold(chains', []);
    } else {
      var x := sobs[0];
      assert x in sobs && x == Sob(x.sob);
      assert forall y | y in sobs[1..] :: y in sobs;
      ScanStillTries(chains, chains', ks, ss, size, sobs[1..]);
      KeepIfConcat(chains[x], ScanOf(chains, sobs[1..]), NotMemberOf(D));
      assert chains'[x] == Minus(chains[x], D);
      if x in D {
        assert x.sob in ss && AllEmpty(chains', size, x.sob);
        assert Minus(sobs, D) == Minus(sobs[1..], D);
      } else {
        assert Minus(sobs, D)[1..] == Minus(sobs[1..], D) && Minus(sobs, D)[0] == x;
        ScanUnfold(chains', Minus(sobs, D));
      }
    }
  }

  lemma ScanUnfold(chains: Chains, sobs: seq<Ref>)
    requires forall x | x in sobs :: x in chains
    ensures ScanOf(chains, sobs) == if sobs == [] then []
            else (assert sobs[0] in sobs; chains[sobs[0]]) + ScanOf(chains, sobs[1..])
  {
  }

  lemma MatchWordsUnfold(chains: Chains, size: map<nat, nat>, sobs: seq<Ref>, code: nat)
    requires Searchable(chains, size, sobs, code)
    ensures sobs != [] ==> sobs[0] in sobs && Searchable(chains, size, sobs[1..], code)
    ensures MatchWords(chains, size, sobs, code) ==
            if sobs == [] then []
            else chains[Bucket(sobs[0].sob, code % size[sobs[0].sob])] + MatchWords(chains, size, sobs[1..], code)
  {
    assert sobs != [] ==> forall x | x in sobs[1..] :: x in sobs;
  }

  /** The same with the argument bound: the index words still to be tried. */
  lemma {:induction false} MatchesStillTried(chains: Chains, chains': Chains, ks: set<nat>, ss: set<nat>,
                                             size: map<nat, nat>, sobs: seq<Ref>, code: nat)
    requires Kept(chains, chains', Gone(ks, ss))
    requires Searchable(chains, size, sobs, code)
    requires forall s | s in ss :: AllEmpty(chains', size, s)
    ensures Searchable(chains', size, Minus(sobs, Gone(ks, ss)), code)
    ensures MatchWords(chains', size, Minus(sobs, Gone(ks, ss)), code) ==
            Minus(MatchWords(chains, size, sobs, code), Gone(ks, ss))
  {
    hide MatchWords, KeepIf;
    var D := Gone(ks, ss);
    MinusMember(sobs, D);
    KeepIfUnfold(sobs, NotMemberOf(D));
    MatchWordsUnfold(chains, size, sobs, code);
    MinusSearchable(chains, chains', D, size, sobs, code);
    if sobs == [] {
      KeepIfUnfold([], NotMemberOf(D));
      MatchWordsUnfold(chains', size, [], code);
    } else {
      var x := sobs[0];
      assert x == Sob(x.sob);
      var b := Bucket(x.sob, code % size[x.sob]);
      MatchesStillTried(chains, chains', ks, ss, size, sobs[1..], code);
      KeepIfConcat(chains[b], MatchWords(chains, size, sobs[1..], code), NotMemberOf(D));
      assert chains'[b] == Minus(chains[b], D);
      if x in D {
        assert x.sob in ss && AllEmpty(chains', size, x.sob);
        assert Minus(sobs, D) == Minus(sobs[1..], D);
      } else {
        assert Minus(sobs, D)[1..] == Minus(sobs[1..], D) && Minus(sobs, D)[0] == x;
        MatchWordsUnfold(chains', size, Minus(sobs, D), code);
      }
    }
  }

  lemma MinusSearchable(chains: Chains, chains': Chains, D: set<Ref>, size: map<nat, nat>, sobs: seq<Ref>, code: nat)
    requires Searchable(chains, size, sobs, code) && chains'.Keys == chains.Keys
    ensures Searchable(chains', size, Minus(sobs, D), code)
  {
    MinusMember(sobs, D);
  }
}
