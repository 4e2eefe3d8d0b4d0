/** A predicate indexed on one argument: SOB segments of clauses with hash buckets. */
module ClauseIndex {
  import opened Sequences
  import opened ClauseChains
  import opened IndexSpec

  /** The chain of SOB records of the predicate. */
  const HOME: Ref := SobPred(0)

  type Chains = map<Ref, seq<Ref>>

  /** The clauses of a segment and their placement by size of the table. */
  ghost predicate ClausesOk(all: seq<Ref>, size: nat, keys: map<nat, Key>) {
    && size > 0
    && forall x: Ref :: x in all ==>
         && x.Clause? && x.clause in keys
         && (if keys[x.clause].VarKey? then size == 1 else size >= 17)
  }

  ghost predicate BucketOk(chains: Chains, s: nat, size: nat, keys: map<nat, Key>, all: seq<Ref>, h: nat)
    requires ClausesOk(all, size, keys)
  {
    Bucket(s, h) in chains && chains[Bucket(s, h)] == SlotWords(keys, size, all, h)
  }

  ghost function UsedSlots(chains: Chains, s: nat, size: nat): set<nat> {
    set h: nat | h < size && Bucket(s, h) in chains && chains[Bucket(s, h)] != []
  }

  /** A SOB record with the clauses all: every bucket holds exactly its clauses, in order. */
  ghost predicate SegmentOk(chains: Chains, s: nat, size: nat, used: nat, keys: map<nat, Key>) {
    && Sob(s) in chains
    && ClausesOk(chains[Sob(s)], size, keys)
    && (forall h: nat {:trigger Bucket(s, h)} :: h < size ==> BucketOk(chains, s, size, keys, chains[Sob(s)], h))
    && used == |UsedSlots(chains, s, size)|
  }

  ghost predicate KnownIds(chains: Chains, keys: map<nat, Key>, nextSob: nat) {
    && (forall g: Ref :: g in chains && (g.Sob? || g.Bucket?) ==> g.sob < nextSob)
    && (forall g: Ref, x: Ref :: g in chains && x in chains[g] ==>
          match x { case Clause(k) => k in keys case Ind(k) => k in keys case Sob(s) => s < nextSob case _ => false })
  }

  /** The whole index. */
  ghost predicate IndexOk(chains: Chains, size: map<nat, nat>, used: map<nat, nat>, keys: map<nat, Key>, nextSob: nat) {
    && IndexShape(chains, size, used, keys, nextSob)
    && (forall s: nat {:trigger Sob(s) in chains[HOME]} :: Sob(s) in chains[HOME] ==> chains[Sob(s)] != [])
  }

  /** The same, except that segments may be empty. */
  ghost predicate IndexShape(chains: Chains, size: map<nat, nat>, used: map<nat, nat>, keys: map<nat, Key>,
                             nextSob: nat)
  {
    && HOME in chains
    && KnownIds(chains, keys, nextSob)
    && (forall s: nat {:trigger Sob(s) in chains[HOME]} :: Sob(s) in chains[HOME] ==>
          s in size && s in used && Sob(s) in chains && SegmentOk(chains, s, size[s], used[s], keys))
  }

  // ------------------------------------------------------------------
  // Adding a clause to a segment.

  lemma UsedAdded(chains: Chains, s: nat, size: nat, h: nat, words: seq<Ref>)
    requires h < size && Bucket(s, h) in chains && words != []
    ensures UsedSlots(chains[Bucket(s, h) := words], s, size) == UsedSlots(chains, s, size) + {h}
  {
  }

  /** x at the front or at the back. */
  function Placed(az: nat, x: Ref, c: seq<Ref>): seq<Ref> {
    if az == 0 then [x] + c else c + [x]
  }

  lemma AddClausesOk(all: seq<Ref>, size: nat, keys: map<nat, Key>, key: Key, k: nat, az: nat)
    requires ClausesOk(all, size, keys) && k !in keys
    requires if key.VarKey? then size == 1 else size >= 17
    ensures ClausesOk(Placed(az, Clause(k), all), size, keys[k := key])
  {
    forall x: Ref | x in Placed(az, Clause(k), all) ensures x in all || x == Clause(k) {}
  }

  lemma AddSlotWords(all: seq<Ref>, size: nat, keys: map<nat, Key>, key: Key, k: nat, az: nat, h: nat)
    requires ClausesOk(all, size, keys) && k !in keys
    requires ClausesOk(Placed(az, Clause(k), all), size, keys[k := key])
    ensures SlotWords(keys[k := key], size, Placed(az, Clause(k), all), h) ==
            if SlotOf(key, size) == h then Placed(az, Ind(k), SlotWords(keys, size, all, h))
                else SlotWords(keys, size, all, h)
  {
    SlotWordsKeys(keys, keys[k := key], size, all, h);
    if az == 0 {
      SlotWordsFront(keys[k := key], size, Clause(k), all, h);
    } else {
      SlotWordsBack(keys[k := key], size, all, Clause(k), h);
    }
  }

  lemma SegmentAdd(chains: Chains, chains': Chains, s: nat, size: nat, used: nat, keys: map<nat, Key>, key: Key,
                   k: nat, az: nat)
    requires SegmentOk(chains, s, size, used, keys) && k !in keys
    requires if key.VarKey? then size == 1 else size >= 17
    requires var h := SlotOf(key, size);
             && Bucket(s, h) in chains
             && chains' == chains[Bucket(s, h) := Placed(az, Ind(k), chains[Bucket(s, h)])]
                                 [Sob(s) := Placed(az, Clause(k), chains[Sob(s)])]
    ensures var was := chains[Bucket(s, SlotOf(key, size))];
            SegmentOk(chains', s, size, if was == [] then used + 1 else used, keys[k := key])
  {
    var all, keys', h0 := chains[Sob(s)], keys[k := key], SlotOf(key, size);
    var words := Placed(az, Ind(k), chains[Bucket(s, h0)]);
    AddClausesOk(all, size, keys, key, k, az);
    forall h: nat | h < size ensures BucketOk(chains', s, size, keys', chains'[Sob(s)], h) {
      assert BucketOk(chains, s, size, keys, all, h);
      AddSlotWords(all, size, keys, key, k, az, h);
    }
    CountAdded(chains, chains', s, size, h0, words);
  }

  lemma CountAdded(chains: Chains, chains': Chains, s: nat, size: nat, h: nat, words: seq<Ref>)
    requires h < size && Bucket(s, h) in chains && words != [] && Sob(s) in chains'
    requires chains' == chains[Bucket(s, h) := words][Sob(s) := chains'[Sob(s)]]
    ensures |UsedSlots(chains', s, size)| == |UsedSlots(chains, s, size)|
            + (if chains[Bucket(s, h)] == [] then 1 else 0)
  {
    var U, U' := UsedSlots(chains, s, size), UsedSlots(chains', s, size);
    UsedAdded(chains, s, size, h, words);
    UsedElsewhere(chains[Bucket(s, h) := words], s, size, chains'[Sob(s)]);
    assert U' == U + {h};
    assert h in U <==> chains[Bucket(s, h)] != [];
    if h in U {
      assert U + {h} == U;
    }
  }

  lemma UsedElsewhere(chains: Chains, s: nat, size: nat, all: seq<Ref>)
    ensures UsedSlots(chains[Sob(s) := all], s, size) == UsedSlots(chains, s, size)
  {
  }

  /** A segment none of whose chains changed. */
  lemma SegmentSame(chains: Chains, chains': Chains, s: nat, size: nat, used: nat, keys: map<nat, Key>,
                    keys': map<nat, Key>)
    requires SegmentOk(chains, s, size, used, keys)
    requires forall k: nat :: k in keys ==> k in keys' && keys'[k] == keys[k]
    requires Sob(s) in chains' && chains'[Sob(s)] == chains[Sob(s)]
    requires forall h: nat {:trigger Bucket(s, h)} ::
             Bucket(s, h) in chains ==> Bucket(s, h) in chains' && chains'[Bucket(s, h)] == chains[Bucket(s, h)]
    ensures SegmentOk(chains', s, size, used, keys')
  {
    var all := chains[Sob(s)];
    forall h: nat | h < size ensures BucketOk(chains', s, size, keys', all, h) {
      assert BucketOk(chains, s, size, keys, all, h);
      SlotWordsKeys(keys, keys', size, all, h);
    }
    assert UsedSlots(chains', s, size) == UsedSlots(chains, s, size) by {
      forall h: nat | h < size ensures Bucket(s, h) in chains {
        assert BucketOk(chains, s, size, keys, all, h);
      }
    }
  }

  /** Taking the clause at position i out of a segment. */
  lemma SegmentRemove(chains: Chains, chains': Chains, s: nat, size: nat, used: nat, keys: map<nat, Key>, i: nat)
    requires SegmentOk(chains, s, size, used, keys) && i < |chains[Sob(s)]|
    requires var all := chains[Sob(s)];
             var h := SlotOf(keys[all[i].clause], size);
             var j := |SlotWords(keys, size, all[..i], h)|;
             && Bucket(s, h) in chains && j < |chains[Bucket(s, h)]|
             && chains' == chains[Sob(s) := Removed(all, i)][Bucket(s, h) := Removed(chains[Bucket(s, h)], j)]
    ensures used > 0
    ensures var h := SlotOf(keys[chains[Sob(s)][i].clause], size);
            SegmentOk(chains', s, size, if |chains[Bucket(s, h)]| == 1 then used - 1 else used, keys)
  {
    var all, all' := chains[Sob(s)], chains'[Sob(s)];
    var h0 := SlotOf(keys[all[i].clause], size);
    forall x: Ref | x in all' ensures x in all {
      var m :| 0 <= m < |all'| && all'[m] == x;
      assert all[if m < i then m else m + 1] == x;
    }
    forall h: nat | h < size ensures BucketOk(chains', s, size, keys, all', h) {
      assert BucketOk(chains, s, size, keys, all, h);
      SlotWordsRemoved(keys, size, all, i, h);
    }
    var U, U' := UsedSlots(chains, s, size), UsedSlots(chains', s, size);
    assert h0 in U;
    assert |chains'[Bucket(s, h0)]| == |chains[Bucket(s, h0)]| - 1;
    assert U' == if |chains[Bucket(s, h0)]| == 1 then U - {h0} else U;
  }

  /** A segment whose count is zero holds no clause. */
  lemma NoneUsed(chains: Chains, s: nat, size: nat, used: nat, keys: map<nat, Key>)
    requires SegmentOk(chains, s, size, used, keys)
    ensures used == 0 <==> chains[Sob(s)] == []
  {
    var all := chains[Sob(s)];
    if all != [] {
      var h := SlotOf(keys[all[0].clause], size);
      assert BucketOk(chains, s, size, keys, all, h);
      assert Ind(all[0].clause) in chains[Bucket(s, h)];
      assert h in UsedSlots(chains, s, size);
    } else {
      forall h: nat | h < size ensures Bucket(s, h) in chains && chains[Bucket(s, h)] == [] {
        assert BucketOk(chains, s, size, keys, all, h);
      }
      assert UsedSlots(chains, s, size) == {};
    }
  }

  /** A one-bucket table in the index has its bucket in use, a bigger one has at least 17. */
  lemma SegmentSizes(chains: Chains, s: nat, size: nat, used: nat, keys: map<nat, Key>)
    requires SegmentOk(chains, s, size, used, keys) && chains[Sob(s)] != []
    ensures size >= 17 || (size == 1 && used == 1)
  {
    var all := chains[Sob(s)];
    assert all[0] in all;
    NoneUsed(chains, s, size, used, keys);
    if size == 1 {
      assert UsedSlots(chains, s, size) <= {0};
      SubsetSize(UsedSlots(chains, s, size), {0});
    }
  }

  // ------------------------------------------------------------------
  // Whole-index steps.

  /** A fresh, empty SOB block. */
  ghost predicate FreshBlock(chains: Chains, chains': Chains, s: nat, size: nat) {
    && size > 0
    && (forall g: Ref :: g in chains ==> g in chains' && chains'[g] == chains[g])
    && (forall g: Ref :: g in chains' && g !in chains ==> chains'[g] == [] && (g.Sob? || g.Bucket?) && g.sob == s)
    && Sob(s) in chains' && chains'[Sob(s)] == []
    && (forall h: nat {:trigger Bucket(s, h)} :: h < size ==> Bucket(s, h) in chains' && chains'[Bucket(s, h)] == [])
  }

  lemma FreshSegment(chains: Chains, chains': Chains, s: nat, size: nat, keys: map<nat, Key>)
    requires FreshBlock(chains, chains', s, size)
    ensures SegmentOk(chains', s, size, 0, keys)
  {
    forall h: nat | h < size ensures BucketOk(chains', s, size, keys, [], h) {}
    assert UsedSlots(chains', s, size) == {};
  }

  lemma IndexGrows(chains: Chains, chains1: Chains, chains2: Chains, size: map<nat, nat>, used: map<nat, nat>,
                   keys: map<nat, Key>, nextSob: nat, n: nat, az: nat)
    requires IndexOk(chains, size, used, keys, nextSob)
    requires FreshBlock(chains, chains1, nextSob, n)
    requires chains2 == chains1[HOME := Placed(az, Sob(nextSob), chains[HOME])]
    ensures IndexShape(chains2, size[nextSob := n], used[nextSob := 0], keys, nextSob + 1)
    ensures forall s: nat :: Sob(s) in chains2[HOME] && s != nextSob ==> chains2[Sob(s)] != []
  {
    var size', used' := size[nextSob := n], used[nextSob := 0];
    FreshSegment(chains, chains1, nextSob, n, keys);
    forall s: nat | Sob(s) in chains2[HOME]
      ensures s in size' && s in used' && Sob(s) in chains2 && SegmentOk(chains2, s, size'[s], used'[s], keys)
      ensures s != nextSob ==> chains2[Sob(s)] != []
    {
      if s == nextSob {
        SegmentSame(chains1, chains2, s, n, 0, keys, keys);
      } else {
        assert Sob(s) in chains[HOME];
        SegmentSame(chains, chains2, s, size[s], used[s], keys, keys);
      }
    }
    GrowsKnown(chains, chains1, chains2, keys, nextSob, n, az);
  }

  lemma GrowsKnown(chains: Chains, chains1: Chains, chains2: Chains, keys: map<nat, Key>, nextSob: nat, n: nat, az: nat)
    requires KnownIds(chains, keys, nextSob) && HOME in chains
    requires FreshBlock(chains, chains1, nextSob, n)
    requires chains2 == chains1[HOME := Placed(az, Sob(nextSob), chains[HOME])]
    ensures KnownIds(chains2, keys, nextSob + 1)
  {
    forall g: Ref, x: Ref | g in chains2 && x in chains2[g]
      ensures match x {
                case Clause(k) => k in keys
                case Ind(k) => k in keys
                case Sob(s) => s < nextSob + 1
                case _ => false
              }
    {
      if g == HOME {
        assert x in chains[HOME] || x == Sob(nextSob);
      }
    }
  }

  /** A clause is added to the segment s of the index. */
  lemma IndexAdd(chains: Chains, chains': Chains, size: map<nat, nat>, used: map<nat, nat>, keys: map<nat, Key>,
                 nextSob: nat, s: nat, key: Key, k: nat, az: nat)
    requires IndexShape(chains, size, used, keys, nextSob) && Sob(s) in chains[HOME] && k !in keys
    requires s in size && size[s] > 0 && (if key.VarKey? then size[s] == 1 else size[s] >= 17)
    requires forall t: nat :: Sob(t) in chains[HOME] && t != s ==> chains[Sob(t)] != []
    requires var b := Bucket(s, SlotOf(key, size[s]));
             && b in chains && Sob(s) in chains
             && chains' == chains[b := Placed(az, Ind(k), chains[b])][Sob(s) := Placed(az, Clause(k), chains[Sob(s)])]
    ensures var b := Bucket(s, SlotOf(key, size[s]));
            && s in used
            && IndexOk(chains', size, used[s := if chains[b] == [] then used[s] + 1 else used[s]], keys[k := key],
                nextSob)
  {
    var b := Bucket(s, SlotOf(key, size[s]));
    var used', keys' := used[s := if chains[b] == [] then used[s] + 1 else used[s]], keys[k := key];
    forall t: nat | Sob(t) in chains'[HOME]
      ensures t in size && t in used' && Sob(t) in chains' && SegmentOk(chains', t, size[t], used'[t], keys')
      ensures chains'[Sob(t)] != []
    {
      assert Sob(t) in chains[HOME];
      if t == s {
        SegmentAdd(chains, chains', s, size[s], used[s], keys, key, k, az);
      } else {
        SegmentSame(chains, chains', t, size[t], used[t], keys, keys');
      }
    }
    AddKnown(chains, chains', keys, keys', nextSob, s, SlotOf(key, size[s]), k, az);
  }

  lemma AddKnown(chains: Chains, chains': Chains, keys: map<nat, Key>, keys': map<nat, Key>, nextSob: nat, s: nat,
                 h: nat, k: nat, az: nat)
    requires KnownIds(chains, keys, nextSob) && keys'.Keys == keys.Keys + {k}
    requires Bucket(s, h) in chains && Sob(s) in chains
    requires chains' == chains[Bucket(s, h) := Placed(az, Ind(k), chains[Bucket(s, h)])]
                              [Sob(s) := Placed(az, Clause(k), chains[Sob(s)])]
    ensures KnownIds(chains', keys', nextSob)
  {
    forall g: Ref, x: Ref | g in chains' && x in chains'[g]
      ensures match x {
                case Clause(m) => m in keys'
                case Ind(m) => m in keys'
                case Sob(t) => t < nextSob
                case _ => false
              }
    {
      assert x in chains[g] || x == Ind(k) || x == Clause(k);
    }
  }

  // ------------------------------------------------------------------
  // The plain scan: the clauses of all segments, in order.

  function ScanOf(chains: Chains, sobs: seq<Ref>): seq<Ref>
    requires forall x | x in sobs :: x in chains
  {
    if sobs == [] then [] else chains[sobs[0]] + ScanOf(chains, sobs[1..])
  }

  lemma {:induction false} ScanConcat(chains: Chains, a: seq<Ref>, b: seq<Ref>)
    requires forall x | x in a + b :: x in chains
    ensures forall x | x in a :: x in chains
    ensures forall x | x in b :: x in chains
    ensures ScanOf(chains, a + b) == ScanOf(chains, a) + ScanOf(chains, b)
  {
    assert forall x | x in a :: x in a + b;
    assert forall x | x in b :: x in a + b;
    if a == [] {
      assert a + b == b;
    } else {
      assert (a + b)[1..] == a[1..] + b;
      ScanConcat(chains, a[1..], b);
    }
  }

  lemma {:induction false} ScanFrame(chains: Chains, chains': Chains, sobs: seq<Ref>)
    requires forall x | x in sobs :: x in chains && x in chains' && chains'[x] == chains[x]
    ensures ScanOf(chains', sobs) == ScanOf(chains, sobs)
  {
    if sobs != [] {
      ScanFrame(chains, chains', sobs[1..]);
    }
  }

  lemma Elsewhere(sobs: seq<Ref>, m: nat)
    requires m < |sobs| && NoDup(sobs)
    ensures sobs == sobs[..m] + ([sobs[m]] + sobs[m + 1..])
    ensures forall y | y in sobs[..m] :: y in sobs && y != sobs[m]
    ensures forall y | y in sobs[m + 1..] :: y in sobs && y != sobs[m]
  {
    forall y | y in sobs[..m] ensures y in sobs && y != sobs[m] {
      var j :| 0 <= j < m && sobs[..m][j] == y;
      assert sobs[j] == y;
    }
    forall y | y in sobs[m + 1..] ensures y in sobs && y != sobs[m] {
      var j :| 0 <= j < |sobs| - m - 1 && sobs[m + 1..][j] == y;
      assert sobs[m + 1 + j] == y;
    }
  }

  lemma ScanParts(chains: Chains, a: seq<Ref>, s: Ref, b: seq<Ref>)
    requires forall y | y in a + ([s] + b) :: y in chains
    ensures forall y | y in a :: y in chains
    ensures forall y | y in b :: y in chains
    ensures s in chains && ScanOf(chains, a + ([s] + b)) == ScanOf(chains, a) + chains[s] + ScanOf(chains, b)
  {
    ScanConcat(chains, a, [s] + b);
    assert s in [s] + b;
    assert ([s] + b)[1..] == b;
  }

  /** The scan around the m-th segment, before and after only that segment changed. */
  lemma ScanAround(chains: Chains, chains': Chains, sobs: seq<Ref>, m: nat) returns (before: seq<Ref>, after: seq<Ref>)
    requires m < |sobs| && NoDup(sobs)
    requires forall y | y in sobs :: y in chains && y in chains'
    requires forall y | y in sobs && y != sobs[m] :: chains'[y] == chains[y]
    ensures ScanOf(chains, sobs) == before + chains[sobs[m]] + after
    ensures ScanOf(chains', sobs) == before + chains'[sobs[m]] + after
    ensures m == 0 ==> before == []
    ensures m == |sobs| - 1 ==> after == []
  {
    Elsewhere(sobs, m);
    ScanParts(chains, sobs[..m], sobs[m], sobs[m + 1..]);
    ScanParts(chains', sobs[..m], sobs[m], sobs[m + 1..]);
    ScanFrame(chains, chains', sobs[..m]);
    ScanFrame(chains, chains', sobs[m + 1..]);
    before, after := ScanOf(chains, sobs[..m]), ScanOf(chains, sobs[m + 1..]);
  }

  /** Growing the end segment puts the clause at that end of the scan. */
  lemma ScanPlaced(chains: Chains, chains': Chains, sobs: seq<Ref>, az: nat, s: Ref, x: Ref)
    requires sobs != [] && NoDup(sobs) && s == (if az == 0 then sobs[0] else sobs[|sobs| - 1])
    requires forall y | y in sobs :: y in chains && y in chains'
    requires forall y | y in sobs && y != s :: chains'[y] == chains[y]
    requires chains'[s] == Placed(az, x, chains[s])
    ensures ScanOf(chains', sobs) == Placed(az, x, ScanOf(chains, sobs))
  {
    hide ScanOf;
    var before, after := ScanAround(chains, chains', sobs, if az == 0 then 0 else |sobs| - 1);
    if az == 0 {
      assert ScanOf(chains', sobs) == [x] + (before + chains[s] + after);
    } else {
      assert ScanOf(chains', sobs) == (before + chains[s] + after) + [x];
    }
  }

  /** An empty segment at the end does not show in the scan. */
  lemma ScanEmptyEnd(chains: Chains, chains': Chains, sobs: seq<Ref>, az: nat, s: Ref)
    requires forall y | y in sobs :: y in chains && y in chains' && chains'[y] == chains[y]
    requires s in chains' && chains'[s] == []
    ensures forall y | y in Placed(az, s, sobs) :: y in chains'
    ensures ScanOf(chains', Placed(az, s, sobs)) == ScanOf(chains, sobs)
  {
    ScanFrame(chains, chains', sobs);
    forall y | y in Placed(az, s, sobs) ensures y in sobs || y == s {}
    if az == 0 {
      assert ([s] + sobs)[1..] == sobs;
    } else {
      ScanConcat(chains', sobs, [s]);
      assert ScanOf(chains', [s]) == [];
    }
  }

  /** Removing a clause from its segment removes it from the scan. */
  lemma ScanRemoved(chains: Chains, chains': Chains, sobs: seq<Ref>, m: nat, i: nat) returns (j: nat)
    requires m < |sobs| && NoDup(sobs)
    requires forall y | y in sobs :: y in chains && y in chains'
    requires forall y | y in sobs && y != sobs[m] :: chains'[y] == chains[y]
    requires i < |chains[sobs[m]]| && chains'[sobs[m]] == Removed(chains[sobs[m]], i)
    ensures j < |ScanOf(chains, sobs)| && ScanOf(chains, sobs)[j] == chains[sobs[m]][i]
    ensures ScanOf(chains', sobs) == Removed(ScanOf(chains, sobs), j)
  {
    hide ScanOf;
    var before, after := ScanAround(chains, chains', sobs, m);
    RemovedInside(before, chains[sobs[m]], after, i);
    j := |before| + i;
  }

  lemma RemovedInside<T>(a: seq<T>, c: seq<T>, b: seq<T>, i: nat)
    requires i < |c|
    ensures (a + c + b)[|a| + i] == c[i]
    ensures Removed(a + c + b, |a| + i) == a + Removed(c, i) + b
  {
  }

  /** Every element of the predicate's chain is a SOB record with its own chain. */
  lemma HomeSobs(op: map<Ref, Op>, prev: map<Ref, Ref>, next: map<Ref, Ref>, chains: Chains,
                 size: map<nat, nat>, used: map<nat, nat>, keys: map<nat, Key>, nextSob: nat)
    requires IndexShape(chains, size, used, keys, nextSob) && IsChain(op, prev, next, HOME, chains[HOME])
    ensures NoDup(chains[HOME])
    ensures forall x | x in chains[HOME] :: x.Sob? && x in chains
  {
    forall x | x in chains[HOME] ensures x.Sob? && x in chains {
      var i :| 0 <= i < |chains[HOME]| && chains[HOME][i] == x;
      assert Fits(HOME, chains[HOME][i]);
      assert Sob(x.sob) in chains[HOME];
    }
  }

  ghost predicate SobsListed(chains: Chains) {
    HOME in chains && forall x | x in chains[HOME] :: x.Sob? && x in chains
  }

  predicate AtEnd(c: seq<Ref>, az: nat, x: Ref) {
    c != [] && x == (if az == 0 then c[0] else c[|c| - 1])
  }

  /** The record at the end of the predicate will do for the key: a table of one bucket for a variable; for a bound
      argument at most three quarters of the buckets are used, and there are as many as asked for. */
  ghost predicate EndFits(home: seq<Ref>, size: map<nat, nat>, used: map<nat, nat>, key: Key, az: nat, asked: nat) {
    exists s: nat {:trigger Sob(s)} ::
      && AtEnd(home, az, Sob(s)) && s in size && s in used
      && if key.VarKey? then size[s] == 1 else used[s] <= size[s] / 4 * 3 && asked <= size[s]
  }

  /** The size of a new record at the end of the predicate. */
  ghost predicate NewSize(n: nat, home: seq<Ref>, size: map<nat, nat>, used: map<nat, nat>, key: Key, az: nat,
                          asked: nat)
  {
    if key.VarKey? then n == 1
    else if home == [] then FirstFrom(n, asked)
    else exists s: nat {:trigger Sob(s)} ::
           AtEnd(home, az, Sob(s)) && s in size && s in used && GrownTo(n, size[s], used[s], asked)
  }

  /** Where a clause of the scan sits. */
  lemma {:induction false} ScanMember(chains: Chains, sobs: seq<Ref>, x: Ref) returns (m: nat, i: nat)
    requires forall y | y in sobs :: y in chains
    requires x in ScanOf(chains, sobs)
    ensures m < |sobs| && i < |chains[sobs[m]]| && chains[sobs[m]][i] == x
  {
    if x in chains[sobs[0]] {
      m := 0;
      i :| 0 <= i < |chains[sobs[0]]| && chains[sobs[0]][i] == x;
    } else {
      m, i := ScanMember(chains, sobs[1..], x);
      m := m + 1;
    }
  }

  ghost predicate Shrunk(chains: Chains, chains': Chains) {
    && chains'.Keys == chains.Keys
    && forall g: Ref, x: Ref :: g in chains' && x in chains'[g] ==> x in chains[g]
  }

  lemma ShrunkKnown(chains: Chains, chains': Chains, keys: map<nat, Key>, nextSob: nat)
    requires KnownIds(chains, keys, nextSob) && Shrunk(chains, chains')
    ensures KnownIds(chains', keys, nextSob)
  {
  }

  lemma RemovedShrinks(chains: Chains, g: Ref, i: nat)
    requires g in chains && i < |chains[g]|
    ensures Shrunk(chains, chains[g := Removed(chains[g], i)])
  {
    forall x: Ref | x in Removed(chains[g], i) ensures x in chains[g] {
      var k :| 0 <= k < |Removed(chains[g], i)| && Removed(chains[g], i)[k] == x;
      assert chains[g][if k < i then k else k + 1] == x;
    }
  }

  /** A clause and its word are gone; its segment may now be empty. */
  lemma IndexRemove(chains: Chains, chains': Chains, size: map<nat, nat>, used: map<nat, nat>, keys: map<nat, Key>,
                    nextSob: nat, s: nat, i: nat)
    requires IndexShape(chains, size, used, keys, nextSob) && Sob(s) in chains[HOME] && Sob(s) in chains
    requires i < |chains[Sob(s)]| && s in size && size[s] > 0 && ClausesOk(chains[Sob(s)], size[s], keys)
    requires var all := chains[Sob(s)];
             assert all[i] in all;
             var b := Bucket(s, SlotOf(keys[all[i].clause], size[s]));
             var j := |SlotWords(keys, size[s], all[..i], b.slot)|;
             && b in chains && j < |chains[b]|
             && chains' == chains[Sob(s) := Removed(all, i)][b := Removed(chains[b], j)]
    ensures var all := chains[Sob(s)];
            assert all[i] in all;
            var b := Bucket(s, SlotOf(keys[all[i].clause], size[s]));
            && s in used && used[s] > 0
            && var used' := used[s := if |chains[b]| == 1 then used[s] - 1 else used[s]];
               && IndexShape(chains', size, used', keys, nextSob)
               && (used'[s] == 0 <==> chains'[Sob(s)] == [])
               && (|chains[b]| != 1 ==> used'[s] > 0)
               && forall t: nat :: Sob(t) in chains'[HOME] && t != s ==> chains'[Sob(t)] == chains[Sob(t)]
  {
    hide SlotWords, UsedSlots;
    var all := chains[Sob(s)];
    assert all[i] in all;
    var b := Bucket(s, SlotOf(keys[all[i].clause], size[s]));
    SegmentRemove(chains, chains', s, size[s], used[s], keys, i);
    var used' := used[s := if |chains[b]| == 1 then used[s] - 1 else used[s]];
    NoneUsed(chains', s, size[s], used'[s], keys);
    forall t: nat | Sob(t) in chains'[HOME]
      ensures t in size && t in used' && Sob(t) in chains' && SegmentOk(chains', t, size[t], used'[t], keys)
      ensures t != s ==> chains'[Sob(t)] == chains[Sob(t)]
    {
      assert Sob(t) in chains[HOME];
      if t != s {
        SegmentSame(chains, chains', t, size[t], used[t], keys, keys);
      }
    }
    RemovedShrinks(chains, Sob(s), i);
    var mid := chains[Sob(s) := Removed(all, i)];
    RemovedShrinks(mid, b, |SlotWords(keys, size[s], all[..i], b.slot)|);
    ShrunkKnown(chains, mid, keys, nextSob);
    ShrunkKnown(mid, chains', keys, nextSob);
  }

  /** An emptied segment is dropped from the predicate. */
  lemma IndexDrop(chains: Chains, size: map<nat, nat>, used: map<nat, nat>, keys: map<nat, Key>, nextSob: nat, s: nat,
                  m: nat)
    requires IndexShape(chains, size, used, keys, nextSob) && NoDup(chains[HOME])
    requires m < |chains[HOME]| && chains[HOME][m] == Sob(s)
    ensures IndexShape(chains[HOME := Removed(chains[HOME], m)], size, used, keys, nextSob)
    ensures forall t: nat :: Sob(t) in Removed(chains[HOME], m) ==> Sob(t) in chains[HOME] && t != s
  {
    var chains' := chains[HOME := Removed(chains[HOME], m)];
    RemovedNoDup(chains[HOME], m);
    RemovedShrinks(chains, HOME, m);
    ShrunkKnown(chains, chains', keys, nextSob);
    forall t: nat | Sob(t) in chains'[HOME]
      ensures t in size && t in used && Sob(t) in chains' && SegmentOk(chains', t, size[t], used[t], keys)
    {
      assert Sob(t) in chains[HOME] && t != s;
      SegmentSame(chains, chains', t, size[t], used[t], keys, keys);
    }
  }

  lemma ScanDrop(chains: Chains, sobs: seq<Ref>, m: nat)
    requires forall y | y in sobs :: y in chains
    requires m < |sobs| && chains[sobs[m]] == []
    ensures forall y | y in Removed(sobs, m) :: y in chains
    ensures ScanOf(chains, Removed(sobs, m)) == ScanOf(chains, sobs)
  {
    hide ScanOf;
    var a, b := sobs[..m], sobs[m + 1..];
    assert sobs == a + ([sobs[m]] + b);
    ScanParts(chains, a, sobs[m], b);
    forall y | y in a + b ensures y in chains {}
    ScanConcat(chains, a, b);
  }

  // ------------------------------------------------------------------
  // What a lookup with a bound argument returns.

  /** The index words in the code's bucket of every segment, in order. */
  function MatchWords(chains: Chains, size: map<nat, nat>, sobs: seq<Ref>, code: nat): seq<Ref>
    requires Searchable(chains, size, sobs, code)
  {
    if sobs == [] then [] else
      assert sobs[0] in sobs;
      chains[Bucket(sobs[0].sob, code % size[sobs[0].sob])] + MatchWords(chains, size, sobs[1..], code)
  }

  ghost predicate Searchable(chains: Chains, size: map<nat, nat>, sobs: seq<Ref>, code: nat) {
    forall x: Ref :: x in sobs ==>
      && x.Sob? && x.sob in size && size[x.sob] > 0
      && Bucket(x.sob, code % size[x.sob]) in chains
  }

  function AsClauses(words: seq<Ref>): (r: seq<Ref>)
    requires forall x | x in words :: x.Ind?
    ensures |r| == |words| && forall i | 0 <= i < |r| :: r[i] == Clause(words[i].clause)
  {
    seq(|words|, i requires 0 <= i < |words| => (assert words[i] in words; Clause(words[i].clause)))
  }

  /** A clause of segment s that hashes like the code. */
  ghost predicate HitIn(chains: Chains, size: map<nat, nat>, keys: map<nat, Key>, code: nat, x: Ref, s: nat) {
    && Sob(s) in chains && s in size && size[s] > 0 && x in chains[Sob(s)] && x.Clause? && x.clause in keys
    && SlotOf(keys[x.clause], size[s]) == code % size[s]
  }

  lemma {:induction false} SlotWordsAreKept(keys: map<nat, Key>, size: nat, c: seq<Ref>, h: nat, p: Ref -> bool)
    requires size > 0
    requires forall x | x in c :: x.Clause? && x.clause in keys && (p(x) <==> SlotOf(keys[x.clause], size) == h)
    ensures AsClauses(SlotWords(keys, size, c, h)) == KeepIf(c, p)
  {
    if c != [] {
      SlotWordsAreKept(keys, size, c[1..], h, p);
      var w := SlotWords(keys, size, c[1..], h);
      assert AsClauses([Ind(c[0].clause)] + w) == [c[0]] + AsClauses(w);
    }
  }

  ghost predicate Hits(chains: Chains, size: map<nat, nat>, keys: map<nat, Key>, code: nat, sobs: seq<Ref>, x: Ref) {
    exists s: nat :: Sob(s) in sobs && HitIn(chains, size, keys, code, x, s)
  }

  lemma MatchesIndexed(chains: Chains, size: map<nat, nat>, used: map<nat, nat>, keys: map<nat, Key>, nextSob: nat,
                       code: nat)
    requires IndexShape(chains, size, used, keys, nextSob) && SobsListed(chains)
    ensures Searchable(chains, size, chains[HOME], code)
  {
    forall x: Ref | x in chains[HOME]
      ensures x.Sob? && x.sob in size && size[x.sob] > 0 && Bucket(x.sob, code % size[x.sob]) in chains
    {
      assert Sob(x.sob) in chains[HOME];
      assert BucketOk(chains, x.sob, size[x.sob], keys, chains[x], code % size[x.sob]);
    }
  }

  lemma WordsOnly(op: map<Ref, Op>, prev: map<Ref, Ref>, next: map<Ref, Ref>, g: Ref, c: seq<Ref>)
    requires IsChain(op, prev, next, g, c) && g.Bucket?
    ensures forall x | x in c :: x.Ind?
  {
    forall x | x in c ensures x.Ind? {
      var i :| 0 <= i < |c| && c[i] == x;
      assert Fits(g, c[i]);
    }
  }

  lemma {:induction false} MatchWordsInd(chains: Chains, size: map<nat, nat>, sobs: seq<Ref>, code: nat)
    requires Searchable(chains, size, sobs, code)
    requires forall g: Ref, x: Ref :: g in chains && g.Bucket? && x in chains[g] ==> x.Ind?
    ensures forall x | x in MatchWords(chains, size, sobs, code) :: x.Ind?
  {
    if sobs != [] {
      assert sobs[0] in sobs;
      MatchWordsInd(chains, size, sobs[1..], code);
    }
  }

  lemma AsClausesConcat(a: seq<Ref>, b: seq<Ref>)
    requires forall x | x in a + b :: x.Ind?
    ensures forall x | x in a :: x.Ind?
    ensures forall x | x in b :: x.Ind?
    ensures AsClauses(a + b) == AsClauses(a) + AsClauses(b)
  {
    assert forall x | x in a :: x in a + b;
    assert forall x | x in b :: x in a + b;
  }

  /** Segment by segment, the words found are the hits of the scan, in scan order. */
  lemma {:induction false} MatchesAreHits(chains: Chains, size: map<nat, nat>, used: map<nat, nat>, keys: map<nat, Key>,
                                          nextSob: nat, sobs: seq<Ref>, code: nat, p: Ref -> bool)
    requires IndexShape(chains, size, used, keys, nextSob) && SobsListed(chains) && Apart(chains)
    requires forall x | x in sobs :: x in chains[HOME]
    requires Searchable(chains, size, sobs, code)
    requires forall g: Ref, x: Ref :: g in chains && g.Bucket? && x in chains[g] ==> x.Ind?
    requires forall x: Ref :: p(x) <==> Hits(chains, size, keys, code, chains[HOME], x)
    ensures forall x | x in MatchWords(chains, size, sobs, code) :: x.Ind?
    ensures AsClauses(MatchWords(chains, size, sobs, code)) == KeepIf(ScanOf(chains, sobs), p)
  {
    MatchWordsInd(chains, size, sobs, code);
    if sobs != [] {
      var s := sobs[0].sob;
      assert sobs[0] in sobs && Sob(s) in chains[HOME];
      var all, h := chains[Sob(s)], code % size[s];
      assert BucketOk(chains, s, size[s], keys, all, h);
      forall x | x in all ensures p(x) <==> SlotOf(keys[x.clause], size[s]) == h {
        HitsHere(chains, size, used, keys, nextSob, code, s, x);
      }
      SlotWordsAreKept(keys, size[s], all, h, p);
      MatchesAreHits(chains, size, used, keys, nextSob, sobs[1..], code, p);
      KeepIfConcat(all, ScanOf(chains, sobs[1..]), p);
      AsClausesConcat(chains[Bucket(s, h)], MatchWords(chains, size, sobs[1..], code));
    }
  }

  lemma HitsHere(chains: Chains, size: map<nat, nat>, used: map<nat, nat>, keys: map<nat, Key>, nextSob: nat, code: nat,
                 s: nat, x: Ref)
    requires IndexShape(chains, size, used, keys, nextSob) && SobsListed(chains) && Apart(chains)
    requires Sob(s) in chains[HOME] && Sob(s) in chains && x in chains[Sob(s)]
    ensures x.Clause? && x.clause in keys && s in size && size[s] > 0
    ensures Hits(chains, size, keys, code, chains[HOME], x) <==> SlotOf(keys[x.clause], size[s]) == code % size[s]
  {
    assert ClausesOk(chains[Sob(s)], size[s], keys);
    if SlotOf(keys[x.clause], size[s]) == code % size[s] {
      assert HitIn(chains, size, keys, code, x, s);
    }
    if Hits(chains, size, keys, code, chains[HOME], x) {
      var t: nat :| Sob(t) in chains[HOME] && HitIn(chains, size, keys, code, x, t);
      assert Sob(t) == Sob(s);
    }
  }

  /** The clause's argument is a variable, or leaves the same remainder as the code by the table size of its record. */
  predicate SameBucket(key: Key, code: nat, size: nat)
    requires size > 0
  {
    key.VarKey? || key.code % size == code % size
  }

  lemma HitExactly(chains: Chains, size: map<nat, nat>, used: map<nat, nat>, keys: map<nat, Key>, nextSob: nat,
                   code: nat, s: nat, x: Ref)
    requires IndexShape(chains, size, used, keys, nextSob) && SobsListed(chains) && Apart(chains)
    requires Sob(s) in chains[HOME] && Sob(s) in chains && x in chains[Sob(s)]
    ensures x.Clause? && x.clause in keys && s in size && size[s] > 0
    ensures Hits(chains, size, keys, code, chains[HOME], x) <==> SameBucket(keys[x.clause], code, size[s])
  {
    assert SegmentOk(chains, s, size[s], used[s], keys);
    HitsHere(chains, size, used, keys, nextSob, code, s, x);
  }

  /** The clause's argument is a variable or has the code searched for. */
  predicate MayUnify(keys: map<nat, Key>, code: nat, x: Ref) {
    x.Clause? && x.clause in keys && (keys[x.clause] == VarKey || keys[x.clause] == HashKey(code))
  }

  /** Main result: a lookup finds exactly the hits, in scan order; each hit is a variable clause or
      hashes to the code's bucket, and no clause that could unify is missed. */
  lemma LookupAgreesWithScan(chains: Chains, size: map<nat, nat>, used: map<nat, nat>, keys: map<nat, Key>,
                             nextSob: nat, code: nat, p: Ref -> bool)
    requires IndexOk(chains, size, used, keys, nextSob) && SobsListed(chains) && Apart(chains)
    requires Searchable(chains, size, chains[HOME], code)
    requires forall g: Ref, x: Ref :: g in chains && g.Bucket? && x in chains[g] ==> x.Ind?
    requires forall x: Ref :: p(x) <==> Hits(chains, size, keys, code, chains[HOME], x)
    ensures forall x | x in MatchWords(chains, size, chains[HOME], code) :: x.Ind?
    ensures AsClauses(MatchWords(chains, size, chains[HOME], code)) == KeepIf(ScanOf(chains, chains[HOME]), p)
    ensures forall x: Ref :: x in ScanOf(chains, chains[HOME]) && MayUnify(keys, code, x) ==> p(x)
    ensures forall x: Ref :: p(x) && x.Clause? && x.clause in keys && keys[x.clause].HashKey? ==>
              exists s: nat :: s in size && size[s] > 0 && keys[x.clause].code % size[s] == code % size[s]
  {
    MatchesAreHits(chains, size, used, keys, nextSob, chains[HOME], code, p);
    forall x: Ref | x in ScanOf(chains, chains[HOME]) && MayUnify(keys, code, x) ensures p(x) {
      var m, i := ScanMember(chains, chains[HOME], x);
      var s := chains[HOME][m].sob;
      assert Sob(s) in chains[HOME];
      HitsHere(chains, size, used, keys, nextSob, code, s, x);
      assert keys[x.clause].VarKey? ==> size[s] == 1;
    }
  }

  lemma MatchWordsFrom(chains: Chains, size: map<nat, nat>, sobs: seq<Ref>, m: nat, code: nat)
    requires Searchable(chains, size, sobs, code) && m < |sobs|
    ensures sobs[m] in sobs
    ensures Searchable(chains, size, sobs[m..], code) && Searchable(chains, size, sobs[m + 1..], code)
    ensures MatchWords(chains, size, sobs[m..], code) ==
            chains[Bucket(sobs[m].sob, code % size[sobs[m].sob])] + MatchWords(chains, size, sobs[m + 1..], code)
  {
    assert sobs[m..][1..] == sobs[m + 1..];
    assert forall x | x in sobs[m..] :: x in sobs;
    assert forall x | x in sobs[m + 1..] :: x in sobs;
  }

  class IndexedPred {
    const store: ClauseStore
    var size: map<nat, nat>
    var used: map<nat, nat>
    var keys: map<nat, Key>
    var nextSob: nat

    ghost predicate Valid()
      reads this, store
    {
      store.Valid() && IndexOk(store.chains, size, used, keys, nextSob)
    }

    constructor ()
      ensures Valid() && fresh(store) && keys == map[] && store.chains == map[HOME := []]
    {
      store := new ClauseStore();
      size, used, keys, nextSob := map[], map[], map[], 0;
      new;
      store.NewHead(HOME);
    }

    /** A new SOB block with an empty all-chain and n empty buckets. */
    method NewSobBlock(n: nat)
      requires Valid() && n > 0
      modifies store
      ensures store.Valid() && FreshBlock(old(store.chains), store.chains, nextSob, n)
    {
      hide AllChains, SegmentOk;
      ghost var chains0 := store.chains;
      store.NewHead(Sob(nextSob));
      var h := 0;
      while h < n
        invariant h <= n && store.Valid()
        invariant forall g: Ref :: g in chains0 ==> g in store.chains && store.chains[g] == chains0[g]
        invariant forall g: Ref :: g in store.chains && g !in chains0 ==>
                    store.chains[g] == [] && (g == Sob(nextSob) || (g.Bucket? && g.sob == nextSob && g.slot < h))
        invariant Sob(nextSob) in store.chains
        invariant forall j: nat {:trigger Bucket(nextSob, j)} :: j < h ==> Bucket(nextSob, j) in store.chains
      {
        assert Bucket(nextSob, h) !in chains0;
        store.NewHead(Bucket(nextSob, h));
        h := h + 1;
      }
    }

    /** The SOB a clause with this key goes to: the end one exactly if it fits, otherwise a new one. */
    method ChooseSob(key: Key, az: nat, hashTabSize: nat) returns (s: nat, h: nat)
      requires Valid()
      modifies this`size, this`used, this`nextSob, store
      ensures store.Valid() && IndexShape(store.chains, size, used, keys, nextSob)
      ensures Sob(s) in store.chains[HOME] && s in size && size[s] > 0
      ensures if key.VarKey? then size[s] == 1 else size[s] >= 17
      ensures h == SlotOf(key, size[s])
      ensures forall t: nat :: Sob(t) in store.chains[HOME] && t != s ==> store.chains[Sob(t)] != []
      ensures AtEnd(store.chains[HOME], az, Sob(s)) && SobsListed(store.chains)
      ensures ScanOf(store.chains, store.chains[HOME]) == old(Scan())
      ensures if EndFits(old(store.chains[HOME]), old(size), old(used), key, az, hashTabSize)
              then store.chains == old(store.chains) && size == old(size)
              else s == old(nextSob) && store.chains[HOME] == Placed(az, Sob(s), old(store.chains[HOME]))
                   && NewSize(size[s], old(store.chains[HOME]), old(size), old(used), key, az, hashTabSize)
    {
      hide AllChains, SegmentOk, ScanOf, HashResize, EndFits, NewSize;
      Listed();
      var empty, sob := EndSob(az);
      var n := if empty then HashResize(true, 0, 0, hashTabSize)
          else HashResize(false, size[sob], used[sob], hashTabSize);
      HashResizeBig(empty, if empty then 0 else size[sob], if empty then 0 else used[sob], hashTabSize);
      if key.VarKey? {
        n := 1;
      }
      SizeChosen(store.chains[HOME], empty, sob, n, key, az, hashTabSize);
      h := SlotOf(key, n);
      s := sob;
      if empty || size[sob] != n {
        s := AddSob(n, az);
      }
    }

    lemma SizeChosen(home: seq<Ref>, empty: bool, sob: nat, n: nat, key: Key, az: nat, asked: nat)
      requires empty == (home == []) && (!empty ==> AtEnd(home, az, Sob(sob)) && sob in size && sob in used)
      requires n == if key.VarKey? then 1
                    else if empty then HashResize(true, 0, 0, asked) else HashResize(false, size[sob], used[sob], asked)
      ensures EndFits(home, size, used, key, az, asked) <==> !empty && size[sob] == n
      ensures !EndFits(home, size, used, key, az, asked) ==> NewSize(n, home, size, used, key, az, asked)
    {
      HashResizeIs(if empty then 0 else size[sob], if empty then 0 else used[sob], asked);
      hide HashResize, GrownTo, FirstFrom;
    }

    /** The first (az == 0) or last SOB of the predicate. */
    method EndSob(az: nat) returns (empty: bool, s: nat)
      requires Valid()
      ensures empty == (store.chains[HOME] == [])
      ensures !empty ==>
                && Sob(s) in store.chains[HOME] && s in size && s in used
                && AtEnd(store.chains[HOME], az, Sob(s))
                && (size[s] >= 17 || (size[s] == 1 && used[s] == 1))
    {
      empty := store.headOp[HOME] == FailOp;
      s := 0;
      if !empty {
        var sob := if az == 0 then store.first[HOME] else store.last[HOME];
        assert sob in store.chains[HOME];
        assert Fits(HOME, sob);
        s := sob.sob;
        SegmentSizes(store.chains, s, size[s], used[s], keys);
      }
    }

    /** Puts a new SOB record of n buckets at one end of the predicate. */
    method AddSob(n: nat, az: nat) returns (s: nat)
      requires Valid() && n > 0
      modifies this`size, this`used, this`nextSob, store
      ensures store.Valid() && IndexShape(store.chains, size, used, keys, nextSob)
      ensures s == old(nextSob) && size == old(size)[s := n] && Sob(s) in store.chains[HOME]
      ensures forall t: nat :: Sob(t) in store.chains[HOME] && t != s ==> store.chains[Sob(t)] != []
      ensures store.chains[HOME] == Placed(az, Sob(s), old(store.chains[HOME]))
      ensures forall g: Ref :: g in old(store.chains) && g != HOME ==>
              g in store.chains && store.chains[g] == old(store.chains)[g]
      ensures store.chains[Sob(s)] == []
      ensures SobsListed(store.chains) && ScanOf(store.chains, store.chains[HOME]) == old(Scan())
    {
      hide AllChains, SegmentOk, ScanOf;
      Listed();
      NewSobBlock(n);
      s := nextSob;
      ghost var chains1 := store.chains;
      store.DbAddBuff(Sob(s), HOME, az);
      IndexGrows(old(store.chains), chains1, store.chains, size, used, keys, nextSob, n, az);
      ScanEmptyEnd(old(store.chains), store.chains, old(store.chains[HOME]), az, Sob(s));
      size := size[s := n];
      used := used[s := 0];
      nextSob := nextSob + 1;
    }

    /** All clauses in order. */
    ghost function Scan(): seq<Ref>
      requires Valid()
      reads this, store
    {
      Listed();
      ScanOf(store.chains, store.chains[HOME])
    }

    lemma Listed()
      requires store.Valid() && IndexShape(store.chains, size, used, keys, nextSob)
      ensures SobsListed(store.chains) && NoDup(store.chains[HOME])
    {
      HomeSobs(store.op, store.prev, store.next, store.chains, size, used, keys, nextSob);
    }

    lemma NewUnused(k: nat)
      requires store.Valid() && KnownIds(store.chains, keys, nextSob) && k !in keys
      ensures store.Unused(Clause(k)) && store.Unused(Ind(k))
    {
    }

    /** asserta (az == 0) and assertz: the clause comes first or last in the scan. */
    method AddClause(k: nat, key: Key, az: nat, hashTabSize: nat)
      requires Valid() && k !in keys
      modifies this`size, this`used, this`nextSob, this`keys, store
      ensures Valid() && keys == old(keys)[k := key]
      ensures Scan() == Placed(az, Clause(k), old(Scan()))
      ensures if EndFits(old(store.chains[HOME]), old(size), old(used), key, az, hashTabSize)
              then store.chains[HOME] == old(store.chains[HOME]) && size == old(size)
              else store.chains[HOME] == Placed(az, Sob(old(nextSob)), old(store.chains[HOME])) && old(nextSob) in size
                   && NewSize(size[old(nextSob)], old(store.chains[HOME]), old(size), old(used), key, az, hashTabSize)
    {
      hide AllChains, SegmentOk, ScanOf, EndFits, NewSize;
      var s, h := ChooseSob(key, az, hashTabSize);
      EnterClause(k, key, az, s, h);
    }

    /** Puts the clause at the end of its bucket and of its record's chain of all clauses. */
    method EnterClause(k: nat, key: Key, az: nat, s: nat, h: nat)
      requires store.Valid() && IndexShape(store.chains, size, used, keys, nextSob) && k !in keys
      requires Sob(s) in store.chains[HOME] && s in size && size[s] > 0 && h == SlotOf(key, size[s])
      requires if key.VarKey? then size[s] == 1 else size[s] >= 17
      requires forall t: nat :: Sob(t) in store.chains[HOME] && t != s ==> store.chains[Sob(t)] != []
      requires AtEnd(store.chains[HOME], az, Sob(s)) && SobsListed(store.chains)
      modifies this`used, this`keys, store
      ensures Valid() && keys == old(keys)[k := key] && store.chains[HOME] == old(store.chains[HOME])
      ensures Scan() == Placed(az, Clause(k), ScanOf(old(store.chains), old(store.chains)[HOME]))
    {
      hide AllChains, SegmentOk, ScanOf;
      ghost var chains0 := store.chains;
      HasBucket(s, h);
      NewUnused(k);
      var wasEmpty := store.headOp[Bucket(s, h)] == FailOp;
      store.AddToHashChain(az, Bucket(s, h), Ind(k));
      assert store.Unused(Clause(k));
      store.AddToAllChain(az, Clause(k), Sob(s));
      IndexAdd(chains0, store.chains, size, used, keys, nextSob, s, key, k, az);
      ScanPlaced(chains0, store.chains, chains0[HOME], az, Sob(s), Clause(k));
      if wasEmpty {
        used := used[s := used[s] + 1];
      } else {
        assert used[s := used[s]] == used;
      }
      keys := keys[k := key];
    }

    lemma HasBucket(s: nat, h: nat)
      requires store.Valid() && IndexShape(store.chains, size, used, keys, nextSob)
      requires Sob(s) in store.chains[HOME] && s in size && h < size[s]
      ensures Sob(s) in store.chains && Bucket(s, h) in store.chains
      ensures IsHead(store.headOp, store.first, store.last, Bucket(s, h), store.chains[Bucket(s, h)])
      ensures NoDup(store.chains[HOME])
    {
      assert BucketOk(store.chains, s, size[s], keys, store.chains[Sob(s)], h);
      Listed();
    }

    /** The structure without the promise that no segment is empty. */
    ghost predicate ValidShape()
      reads this, store
    {
      store.Valid() && IndexShape(store.chains, size, used, keys, nextSob)
    }

    ghost function ShapeScan(): seq<Ref>
      requires ValidShape()
      reads this, store
    {
      Listed();
      ScanOf(store.chains, store.chains[HOME])
    }

    /** Physically deletes a clause from its two chains; returns its SOB record if that is emptied. */
    method DeleteClause(k: nat) returns (emptied: Option<nat>, ghost s: nat, ghost i: nat, ghost h: nat, ghost j: nat)
      requires ValidShape() && Clause(k) in ShapeScan()
      modifies this`used, store
      ensures ValidShape()
      ensures Sob(s) in old(store.chains)[HOME] && Sob(s) in old(store.chains) && Bucket(s, h) in old(store.chains)
      ensures i < |old(store.chains)[Sob(s)]| && old(store.chains)[Sob(s)][i] == Clause(k)
      ensures j < |old(store.chains)[Bucket(s, h)]| && old(store.chains)[Bucket(s, h)][j] == Ind(k)
      ensures store.chains == old(store.chains)[Sob(s) := Removed(old(store.chains)[Sob(s)], i)]
                                               [Bucket(s, h) := Removed(old(store.chains)[Bucket(s, h)], j)]
      ensures store.chains[HOME] == old(store.chains)[HOME]
      ensures exists pos: nat ::
              pos < |old(ShapeScan())| && old(ShapeScan())[pos] == Clause(k)
              && ShapeScan() == Removed(old(ShapeScan()), pos)
      ensures emptied == if store.chains[Sob(s)] == [] then Some(s) else None
    {
      hide AllChains, SegmentOk, ScanOf, UsedSlots, SlotWords;
      Listed();
      ghost var chains0, used0 := store.chains, used;
      ghost var m;
      m, i := ScanMember(chains0, chains0[HOME], Clause(k));
      s := chains0[HOME][m].sob;
      assert Sob(s) in chains0[HOME];
      h, j := WordPlace(s, i);
      store.DeleteFromAllChain(Clause(k), Sob(s), i);
      var alone, sob := DeleteWord(k, s, h, j);
      IndexRemove(chains0, store.chains, size, used0, keys, nextSob, s, i);
      ghost var pos := ScanRemoved(chains0, store.chains, chains0[HOME], m, i);
      emptied := None;
      if alone && used[sob] == 0 {
        emptied := Some(sob);
      }
    }

    /** Deletes an emptied SOB record from the chain of SOBs. */
    method DropSob(s: nat) returns (ghost m: nat)
      requires ValidShape() && Sob(s) in store.chains[HOME] && Sob(s) in store.chains && store.chains[Sob(s)] == []
      modifies store
      ensures ValidShape() && m < |old(store.chains)[HOME]| && old(store.chains)[HOME][m] == Sob(s)
      ensures store.chains == old(store.chains)[HOME := Removed(old(store.chains)[HOME], m)]
      ensures ShapeScan() == old(ShapeScan())
      ensures forall t: nat :: Sob(t) in store.chains[HOME] ==> Sob(t) in old(store.chains)[HOME] && t != s
    {
      hide AllChains, SegmentOk, ScanOf;
      Listed();
      ghost var chains1 := store.chains;
      m :| 0 <= m < |chains1[HOME]| && chains1[HOME][m] == Sob(s);
      store.DeleteFromSobChain(Sob(s), HOME, m);
      IndexDrop(chains1, size, used, keys, nextSob, s, m);
      ScanDrop(chains1, chains1[HOME], m);
      ScanFrame(chains1, store.chains, Removed(chains1[HOME], m));
    }

    /** Physically deletes a clause from all its chains, and its SOB record when that is emptied. */
    method ReallyDelete(k: nat)
      requires Valid() && Clause(k) in Scan()
      modifies this`used, store
      ensures Valid()
      ensures exists j: nat :: j < |old(Scan())| && old(Scan())[j] == Clause(k) && Scan() == Removed(old(Scan()), j)
    {
      hide AllChains, SegmentOk, ScanOf, KnownIds;
      ghost var s, i, h, j;
      var emptied;
      assert Scan() == ShapeScan();
      emptied, s, i, h, j := DeleteClause(k);
      if emptied.Some? {
        ghost var m := DropSob(emptied.value);
      }
      assert Scan() == ShapeScan();
    }

    /** Where the index word of the i-th clause of segment s is. */
    lemma WordPlace(s: nat, i: nat) returns (h: nat, j: nat)
      requires ValidShape() && Sob(s) in store.chains[HOME] && Sob(s) in store.chains && i < |store.chains[Sob(s)]|
      ensures s in size && s in used && size[s] > 0 && ClausesOk(store.chains[Sob(s)], size[s], keys)
      ensures used[s] > 0
      ensures var all := store.chains[Sob(s)];
              assert all[i] in all;
              h == SlotOf(keys[all[i].clause], size[s]) && j == |SlotWords(keys, size[s], all[..i], h)|
      ensures Bucket(s, h) in store.chains && j < |store.chains[Bucket(s, h)]|
      ensures store.chains[Bucket(s, h)][j] == Ind(store.chains[Sob(s)][i].clause)
      ensures LinkedAt(store.op, store.prev, store.next, Bucket(s, h), store.chains[Bucket(s, h)], j)
    {
      var all := store.chains[Sob(s)];
      assert all[i] in all;
      h := SlotOf(keys[all[i].clause], size[s]);
      j := |SlotWords(keys, size[s], all[..i], h)|;
      assert BucketOk(store.chains, s, size[s], keys, all, h);
      SlotWordsRemoved(keys, size[s], all, i, h);
      NoneUsed(store.chains, s, size[s], used[s], keys);
    }

    /** Deletes the clause's word from its bucket and counts the bucket off if it is emptied. */
    method DeleteWord(k: nat, ghost s: nat, ghost h: nat, ghost j: nat) returns (emptied: bool, sob: nat)
      requires store.Valid() && Bucket(s, h) in store.chains && j < |store.chains[Bucket(s, h)]|
      requires store.chains[Bucket(s, h)][j] == Ind(k) && s in used && used[s] > 0
      modifies this`used, store
      ensures store.Valid()
      ensures store.chains == old(store.chains)[Bucket(s, h) := Removed(old(store.chains)[Bucket(s, h)], j)]
      ensures emptied == (|old(store.chains)[Bucket(s, h)]| == 1)
      ensures emptied ==> sob == s
      ensures used == old(used)[s := if emptied then old(used)[s] - 1 else old(used)[s]]
    {
      assert LinkedAt(store.op, store.prev, store.next, Bucket(s, h), store.chains[Bucket(s, h)], j);
      sob := 0;
      if store.op[Ind(k)] == DynNoopOp {
        sob := store.next[Ind(k)].sob;
      }
      emptied := store.DeleteFromHashChain(Ind(k), Bucket(s, h), j);
      if emptied {
        used := used[sob := used[sob] - 1];
      }
      assert used == old(used)[s := used[s]];
    }

    lemma HeadOf(g: Ref)
      requires store.Valid() && g in store.chains
      ensures IsHead(store.headOp, store.first, store.last, g, store.chains[g])
    {
    }

    lemma LinkOf(g: Ref, i: nat)
      requires store.Valid() && g in store.chains && i < |store.chains[g]|
      ensures LinkedAt(store.op, store.prev, store.next, g, store.chains[g], i)
    {
      assert IsChain(store.op, store.prev, store.next, g, store.chains[g]);
    }

    // ---- lookups with the argument bound ------------------------------

    /** What is still to come from position j of the m-th segment's bucket. */
    ghost function ToCome(code: nat, m: nat, j: nat): seq<Ref>
      requires Valid() && SobsListed(store.chains) && Searchable(store.chains, size, store.chains[HOME], code)
      requires m < |store.chains[HOME]|
      requires store.chains[HOME][m] in store.chains[HOME]
      requires j <= |store.chains[Bucket(store.chains[HOME][m].sob, code % size[store.chains[HOME][m].sob])]|
      reads this, store
    {
      var sobs := store.chains[HOME];
      MatchWordsFrom(store.chains, size, sobs, m, code);
      store.chains[Bucket(sobs[m].sob, code % size[sobs[m].sob])][j..]
          + MatchWords(store.chains, size, sobs[m + 1..], code)
    }

    ghost predicate At(code: nat, x: Ref, m: nat, j: nat)
      requires Valid() && SobsListed(store.chains) && Searchable(store.chains, size, store.chains[HOME], code)
      reads this, store
    {
      && m < |store.chains[HOME]|
      && (assert store.chains[HOME][m] in store.chains[HOME];
          var words := store.chains[Bucket(store.chains[HOME][m].sob, code % size[store.chains[HOME][m].sob])];
          j < |words| && words[j] == x)
    }

    /** From a SOB on, the first index word of the first nonempty bucket. */
    method FirstClauseSob(code: nat, start: Ref, ghost m0: nat) returns (r: Option<Ref>, ghost m: nat)
      requires Valid() && SobsListed(store.chains) && Searchable(store.chains, size, store.chains[HOME], code)
      requires m0 < |store.chains[HOME]| && store.chains[HOME][m0] == start
      ensures Searchable(store.chains, size, store.chains[HOME][m0..], code)
      ensures r.None? ==> MatchWords(store.chains, size, store.chains[HOME][m0..], code) == []
      ensures r.Some? ==>
              At(code, r.value, m, 0)
              && MatchWords(store.chains, size, store.chains[HOME][m0..], code) == ToCome(code, m, 0)
    {
      hide SegmentOk, MatchWords, AllChains, IndexOk;
      ghost var sobs := store.chains[HOME];
      var sob := start;
      m := m0;
      MatchWordsFrom(store.chains, size, sobs, m0, code);
      while true
        invariant m0 <= m < |sobs| && sob == sobs[m]
        invariant Searchable(store.chains, size, sobs[m..], code)
        invariant MatchWords(store.chains, size, sobs[m0..], code) == MatchWords(store.chains, size, sobs[m..], code)
        decreases |sobs| - m
      {
        MatchWordsFrom(store.chains, size, sobs, m, code);
        var bucket := Bucket(sob.sob, code % size[sob.sob]);
        HeadOf(bucket);
        if store.headOp[bucket] != FailOp {
          r := Some(store.first[bucket]);
          assert store.chains[bucket][0..] == store.chains[bucket];
          return;
        }
        LinkOf(HOME, m);
        if store.op[sob] == DynTrustOp || store.op[sob] == NoopOp {
          assert sobs[m + 1..] == [];
          NoMoreWords(store.chains, size, code);
          r := None;
          return;
        }
        sob := store.next[sob];
        m := m + 1;
      }
    }

    /** The first matching index word. */
    method FirstClref(code: nat) returns (r: Option<Ref>, ghost m: nat)
      requires Valid() && SobsListed(store.chains) && Searchable(store.chains, size, store.chains[HOME], code)
      ensures r.None? ==> MatchWords(store.chains, size, store.chains[HOME], code) == []
      ensures r.Some? ==>
              At(code, r.value, m, 0) && MatchWords(store.chains, size, store.chains[HOME], code) == ToCome(code, m, 0)
    {
      hide SegmentOk, MatchWords, AllChains, IndexOk;
      m := 0;
      HeadOf(HOME);
      if store.headOp[HOME] == FailOp {
        NoMoreWords(store.chains, size, code);
        r := None;
      } else {
        assert store.chains[HOME][0..] == store.chains[HOME];
        r, m := FirstClauseSob(code, store.first[HOME], 0);
      }
    }

    /** The next matching index word: along the hash chain, then in the following segments. */
    method NextClref(code: nat, x: Ref, ghost m0: nat, ghost j0: nat)
      returns (r: Option<Ref>, ghost m: nat, ghost j: nat)
      requires Valid() && SobsListed(store.chains) && Searchable(store.chains, size, store.chains[HOME], code)
      requires At(code, x, m0, j0)
      ensures r.None? ==> ToCome(code, m0, j0) == [x]
      ensures r.Some? ==> At(code, r.value, m, j) && ToCome(code, m0, j0) == [x] + ToCome(code, m, j)
    {
      hide SegmentOk, MatchWords, AllChains, IndexOk;
      m, j := m0, j0;
      ghost var sobs := store.chains[HOME];
      assert sobs[m0] in sobs;
      ghost var bucket := Bucket(sobs[m0].sob, code % size[sobs[m0].sob]);
      ghost var words := store.chains[bucket];
      LinkOf(bucket, j0);
      MatchWordsFrom(store.chains, size, sobs, m0, code);
      if store.op[x] == DynTryOp || store.op[x] == DynRetryOp {
        r := Some(store.next[x]);
        j := j0 + 1;
        assert words[j0..] == [x] + words[j..];
      } else {
        assert words[j0..] == [x];
        var sob := store.next[x];
        LinkOf(HOME, m0);
        if store.op[sob] == DynTrustOp || store.op[sob] == NoopOp {
          assert sobs[m0 + 1..] == [];
          NoMoreWords(store.chains, size, code);
          r := None;
        } else {
          j := 0;
          r, m := FirstClauseSob(code, store.next[sob], m0 + 1);
        }
      }
    }

    /** All clauses returned by first_clref and next_clref with the argument bound. */
    method CollectMatches(code: nat) returns (r: seq<Ref>)
      requires Valid()
      ensures SobsListed(store.chains) && Searchable(store.chains, size, store.chains[HOME], code)
      ensures forall x | x in MatchWords(store.chains, size, store.chains[HOME], code) :: x.Ind?
      ensures r == AsClauses(MatchWords(store.chains, size, store.chains[HOME], code))
    {
      hide SegmentOk, MatchWords, ScanOf, AllChains, KnownIds, ToCome;
      Listed();
      MatchesIndexed(store.chains, size, used, keys, nextSob, code);
      BucketsHoldWords();
      MatchWordsInd(store.chains, size, store.chains[HOME], code);
      ghost var all := MatchWords(store.chains, size, store.chains[HOME], code);
      ghost var got: seq<Ref> := [];
      r := [];
      ghost var m;
      var cur;
      cur, m := FirstClref(code);
      ghost var j := 0;
      while cur.Some?
        invariant forall x | x in got :: x.Ind?
        invariant r == AsClauses(got)
        invariant cur.None? ==> got == all
        invariant cur.Some? ==> At(code, cur.value, m, j) && got + ToCome(code, m, j) == all
        decreases |all| - |got|, cur.Some?
      {
        ghost var x, was := cur.value, ToCome(code, m, j);
        ToComeHead(code, x, m, j);
        GotOne(all, got, was, x);
        r := r + [Clause(cur.value.clause)];
        cur, m, j := NextClref(code, cur.value, m, j);
        assert got + was == all;
        got := got + [x];
      }
    }

    lemma ToComeHead(code: nat, x: Ref, m: nat, j: nat)
      requires Valid() && SobsListed(store.chains) && Searchable(store.chains, size, store.chains[HOME], code)
      requires At(code, x, m, j)
      ensures ToCome(code, m, j) != [] && ToCome(code, m, j)[0] == x
    {
    }

    lemma BucketsHoldWords()
      requires store.Valid()
      ensures forall g: Ref, x: Ref :: g in store.chains && g.Bucket? && x in store.chains[g] ==> x.Ind?
    {
      forall g: Ref | g in store.chains && g.Bucket? ensures forall x | x in store.chains[g] :: x.Ind? {
        WordsOnly(store.op, store.prev, store.next, g, store.chains[g]);
      }
    }

    ghost function HitTest(code: nat): Ref -> bool
      requires HOME in store.chains
      reads this, store
    {
      var chains, size, keys := store.chains, size, keys;
      x => Hits(chains, size, keys, code, chains[HOME], x)
    }

    /** The clauses found with the argument bound are the hits of the plain scan, in scan order. */
    method Lookup(code: nat) returns (r: seq<Ref>)
      requires Valid()
      ensures r == KeepIf(Scan(), HitTest(code))
      ensures forall x: Ref :: x in Scan() && MayUnify(keys, code, x) ==> HitTest(code)(x)
      ensures forall s: nat, x: Ref | FoundIn(s, x) :: x in r <==> SameBucket(keys[x.clause], code, size[s])
    {
      hide SegmentOk, MatchWords, ScanOf, KeepIf, FoundIn, SameBucket;
      r := CollectMatches(code);
      BucketsHoldWords();
      LookupAgreesWithScan(store.chains, size, used, keys, nextSob, code, HitTest(code));
      FoundExactly(code, r);
    }

    lemma FoundExactly(code: nat, r: seq<Ref>)
      requires Valid() && r == KeepIf(Scan(), HitTest(code))
      ensures forall s: nat, x: Ref | FoundIn(s, x) :: x in r <==> SameBucket(keys[x.clause], code, size[s])
    {
      HitsAre(code);
      hide KeepIf, FoundIn, SameBucket, ScanOf, AllChains, IndexOk;
      KeepIfMember(Scan(), HitTest(code));
    }

    /** x is a clause of record s. */
    ghost predicate FoundIn(s: nat, x: Ref)
      reads this, store
    {
      && HOME in store.chains && Sob(s) in store.chains[HOME] && Sob(s) in store.chains && x in store.chains[Sob(s)]
      && x.Clause? && x.clause in keys && s in size && size[s] > 0
    }

    lemma HitsAre(code: nat)
      requires Valid()
      ensures forall s: nat, x: Ref | FoundIn(s, x) ::
                x in Scan() && (HitTest(code)(x) <==> SameBucket(keys[x.clause], code, size[s]))
    {
      Listed();
      forall s: nat, x: Ref | FoundIn(s, x)
        ensures x in Scan() && (HitTest(code)(x) <==> SameBucket(keys[x.clause], code, size[s]))
      {
        HitExactly(store.chains, size, used, keys, nextSob, code, s, x);
        InScan(store.chains, store.chains[HOME], Sob(s), x);
      }
    }
  }

  lemma {:induction false} InScan(chains: Chains, sobs: seq<Ref>, sob: Ref, x: Ref)
    requires (forall y | y in sobs :: y in chains) && sob in sobs && x in chains[sob]
    ensures x in ScanOf(chains, sobs)
  {
    if sobs[0] != sob {
      assert sob in sobs[1..];
      InScan(chains, sobs[1..], sob, x);
    }
  }

  lemma GotOne(all: seq<Ref>, got: seq<Ref>, was: seq<Ref>, x: Ref)
    requires all == got + was && was != [] && was[0] == x
    requires forall y | y in all :: y.Ind?
    requires forall y | y in got :: y.Ind?
    ensures x.Ind? && |got| < |all|
    ensures forall y | y in got + [x] :: y.Ind?
    ensures AsClauses(got + [x]) == AsClauses(got) + [Clause(x.clause)]
  {
    assert all[|got|] == x;
  }

  lemma NoMoreWords(chains: Chains, size: map<nat, nat>, code: nat)
    ensures MatchWords(chains, size, [], code) == []
  {
  }
}
