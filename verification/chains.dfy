/** Doubly linked try/retry/trust chains of dynamic clauses. */
module ClauseChains {
  import opened Sequences

  /** Addresses: predicate records over clauses or over SOB records, SOB records, hash buckets
      of a SOB, clauses, and the index words of a clause. */
  datatype Ref =
    | ClausePred(pred: nat)
    | SobPred(pred: nat)
    | Sob(sob: nat)
    | Bucket(sob: nat, slot: nat)
    | Clause(clause: nat)
    | Ind(clause: nat)

  datatype Op = NoopOp | DynNoopOp | TryOp | DynTryOp | DynRetryOp | DynTrustOp

  datatype HeadOp = FailOp | JumpOp

  /** The word after the last element of a chain. */
  function EndOf(home: Ref): Ref {
    if home.Bucket? then Sob(home.sob) else home
  }

  /** SOB chains use the static noop and try, all others the dynamic ones. */
  function AloneOp(home: Ref): Op {
    if home.SobPred? then NoopOp else DynNoopOp
  }

  function FirstOp(home: Ref): Op {
    if home.SobPred? then TryOp else DynTryOp
  }

  /** The opcode encodes the position. */
  function OpAt(home: Ref, n: nat, i: nat): Op {
    if n == 1 then AloneOp(home)
    else if i == 0 then FirstOp(home)
    else if i + 1 == n then DynTrustOp
    else DynRetryOp
  }

  ghost predicate LinkedAt(op: map<Ref, Op>, prev: map<Ref, Ref>, next: map<Ref, Ref>, home: Ref, c: seq<Ref>, i: nat)
    requires i < |c|
  {
    && c[i] in op && c[i] in prev && c[i] in next
    && op[c[i]] == OpAt(home, |c|, i)
    && prev[c[i]] == (if i == 0 then home else c[i - 1])
    && next[c[i]] == (if i + 1 == |c| then EndOf(home) else c[i + 1])
  }

  /** Elements fit the chain: SOB chains hold SOBs, bucket chains index words, the others clauses. */
  predicate Fits(home: Ref, x: Ref) {
    match home
    case SobPred(_) => x.Sob?
    case Bucket(_, _) => x.Ind?
    case ClausePred(_) => x.Clause?
    case Sob(_) => x.Clause?
    case _ => false
  }

  ghost predicate IsChain(op: map<Ref, Op>, prev: map<Ref, Ref>, next: map<Ref, Ref>, home: Ref, c: seq<Ref>) {
    && NoDup(c)
    && (forall i: nat | i < |c| :: LinkedAt(op, prev, next, home, c, i))
    && (forall i: nat | i < |c| :: Fits(home, c[i]))
  }

  /** The record at the head of the chain. Buckets have no last pointer. */
  ghost predicate IsHead(headOp: map<Ref, HeadOp>, first: map<Ref, Ref>, last: map<Ref, Ref>, home: Ref, c: seq<Ref>) {
    && home in headOp
    && (headOp[home] == FailOp <==> c == [])
    && (c != [] ==> home in first && first[home] == c[0])
    && (c != [] && !home.Bucket? ==> home in last && last[home] == c[|c| - 1])
  }

  lemma ChainFrame(op: map<Ref, Op>, prev: map<Ref, Ref>, next: map<Ref, Ref>,
                   op': map<Ref, Op>, prev': map<Ref, Ref>, next': map<Ref, Ref>, home: Ref, c: seq<Ref>)
    requires IsChain(op, prev, next, home, c)
    requires forall i | 0 <= i < |c| :: c[i] in op' && c[i] in prev' && c[i] in next'
    requires forall i | 0 <= i < |c| && c[i] in op && c[i] in prev && c[i] in next ::
               op'[c[i]] == op[c[i]] && prev'[c[i]] == prev[c[i]] && next'[c[i]] == next[c[i]]
    ensures IsChain(op', prev', next', home, c)
  {
    forall i: nat | i < |c| ensures LinkedAt(op', prev', next', home, c, i) {
      assert LinkedAt(op, prev, next, home, c, i);
    }
  }

  // ------------------------------------------------------------------
  // The three link updates, on values.

  /** x in front of c: x becomes first, the old first is demoted. */
  lemma ChainPrefix(op: map<Ref, Op>, prev: map<Ref, Ref>, next: map<Ref, Ref>,
                    op': map<Ref, Op>, prev': map<Ref, Ref>, next': map<Ref, Ref>, home: Ref, c: seq<Ref>, x: Ref)
    requires IsChain(op, prev, next, home, c) && c != [] && x !in c && Fits(home, x)
    requires op' == op[x := FirstOp(home)][c[0] := if |c| == 1 then DynTrustOp else DynRetryOp]
    requires prev' == prev[x := home][c[0] := x]
    requires next' == next[x := c[0]]
    ensures IsChain(op', prev', next', home, [x] + c)
  {
    var d := [x] + c;
    NoDupCons(x, c);
    forall i: nat | i < |d| ensures LinkedAt(op', prev', next', home, d, i) && Fits(home, d[i]) {
      if i > 0 {
        assert LinkedAt(op, prev, next, home, c, i - 1);
        assert d[i] == c[i - 1];
      }
    }
  }

  /** x behind c: x becomes last, the old last is demoted. */
  lemma ChainAppend(op: map<Ref, Op>, prev: map<Ref, Ref>, next: map<Ref, Ref>,
                    op': map<Ref, Op>, prev': map<Ref, Ref>, next': map<Ref, Ref>, home: Ref, c: seq<Ref>, x: Ref)
    requires IsChain(op, prev, next, home, c) && c != [] && x !in c && Fits(home, x)
    requires op' == op[x := DynTrustOp][c[|c| - 1] := if |c| == 1 then FirstOp(home) else DynRetryOp]
    requires prev' == prev[x := c[|c| - 1]]
    requires next' == next[x := EndOf(home)][c[|c| - 1] := x]
    ensures IsChain(op', prev', next', home, c + [x])
  {
    var d := c + [x];
    NoDupSnoc(c, x);
    forall i: nat | i < |d| ensures LinkedAt(op', prev', next', home, d, i) && Fits(home, d[i]) {
      if i < |c| {
        assert LinkedAt(op, prev, next, home, c, i);
        assert d[i] == c[i];
      }
    }
  }

  /** The opcode of the new first or last element. */
  function Promoted(home: Ref, n: nat, atFront: bool): Op {
    if n == 2 then AloneOp(home) else if atFront then FirstOp(home) else DynTrustOp
  }

  /** What unlinking c[i] writes into the opcodes, back links and forward links. */
  function UnlinkedOp(op: map<Ref, Op>, home: Ref, c: seq<Ref>, i: nat): map<Ref, Op>
    requires i < |c|
  {
    if |c| == 1 then op
    else if i == 0 then op[c[1] := Promoted(home, |c|, true)]
    else if i + 1 == |c| then op[c[i - 1] := if i == 1 then AloneOp(home) else DynTrustOp]
    else op
  }

  function UnlinkedPrev(prev: map<Ref, Ref>, home: Ref, c: seq<Ref>, i: nat): map<Ref, Ref>
    requires i < |c|
  {
    if i + 1 == |c| then prev else prev[c[i + 1] := if i == 0 then home else c[i - 1]]
  }

  function UnlinkedNext(next: map<Ref, Ref>, home: Ref, c: seq<Ref>, i: nat): map<Ref, Ref>
    requires i < |c|
  {
    if i == 0 then next else next[c[i - 1] := if i + 1 == |c| then EndOf(home) else c[i + 1]]
  }

  lemma ChainRemove(op: map<Ref, Op>, prev: map<Ref, Ref>, next: map<Ref, Ref>, home: Ref, c: seq<Ref>, i: nat)
    requires IsChain(op, prev, next, home, c) && i < |c|
    ensures IsChain(UnlinkedOp(op, home, c, i), UnlinkedPrev(prev, home, c, i), UnlinkedNext(next, home, c, i), home,
            Removed(c, i))
  {
    var d := Removed(c, i);
    RemovedNoDup(c, i);
    forall k: nat | k < |d|
      ensures LinkedAt(UnlinkedOp(op, home, c, i), UnlinkedPrev(prev, home, c, i), UnlinkedNext(next, home, c, i), home,
              d, k)
      ensures Fits(home, d[k])
    {
      var k' := if k < i then k else k + 1;
      assert d[k] == c[k'];
      assert LinkedAt(op, prev, next, home, c, k');
      assert k > 0 ==> d[k - 1] == c[if k - 1 < i then k - 1 else k];
      assert k + 1 < |d| ==> d[k + 1] == c[if k + 1 < i then k + 1 else k + 2];
    }
  }

  // ------------------------------------------------------------------
  // Many chains in one store.

  ghost predicate Apart(chains: map<Ref, seq<Ref>>) {
    forall g: Ref, h: Ref, x: Ref :: g in chains && h in chains && g != h && x in chains[g] ==> x !in chains[h]
  }

  ghost predicate AllChains(op: map<Ref, Op>, prev: map<Ref, Ref>, next: map<Ref, Ref>, headOp: map<Ref, HeadOp>,
                            first: map<Ref, Ref>, last: map<Ref, Ref>, chains: map<Ref, seq<Ref>>)
  {
    && (forall h: Ref ::
        h in chains ==> IsChain(op, prev, next, h, chains[h]) && IsHead(headOp, first, last, h, chains[h]))
    && Apart(chains)
  }

  /** Elsewhere: everything outside S is as before. */
  ghost predicate SameOutside<T(!new)>(m: map<Ref, T>, m': map<Ref, T>, S: set<Ref>) {
    forall r: Ref :: r in m && r !in S ==> r in m' && m'[r] == m[r]
  }

  lemma OneChainChanged(op: map<Ref, Op>, prev: map<Ref, Ref>, next: map<Ref, Ref>,
                        headOp: map<Ref, HeadOp>, first: map<Ref, Ref>, last: map<Ref, Ref>, chains: map<Ref, seq<Ref>>,
                        op': map<Ref, Op>, prev': map<Ref, Ref>, next': map<Ref, Ref>,
                        headOp': map<Ref, HeadOp>, first': map<Ref, Ref>, last': map<Ref, Ref>,
                        home: Ref, d: seq<Ref>, S: set<Ref>)
    requires AllChains(op, prev, next, headOp, first, last, chains) && home in chains
    requires IsChain(op', prev', next', home, d) && IsHead(headOp', first', last', home, d)
    requires SameOutside(op, op', S) && SameOutside(prev, prev', S) && SameOutside(next, next', S)
    requires SameOutside(headOp, headOp', {home}) && SameOutside(first, first', {home})
             && SameOutside(last, last', {home})
    requires forall h: Ref, x: Ref :: h in chains && h != home && x in chains[h] ==> x !in S
    requires forall x: Ref :: x in d ==> x in S
    ensures AllChains(op', prev', next', headOp', first', last', chains[home := d])
  {
    forall h: Ref | h in chains && h != home ensures IsChain(op', prev', next', h, chains[h]) {
      OtherChain(op, prev, next, op', prev', next', h, chains[h], S);
    }
  }

  lemma OtherChain(op: map<Ref, Op>, prev: map<Ref, Ref>, next: map<Ref, Ref>,
                   op': map<Ref, Op>, prev': map<Ref, Ref>, next': map<Ref, Ref>, h: Ref, c: seq<Ref>, S: set<Ref>)
    requires IsChain(op, prev, next, h, c)
    requires SameOutside(op, op', S) && SameOutside(prev, prev', S) && SameOutside(next, next', S)
    requires forall x: Ref :: x in c ==> x !in S
    ensures IsChain(op', prev', next', h, c)
  {
    forall i: nat | i < |c| ensures LinkedAt(op', prev', next', h, c, i) {
      assert LinkedAt(op, prev, next, h, c, i);
      assert c[i] in c;
    }
  }

  /** The store of all clause chains, updated in place. */
  class ClauseStore {
    var op: map<Ref, Op>
    var prev: map<Ref, Ref>
    var next: map<Ref, Ref>
    var headOp: map<Ref, HeadOp>
    var first: map<Ref, Ref>
    var last: map<Ref, Ref>
    ghost var chains: map<Ref, seq<Ref>>

    ghost predicate Valid()
      reads this
    {
      AllChains(op, prev, next, headOp, first, last, chains)
    }

    ghost predicate Unused(x: Ref)
      reads this
    {
      forall h: Ref :: h in chains ==> x !in chains[h]
    }

    constructor ()
      ensures Valid() && chains == map[]
    {
      op, prev, next, headOp, first, last, chains := map[], map[], map[], map[], map[], map[], map[];
    }

    /** A record with an empty chain. */
    method NewHead(home: Ref)
      requires Valid() && home !in chains
      modifies this
      ensures Valid() && chains == old(chains)[home := []]
    {
      headOp := headOp[home := FailOp];
      chains := chains[home := []];
    }

    // ---- the shared link updates -------------------------------------

    method PrefixToChain(ifSob: bool, firstClause: Ref, x: Ref)
      requires firstClause in op && firstClause in prev && x != firstClause
      modifies this`op, this`prev, this`next
      ensures next == old(next)[x := firstClause]
      ensures prev == old(prev)[x := old(prev)[firstClause]][firstClause := x]
      ensures op == match old(op)[firstClause] {
                case NoopOp | DynNoopOp => old(op)[x := if ifSob then TryOp else DynTryOp][firstClause := DynTrustOp]
                case DynTryOp | TryOp => old(op)[x := if ifSob then TryOp else DynTryOp][firstClause := DynRetryOp]
                case _ => old(op)[x := if ifSob then TryOp else DynTryOp]
              }
    {
      op := op[x := if ifSob then TryOp else DynTryOp];
      next := next[x := firstClause];
      if op[firstClause] == DynNoopOp || op[firstClause] == NoopOp {
        op := op[firstClause := DynTrustOp];
      } else if op[firstClause] == DynTryOp || op[firstClause] == TryOp {
        op := op[firstClause := DynRetryOp];
      }
      prev := prev[x := prev[firstClause]];
      prev := prev[firstClause := x];
    }

    method AppendToChain(lastClause: Ref, x: Ref)
      requires lastClause in op && lastClause in next && x != lastClause
      modifies this`op, this`prev, this`next
      ensures prev == old(prev)[x := lastClause]
      ensures next == (if old(op)[lastClause] in {DynNoopOp, NoopOp, DynTrustOp}
                       then old(next)[x := old(next)[lastClause]][lastClause := x]
                           else old(next)[x := old(next)[lastClause]])
      ensures op == match old(op)[lastClause] {
                case DynNoopOp => old(op)[x := DynTrustOp][lastClause := DynTryOp]
                case NoopOp => old(op)[x := DynTrustOp][lastClause := TryOp]
                case DynTrustOp => old(op)[x := DynTrustOp][lastClause := DynRetryOp]
                case _ => old(op)[x := DynTrustOp]
              }
    {
      op := op[x := DynTrustOp];
      next := next[x := next[lastClause]];
      prev := prev[x := lastClause];
      if op[lastClause] == DynNoopOp {
        op := op[lastClause := DynTryOp];
        next := next[lastClause := x];
      } else if op[lastClause] == NoopOp {
        op := op[lastClause := TryOp];
        next := next[lastClause := x];
      } else if op[lastClause] == DynTrustOp {
        op := op[lastClause := DynRetryOp];
        next := next[lastClause := x];
      }
    }

    /** The first element of an empty chain. */
    method LinkAlone(home: Ref, x: Ref)
      requires Valid() && home in chains && chains[home] == [] && Unused(x) && Fits(home, x)
      modifies this
      ensures Valid() && chains == old(chains)[home := [x]]
    {
      op := op[x := AloneOp(home)];
      next := next[x := EndOf(home)];
      prev := prev[x := home];
      headOp := headOp[home := JumpOp];
      first := first[home := x];
      last := last[home := x];
      chains := chains[home := [x]];
      assert LinkedAt(op, prev, next, home, [x], 0);
      OneChainChanged(old(op), old(prev), old(next), old(headOp), old(first), old(last), old(chains),
                      op, prev, next, headOp, first, last, home, [x], {x});
    }

    /** Adds x in front (az == 0) of a nonempty chain. */
    method LinkFirst(home: Ref, x: Ref)
      requires Valid() && home in chains && chains[home] != [] && Unused(x) && Fits(home, x)
      modifies this
      ensures Valid() && chains == old(chains)[home := [x] + old(chains)[home]]
    {
      ghost var c := chains[home];
      assert LinkedAt(op, prev, next, home, c, 0);
      PrefixToChain(home.SobPred?, first[home], x);
      first := first[home := x];
      chains := chains[home := [x] + c];
      ChainPrefix(old(op), old(prev), old(next), op, prev, next, home, c, x);
      OneChainChanged(old(op), old(prev), old(next), old(headOp), old(first), old(last), old(chains),
                      op, prev, next, headOp, first, last, home, [x] + c, Elements([x] + c));
    }

    /** Adds x behind the last element of a nonempty chain. */
    method LinkLast(home: Ref, lastClause: Ref, x: Ref)
      requires Valid() && home in chains && chains[home] != [] && Unused(x) && Fits(home, x)
      requires lastClause == chains[home][|chains[home]| - 1]
      modifies this
      ensures Valid() && chains == old(chains)[home := old(chains)[home] + [x]]
    {
      ghost var c := chains[home];
      assert LinkedAt(op, prev, next, home, c, |c| - 1);
      AppendToChain(lastClause, x);
      if !home.Bucket? {
        last := last[home := x];
      }
      chains := chains[home := c + [x]];
      ChainAppend(old(op), old(prev), old(next), op, prev, next, home, c, x);
      OneChainChanged(old(op), old(prev), old(next), old(headOp), old(first), old(last), old(chains),
                      op, prev, next, headOp, first, last, home, c + [x], Elements(c + [x]));
    }

    // ---- adding ------------------------------------------------------

    /** Adds a clause or SOB record to the chain of its predicate. */
    method DbAddBuff(x: Ref, pred: Ref, az: nat)
      requires Valid() && pred in chains && (pred.ClausePred? || pred.SobPred?) && Unused(x) && Fits(pred, x)
      modifies this
      ensures Valid()
      ensures chains == old(chains)[pred := if az == 0 then [x] + old(chains)[pred] else old(chains)[pred] + [x]]
    {
      if headOp[pred] == FailOp {
        assert chains[pred] == [] && [x] + [] == [x] == [] + [x];
        LinkAlone(pred, x);
      } else if az == 0 {
        LinkFirst(pred, x);
      } else {
        LinkLast(pred, last[pred], x);
      }
    }

    /** Adds a clause to the chain of all clauses of a SOB. */
    method AddToAllChain(az: nat, x: Ref, sob: Ref)
      requires Valid() && sob in chains && sob.Sob? && Unused(x) && Fits(sob, x)
      modifies this
      ensures Valid()
      ensures chains == old(chains)[sob := if az == 0 then [x] + old(chains)[sob] else old(chains)[sob] + [x]]
    {
      if headOp[sob] == FailOp {
        assert chains[sob] == [] && [x] + [] == [x] == [] + [x];
        LinkAlone(sob, x);
      } else if az == 0 {
        LinkFirst(sob, x);
      } else {
        LinkLast(sob, last[sob], x);
      }
    }

    /** Adds an index word to a hash chain; the end is found by walking to the trust. */
    method AddToHashChain(az: nat, bucket: Ref, x: Ref)
      requires Valid() && bucket in chains && bucket.Bucket? && Unused(x) && Fits(bucket, x)
      modifies this
      ensures Valid()
      ensures chains == old(chains)[bucket := if az == 0 then [x] + old(chains)[bucket] else old(chains)[bucket] + [x]]
    {
      if headOp[bucket] == FailOp {
        assert chains[bucket] == [] && [x] + [] == [x] == [] + [x];
        LinkAlone(bucket, x);
      } else if az == 0 {
        LinkFirst(bucket, x);
      } else {
        ghost var c := chains[bucket];
        var oldInd := first[bucket];
        assert LinkedAt(op, prev, next, bucket, c, 0);
        if op[oldInd] != DynNoopOp {
          ghost var k := 0;
          while op[oldInd] != DynTrustOp
            invariant k < |c| && oldInd == c[k] && LinkedAt(op, prev, next, bucket, c, k) && |c| > 1
            decreases |c| - k
          {
            oldInd := next[oldInd];
            k := k + 1;
            assert LinkedAt(op, prev, next, bucket, c, k);
          }
        }
        LinkLast(bucket, oldInd, x);
      }
    }

    // ---- deleting ----------------------------------------------------

    /** Unlinks x from its neighbours; x itself keeps its words. */
    method DeleteFromChain(x: Ref, ghost home: Ref, ghost i: nat)
      requires Valid() && home in chains && i < |chains[home]| && chains[home][i] == x
      modifies this`op, this`prev, this`next
      ensures op == UnlinkedOp(old(op), home, chains[home], i)
      ensures prev == UnlinkedPrev(old(prev), home, chains[home], i)
      ensures next == UnlinkedNext(old(next), home, chains[home], i)
    {
      ghost var c := chains[home];
      assert LinkedAt(op, prev, next, home, c, i);
      assert i > 0 ==> LinkedAt(op, prev, next, home, c, i - 1);
      assert i + 1 < |c| ==> LinkedAt(op, prev, next, home, c, i + 1);
      match op[x] {
        case NoopOp | DynNoopOp =>
        case TryOp =>
          prev := prev[next[x] := prev[x]];
          op := op[next[x] := if op[next[x]] == DynRetryOp then TryOp else NoopOp];
        case DynTryOp =>
          prev := prev[next[x] := prev[x]];
          op := op[next[x] := if op[next[x]] == DynRetryOp then DynTryOp else DynNoopOp];
        case DynRetryOp =>
          prev := prev[next[x] := prev[x]];
          next := next[prev[x] := next[x]];
        case DynTrustOp =>
          next := next[prev[x] := next[x]];
          if op[prev[x]] == DynRetryOp {
            op := op[prev[x] := DynTrustOp];
          } else if op[prev[x]] == TryOp {
            op := op[prev[x] := NoopOp];
          } else {
            op := op[prev[x] := DynNoopOp];
          }
      }
    }

    /** Deletes a clause or SOB record from the chain of its predicate. */
    method DeleteFromSobChain(x: Ref, ghost home: Ref, ghost i: nat)
      requires Valid() && home in chains && i < |chains[home]| && chains[home][i] == x
      requires home.ClausePred? || home.SobPred?
      modifies this
      ensures Valid() && chains == old(chains)[home := Removed(old(chains)[home], i)]
    {
      ghost var c := chains[home];
      assert LinkedAt(op, prev, next, home, c, i);
      var was := op[x];
      DeleteFromChain(x, home, i);
      match was {
        case DynNoopOp | NoopOp =>
          var pred := prev[x];
          headOp := headOp[pred := FailOp];
          first, last := first[pred := pred], last[pred := pred];
        case DynTryOp | TryOp =>
          first := first[prev[x] := next[x]];
        case DynTrustOp =>
          last := last[next[x] := prev[x]];
        case DynRetryOp =>
      }
      Forget(old(op), old(prev), old(next), old(headOp), old(first), old(last), home, i);
    }

    /** Deletes a clause from the chain of all clauses of its SOB. */
    method DeleteFromAllChain(x: Ref, ghost home: Ref, ghost i: nat)
      requires Valid() && home in chains && i < |chains[home]| && chains[home][i] == x
      requires home.Sob?
      modifies this
      ensures Valid() && chains == old(chains)[home := Removed(old(chains)[home], i)]
    {
      ghost var c := chains[home];
      assert LinkedAt(op, prev, next, home, c, i);
      var was := op[x];
      DeleteFromChain(x, home, i);
      match was {
        case DynNoopOp =>
          var pred := prev[x];
          headOp := headOp[pred := FailOp];
          first, last := first[pred := pred], last[pred := pred];
        case DynTryOp =>
          first := first[prev[x] := next[x]];
        case DynTrustOp =>
          last := last[next[x] := prev[x]];
        case _ =>
      }
      Forget(old(op), old(prev), old(next), old(headOp), old(first), old(last), home, i);
    }

    /** Deletes an index word from its bucket; returns whether the bucket became empty. */
    method DeleteFromHashChain(x: Ref, ghost home: Ref, ghost i: nat) returns (emptied: bool)
      requires Valid() && home in chains && i < |chains[home]| && chains[home][i] == x
      requires home.Bucket?
      modifies this
      ensures Valid() && chains == old(chains)[home := Removed(old(chains)[home], i)]
      ensures emptied == (|old(chains)[home]| == 1)
    {
      ghost var c := chains[home];
      assert LinkedAt(op, prev, next, home, c, i);
      var was := op[x];
      DeleteFromChain(x, home, i);
      emptied := was == DynNoopOp;
      if was == DynNoopOp {
        headOp := headOp[prev[x] := FailOp];
      } else if was == DynTryOp {
        first := first[prev[x] := next[x]];
      }
      Forget(old(op), old(prev), old(next), old(headOp), old(first), old(last), home, i);
    }

    /** Records the shorter chain once links and head agree on it. */
    ghost method Forget(op0: map<Ref, Op>, prev0: map<Ref, Ref>, next0: map<Ref, Ref>,
                        headOp0: map<Ref, HeadOp>, first0: map<Ref, Ref>, last0: map<Ref, Ref>, home: Ref, i: nat)
      requires AllChains(op0, prev0, next0, headOp0, first0, last0, chains) && home in chains && i < |chains[home]|
      requires op == UnlinkedOp(op0, home, chains[home], i)
      requires prev == UnlinkedPrev(prev0, home, chains[home], i)
      requires next == UnlinkedNext(next0, home, chains[home], i)
      requires IsHead(headOp, first, last, home, Removed(chains[home], i))
      requires SameOutside(headOp0, headOp, {home}) && SameOutside(first0, first, {home})
               && SameOutside(last0, last, {home})
      modifies this`chains
      ensures Valid() && chains == old(chains)[home := Removed(old(chains)[home], i)]
    {
      var c := chains[home];
      ChainRemove(op0, prev0, next0, home, c, i);
      RemovedNoDup(c, i);
      OneChainChanged(op0, prev0, next0, headOp0, first0, last0, chains,
                      op, prev, next, headOp, first, last, home, Removed(c, i), Elements(c));
      chains := chains[home := Removed(c, i)];
    }
  }
}
