/** Running the chain instructions of an indexed predicate: which clauses a call tries, in which order. */
module ChainRun {
  import opened Sequences
  import opened ClauseChains
  import opened IndexSpec
  import opened ClauseIndex

  /** The words that the instructions read. */
  datatype Words = Words(op: map<Ref, Op>, next: map<Ref, Ref>, headOp: map<Ref, HeadOp>, first: map<Ref, Ref>,
                         size: map<nat, nat>)

  /** The instruction to run next, None once the call has failed; the alternatives of the choice points, the last one
      on top; and the clauses entered so far. */
  datatype Config = Config(at: Option<Ref>, alts: seq<Ref>, tried: seq<Ref>)

  /** Failure resumes the alternative of the top choice point; the first base ones are not the call's own. */
  function Fail(base: nat, alts: seq<Ref>, tried: seq<Ref>): Config {
    Config(if |alts| > base then Some(alts[|alts| - 1]) else None, alts, tried)
  }

  /** Jumps through a head. */
  function Enter(w: Words, base: nat, home: Ref, alts: seq<Ref>, tried: seq<Ref>): Config {
    if home in w.headOp && home in w.first && w.headOp[home] == JumpOp then Config(Some(w.first[home]), alts, tried)
    else Fail(base, alts, tried)
  }

  /** A try adds a choice point, a retry changes its alternative, a trust drops it, a noop does nothing. */
  function Choice(w: Words, x: Ref, alts: seq<Ref>): seq<Ref>
    requires x in w.op && x in w.next
  {
    match w.op[x]
    case NoopOp => alts
    case DynNoopOp => alts
    case TryOp => alts + [w.next[x]]
    case DynTryOp => alts + [w.next[x]]
    case DynRetryOp => if alts == [] then alts else alts[..|alts| - 1] + [w.next[x]]
    case DynTrustOp => if alts == [] then alts else alts[..|alts| - 1]
  }

  /** Where a SOB record goes on: to a bucket if the argument is bound, else to the chain of all its clauses. */
  function Switch(w: Words, s: nat, arg: Option<nat>): Ref {
    if arg.Some? && s in w.size && w.size[s] > 0 then Bucket(s, arg.value % w.size[s]) else Sob(s)
  }

  /** One instruction; the clause entered fails. */
  function Step(w: Words, base: nat, arg: Option<nat>, c: Config): Config {
    if c.at.None? || c.at.value !in w.op || c.at.value !in w.next then c
    else
      var x := c.at.value;
      var alts := Choice(w, x, c.alts);
      if x.Sob? then Enter(w, base, Switch(w, x.sob, arg), alts, c.tried)
      else Fail(base, alts, c.tried + [x])
  }

  function Steps(w: Words, base: nat, arg: Option<nat>, c: Config, n: nat): Config
    decreases n
  {
    if n == 0 then c else Steps(w, base, arg, Step(w, base, arg, c), n - 1)
  }

  lemma {:induction false} StepsAdd(w: Words, base: nat, arg: Option<nat>, c: Config, m: nat, n: nat)
    ensures Steps(w, base, arg, c, m + n) == Steps(w, base, arg, Steps(w, base, arg, c, m), n)
    decreases m
  {
    if m > 0 {
      StepsAdd(w, base, arg, Step(w, base, arg, c), m - 1, n);
    }
  }

  /** A call that is about to run c[i], the i-th element of a chain entered with the choice points alts. */
  function Before(c: seq<Ref>, i: nat, alts: seq<Ref>, tried: seq<Ref>): Config
    requires i < |c|
  {
    Config(Some(c[i]), if i == 0 then alts else alts + [c[i]], tried)
  }

  /** The choice points while the i-th element runs: the next element is the alternative. */
  function During(c: seq<Ref>, i: nat, alts: seq<Ref>): seq<Ref> {
    if i + 1 < |c| then alts + [c[i + 1]] else alts
  }

  lemma ChoiceInChain(w: Words, prev: map<Ref, Ref>, home: Ref, c: seq<Ref>, i: nat, alts: seq<Ref>)
    requires i < |c| && LinkedAt(w.op, prev, w.next, home, c, i)
    ensures Choice(w, c[i], Before(c, i, alts, []).alts) == During(c, i, alts)
  {
  }

  /** A chain of clauses tries them in order and leaves the choice points as they were. */
  lemma {:induction false} ClausesTried(w: Words, base: nat, arg: Option<nat>, prev: map<Ref, Ref>, home: Ref,
                                        c: seq<Ref>, i: nat, alts: seq<Ref>, tried: seq<Ref>)
    requires IsChain(w.op, prev, w.next, home, c) && !home.SobPred? && i < |c| && base <= |alts|
    ensures Steps(w, base, arg, Before(c, i, alts, tried), |c| - i) == Fail(base, alts, tried + c[i..])
    decreases |c| - i
  {
    assert LinkedAt(w.op, prev, w.next, home, c, i) && Fits(home, c[i]);
    ChoiceInChain(w, prev, home, c, i, alts);
    assert tried + c[i..] == tried + [c[i]] + c[i + 1..];
    if i + 1 < |c| {
      ClausesTried(w, base, arg, prev, home, c, i + 1, alts, tried + [c[i]]);
    } else {
      assert c[i + 1..] == [];
    }
  }

  /** The clauses that the record s leads to. */
  ghost predicate LeadsTo(w: Words, prev: map<Ref, Ref>, last: map<Ref, Ref>, s: nat, arg: Option<nat>, c: seq<Ref>) {
    var home := Switch(w, s, arg);
    IsChain(w.op, prev, w.next, home, c) && IsHead(w.headOp, w.first, last, home, c)
  }

  /** Running the i-th record tries its clauses, then fails. */
  lemma RecordTried(w: Words, base: nat, arg: Option<nat>, prev: map<Ref, Ref>, last: map<Ref, Ref>, home: Ref,
                    sobs: seq<Ref>, i: nat, c: seq<Ref>, alts: seq<Ref>, tried: seq<Ref>)
    requires IsChain(w.op, prev, w.next, home, sobs) && home.SobPred? && i < |sobs| && base <= |alts|
    requires sobs[i].Sob? && LeadsTo(w, prev, last, sobs[i].sob, arg, c)
    ensures Steps(w, base, arg, Before(sobs, i, alts, tried), 1 + |c|) ==
            Fail(base, During(sobs, i, alts), tried + c)
  {
    assert LinkedAt(w.op, prev, w.next, home, sobs, i);
    ChoiceInChain(w, prev, home, sobs, i, alts);
    if c != [] {
      ClausesTried(w, base, arg, prev, Switch(w, sobs[i].sob, arg), c, 0, During(sobs, i, alts), tried);
      assert c[0..] == c;
    } else {
      assert tried + c == tried;
    }
  }

  /** The clauses of the records sobs, as the argument leads to them. */
  ghost predicate AllLead(w: Words, prev: map<Ref, Ref>, last: map<Ref, Ref>, sobs: seq<Ref>, arg: Option<nat>,
                          lists: seq<seq<Ref>>)
  {
    |lists| == |sobs| && forall i: nat | i < |sobs| ::
        sobs[i].Sob? && LeadsTo(w, prev, last, sobs[i].sob, arg, lists[i])
  }

  function Joined(lists: seq<seq<Ref>>): seq<Ref> {
    if lists == [] then [] else lists[0] + Joined(lists[1..])
  }

  /** The records from the i-th on are run one after the other. */
  lemma {:induction false} RecordsTried(w: Words, base: nat, arg: Option<nat>, prev: map<Ref, Ref>,
                                        last: map<Ref, Ref>, home: Ref, sobs: seq<Ref>, lists: seq<seq<Ref>>, i: nat,
                                        alts: seq<Ref>, tried: seq<Ref>) returns (n: nat)
    requires IsChain(w.op, prev, w.next, home, sobs) && home.SobPred? && i < |sobs| && base <= |alts|
    requires AllLead(w, prev, last, sobs, arg, lists)
    ensures Steps(w, base, arg, Before(sobs, i, alts, tried), n) == Fail(base, alts, tried + Joined(lists[i..]))
    decreases |sobs| - i
  {
    hide Step, LeadsTo, IsChain;
    assert LeadsTo(w, prev, last, sobs[i].sob, arg, lists[i]);
    RecordTried(w, base, arg, prev, last, home, sobs, i, lists[i], alts, tried);
    n := 1 + |lists[i]|;
    assert lists[i..][0] == lists[i] && lists[i..][1..] == lists[i + 1..];
    assert tried + (lists[i] + Joined(lists[i + 1..])) == tried + lists[i] + Joined(lists[i + 1..]);
    if i + 1 < |sobs| {
      var m := RecordsTried(w, base, arg, prev, last, home, sobs, lists, i + 1, alts, tried + lists[i]);
      StepsAdd(w, base, arg, Before(sobs, i, alts, tried), n, m);
      n := n + m;
    }
  }

  // ------------------------------------------------------------------
  // The predicates of the index.

  function WordsOf(p: IndexedPred): Words
    reads p, p.store
  {
    Words(p.store.op, p.store.next, p.store.headOp, p.store.first, p.size)
  }

  /** The call, with its argument bound to a code or unbound, on top of the choice points of its caller. */
  function Called(w: Words, alts: seq<Ref>): Config {
    Enter(w, |alts|, HOME, alts, [])
  }

  lemma {:induction false} ScanJoined(chains: Chains, sobs: seq<Ref>, lists: seq<seq<Ref>>)
    requires forall x | x in sobs :: x in chains
    requires |lists| == |sobs| && forall i: nat | i < |sobs| :: lists[i] == chains[sobs[i]]
    ensures Joined(lists) == ScanOf(chains, sobs)
  {
    if sobs != [] {
      ScanJoined(chains, sobs[1..], lists[1..]);
    }
  }

  lemma {:induction false} MatchJoined(chains: Chains, size: map<nat, nat>, sobs: seq<Ref>, code: nat,
                                       lists: seq<seq<Ref>>)
    requires Searchable(chains, size, sobs, code)
    requires |lists| == |sobs| && forall i: nat | i < |sobs| ::
               (assert sobs[i] in sobs; lists[i] == chains[Bucket(sobs[i].sob, code % size[sobs[i].sob])])
    ensures Joined(lists) == MatchWords(chains, size, sobs, code)
  {
    if sobs != [] {
      assert forall x | x in sobs[1..] :: x in sobs;
      forall i: nat | i < |sobs[1..]|
        ensures (assert sobs[1..][i] in sobs;
                 lists[1..][i] == chains[Bucket(sobs[1..][i].sob, code % size[sobs[1..][i].sob])])
      {
        assert sobs[1..][i] == sobs[i + 1] && lists[1..][i] == lists[i + 1];
      }
      MatchJoined(chains, size, sobs[1..], code, lists[1..]);
    }
  }

  lemma CallTriesLists(p: IndexedPred, arg: Option<nat>, lists: seq<seq<Ref>>, alts: seq<Ref>) returns (n: nat)
    requires p.Valid() && AllLead(WordsOf(p), p.store.prev, p.store.last, p.store.chains[HOME], arg, lists)
    ensures Steps(WordsOf(p), |alts|, arg, Called(WordsOf(p), alts), n) == Config(None, alts, Joined(lists))
  {
    var w, sobs := WordsOf(p), p.store.chains[HOME];
    p.HeadOf(HOME);
    n := 0;
    if sobs != [] {
      n := RecordsTried(w, |alts|, arg, p.store.prev, p.store.last, HOME, sobs, lists, 0, alts, []);
      assert lists[0..] == lists;
    }
  }

  /** Main result: a call with the argument unbound tries all clauses in order and leaves its caller's choice points. */
  lemma CallTriesAll(p: IndexedPred, alts: seq<Ref>) returns (n: nat)
    requires p.Valid()
    ensures Steps(WordsOf(p), |alts|, None, Called(WordsOf(p), alts), n) == Config(None, alts, p.Scan())
  {
    p.Listed();
    var w, chains := WordsOf(p), p.store.chains;
    var sobs := chains[HOME];
    var lists := seq(|sobs|, i requires 0 <= i < |sobs| => (assert sobs[i] in sobs; chains[sobs[i]]));
    ScanJoined(chains, sobs, lists);
    forall i: nat | i < |sobs| ensures LeadsTo(w, p.store.prev, p.store.last, sobs[i].sob, None, lists[i]) {
      assert sobs[i] in sobs;
      p.HeadOf(sobs[i]);
    }
    n := CallTriesLists(p, None, lists, alts);
  }

  /** The bucket chains of the records. */
  function BucketLists(chains: Chains, size: map<nat, nat>, sobs: seq<Ref>, code: nat): (lists: seq<seq<Ref>>)
    requires Searchable(chains, size, sobs, code)
    ensures |lists| == |sobs| && forall i: nat | i < |sobs| ::
              (assert sobs[i] in sobs; lists[i] == chains[Bucket(sobs[i].sob, code % size[sobs[i].sob])])
  {
    seq(|sobs|, i requires 0 <= i < |sobs| =>
        (assert sobs[i] in sobs; chains[Bucket(sobs[i].sob, code % size[sobs[i].sob])]))
  }

  lemma BucketLeads(p: IndexedPred, code: nat, s: nat)
    requires p.store.Valid() && s in p.size && p.size[s] > 0 && Bucket(s, code % p.size[s]) in p.store.chains
    ensures LeadsTo(WordsOf(p), p.store.prev, p.store.last, s, Some(code), p.store.chains[Bucket(s, code % p.size[s])])
  {
    p.HeadOf(Bucket(s, code % p.size[s]));
  }

  /** The records of a predicate, with the argument bound to a code. */
  lemma MatchLists(p: IndexedPred, code: nat) returns (lists: seq<seq<Ref>>)
    requires p.Valid()
    ensures Searchable(p.store.chains, p.size, p.store.chains[HOME], code)
    ensures AllLead(WordsOf(p), p.store.prev, p.store.last, p.store.chains[HOME], Some(code), lists)
    ensures Joined(lists) == MatchWords(p.store.chains, p.size, p.store.chains[HOME], code)
  {
    p.Listed();
    MatchesIndexed(p.store.chains, p.size, p.used, p.keys, p.nextSob, code);
    hide IndexShape, SobsListed, LeadsTo, AllChains, MatchWords, Joined;
    var sobs := p.store.chains[HOME];
    lists := BucketLists(p.store.chains, p.size, sobs, code);
    MatchJoined(p.store.chains, p.size, sobs, code, lists);
    forall i: nat | i < |sobs|
      ensures sobs[i].Sob? && LeadsTo(WordsOf(p), p.store.prev, p.store.last, sobs[i].sob, Some(code), lists[i])
    {
      assert sobs[i] in sobs;
      BucketLeads(p, code, sobs[i].sob);
    }
  }

  /** Main result: a call with the argument bound tries the hits of that scan only, in the same order. */
  lemma CallTriesHits(p: IndexedPred, code: nat, alts: seq<Ref>) returns (n: nat)
    requires p.Valid()
    ensures var r := Steps(WordsOf(p), |alts|, Some(code), Called(WordsOf(p), alts), n);
            && r.at == None && r.alts == alts && (forall x | x in r.tried :: x.Ind?)
            && AsClauses(r.tried) == KeepIf(p.Scan(), p.HitTest(code))
  {
    var lists := MatchLists(p, code);
    n := CallTriesLists(p, Some(code), lists, alts);
    p.Listed();
    p.BucketsHoldWords();
    hide SegmentOk, MatchWords, ScanOf, KeepIf, Hits, Joined, AllLead, Steps;
    LookupAgreesWithScan(p.store.chains, p.size, p.used, p.keys, p.nextSob, code, p.HitTest(code));
  }
}
