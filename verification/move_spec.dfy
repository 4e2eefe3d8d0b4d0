/** Loading argument registers: what the emitted moves mean, and when a queue of pending moves is on track. */
module MoveSpec {
  import opened Sequences
  import opened CompilerState
  import opened Machine

  datatype Source = FromReg(reg: Reg) | AConstant(name: nat) | ANumber(n: int) | ANil | ANewVar

  /** A pending move. */
  datatype Entry = Entry(source: Source, target: Reg)

  /** Register t holds what source denotes in the initial state. */
  predicate Loaded(s0: State, s: State, source: Source, t: Reg) {
    match source
    case FromReg(r) => s.regs[t] == s0.regs[r]
    case AConstant(c) => s.regs[t] == CCon(c)
    case ANumber(n) => s.regs[t] == CInt(n)
    case ANil => s.regs[t] == CNil
    case ANewVar => IsFree(s.heap, s.regs[t]) && |s0.heap| <= s.regs[t].addr
  }

  /** The source of a pending move still denotes what the wanted source denotes. */
  predicate Denotes(s0: State, s: State, wanted: Source, source: Source) {
    if wanted.FromReg? then source.FromReg? && s.regs[source.reg] == s0.regs[wanted.reg]
    else source == wanted
  }

  function Targets(q: seq<Entry>): set<Reg> {
    set e | e in q :: e.target
  }

  function Sources(q: seq<Entry>): set<Reg> {
    set e | e in q && e.source.FromReg? :: e.source.reg
  }

  type Wanted = map<Reg, Source>

  function WantedOf(q: seq<Entry>): Wanted
    requires DistinctTargets(q)
  {
    map e | e in q :: e.target := e.source
  }

  ghost predicate DistinctTargets(q: seq<Entry>) {
    forall i, j | 0 <= i < j < |q| :: q[i].target != q[j].target
  }

  ghost predicate DistinctVars(s: State, want: Wanted, open: set<Reg>) {
    forall t, u | t in want && u in want && t != u && t !in open && u !in open && want[t].ANewVar?
        && want[u].ANewVar? ::
      s.regs[t] != s.regs[u]
  }

  /** Every wanted register is loaded or has a pending move that still finds its value. */
  ghost predicate OnTrack(s0: State, s: State, want: Wanted, q: seq<Entry>) {
    && s0.heap <= s.heap && !s.failed && DistinctTargets(q)
    && (forall e | e in q :: e.target in want && Denotes(s0, s, want[e.target], e.source))
    && (forall t | t in want && t !in Targets(q) :: Loaded(s0, s, want[t], t))
    && DistinctVars(s, want, Targets(q))
  }

  /** Targets are registers in permanent use; a temporary is the source of one move only. */
  ghost predicate Separate(want: Wanted, q: seq<Entry>, busy: set<nat>, temps: set<nat>) {
    && want.Keys <= busy && busy !! temps
    && Targets(q) <= want.Keys && Sources(q) <= busy + temps
    && forall i, j | 0 <= i < j < |q| && q[i].source.FromReg? && q[i].source == q[j].source :: q[i].source.reg !in temps
  }

  /** A move that can be delayed: its target is a source. */
  predicate MayBlock(e: Entry, sources: set<Reg>) {
    e.target in sources && e.source != FromReg(e.target)
  }

  function Blocking(q: seq<Entry>, sources: set<Reg>): nat {
    if q == [] then 0 else (if MayBlock(q[0], sources) then 1 else 0) + Blocking(q[1..], sources)
  }

  /** Moves delayed once, those from position k on, read no pending target. */
  ghost predicate Late(q: seq<Entry>, k: nat) {
    forall i | k <= i < |q| && q[i].source.FromReg? :: q[i].source.reg !in Targets(q)
  }

  // ------------------------------------------------------------------
  // One entry leaves the queue.

  lemma FirstOut(e: Entry, rest: seq<Entry>)
    ensures Targets([e] + rest) == Targets(rest) + {e.target}
    ensures Sources([e] + rest) == Sources(rest) + (if e.source.FromReg? then {e.source.reg} else {})
    ensures DistinctTargets([e] + rest) ==> DistinctTargets(rest) && e.target !in Targets(rest)
  {
    var q := [e] + rest;
    assert forall x :: x in q <==> x == e || x in rest;
    if DistinctTargets(q) {
      FirstDistinct(e, rest);
    }
  }

  lemma FirstDistinct(e: Entry, rest: seq<Entry>)
    requires DistinctTargets([e] + rest)
    ensures DistinctTargets(rest) && e.target !in Targets(rest)
  {
    var q := [e] + rest;
    assert q[0] == e && forall i | 0 <= i < |rest| :: rest[i] == q[i + 1];
    forall x | x in rest ensures x.target != e.target {
      var i :| 0 <= i < |rest| && rest[i] == x;
      assert q[0].target != q[i + 1].target;
    }
  }

  lemma LastIn(rest: seq<Entry>, e: Entry)
    ensures Targets(rest + [e]) == Targets(rest) + {e.target}
    ensures Sources(rest + [e]) == Sources(rest) + (if e.source.FromReg? then {e.source.reg} else {})
    ensures DistinctTargets(rest) && e.target !in Targets(rest) ==> DistinctTargets(rest + [e])
  {
    var q := rest + [e];
    assert forall x | x in rest :: x in q;
    assert q[|rest|] == e && e in q;
    if DistinctTargets(rest) && e.target !in Targets(rest) {
      forall i, j | 0 <= i < j < |q| ensures q[i].target != q[j].target {
        assert q[i] in rest;
      }
    }
  }

  /** Writing a target nobody reads keeps everything else on track. */
  lemma WriteTarget(s0: State, s: State, s': State, want: Wanted, e: Entry, rest: seq<Entry>)
    requires OnTrack(s0, s, want, [e] + rest)
    requires e.target !in Sources(rest)
    requires forall r: Reg | r != e.target :: s'.regs[r] == s.regs[r]
    requires s.heap <= s'.heap && !s'.failed && Loaded(s0, s', want[e.target], e.target)
    requires want[e.target].ANewVar? ==> s'.regs[e.target] == CRef(|s.heap|)
    ensures OnTrack(s0, s', want, rest)
  {
    FirstOut(e, rest);
    var q := [e] + rest;
    forall x | x in rest ensures x.target in want && Denotes(s0, s', want[x.target], x.source) {
      assert x in q;
      assert x.source.FromReg? ==> x.source.reg in Sources(rest);
    }
    forall t | t in want && t !in Targets(rest) ensures Loaded(s0, s', want[t], t) {
    }
    forall t, u | t in want && u in want && t != u && t !in Targets(rest) && u !in Targets(rest) && want[t].ANewVar?
        && want[u].ANewVar?
      ensures s'.regs[t] != s'.regs[u]
    {
      assert t != e.target ==> Loaded(s0, s, want[t], t);
      assert u != e.target ==> Loaded(s0, s, want[u], u);
    }
  }

  /** The register already holds its value. */
  lemma NothingToMove(s0: State, s: State, want: Wanted, e: Entry, rest: seq<Entry>)
    requires OnTrack(s0, s, want, [e] + rest) && e.source == FromReg(e.target)
    ensures OnTrack(s0, s, want, rest)
  {
    FirstOut(e, rest);
    assert e in [e] + rest;
    assert forall x | x in rest :: x in [e] + rest;
    forall t, u | t in want && u in want && t != u && t !in Targets(rest) && u !in Targets(rest) && want[t].ANewVar?
        && want[u].ANewVar?
      ensures s.regs[t] != s.regs[u]
    {
      assert t != e.target && u != e.target;
    }
  }

  /** Only a register outside of want changes. */
  ghost predicate Spared(s: State, s': State, busy: set<nat>, temps: set<nat>, r0: nat) {
    s'.heap == s.heap && s'.failed == s.failed && r0 !in busy + temps && forall r: Reg | r != r0 ::
        s'.regs[r] == s.regs[r]
  }

  lemma StillDenotes(s0: State, s: State, s': State, want: Wanted, q: seq<Entry>, busy: set<nat>, temps: set<nat>,
                     r0: nat)
    requires OnTrack(s0, s, want, q) && Separate(want, q, busy, temps) && Spared(s, s', busy, temps, r0)
    ensures OnTrack(s0, s', want, q)
  {
    forall x | x in q ensures Denotes(s0, s', want[x.target], x.source) {
      assert x.source.FromReg? ==> x.source.reg in Sources(q);
    }
    forall t: Reg | t in want ensures s'.regs[t] == s.regs[t] {
      assert t in busy;
    }
  }

  /** The move goes to the end of the queue, possibly with a free register as its new source. */
  lemma Requeue(s0: State, s: State, s': State, want: Wanted, e: Entry, rest: seq<Entry>, e': Entry, busy: set<nat>,
                temps: set<nat>, r0: nat)
    requires OnTrack(s0, s, want, [e] + rest) && Separate(want, [e] + rest, busy, temps)
    requires Spared(s, s', busy, temps, r0) && e'.target == e.target
    requires e' == e
             || (e.source.FromReg? && r0 < MAX_REGS && e'.source == FromReg(r0) && s'.regs[r0] == s.regs[e.source.reg])
    ensures OnTrack(s0, s', want, rest + [e'])
  {
    FirstOut(e, rest);
    LastIn(rest, e');
    var q, q' := [e] + rest, rest + [e'];
    StillDenotes(s0, s, s', want, q, busy, temps, r0);
    hide Separate, Spared, DistinctVars;
    assert e in q && forall x | x in rest :: x in q;
    assert Targets(q') == Targets(q);
    hide Targets, DistinctTargets;
    assert Denotes(s0, s', want[e.target], e'.source) by {
      assert Denotes(s0, s, want[e.target], e.source) && Denotes(s0, s', want[e.target], e.source);
    }
  }

  lemma SeparateOut(want: Wanted, e: Entry, rest: seq<Entry>, busy: set<nat>, temps: set<nat>)
    requires Separate(want, [e] + rest, busy, temps)
    ensures Separate(want, rest, busy, if e.source.FromReg? then temps - {e.source.reg} else temps)
    ensures e.source.FromReg? && e.source.reg in temps ==> e.source.reg !in Sources(rest)
  {
    var q := [e] + rest;
    FirstOut(e, rest);
    assert forall i | 0 <= i < |rest| :: rest[i] == q[i + 1];
    forall x | x in rest && x.source == e.source && x.source.FromReg? ensures x.source.reg !in temps {
      var i :| 0 <= i < |rest| && rest[i] == x;
      assert q[0].source == q[i + 1].source;
    }
  }

  lemma SeparateIn(want: Wanted, rest: seq<Entry>, e: Entry, busy: set<nat>, temps: set<nat>)
    requires Separate(want, rest, busy, temps) && e.target in want
    requires e.source.FromReg? ==>
             e.source.reg in busy + temps && (e.source.reg in temps ==> e.source.reg !in Sources(rest))
    ensures Separate(want, rest + [e], busy, temps)
  {
    var q := rest + [e];
    LastIn(rest, e);
    forall i, j | 0 <= i < j < |q| && q[i].source.FromReg? && q[i].source == q[j].source
        ensures q[i].source.reg !in temps
    {
      assert q[i] in rest;
      assert q[i].source.reg in Sources(rest);
    }
  }

  lemma LateOut(e: Entry, rest: seq<Entry>, k: nat)
    requires Late([e] + rest, k) && DistinctTargets([e] + rest)
    ensures Late(rest, if k > 0 then k - 1 else 0)
    ensures k == 0 ==> e.target !in Sources(rest)
  {
    var q := [e] + rest;
    FirstOut(e, rest);
    forall i | (if k > 0 then k - 1 else 0) <= i < |rest| && rest[i].source.FromReg?
        ensures rest[i].source.reg !in Targets(rest)
    {
      assert q[i + 1] == rest[i];
    }
    forall x | x in rest && x.source.FromReg? ensures k == 0 ==> x.source.reg != e.target {
      var i :| 0 <= i < |rest| && rest[i] == x;
      assert q[i + 1] == x;
    }
  }

  lemma LateAgain(e: Entry, rest: seq<Entry>, e': Entry, k: nat)
    requires Late([e] + rest, k) && 0 < k <= |rest| + 1 && e'.target == e.target
    requires e'.source.FromReg? ==> e'.source.reg !in Targets(rest) && e'.source.reg != e.target
    ensures Late(rest + [e'], k - 1)
  {
    FirstOut(e, rest);
    LastIn(rest, e');
    var q, q' := [e] + rest, rest + [e'];
    forall i | k - 1 <= i < |q'| && q'[i].source.FromReg? ensures q'[i].source.reg !in Targets(q') {
      assert i < |rest| ==> q'[i] == q[i + 1];
    }
  }
}
