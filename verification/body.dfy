/** Loading the arguments of a body goal: structures are built first, then all argument registers are loaded. */
module BodyCompiler {
  import opened Sequences
  import opened CompilerState
  import opened Machine
  import opened MoveSpec
  import opened MoveRun
  import opened MoveCompiler
  import opened TermSpec
  import opened TermCompiler

  /** The pending move for an argument; a structure has been built in register r. */
  predicate EntryFor(e: Entry, t: Term, argno: nat) {
    && e.target == argno
    && match t {
         case Atom(c) => e.source == AConstant(c)
         case Int(n) => e.source == ANumber(n)
         case EmptyList => e.source == ANil
         case _ => e.source.FromReg?
       }
  }

  /** The structures of the first arguments are built. */
  ghost predicate Prepared(s0: State, s: State, args: seq<Term>, q: seq<Entry>) {
    && !s.failed && s0.heap <= s.heap && |q| <= |args|
    && forall i: nat | i < |q| && q[i].source.FromReg? :: Means(s.heap, s.regs[q[i].source.reg], Built(args[i]))
  }

  ghost predicate AlwaysPrepared(code: seq<Instr>, args: seq<Term>, q: seq<Entry>) {
    forall s0: State {:trigger Run(s0, code)} | !s0.failed :: Prepared(s0, Run(s0, code), args, q)
  }

  /** The queue holds one move per argument so far; argument registers and built registers are in use. */
  ghost predicate Queued(q: seq<Entry>, args: seq<Term>, arity: nat, busy: set<nat>) {
    && |q| <= |args| <= arity && arity + 1 < MAX_REGS
    && (forall i: nat | i < |q| ::
        EntryFor(q[i], args[i], i + 1) && (q[i].source.FromReg? ==> q[i].source.reg > arity && q[i].source.reg in busy))
    && forall r: nat | 0 < r <= arity :: r in busy
  }

  lemma {:induction false} MeansWord(heap: seq<Cell>, heap': seq<Cell>, a: nat, t: Term)
    requires WordDenotes(heap, 0, map[], a, t) && heap <= heap'
    ensures WordDenotes(heap', 0, map[], a, t)
    decreases t, 1
  {
    MeansStill(heap, heap', heap[a], t);
  }

  /** Appending to the heap does not change what a cell denotes. */
  lemma {:induction false} MeansStill(heap: seq<Cell>, heap': seq<Cell>, c: Cell, t: Term)
    requires Means(heap, c, t) && heap <= heap'
    ensures Means(heap', c, t)
    decreases t, 0
  {
    match t
    case List(x, y) =>
      MeansWord(heap, heap', c.addr, x);
      MeansWord(heap, heap', c.addr + 1, y);
    case Str(f, args) =>
      forall i | 0 <= i < |args| ensures WordDenotes(heap', 0, map[], c.addr + 1 + i, args[i]) {
        MeansWord(heap, heap', c.addr + 1 + i, args[i]);
      }
    case _ =>
  }

  lemma OneConstant(code: seq<Instr>, args: seq<Term>, q: seq<Entry>, e: Entry)
    requires AlwaysPrepared(code, args, q) && |q| < |args| && !e.source.FromReg?
    ensures AlwaysPrepared(code, args, q + [e])
  {
    forall s0: State | !s0.failed ensures Prepared(s0, Run(s0, code), args, q + [e]) {
      assert Prepared(s0, Run(s0, code), args, q);
    }
  }

  lemma OneStructure(code: seq<Instr>, more: seq<Instr>, args: seq<Term>, q: seq<Entry>, arity: nat, r: Reg,
                     busy: set<nat>)
    requires AlwaysPrepared(code, args, q) && |q| < |args| && Queued(q, args, arity, busy)
    requires AlwaysBuilt(more, r, args[|q|], busy + {r}) && r !in busy && arity + 1 < MAX_REGS
    ensures AlwaysPrepared(code + more, args, q + [Entry(FromReg(r), |q| + 1)])
  {
    var q' := q + [Entry(FromReg(r), |q| + 1)];
    forall s0: State | !s0.failed ensures Prepared(s0, Run(s0, code + more), args, q') {
      var s := Run(s0, code);
      RunConcat(s0, code, more);
      var s' := Run(s, more);
      assert Prepared(s0, s, args, q) && BuiltIn(s, s', r, args[|q|], busy + {r});
      forall i: nat | i < |q'| && q'[i].source.FromReg?
          ensures Means(s'.heap, s'.regs[q'[i].source.reg], Built(args[i]))
      {
        if i < |q| {
          assert EntryFor(q[i], args[i], i + 1);
          MeansStill(s.heap, s'.heap, s.regs[q[i].source.reg], Built(args[i]));
        }
      }
    }
  }

  lemma QueuedMore(q: seq<Entry>, args: seq<Term>, arity: nat, busy: set<nat>, e: Entry, busy': set<nat>)
    requires Queued(q, args, arity, busy) && |q| < |args| && busy <= busy'
    requires EntryFor(e, args[|q|], |q| + 1) && (e.source.FromReg? ==> e.source.reg > arity && e.source.reg in busy')
    ensures Queued(q + [e], args, arity, busy')
  {
    var q' := q + [e];
    forall i: nat | i < |q'| ensures EntryFor(q'[i], args[i], i + 1)
        && (q'[i].source.FromReg? ==> q'[i].source.reg > arity && q'[i].source.reg in busy')
    {
      assert i < |q| ==> q'[i] == q[i];
    }
  }

  /** Structures among the first i arguments; each keeps a register. */
  function Structures(args: seq<Term>, i: nat): nat
    requires i <= |args|
  {
    if i == 0 then 0 else Structures(args, i - 1) + if Compound(args[i - 1]) then 1 else 0
  }

  /** The registers in use at the same time for the first i arguments, besides the argument registers. */
  function BodyPeak(args: seq<Term>, i: nat): nat
    requires i <= |args|
  {
    if i == 0 then 0
    else
      var own := if Compound(args[i - 1]) then Structures(args, i - 1) + 1 + Peak(args[i - 1]) else 0;
      Larger(BodyPeak(args, i - 1), own)
  }

  lemma {:induction false} BodyPeakGrows(args: seq<Term>, i: nat, j: nat)
    requires i <= j <= |args|
    ensures BodyPeak(args, i) <= BodyPeak(args, j)
  {
    if i < j {
      BodyPeakGrows(args, i, j - 1);
    }
  }

  lemma {:induction false} StructuresCount(args: seq<Term>, i: nat)
    requires i <= |args|
    ensures Structures(args, i) == |StructuresIn(args, i)|
  {
    if i > 0 {
      StructuresCount(args, i - 1);
      var S := StructuresIn(args, i - 1);
      assert StructuresIn(args, i) == if Compound(args[i - 1]) then S + {i - 1} else S;
    }
  }

  lemma BodyPeakTurn(args: seq<Term>, i: nat, free: nat, n: nat)
    requires i < |args| && free + Structures(args, i) == n && BodyPeak(args, i) <= n
    ensures BodyPeak(args, i + 1) <= n <==> (Compound(args[i]) ==> 1 + Peak(args[i]) <= free)
    ensures BodyPeak(args, i + 1) <= BodyPeak(args, |args|)
    ensures Structures(args, i + 1) == Structures(args, i) + if Compound(args[i]) then 1 else 0
  {
    hide Peak;
    BodyPeakGrows(args, i + 1, |args|);
  }

  /** For every structure, what is left of n registers by the structures before it and by the register it is built in
      is enough for its own code. */
  ghost predicate EachFits(args: seq<Term>, n: nat) {
    forall k: nat | k < |args| && Compound(args[k]) :: |StructuresIn(args, k)| + 1 + Peak(args[k]) <= n
  }

  lemma PeakFits(args: seq<Term>, n: nat)
    ensures BodyPeak(args, |args|) <= n <==> EachFits(args, n)
  {
    BodyPeakExactly(args, |args|, n);
    hide Peak;
  }

  lemma {:induction false} BodyPeakExactly(args: seq<Term>, i: nat, n: nat)
    requires i <= |args|
    ensures BodyPeak(args, i) <= n <==>
            forall k: nat | k < i && Compound(args[k]) :: |StructuresIn(args, k)| + 1 + Peak(args[k]) <= n
  {
    hide Peak;
    if i > 0 {
      BodyPeakExactly(args, i - 1, n);
      StructuresCount(args, i - 1);
    }
  }

  /** One argument: constants only wait for their register; a structure is built in a register of its own. */
  method DbGenAput(t: Term, argno: Reg, queue: InstQueue<Entry>, R: RegStat, code0: seq<Instr>, ghost args: seq<Term>,
                   ghost arity: nat)
    returns (ok: bool, code: seq<Instr>)
    requires queue.Valid() && R.Valid() && Queued(queue.Contents(), args, arity, Busy(R))
    requires AlwaysPrepared(code0, args, queue.Contents())
    requires |queue.Contents()| < |args| && args[|queue.Contents()|] == t && argno == |queue.Contents()| + 1
    modifies queue, queue.cells, R, R.reg
    ensures ok == (Compound(t) ==> 1 + Peak(t) <= old(FreeCount(R)))
    ensures ok ==> queue.Valid() && R.Valid() && Queued(queue.Contents(), args, arity, Busy(R))
    ensures ok ==> FreeCount(R) == old(FreeCount(R)) - if Compound(t) then 1 else 0
    ensures ok ==> AlwaysPrepared(code, args, queue.Contents()) && |queue.Contents()| == |old(queue.Contents())| + 1
  {
    hide AlwaysPrepared, Queued, Busy, Temps, AlwaysBuilt, Peak, FreeCount;
    RoomForArg(queue.Contents(), args, arity, Busy(R));
    ghost var q, busy := queue.Contents(), Busy(R);
    code := code0;
    if t.Int? || t.EmptyList? || t.Atom? {
      var e := Entry(if t.Int? then ANumber(t.n) else if t.EmptyList? then ANil else AConstant(t.name), argno);
      QueuedMore(q, args, arity, busy, e, busy);
      OneConstant(code, args, q, e);
      ok := queue.Push(e);
    } else {
      var r;
      ok, r := GetReal(R);
      if !ok {
        return;
      }
      ArgsInUse(q, args, arity, busy, r);
      ok := queue.Push(Entry(FromReg(r), argno));
      QueuedMore(q, args, arity, busy, Entry(FromReg(r), argno), Busy(R));
      var fq := new InstQueue<Pend>(Pend(r, t));
      var more;
      ok := fq.Push(Pend(r, t));
      assert fq.Contents() == [Pend(r, t)];
      ok, more := DbGenTerms(fq, R, r, t);
      if ok {
        OneStructure(code, more, args, q, arity, r, busy);
        code := code + more;
      }
    }
  }

  lemma RoomForArg(q: seq<Entry>, args: seq<Term>, arity: nat, busy: set<nat>)
    requires Queued(q, args, arity, busy) && |q| < |args|
    ensures |q| < INST_QUEUE_SIZE - 1
  {
  }

  lemma ArgsInUse(q: seq<Entry>, args: seq<Term>, arity: nat, busy: set<nat>, r: nat)
    requires Queued(q, args, arity, busy) && r !in busy && 0 < r
    ensures r > arity && arity + 1 < MAX_REGS
  {
  }

  /** What the argument registers must denote when the body goal is called. */
  ghost predicate ArgsLoaded(s: State, args: seq<Term>) {
    && !s.failed && |args| + 1 < MAX_REGS
    && forall i: nat | i < |args| :: Means(s.heap, s.regs[i + 1], Built(args[i]))
  }

  lemma AllLoaded(code: seq<Instr>, moves: seq<Instr>, args: seq<Term>, q: seq<Entry>, arity: nat, busy: set<nat>)
    requires AlwaysPrepared(code, args, q) && Queued(q, args, arity, busy) && |q| == |args|
    requires DistinctTargets(q) && AllOnTrack(moves, WantedOf(q), [])
    ensures forall s0: State | !s0.failed :: ArgsLoaded(Run(s0, code + moves), args)
  {
    forall s0: State | !s0.failed ensures ArgsLoaded(Run(s0, code + moves), args) {
      var s := Run(s0, code);
      RunConcat(s0, code, moves);
      var s' := Run(s, moves);
      assert Prepared(s0, s, args, q) && OnTrack(s, s', WantedOf(q), []);
      forall i: nat | i < |args| ensures Means(s'.heap, s'.regs[i + 1], Built(args[i])) {
        var e := q[i];
        assert e in q && EntryFor(e, args[i], i + 1);
        WantedAt(q, i);
        assert Loaded(s, s', e.source, e.target);
        if e.source.FromReg? {
          MeansStill(s.heap, s'.heap, s.regs[e.source.reg], Built(args[i]));
        }
      }
    }
  }

  lemma WantedAt(q: seq<Entry>, i: nat)
    requires DistinctTargets(q) && i < |q|
    ensures q[i].target in WantedOf(q) && WantedOf(q)[q[i].target] == q[i].source
  {
    assert q[i] in q;
  }

  lemma QueuedPlain(q: seq<Entry>, args: seq<Term>, arity: nat, busy: set<nat>)
    requires Queued(q, args, arity, busy)
    ensures DistinctTargets(q) && Targets(q) <= busy && Sources(q) <= busy && Sources(q) !! Targets(q)
  {
    forall i: nat | i < |q| ensures q[i].target == i + 1 && q[i].target in busy {
      assert EntryFor(q[i], args[i], i + 1);
    }
  }

  /** The loop over the arguments. */
  method DbGenAputs(args: seq<Term>, arity: nat, queue: InstQueue<Entry>, R: RegStat)
    returns (ok: bool, code: seq<Instr>)
    requires queue.Valid() && R.Valid() && queue.Contents() == [] && Queued([], args, arity, Busy(R))
    requires AlwaysPrepared([], args, []) && FreeCount(R) + arity + 2 == MAX_REGS
    modifies queue, queue.cells, R, R.reg
    ensures ok == (BodyPeak(args, |args|) <= MAX_REGS - 2 - arity)
    ensures ok ==> queue.Valid() && R.Valid() && Queued(queue.Contents(), args, arity, Busy(R))
    ensures ok ==> AlwaysPrepared(code, args, queue.Contents()) && |queue.Contents()| == |args|
  {
    hide AlwaysPrepared, Queued, Busy, Temps, Peak, FreeCount;
    code, ok := [], true;
    var argno := 1;
    while argno <= |args|
      invariant 1 <= argno <= |args| + 1
      invariant queue.Valid() && R.Valid() && Queued(queue.Contents(), args, arity, Busy(R))
      invariant AlwaysPrepared(code, args, queue.Contents()) && |queue.Contents()| == argno - 1 && ok
      invariant FreeCount(R) + Structures(args, argno - 1) == MAX_REGS - 2 - arity
      invariant BodyPeak(args, argno - 1) <= MAX_REGS - 2 - arity
    {
      BodyPeakTurn(args, argno - 1, FreeCount(R), MAX_REGS - 2 - arity);
      ok, code := DbGenAput(args[argno - 1], argno, queue, R, code, args, arity);
      if !ok {
        return;
      }
      argno := argno + 1;
    }
  }

  /** Main result: for ground arguments, run from any state, the code loads every argument register with what its
      argument is compiled to. The code generator aborts exactly if the arguments need more registers than are left. */
  method DbGenBody(args: seq<Term>, arity: nat) returns (ok: bool, code: seq<Instr>)
    requires |args| <= arity && arity + 1 < MAX_REGS
    ensures ok == (BodyPeak(args, |args|) <= MAX_REGS - 2 - arity)
    ensures ok == EachFits(args, MAX_REGS - 2 - arity)
    ensures ok ==> forall s0: State | !s0.failed :: ArgsLoaded(Run(s0, code), args)
  {
    PeakFits(args, MAX_REGS - 2 - arity);
    hide BodyPeak, EachFits, AlwaysPrepared, Queued, Busy, Temps, AllOnTrack, WantedOf, ArgsLoaded, Saves, Lost,
        Sources, Targets, DistinctTargets;
    var R := new RegStat(arity);
    var queue := new InstQueue<Entry>(Entry(ANil, 0));
    StartBody(R, args, arity);
    ok, code := DbGenAputs(args, arity, queue, R);
    if !ok {
      return;
    }
    ghost var q, busy := queue.Contents(), Busy(R);
    QueuedPlain(q, args, arity, busy);
    assert q + [] == q;
    NoOverlap(q, [], queue.bottom, queue.top);
    var moves;
    ok, moves := DbGenMvs(queue, R);
    AllLoaded(code, moves, args, q, arity, busy);
    code := code + moves;
  }

  lemma StartBody(R: RegStat, args: seq<Term>, arity: nat)
    requires R.Valid() && R.free == [] && R.rest == arity + 1 && |args| <= arity && arity + 1 < MAX_REGS
    requires forall r: nat | r <= arity :: R.reg[r] == NVAR
    ensures Queued([], args, arity, Busy(R)) && AlwaysPrepared([], args, []) && FreeCount(R) == MAX_REGS - 2 - arity
  {
    forall s0: State | !s0.failed ensures Prepared(s0, Run(s0, []), args, []) {
    }
  }
}
