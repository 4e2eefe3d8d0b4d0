/** Generating the moves. */
module MoveCompiler {
  import opened Sequences
  import opened CompilerState
  import opened Machine
  import opened MoveSpec
  import opened MoveRun

  /** Exact as long as the queue has not wrapped; once it has, the scan sees nothing. */
  method TargetIsNotSource(queue: InstQueue<Entry>, reg: Reg) returns (r: bool)
    requires queue.Valid()
    ensures queue.bottom <= queue.top ==> r == (reg !in Sources(queue.Contents()))
    ensures queue.top < queue.bottom ==> r
  {
    if queue.bottom <= queue.top {
      RingStraight(queue.cells[..], queue.bottom, queue.top);
    }
    var i := queue.bottom;
    while i < queue.top
      invariant queue.bottom <= queue.top ==> queue.bottom <= i <= queue.top
      invariant queue.bottom <= queue.top ==> reg !in Sources(queue.cells[queue.bottom..i])
    {
      assert queue.cells[queue.bottom..i + 1] == queue.cells[queue.bottom..i] + [queue.cells[i]];
      LastIn(queue.cells[queue.bottom..i], queue.cells[i]);
      if queue.cells[i].source == FromReg(reg) {
        assert queue.cells[i] in queue.cells[queue.bottom..queue.top];
        return false;
      }
      i := i + 1;
    }
    r := true;
  }

  method SourceIsNotTarget(queue: InstQueue<Entry>, reg: Reg) returns (r: bool)
    requires queue.Valid()
    ensures queue.bottom <= queue.top ==> r == (reg !in Targets(queue.Contents()))
    ensures queue.top < queue.bottom ==> r
  {
    if queue.bottom <= queue.top {
      RingStraight(queue.cells[..], queue.bottom, queue.top);
    }
    var i := queue.bottom;
    while i < queue.top
      invariant queue.bottom <= queue.top ==> queue.bottom <= i <= queue.top
      invariant queue.bottom <= queue.top ==> reg !in Targets(queue.cells[queue.bottom..i])
    {
      assert queue.cells[queue.bottom..i + 1] == queue.cells[queue.bottom..i] + [queue.cells[i]];
      LastIn(queue.cells[queue.bottom..i], queue.cells[i]);
      if queue.cells[i].target == reg {
        assert queue.cells[i] in queue.cells[queue.bottom..queue.top];
        return false;
      }
      i := i + 1;
    }
    r := true;
  }

  // ------------------------------------------------------------------
  // One turn of the loop.

  ghost predicate Turned(turn: Turn, e: Entry, r0: Reg, rest: seq<Entry>, q: seq<Entry>, top: nat, top': nat,
                         code0: seq<Instr>, code: seq<Instr>)
    requires (turn.Save? ==> e.source.FromReg?) && top < INST_QUEUE_SIZE
  {
    && q == rest + TurnBack(turn, e, r0) && top' == (if turn.Delay? || turn.Save? then Next(top) else top)
    && code == code0 + TurnCode(turn, e, r0)
  }

  /** One pending move: dropped, made, delayed, or its source saved in a new register r0. The code generator aborts
      (ok is false) exactly if a register is needed and none is free. */
  method GenMove(queue: InstQueue<Entry>, R: RegStat, code0: seq<Instr>)
    returns (ok: bool, code: seq<Instr>, ghost r0: Reg)
    requires queue.Valid() && R.Valid() && queue.Contents() != []
    requires var e := queue.Contents()[0]; e.source.FromReg? ==> e.source.reg in Busy(R) + Temps(R)
    modifies queue`top, queue`bottom, queue.cells, R, R.reg
    ensures queue.Valid() && queue.bottom == Next(old(queue.bottom))
    ensures var e, rest := old(queue.Contents())[0], old(queue.Contents())[1..];
            var turn := TurnFor(e, rest, queue.bottom <= old(queue.top));
            && ok == (turn.Save? ==> old(FreeCount(R)) > 0)
            && (ok ==> Turned(turn, e, r0, rest, queue.Contents(), old(queue.top), queue.top, code0, code))
            && (ok ==> R.Valid() && Temps(R) == TurnTemps(turn, e, r0, old(Temps(R))))
            && (ok && turn.Save? ==> 0 < r0 <= 255 && r0 !in old(Busy(R) + Temps(R)))
            && TurnIs(turn, e, rest, queue.bottom <= old(queue.top))
    ensures ok ==> Busy(R) == old(Busy(R)) && FreeCount(R) + |Temps(R)| == old(FreeCount(R) + |Temps(R)|)
  {
    hide Sources, Targets, Next, Busy, Temps, TurnTemps, TurnCode, TurnBack, FreeCount, Emitted, TurnFor;
    ghost var q, temps := queue.Contents(), Temps(R);
    InRange(R);
    queue.SizeBound();
    var e := queue.Rem();
    ghost var rest := queue.Contents();
    assert q[0] == e && q[1..] == rest;
    RoomForOne(queue, q, e);
    ok, code, r0 := true, code0, 0;
    var turn := LookAtOthers(queue, e);
    TurnMeans(e, rest, queue.bottom <= queue.top);
    TurnParts(turn, e, r0, temps, code0, rest);
    if turn.Emit? {
      code := code0 + [Emitted(e)];
      ReleaseMoved(R, e);
    } else if turn.Delay? {
      ok := queue.Push(e);
    } else if turn.Save? {
      ok, code, r0 := SaveMove(queue, R, code0, e);
      TurnParts(turn, e, r0, temps, code0, rest);
    }
  }

  /** The scans. */
  method LookAtOthers(queue: InstQueue<Entry>, e: Entry) returns (turn: Turn)
    requires queue.Valid()
    ensures turn == TurnFor(e, queue.Contents(), queue.bottom <= queue.top) && (turn.Save? ==> e.source.FromReg?)
  {
    hide Sources, Targets;
    if e.source == FromReg(e.target) {
      return Drop;
    }
    var free := TargetIsNotSource(queue, e.target);
    if free {
      return Emit;
    }
    if !e.source.FromReg? {
      return Delay;
    }
    var delay := SourceIsNotTarget(queue, e.source.reg);
    turn := if delay then Delay else Save;
  }

  /** The source of a move that was made is free if it was a temporary. */
  method ReleaseMoved(R: RegStat, e: Entry)
    requires R.Valid() && (e.source.FromReg? ==> e.source.reg in Busy(R) + Temps(R))
    modifies R`freeReg, R`free, R.reg
    ensures R.Valid() && Busy(R) == old(Busy(R))
    ensures Temps(R) == if e.source.FromReg? then old(Temps(R)) - {e.source.reg} else old(Temps(R))
    ensures FreeCount(R) + |Temps(R)| == old(FreeCount(R) + |Temps(R)|)
  {
    hide Busy, Temps;
    if e.source.FromReg? {
      ReleaseSource(R, e.source.reg);
    }
  }

  lemma RoomForOne(queue: InstQueue<Entry>, q: seq<Entry>, e: Entry)
    requires queue.Valid() && q == [e] + queue.Contents() && |q| < INST_QUEUE_SIZE
    ensures |queue.Contents()| < INST_QUEUE_SIZE - 1
  {
  }

  /** Saves the source of a move in a free register and puts the move off. */
  method SaveMove(queue: InstQueue<Entry>, R: RegStat, code0: seq<Instr>, e: Entry)
    returns (ok: bool, code: seq<Instr>, ghost r0: Reg)
    requires queue.Valid() && R.Valid() && e.source.FromReg? && e.source.reg in Busy(R) + Temps(R)
    requires |queue.Contents()| < INST_QUEUE_SIZE - 1
    modifies queue`top, queue.cells, R, R.reg
    ensures queue.Valid() && ok == (old(FreeCount(R)) > 0)
    ensures ok ==> R.Valid() && Busy(R) == old(Busy(R)) && Temps(R) == old(Temps(R)) + {r0} - {e.source.reg}
    ensures ok ==> FreeCount(R) + |Temps(R)| == old(FreeCount(R) + |Temps(R)|)
    ensures ok ==> 0 < r0 <= 255 && r0 !in old(Busy(R) + Temps(R)) && code == code0 + [MovReg(e.source.reg, r0)]
    ensures ok ==>
            queue.Contents() == old(queue.Contents()) + [Entry(FromReg(r0), e.target)]
            && queue.top == Next(old(queue.top))
  {
    hide Next, Busy, Temps;
    code, r0 := code0, 0;
    var r;
    ok, r := GetTemp(R);
    if ok {
      r0 := r;
      code := code0 + [MovReg(e.source.reg, r)];
      ReleaseSource(R, e.source.reg);
      ok := queue.Push(Entry(FromReg(r), e.target));
    }
  }

  // ------------------------------------------------------------------
  // The loop.

  /** Between turns: every move is right, or one is lost for good. */
  ghost predicate Moving(enough: bool, lost: bool, gone: bool, bad: Reg, code: seq<Instr>, want: Wanted, q: seq<Entry>,
                         k: nat, later: seq<Entry>, bottom: nat, top: nat, free: nat, busy: set<nat>, temps: set<nat>)
  {
    && Pending(want, q, k, busy, temps) && MAX_REGS !in busy + temps
    && Outlook(enough, lost, gone, q, k, later, bottom, top, free, busy, temps)
    && if gone then Spoiled(Run(Telling(), code), want, q, bad) else AllOnTrack(code, want, q)
  }

  lemma MovingStart(q: seq<Entry>, bottom: nat, top: nat, free: nat, busy: set<nat>, temps: set<nat>)
    requires DistinctTargets(q) && Targets(q) <= busy && Sources(q) <= busy && busy !! temps
             && MAX_REGS !in busy + temps
    requires bottom < INST_QUEUE_SIZE && top < INST_QUEUE_SIZE
    ensures Moving(Saves(q, [], bottom, top) <= free, Lost(q, [], bottom, top), false, 0, [], WantedOf(q), q, |q|, [],
            bottom, top,
                   free, busy, temps)
  {
    PendingStart(q, busy, temps);
    OutlookStart(q, bottom, top, free, busy, temps);
  }

  lemma MovingFirst(enough: bool, lost: bool, gone: bool, bad: Reg, code: seq<Instr>, want: Wanted, e: Entry,
                    rest: seq<Entry>, k: nat, later: seq<Entry>, bottom: nat, top: nat, free: nat, busy: set<nat>,
                    temps: set<nat>)
    requires Moving(enough, lost, gone, bad, code, want, [e] + rest, k, later, bottom, top, free, busy, temps)
    ensures e.source.FromReg? ==> e.source.reg in busy + temps
  {
    hide Pending, Outlook, Spoiled, AllOnTrack;
    PendingFirst(want, e, rest, k, busy, temps);
  }

  /** Without a free register for a save, there were not enough. */
  lemma MovingStuck(enough: bool, lost: bool, gone: bool, bad: Reg, code: seq<Instr>, want: Wanted, e: Entry,
                    rest: seq<Entry>, k: nat, later: seq<Entry>, bottom: nat, top: nat, free: nat, busy: set<nat>,
                    temps: set<nat>)
    requires Moving(enough, lost, gone, bad, code, want, [e] + rest, k, later, bottom, top, free, busy, temps)
    requires bottom < INST_QUEUE_SIZE && TurnFor(e, rest, Next(bottom) <= top).Save? && free == 0
    ensures !enough
  {
    PendingFirst(want, e, rest, k, busy, temps);
    PendingLength(want, e, rest, k, busy, temps);
    hide Pending, Outlook, Spoiled, AllOnTrack, TurnFor;
    OutlookTurn(enough, lost, gone, e, rest, k, later, bottom, top, free, 0, busy, temps, 0);
  }

  lemma PendingLength(want: Wanted, e: Entry, rest: seq<Entry>, k: nat, busy: set<nat>, temps: set<nat>)
    requires Pending(want, [e] + rest, k, busy, temps)
    ensures k <= |rest| + 1
  {
  }

  /** A turn; if it writes a register that a pending move reads, that move is lost. */
  lemma MovingTurn(enough: bool, lost: bool, gone: bool, bad: Reg, code: seq<Instr>, want: Wanted, e: Entry,
                   rest: seq<Entry>, k: nat, later: seq<Entry>, bottom: nat, top: nat, free: nat, free': nat,
                   busy: set<nat>, temps: set<nat>, r0: Reg)
    returns (gone': bool, bad': Reg)
    requires Moving(enough, lost, gone, bad, code, want, [e] + rest, k, later, bottom, top, free, busy, temps)
    requires bottom < INST_QUEUE_SIZE && top < INST_QUEUE_SIZE
    requires var turn := TurnFor(e, rest, Next(bottom) <= top);
             && (turn.Save? ==> free > 0 && r0 !in busy + temps && r0 < MAX_REGS)
             && free' + |TurnTemps(turn, e, r0, temps)| == free + |temps|
    requires MAX_REGS !in busy + TurnTemps(TurnFor(e, rest, Next(bottom) <= top), e, r0, temps)
    ensures var turn := TurnFor(e, rest, Next(bottom) <= top);
            && (k == 0 ==> rest + TurnBack(turn, e, r0) == rest)
            && Moving(enough, lost, gone', bad', code + TurnCode(turn, e, r0), want, rest + TurnBack(turn, e, r0),
                Less(k),
                      later + PutOff(turn, e), Next(bottom), After(turn, top), free', busy,
                          TurnTemps(turn, e, r0, temps))
  {
    var straight := Next(bottom) <= top;
    var turn := TurnFor(e, rest, straight);
    PendingFirst(want, e, rest, k, busy, temps);
    PendingLength(want, e, rest, k, busy, temps);
    PendingTurn(want, e, rest, k, busy, temps, straight, r0);
    assert k == 0 ==> rest + TurnBack(turn, e, r0) == rest;
    TurnNotDropped(e, rest, straight);
    hide Pending, Outlook, Spoiled, AllOnTrack, TurnFor, TurnTemps, TurnBack, PutOff, After, Separate;
    OutlookTurn(enough, lost, gone, e, rest, k, later, bottom, top, free, free', busy, temps, r0);
    gone', bad' := gone || Clobbers(turn, e, rest), bad;
    if gone {
      SpoiledTurn(code, want, e, rest, k, busy, temps, straight, r0, bad);
    } else if Clobbers(turn, e, rest) {
      bad' := ClobberSpoils(code, want, e, rest, k, busy, temps);
      assert TurnCode(turn, e, r0) == [Emitted(e)];
      NothingBack(turn, e, r0, rest);
    } else {
      OnTrackTurn(code, want, e, rest, busy, temps, straight, r0);
    }
  }

  lemma TurnNotDropped(e: Entry, rest: seq<Entry>, straight: bool)
    ensures TurnFor(e, rest, straight).Emit? ==> e.source != FromReg(e.target)
  {
  }

  lemma NothingBack(turn: Turn, e: Entry, r0: Reg, rest: seq<Entry>)
    requires turn.Emit?
    ensures rest + TurnBack(turn, e, r0) == rest
  {
  }

  lemma MovingEnd(enough: bool, lost: bool, gone: bool, bad: Reg, code: seq<Instr>, want: Wanted, k: nat,
                  later: seq<Entry>, bottom: nat, top: nat, free: nat, busy: set<nat>, temps: set<nat>)
    requires Moving(enough, lost, gone, bad, code, want, [], k, later, bottom, top, free, busy, temps)
    ensures enough && (AllOnTrack(code, want, []) <==> !lost)
  {
    if gone {
      SpoiledEnd(code, want, bad);
    }
  }

  /** Main result: run from any state, the emitted code loads every target with the initial value of its source, its
      constant, or a new variable of its own, if and only if no register is written while a pending move reads it. The
      code generator aborts exactly if there are fewer free registers than sources to be saved. */
  method DbGenMvs(queue: InstQueue<Entry>, R: RegStat) returns (ok: bool, code: seq<Instr>)
    requires queue.Valid() && R.Valid()
    requires DistinctTargets(queue.Contents())
    requires Targets(queue.Contents()) <= Busy(R) && Sources(queue.Contents()) <= Busy(R)
    modifies queue, queue.cells, R, R.reg
    ensures queue.Valid()
    ensures ok == (Saves(old(queue.Contents()), [], old(queue.bottom), old(queue.top)) <= old(FreeCount(R)))
    ensures ok ==> queue.Contents() == []
    ensures ok ==> (AllOnTrack(code, WantedOf(old(queue.Contents())), []) <==>
                    !Lost(old(queue.Contents()), [], old(queue.bottom), old(queue.top)))
  {
    hide Moving, WantedOf, Sources, Targets, Saves, Lost, Busy, Temps, FreeCount, TurnFor, TurnTemps, TurnCode,
        TurnBack, PutOff,
         Next, AllOnTrack;
    ghost var q0, want, busy := queue.Contents(), WantedOf(queue.Contents()), Busy(R);
    ghost var k: nat, later: seq<Entry>, gone, bad: Reg := |q0|, [], false, 0;
    ghost var enough, lost := Saves(q0, [], queue.bottom, queue.top) <= FreeCount(R),
        Lost(q0, [], queue.bottom, queue.top);
    code := [];
    InRange(R);
    MovingStart(q0, queue.bottom, queue.top, FreeCount(R), busy, Temps(R));
    ok := true;
    while true
      invariant queue.Valid() && R.Valid() && Busy(R) == busy && ok
      invariant Moving(enough, lost, gone, bad, code, want, queue.Contents(), k, later, queue.bottom, queue.top,
                FreeCount(R), busy,
                       Temps(R))
      decreases k, |queue.Contents()|
    {
      var empty := queue.Empty();
      if empty {
        break;
      }
      ghost var q, bottom, top, free, temps := queue.Contents(), queue.bottom, queue.top, FreeCount(R), Temps(R);
      ghost var e, rest, code1, r0 := q[0], q[1..], code, 0;
      assert q == [e] + rest;
      MovingFirst(enough, lost, gone, bad, code, want, e, rest, k, later, bottom, top, free, busy, temps);
      ok, code, r0 := GenMove(queue, R, code);
      if !ok {
        MovingStuck(enough, lost, gone, bad, code1, want, e, rest, k, later, bottom, top, free, busy, temps);
        return;
      }
      InRange(R);
      gone, bad :=
          MovingTurn(enough, lost, gone, bad, code1, want, e, rest, k, later, bottom, top, free, FreeCount(R), busy,
          temps,
                              r0);
      k, later := Less(k), later + PutOff(TurnFor(e, rest, Next(bottom) <= top), e);
    }
    MovingEnd(enough, lost, gone, bad, code, want, k, later, queue.bottom, queue.top, FreeCount(R), busy, Temps(R));
  }

  /** Neither wrapped nor about to: there is room for every move that can be delayed. */
  ghost predicate CannotWrap(queue: InstQueue<Entry>)
    requires queue.Valid()
    reads queue, queue.cells
  {
    queue.bottom <= queue.top && queue.top + Blocking(queue.Contents(), Sources(queue.Contents())) < INST_QUEUE_SIZE
  }

  lemma {:induction false} BlockingBound(q: seq<Entry>, sources: set<Reg>)
    ensures Blocking(q, sources) <= |q|
  {
    if q != [] {
      BlockingBound(q[1..], sources);
    }
  }

  /** A ring that cannot wrap loses no move. */
  lemma StraightLosesNothing(queue: InstQueue<Entry>)
    requires queue.Valid() && CannotWrap(queue)
    ensures !Lost(queue.Contents(), [], queue.bottom, queue.top)
    ensures Saves(queue.Contents(), [], queue.bottom, queue.top) <= Blocking(queue.Contents(),
            Sources(queue.Contents()))
  {
    var q := queue.Contents();
    RingAt(queue.cells[..], queue.bottom, queue.top);
    assert q + [] == q;
    RoomForAll(q, [], queue.bottom, queue.top, Sources(q));
  }

  /** With the start position of the source, up to 122 moves always fit. */
  lemma SmallQueueCannotWrap(queue: InstQueue<Entry>)
    requires queue.Valid() && queue.bottom == 10 <= queue.top && |queue.Contents()| <= 122
    ensures CannotWrap(queue)
  {
    RingAt(queue.cells[..], queue.bottom, queue.top);
    BlockingBound(queue.Contents(), Sources(queue.Contents()));
  }

  // ------------------------------------------------------------------
  // A wrapped ring.

  /** The pending moves after j turns: 90 constants for registers 1 to 90, then 90 moves from these registers. */
  function Overlapping(j: nat): seq<Entry>
    requires j <= 90
  {
    seq(180, i requires 0 <= i < 180 =>
      var k := i + j;
      if k < 90 then Entry(AConstant(k), k + 1)
      else if k < 180 then Entry(FromReg(k - 89), k + 1)
      else Entry(AConstant(k - 180), k - 179))
  }

  /** Before the ring wraps, the constant for register j + 1 is delayed. */
  lemma OverlappingTurn(j: nat)
    requires j < 66
    ensures var q := Overlapping(j);
            && |q| == 180 && !q[0].source.FromReg? && q[1..] + [q[0]] == Overlapping(j + 1)
            && TurnFor(q[0], q[1..], Next(10 + j) <= (190 + j) % INST_QUEUE_SIZE) == Delay
    ensures Next(10 + j) == 11 + j && Next((190 + j) % INST_QUEUE_SIZE) == (191 + j) % INST_QUEUE_SIZE
  {
    assert Overlapping(j)[1..][89] == Overlapping(j)[90] == Entry(FromReg(j + 1), j + 91);
  }

  lemma OverlappingSplit(j: nat)
    requires j <= 66
    ensures var todo, later := Overlapping(0)[j..], Overlapping(0)[..j];
            && todo != [] && todo[0] == Overlapping(j)[0] && todo[1..] + later == Overlapping(j)[1..]
            && todo[1..] == Overlapping(0)[j + 1..] && later + [todo[0]] == Overlapping(0)[..j + 1]
  {
  }

  /** The 67th move is emitted although its target is still read. */
  lemma OverlappingClobbers()
    ensures var q := Overlapping(66); Clobbers(TurnFor(q[0], q[1..], Next(76) <= 0), q[0], q[1..])
  {
    assert Overlapping(66)[1..][89] == Entry(FromReg(67), 157);
  }

  /** So the condition of DbGenMvs shuts these moves out. */
  lemma {:induction false} OverlappingLost(j: nat)
    requires j <= 66
    ensures Lost(Overlapping(0)[j..], Overlapping(0)[..j], 10 + j, (190 + j) % INST_QUEUE_SIZE)
    decreases 66 - j
  {
    OverlappingSplit(j);
    if j < 66 {
      OverlappingTurn(j);
      hide Overlapping, TurnFor, Clobbers, Next;
      OverlappingLost(j + 1);
    } else {
      OverlappingClobbers();
      hide Overlapping, TurnFor, Clobbers, Next;
    }
  }

  lemma OverlappingTargets()
    ensures DistinctTargets(Overlapping(0)) && 157 in WantedOf(Overlapping(0))
            && WantedOf(Overlapping(0))[157] == FromReg(67)
  {
    assert Overlapping(0)[156] == Entry(FromReg(67), 157) && Overlapping(0)[156] in Overlapping(0);
  }

  /** What is emitted once the ring is wrapped: the pending moves in order. */
  function InOrder(n: nat): seq<Instr>
    requires n <= 180
  {
    seq(n, i requires 0 <= i < n => Emitted(Overlapping(66)[i]))
  }

  /** Register 67 is overwritten before it is moved to register 157. */
  lemma {:induction false} InOrderRun(s0: State, n: nat)
    requires 0 < n <= 180 && !s0.failed
    ensures !Run(s0, InOrder(n)).failed
    ensures n <= 90 ==> Run(s0, InOrder(n)).regs[67] == CCon(66)
    ensures n > 90 ==> Run(s0, InOrder(n)).regs[157] == CCon(66)
  {
    assert InOrder(n) == InOrder(n - 1) + [Emitted(Overlapping(66)[n - 1])];
    RunSnoc(s0, InOrder(n - 1), Emitted(Overlapping(66)[n - 1]));
    if n > 1 {
      InOrderRun(s0, n - 1);
    }
  }

  method QueueOverlapping() returns (queue: InstQueue<Entry>)
    ensures fresh(queue) && fresh(queue.cells) && queue.Valid()
    ensures queue.bottom == 10 && queue.top == 190 && queue.Contents() == Overlapping(0)
  {
    queue := new InstQueue<Entry>(Entry(ANil, 0));
    var n := 0;
    while n < 180
      invariant 0 <= n <= 180 && queue.Valid() && fresh(queue) && fresh(queue.cells)
      invariant queue.bottom == 10 && queue.top == 10 + n && queue.Contents() == Overlapping(0)[..n]
    {
      var pushed := queue.Push(if n < 90 then Entry(AConstant(n), n + 1) else Entry(FromReg(n - 89), n + 1));
      n := n + 1;
    }
  }

  /** 66 turns only delay constants; then the ring is wrapped. */
  method DelayConstants(queue: InstQueue<Entry>, R: RegStat) returns (code: seq<Instr>)
    requires queue.Valid() && R.Valid() && Temps(R) == {}
    requires queue.bottom == 10 && queue.top == 190 && queue.Contents() == Overlapping(0)
    modifies queue`top, queue`bottom, queue.cells, R, R.reg
    ensures queue.Valid() && R.Valid() && Temps(R) == {} && Busy(R) == old(Busy(R)) && code == []
    ensures queue.bottom == 76 && queue.top == 0 && queue.Contents() == Overlapping(66)
  {
    hide Overlapping, Sources, Busy, Temps, TurnFor, TurnTemps, TurnCode, TurnBack, Next;
    code := [];
    var j := 0;
    while j < 66
      invariant 0 <= j <= 66 && queue.Valid() && R.Valid() && code == [] && Temps(R) == {} && Busy(R) == old(Busy(R))
      invariant queue.bottom == 10 + j && queue.top == (190 + j) % INST_QUEUE_SIZE && queue.Contents() == Overlapping(j)
    {
      OverlappingTurn(j);
      ghost var q := queue.Contents();
      var ok;
      ghost var r0;
      ok, code, r0 := GenMove(queue, R, code);
      TurnParts(Delay, q[0], r0, {}, [], q[1..]);
      j := j + 1;
    }
  }

  /** From then on the scans see nothing and every move is emitted, in order. */
  method EmitInOrder(queue: InstQueue<Entry>, R: RegStat) returns (code: seq<Instr>)
    requires queue.Valid() && R.Valid() && Temps(R) == {} && forall r: nat | r <= 180 :: r in Busy(R)
    requires queue.bottom == 76 && queue.top == 0 && queue.Contents() == Overlapping(66)
    modifies queue`top, queue`bottom, queue.cells, R, R.reg
    ensures queue.Valid() && queue.Contents() == [] && code == InOrder(180)
  {
    hide Overlapping, Sources, Busy, Temps, TurnFor, TurnTemps, TurnCode, TurnBack, Next, InOrder;
    code := [];
    InOrderStart();
    ghost var busy := Busy(R);
    var n := 0;
    while n < 180
      invariant 0 <= n <= 180 && queue.Valid() && R.Valid() && Temps(R) == {} && Busy(R) == busy
      invariant queue.bottom == (76 + n) % INST_QUEUE_SIZE && queue.top == 0 && queue.Contents() == Overlapping(66)[n..]
      invariant code == InOrder(n)
    {
      InOrderTurn(n, queue.bottom);
      ghost var q := queue.Contents();
      var ok;
      ghost var r0;
      ok, code, r0 := GenMove(queue, R, code);
      TurnParts(Emit, q[0], r0, {}, code, q[1..]);
      n := n + 1;
    }
  }

  lemma InOrderStart()
    ensures InOrder(0) == [] && |Overlapping(66)| == 180
  {
  }

  lemma InOrderTurn(n: nat, bottom: nat)
    requires n < 180 && bottom == (76 + n) % INST_QUEUE_SIZE
    ensures |Overlapping(66)| == 180
    ensures var q := Overlapping(66)[n..];
            && q != [] && q[1..] == Overlapping(66)[n + 1..] && InOrder(n) + [Emitted(q[0])] == InOrder(n + 1)
            && TurnFor(q[0], q[1..], Next(bottom) <= 0) == Emit && (q[0].source.FromReg? ==> 0 < q[0].source.reg <= 180)
    ensures Next(bottom) == (77 + n) % INST_QUEUE_SIZE
  {
  }

  lemma RegistersBusy(R: RegStat)
    requires R.Valid() && R.free == [] && R.rest == 181 && forall r: nat | r <= 180 :: R.reg[r] == NVAR
    ensures Temps(R) == {} && forall r: nat | r <= 180 :: r in Busy(R)
  {
  }

  /** 180 moves of distinct registers, started as db_cmpl starts: once the ring is wrapped, the pending moves
      are emitted in order, so whatever the registers hold, register 157 does not get the initial value of
      register 67 but a constant. */
  method WrappedRingClobbers() returns (code: seq<Instr>)
    ensures DistinctTargets(Overlapping(0)) && 157 in WantedOf(Overlapping(0))
            && WantedOf(Overlapping(0))[157] == FromReg(67)
    ensures forall s0: State | !s0.failed :: Run(s0, code).regs[157] == CCon(66)
  {
    OverlappingTargets();
    hide Overlapping, InOrder, Temps, Busy;
    var queue := QueueOverlapping();
    var R := new RegStat(180);
    RegistersBusy(R);
    var none := DelayConstants(queue, R);
    code := EmitInOrder(queue, R);
    code := none + code;
    assert code == InOrder(180);
    forall s0: State | !s0.failed ensures Run(s0, code).regs[157] == CCon(66) {
      InOrderRun(s0, 180);
    }
  }
}
