/** Runs of the move loop on values: what each turn does, how many registers are needed, and when a move is lost. */
module MoveRun {
  import opened Sequences
  import opened CompilerState
  import opened Machine
  import opened MoveSpec

  ghost predicate AllOnTrack(code: seq<Instr>, want: Wanted, q: seq<Entry>) {
    forall s0: State {:trigger Run(s0, code)} | !s0.failed :: OnTrack(s0, Run(s0, code), want, q)
  }

  /** The instruction that loads a target from a source. */
  function Emitted(e: Entry): Instr {
    match e.source
    case FromReg(r) => MovReg(r, e.target)
    case AConstant(c) => PutCon(e.target, c)
    case ANumber(n) => PutNumCon(e.target, n)
    case ANil => PutNil(e.target)
    case ANewVar => PutTVar(e.target, e.target)
  }

  lemma EmitOnTrack(code: seq<Instr>, want: Wanted, e: Entry, rest: seq<Entry>)
    requires AllOnTrack(code, want, [e] + rest) && e.target !in Sources(rest)
    ensures AllOnTrack(code + [Emitted(e)], want, rest)
  {
    forall s0: State | !s0.failed ensures OnTrack(s0, Run(s0, code + [Emitted(e)]), want, rest) {
      var s := Run(s0, code);
      RunSnoc(s0, code, Emitted(e));
      assert OnTrack(s0, s, want, [e] + rest);
      assert e in [e] + rest;
      WriteTarget(s0, s, Step(s, Emitted(e)), want, e, rest);
    }
  }

  lemma SkipOnTrack(code: seq<Instr>, want: Wanted, e: Entry, rest: seq<Entry>)
    requires AllOnTrack(code, want, [e] + rest) && e.source == FromReg(e.target)
    ensures AllOnTrack(code, want, rest)
  {
    forall s0: State | !s0.failed ensures OnTrack(s0, Run(s0, code), want, rest) {
      NothingToMove(s0, Run(s0, code), want, e, rest);
    }
  }

  lemma DelayOnTrack(code: seq<Instr>, want: Wanted, e: Entry, rest: seq<Entry>, busy: set<nat>, temps: set<nat>)
    requires AllOnTrack(code, want, [e] + rest) && Separate(want, [e] + rest, busy, temps)
    requires MAX_REGS !in busy + temps
    ensures AllOnTrack(code, want, rest + [e])
  {
    forall s0: State | !s0.failed ensures OnTrack(s0, Run(s0, code), want, rest + [e]) {
      var s := Run(s0, code);
      Requeue(s0, s, s, want, e, rest, e, busy, temps, MAX_REGS);
    }
  }

  lemma SaveOnTrack(code: seq<Instr>, want: Wanted, e: Entry, rest: seq<Entry>, busy: set<nat>, temps: set<nat>,
                    r0: Reg)
    requires AllOnTrack(code, want, [e] + rest) && Separate(want, [e] + rest, busy, temps)
    requires e.source.FromReg? && r0 !in busy + temps
    ensures AllOnTrack(code + [MovReg(e.source.reg, r0)], want, rest + [Entry(FromReg(r0), e.target)])
  {
    var i, e' := MovReg(e.source.reg, r0), Entry(FromReg(r0), e.target);
    forall s0: State | !s0.failed ensures OnTrack(s0, Run(s0, code + [i]), want, rest + [e']) {
      var s := Run(s0, code);
      RunSnoc(s0, code, i);
      assert OnTrack(s0, s, want, [e] + rest);
      Requeue(s0, s, Step(s, i), want, e, rest, e', busy, temps, r0);
    }
  }

  // ------------------------------------------------------------------
  // One turn of the loop.

  datatype Turn = Drop | Emit | Delay | Save

  /** What is done with a move, by what the scans of the other ones see; they see nothing in a wrapped ring. */
  function TurnFor(e: Entry, rest: seq<Entry>, straight: bool): Turn {
    if e.source == FromReg(e.target) then Drop
    else if !straight || e.target !in Sources(rest) then Emit
    else if !e.source.FromReg? || e.source.reg !in Targets(rest) then Delay
    else Save
  }

  /** A move is dropped if it moves a register to itself. Otherwise, if the ring is straight and a pending
      move reads its target, its source is saved if that is the target of a pending move, and the move delayed
      if not; else it is made. */
  ghost predicate TurnIs(turn: Turn, e: Entry, rest: seq<Entry>, straight: bool) {
    var blocked := e.source != FromReg(e.target) && straight && exists x :: x in rest && x.source == FromReg(e.target);
    var needed := e.source.FromReg? && exists x :: x in rest && x.target == e.source.reg;
    && (turn == Drop <==> e.source == FromReg(e.target))
    && (turn == Emit <==> e.source != FromReg(e.target) && !blocked)
    && (turn == Delay <==> blocked && !needed) && (turn == Save <==> blocked && needed)
  }

  lemma TurnMeans(e: Entry, rest: seq<Entry>, straight: bool)
    ensures TurnIs(TurnFor(e, rest, straight), e, rest, straight)
  {
  }

  function TurnCode(turn: Turn, e: Entry, r0: Reg): seq<Instr>
    requires turn.Save? ==> e.source.FromReg?
  {
    match turn
    case Emit => [Emitted(e)]
    case Save => [MovReg(e.source.reg, r0)]
    case _ => []
  }

  /** What goes to the end of the queue. */
  function TurnBack(turn: Turn, e: Entry, r0: Reg): seq<Entry> {
    match turn
    case Delay => [e]
    case Save => [Entry(FromReg(r0), e.target)]
    case _ => []
  }

  function TurnTemps(turn: Turn, e: Entry, r0: Reg, temps: set<nat>): set<nat> {
    var released := if (turn.Emit? || turn.Save?) && e.source.FromReg? then {e.source.reg} else {};
    (if turn.Save? then temps + {r0} else temps) - released
  }

  lemma TurnParts(turn: Turn, e: Entry, r0: Reg, temps: set<nat>, code: seq<Instr>, rest: seq<Entry>)
    requires turn.Save? ==> e.source.FromReg?
    ensures turn.Drop? || turn.Delay? ==> TurnTemps(turn, e, r0, temps) == temps && code + TurnCode(turn, e, r0) == code
    ensures turn.Drop? || turn.Emit? ==> rest + TurnBack(turn, e, r0) == rest
    ensures turn.Emit? ==> TurnCode(turn, e, r0) == [Emitted(e)]
    ensures turn.Emit? ==> TurnTemps(turn, e, r0, temps) == if e.source.FromReg? then temps - {e.source.reg} else temps
    ensures turn.Delay? ==> TurnBack(turn, e, r0) == [e]
    ensures turn.Save? ==> TurnTemps(turn, e, r0, temps) == temps + {r0} - {e.source.reg}
    ensures turn.Save? ==>
            TurnCode(turn, e, r0) == [MovReg(e.source.reg, r0)]
            && TurnBack(turn, e, r0) == [Entry(FromReg(r0), e.target)]
  {
  }

  function Less(k: nat): nat {
    if k > 0 then k - 1 else 0
  }

  /** The pending move still is the one wanted, or its source was saved in a temporary. */
  ghost predicate Origin(want: Wanted, e: Entry, temps: set<nat>) {
    && e.target in want
    && (e.source == want[e.target] || (want[e.target].FromReg? && want[e.target] != FromReg(e.target)
        && e.source.FromReg? && e.source.reg in temps))
  }

  /** The pending moves; the first k of them have not been put off yet. */
  ghost predicate Pending(want: Wanted, q: seq<Entry>, k: nat, busy: set<nat>, temps: set<nat>) {
    && DistinctTargets(q) && Separate(want, q, busy, temps) && k <= |q| && Late(q, k)
    && forall e | e in q :: Origin(want, e, temps)
  }

  lemma PendingStart(q: seq<Entry>, busy: set<nat>, temps: set<nat>)
    requires DistinctTargets(q) && Targets(q) <= busy && Sources(q) <= busy && busy !! temps
    ensures Pending(WantedOf(q), q, |q|, busy, temps) && AllOnTrack([], WantedOf(q), q)
  {
    var want := WantedOf(q);
    forall i, j | 0 <= i < j < |q| && q[i].source.FromReg? && q[i].source == q[j].source
      ensures q[i].source.reg !in temps
    {
      assert q[i] in q && q[i].source.reg in Sources(q);
    }
    assert want.Keys == Targets(q);
    forall s0: State | !s0.failed ensures OnTrack(s0, Run(s0, []), want, q) {
    }
  }

  lemma SourcesInUse(want: Wanted, q: seq<Entry>, busy: set<nat>, temps: set<nat>)
    requires Separate(want, q, busy, temps)
    ensures Sources(q) <= busy + temps && Targets(q) <= want.Keys <= busy && busy !! temps
  {
  }

  lemma PendingFirst(want: Wanted, e: Entry, rest: seq<Entry>, k: nat, busy: set<nat>, temps: set<nat>)
    requires Pending(want, [e] + rest, k, busy, temps)
    ensures e.target in busy && busy !! temps && (e.source.FromReg? ==> e.source.reg in busy + temps)
    ensures DistinctTargets([e] + rest) && Separate(want, [e] + rest, busy, temps) && e.target in want
            && Targets(rest) <= busy
    ensures k == 0 ==> e.target !in Sources(rest)
    ensures want.Keys <= busy
  {
    FirstOut(e, rest);
    assert e in [e] + rest;
    LateOut(e, rest, k);
  }

  lemma SeparateAgain(want: Wanted, e: Entry, rest: seq<Entry>, busy: set<nat>, temps: set<nat>)
    requires Separate(want, [e] + rest, busy, temps)
    ensures Separate(want, rest + [e], busy, temps)
  {
    var q, q' := [e] + rest, rest + [e];
    FirstOut(e, rest);
    LastIn(rest, e);
    forall i, j | 0 <= i < j < |q'| && q'[i].source.FromReg? && q'[i].source == q'[j].source
        ensures q'[i].source.reg !in temps
    {
      if j == |rest| {
        assert q[0].source == q[i + 1].source;
      } else {
        assert q[i + 1].source == q[j + 1].source;
      }
    }
  }

  lemma SeparateMore(want: Wanted, q: seq<Entry>, busy: set<nat>, temps: set<nat>, r0: nat)
    requires Separate(want, q, busy, temps) && r0 !in busy + temps
    ensures Separate(want, q, busy, temps + {r0})
  {
    forall i, j | 0 <= i < j < |q| && q[i].source.FromReg? && q[i].source == q[j].source
        ensures q[i].source.reg !in temps + {r0}
    {
      assert q[i] in q && q[i].source.reg in Sources(q);
    }
  }

  lemma OriginMore(want: Wanted, q: seq<Entry>, temps: set<nat>, temps': set<nat>)
    requires forall e | e in q :: Origin(want, e, temps)
    requires forall e | e in q && e.source.FromReg? && e.source.reg in temps :: e.source.reg in temps'
    ensures forall e | e in q :: Origin(want, e, temps')
  {
  }

  /** A turn leaves the other moves pending; in the second pass nothing is put off. */
  lemma PendingTurn(want: Wanted, e: Entry, rest: seq<Entry>, k: nat, busy: set<nat>, temps: set<nat>, straight: bool,
                    r0: Reg)
    requires Pending(want, [e] + rest, k, busy, temps)
    requires TurnFor(e, rest, straight).Save? ==> r0 !in busy + temps
    ensures var turn := TurnFor(e, rest, straight);
            && (k == 0 ==> turn.Drop? || turn.Emit?)
            && Pending(want, rest + TurnBack(turn, e, r0), Less(k), busy, TurnTemps(turn, e, r0, temps))
  {
    PendingFirst(want, e, rest, k, busy, temps);
    FirstOut(e, rest);
    match TurnFor(e, rest, straight)
    case Drop => PendingOut(want, e, rest, k, busy, temps);
    case Emit => PendingOut(want, e, rest, k, busy, temps);
    case Delay => PendingDelay(want, e, rest, k, busy, temps);
    case Save => PendingSave(want, e, rest, k, busy, temps, r0);
  }

  lemma PendingOut(want: Wanted, e: Entry, rest: seq<Entry>, k: nat, busy: set<nat>, temps: set<nat>)
    requires Pending(want, [e] + rest, k, busy, temps)
    ensures Pending(want, rest, Less(k), busy, if e.source.FromReg? then temps - {e.source.reg} else temps)
    ensures e.source == FromReg(e.target) ==> Pending(want, rest, Less(k), busy, temps)
    ensures rest + [] == rest
  {
    var temps' := if e.source.FromReg? then temps - {e.source.reg} else temps;
    PendingFirst(want, e, rest, k, busy, temps);
    FirstOut(e, rest);
    LateOut(e, rest, k);
    SeparateOut(want, e, rest, busy, temps);
    assert forall x | x in rest :: x in [e] + rest;
    assert forall x | x in rest && x.source.FromReg? :: x.source.reg in Sources(rest);
    hide Late, Separate, DistinctTargets;
    OriginMore(want, rest, temps, temps');
    assert e.source == FromReg(e.target) ==> temps' == temps;
  }

  lemma PendingDelay(want: Wanted, e: Entry, rest: seq<Entry>, k: nat, busy: set<nat>, temps: set<nat>)
    requires Pending(want, [e] + rest, k, busy, temps) && k > 0 && e.source != FromReg(e.target)
    requires e.source.FromReg? ==> e.source.reg !in Targets(rest)
    ensures Pending(want, rest + [e], k - 1, busy, temps)
  {
    FirstOut(e, rest);
    LastIn(rest, e);
    LateAgain(e, rest, e, k);
    SeparateAgain(want, e, rest, busy, temps);
    assert forall x | x in rest + [e] :: x in [e] + rest;
  }

  lemma PendingSave(want: Wanted, e: Entry, rest: seq<Entry>, k: nat, busy: set<nat>, temps: set<nat>, r0: Reg)
    requires Pending(want, [e] + rest, k, busy, temps) && k > 0 && e.source != FromReg(e.target)
    requires e.source.FromReg? && e.source.reg in Targets(rest) && r0 !in busy + temps
    ensures Pending(want, rest + [Entry(FromReg(r0), e.target)], k - 1, busy, temps + {r0} - {e.source.reg})
    ensures temps + {r0} - {e.source.reg} == temps + {r0}
  {
    var e' := Entry(FromReg(r0), e.target);
    PendingFirst(want, e, rest, k, busy, temps);
    assert temps + {r0} - {e.source.reg} == temps + {r0};
    FirstOut(e, rest);
    LastIn(rest, e');
    LateAgain(e, rest, e', k);
    SeparateOut(want, e, rest, busy, temps);
    assert temps - {e.source.reg} == temps;
    SeparateMore(want, rest, busy, temps, r0);
    SourcesInUse(want, rest, busy, temps);
    SeparateIn(want, rest, e', busy, temps + {r0});
    assert Origin(want, e, temps) && Origin(want, e', temps + {r0}) by {
      assert e in [e] + rest;
    }
    assert forall x | x in rest :: x in [e] + rest;
    OriginMore(want, rest, temps, temps + {r0});
  }

  /** The register that is written is still the source of a pending move. */
  predicate Clobbers(turn: Turn, e: Entry, rest: seq<Entry>) {
    turn.Emit? && e.target in Sources(rest)
  }

  /** A turn that overwrites no pending source keeps every move right. */
  lemma OnTrackTurn(code: seq<Instr>, want: Wanted, e: Entry, rest: seq<Entry>, busy: set<nat>, temps: set<nat>,
                    straight: bool, r0: Reg)
    requires AllOnTrack(code, want, [e] + rest) && Separate(want, [e] + rest, busy, temps) && MAX_REGS !in busy + temps
    requires TurnFor(e, rest, straight).Save? ==> r0 !in busy + temps
    requires !Clobbers(TurnFor(e, rest, straight), e, rest)
    ensures var turn := TurnFor(e, rest, straight);
            AllOnTrack(code + TurnCode(turn, e, r0), want, rest + TurnBack(turn, e, r0))
  {
    hide AllOnTrack, Separate;
    assert code + [] == code && rest + [] == rest;
    match TurnFor(e, rest, straight)
    case Drop => SkipOnTrack(code, want, e, rest);
    case Emit => EmitOnTrack(code, want, e, rest);
    case Delay => DelayOnTrack(code, want, e, rest, busy, temps);
    case Save => SaveOnTrack(code, want, e, rest, busy, temps, r0);
  }

  // ------------------------------------------------------------------
  // How many registers are needed, and whether a move is lost.

  function PutOff(turn: Turn, e: Entry): seq<Entry> {
    if turn.Delay? then [e] else if turn.Save? then [Entry(ANil, e.target)] else []
  }

  /** The end of the ring after a turn. */
  function After(turn: Turn, top: nat): (r: nat)
    requires top < INST_QUEUE_SIZE
    ensures r < INST_QUEUE_SIZE
  {
    if turn.Delay? || turn.Save? then Next(top) else top
  }

  /** What is done first with the moves todo, later having been put off, in a ring from bottom to top. */
  function FirstTurn(todo: seq<Entry>, later: seq<Entry>, bottom: nat, top: nat): Turn
    requires todo != [] && bottom < INST_QUEUE_SIZE
  {
    TurnFor(todo[0], todo[1..] + later, Next(bottom) <= top)
  }

  /** The saves of the first pass over the moves: todo are still to be looked at, later were put off; a saved move reads
      none of their registers. */
  function Saves(todo: seq<Entry>, later: seq<Entry>, bottom: nat, top: nat): nat
    requires bottom < INST_QUEUE_SIZE && top < INST_QUEUE_SIZE
    decreases |todo|
  {
    if todo == [] then 0
    else
      var turn := FirstTurn(todo, later, bottom, top);
      (if turn.Save? then 1 else 0) + Saves(todo[1..], later + PutOff(turn, todo[0]), Next(bottom), After(turn, top))
  }

  /** In the first pass a register is written that a pending move still reads. */
  function Lost(todo: seq<Entry>, later: seq<Entry>, bottom: nat, top: nat): bool
    requires bottom < INST_QUEUE_SIZE && top < INST_QUEUE_SIZE
    decreases |todo|
  {
    todo != [] &&
    var turn := FirstTurn(todo, later, bottom, top);
    || Clobbers(turn, todo[0], todo[1..] + later)
    || Lost(todo[1..], later + PutOff(turn, todo[0]), Next(bottom), After(turn, top))
  }

  /** Without an overlap nothing is saved or lost, even in a wrapped ring. */
  lemma {:induction false} NoOverlap(todo: seq<Entry>, later: seq<Entry>, bottom: nat, top: nat)
    requires bottom < INST_QUEUE_SIZE && top < INST_QUEUE_SIZE && Sources(todo + later) !! Targets(todo + later)
    ensures Saves(todo, later, bottom, top) == 0 && !Lost(todo, later, bottom, top)
    decreases |todo|
  {
    if todo != [] {
      assert todo + later == [todo[0]] + (todo[1..] + later);
      FirstOut(todo[0], todo[1..] + later);
      assert later + [] == later;
      NoOverlap(todo[1..], later, Next(bottom), top);
    }
  }

  /** With room for every move that can be put off, the ring stays straight: nothing is lost, and at most one register
      is needed for every move whose target some move reads. */
  lemma {:induction false} RoomForAll(todo: seq<Entry>, later: seq<Entry>, bottom: nat, top: nat, sources: set<Reg>)
    requires Sources(todo + later) <= sources && bottom <= top && top - bottom == |todo| + |later|
    requires top + Blocking(todo, sources) < INST_QUEUE_SIZE
    ensures !Lost(todo, later, bottom, top) && Saves(todo, later, bottom, top) <= Blocking(todo, sources)
    decreases |todo|
  {
    if todo != [] {
      var e, rest := todo[0], todo[1..] + later;
      assert todo + later == [e] + rest;
      var turn, more := FirstTurn(todo, later, bottom, top), PutOff(FirstTurn(todo, later, bottom, top), e);
      RoomTurn(e, rest, bottom, top, sources);
      assert todo[1..] + (later + more) == rest + more;
      hide TurnFor, Sources, MayBlock, Clobbers, PutOff, After, Next;
      RoomForAll(todo[1..], later + more, Next(bottom), After(turn, top), sources);
    }
  }

  lemma RoomTurn(e: Entry, rest: seq<Entry>, bottom: nat, top: nat, sources: set<Reg>)
    requires Sources([e] + rest) <= sources && bottom < top < INST_QUEUE_SIZE
    ensures var turn := TurnFor(e, rest, Next(bottom) <= top);
            && Next(bottom) == bottom + 1 && !Clobbers(turn, e, rest) && Sources(rest + PutOff(turn, e)) <= sources
            && (turn.Delay? || turn.Save? ==> MayBlock(e, sources))
            && |PutOff(turn, e)| == (if turn.Delay? || turn.Save? then 1 else 0)
            && (top < 255 ==> After(turn, top) == top + |PutOff(turn, e)|)
            && (turn.Drop? || turn.Emit? ==> After(turn, top) == top)
  {
    FirstOut(e, rest);
    var more := PutOff(TurnFor(e, rest, Next(bottom) <= top), e);
    assert rest + [] == rest;
    if more != [] {
      LastIn(rest, more[0]);
    }
  }

  /** later are the moves of q from position k on; where a temporary register was saved to, it is left out. */
  ghost predicate Stands(later: seq<Entry>, q: seq<Entry>, k: nat, temps: set<nat>) {
    && k <= |q| && |later| == |q| - k
    && forall i: nat | i < |later| :: StandsFor(later[i], q[k + i], temps)
  }

  ghost predicate StandsFor(x: Entry, y: Entry, temps: set<nat>) {
    x.target == y.target && (x.source == y.source || (x.source == ANil && y.source.FromReg? && y.source.reg in temps))
  }

  lemma StandsScans(later: seq<Entry>, q: seq<Entry>, k: nat, temps: set<nat>)
    requires Stands(later, q, k, temps)
    ensures Targets(q[..k] + later) == Targets(q)
    ensures Sources(q[..k] + later) <= Sources(q) <= Sources(q[..k] + later) + temps
  {
    var p := q[..k] + later;
    forall i: nat | i < |q| ensures StandsFor(p[i], q[i], temps) {
      if i >= k {
        assert StandsFor(later[i - k], q[k + (i - k)], temps);
      }
    }
    forall x | x in p ensures exists y :: y in q && StandsFor(x, y, temps) {
      var i :| 0 <= i < |p| && p[i] == x;
      assert q[i] in q && StandsFor(x, q[i], temps);
    }
    forall y | y in q ensures exists x :: x in p && StandsFor(x, y, temps) {
      var i :| 0 <= i < |q| && q[i] == y;
      assert p[i] in p && StandsFor(p[i], y, temps);
    }
  }

  /** The scans see the same in the stand-ins. */
  lemma StandsTurn(later: seq<Entry>, e: Entry, rest: seq<Entry>, k: nat, busy: set<nat>, temps: set<nat>,
                   straight: bool)
    requires Stands(later, [e] + rest, k, temps) && k > 0 && e.target in busy && busy !! temps
    ensures Stands(later, rest, k - 1, temps)
    ensures var turn := TurnFor(e, rest, straight);
            && TurnFor(e, rest[..k - 1] + later, straight) == turn
            && Clobbers(turn, e, rest[..k - 1] + later) == Clobbers(turn, e, rest)
  {
    forall i: nat | i < |later| ensures StandsFor(later[i], rest[k - 1 + i], temps) {
      assert StandsFor(later[i], ([e] + rest)[k + i], temps);
    }
    StandsScans(later, rest, k - 1, temps);
  }

  lemma StandsMore(later: seq<Entry>, rest: seq<Entry>, k: nat, e: Entry, turn: Turn, r0: Reg, temps: set<nat>,
                   temps': set<nat>)
    requires Stands(later, rest, k, temps) && temps <= temps' && (turn.Save? ==> r0 in temps')
    ensures Stands(later + PutOff(turn, e), rest + TurnBack(turn, e, r0), k, temps')
  {
    var later', q := later + PutOff(turn, e), rest + TurnBack(turn, e, r0);
    forall i: nat | i < |later'| ensures StandsFor(later'[i], q[k + i], temps') {
      if i < |later| {
        assert StandsFor(later[i], rest[k + i], temps);
      }
    }
  }

  /** Seen from the start: enough tells whether the free registers suffice, lost whether a move is lost; gone whether
      one has been lost already. */
  ghost predicate Outlook(enough: bool, lost: bool, gone: bool, q: seq<Entry>, k: nat, later: seq<Entry>, bottom: nat,
                          top: nat, free: nat, busy: set<nat>, temps: set<nat>)
  {
    && bottom < INST_QUEUE_SIZE && top < INST_QUEUE_SIZE
    && if k == 0 then enough && lost == gone
       else
         && Stands(later, q, k, temps) && Sources(q[..k]) <= busy
         && Foreseen(enough, lost, gone, q[..k], later, bottom, top, free)
  }

  ghost predicate Foreseen(enough: bool, lost: bool, gone: bool, todo: seq<Entry>, later: seq<Entry>, bottom: nat,
                           top: nat, free: nat)
    requires bottom < INST_QUEUE_SIZE && top < INST_QUEUE_SIZE
  {
    && (enough <==> Saves(todo, later, bottom, top) <= free)
    && (lost <==> gone || Lost(todo, later, bottom, top))
  }

  lemma OutlookStart(q: seq<Entry>, bottom: nat, top: nat, free: nat, busy: set<nat>, temps: set<nat>)
    requires Sources(q) <= busy && bottom < INST_QUEUE_SIZE && top < INST_QUEUE_SIZE
    ensures Outlook(Saves(q, [], bottom, top) <= free, Lost(q, [], bottom, top), false, q, |q|, [], bottom, top, free,
            busy, temps)
  {
    assert q[..|q|] == q;
  }

  lemma ForeseenStep(enough: bool, lost: bool, gone: bool, e: Entry, todo: seq<Entry>, later: seq<Entry>, bottom: nat,
                     top: nat, free: nat, free': nat)
    requires bottom < INST_QUEUE_SIZE && top < INST_QUEUE_SIZE
    requires Foreseen(enough, lost, gone, [e] + todo, later, bottom, top, free)
    ensures var turn := TurnFor(e, todo + later, Next(bottom) <= top);
            if turn.Save? && free == 0 then !enough
            else free' == (if turn.Save? then free - 1 else free) ==>
                   Foreseen(enough, lost, gone || Clobbers(turn, e, todo + later), todo, later + PutOff(turn, e),
                       Next(bottom),
                            After(turn, top), free')
  {
    assert ([e] + todo)[0] == e && ([e] + todo)[1..] == todo;
    hide TurnFor, Clobbers, PutOff, After, Next, Sources;
  }

  lemma ForeseenEnd(enough: bool, lost: bool, gone: bool, later: seq<Entry>, bottom: nat, top: nat, free: nat)
    requires bottom < INST_QUEUE_SIZE && top < INST_QUEUE_SIZE
             && Foreseen(enough, lost, gone, [], later, bottom, top, free)
    ensures enough && lost == gone
  {
  }

  lemma TurnFromBusy(e: Entry, rest: seq<Entry>, r0: Reg, busy: set<nat>, temps: set<nat>, straight: bool)
    requires (e.source.FromReg? ==> e.source.reg in busy) && busy !! temps
    ensures var turn := TurnFor(e, rest, straight);
            (turn.Save? ==> r0 !in busy) ==> TurnTemps(turn, e, r0, temps) == if turn.Save? then temps + {r0} else temps
  {
  }

  lemma OutlookTurn(enough: bool, lost: bool, gone: bool, e: Entry, rest: seq<Entry>, k: nat, later: seq<Entry>,
                    bottom: nat, top: nat, free: nat, free': nat, busy: set<nat>, temps: set<nat>, r0: Reg)
    requires Outlook(enough, lost, gone, [e] + rest, k, later, bottom, top, free, busy, temps) && k <= |rest| + 1
    requires e.target in busy && busy !! temps && (k == 0 ==> e.target !in Sources(rest))
    requires var turn := TurnFor(e, rest, Next(bottom) <= top);
             && (turn.Save? && free > 0 ==> r0 !in busy + temps)
             && (!turn.Save? || free > 0 ==> free' + |TurnTemps(turn, e, r0, temps)| == free + |temps|)
    ensures var turn := TurnFor(e, rest, Next(bottom) <= top);
            if turn.Save? && free == 0 then !enough
            else Outlook(enough, lost, gone || Clobbers(turn, e, rest), rest + TurnBack(turn, e, r0), Less(k),
                         later + PutOff(turn, e), Next(bottom), After(turn, top), free', busy,
                             TurnTemps(turn, e, r0, temps))
  {
    var turn := TurnFor(e, rest, Next(bottom) <= top);
    if k > 0 {
      hide TurnFor, Stands, Sources, Foreseen, TurnTemps, Clobbers, Next, After, PutOff, TurnBack;
      StandsTurn(later, e, rest, k, busy, temps, Next(bottom) <= top);
      FirstOut(e, rest[..k - 1]);
      assert ([e] + rest)[..k] == [e] + rest[..k - 1];
      ForeseenStep(enough, lost, gone, e, rest[..k - 1], later, bottom, top, free, free');
      TurnFromBusy(e, rest, r0, busy, temps, Next(bottom) <= top);
      if !turn.Save? || free > 0 {
        OutlookNext(enough, lost, gone || Clobbers(turn, e, rest), e, rest, k, later, turn, Next(bottom),
            After(turn, top),
                    free', busy, temps, TurnTemps(turn, e, r0, temps), r0);
      }
    }
  }

  lemma OutlookNext(enough: bool, lost: bool, gone: bool, e: Entry, rest: seq<Entry>, k: nat, later: seq<Entry>,
                    turn: Turn, bottom: nat, top: nat, free: nat, busy: set<nat>, temps: set<nat>, temps': set<nat>,
                    r0: Reg)
    requires 0 < k <= |rest| + 1 && bottom < INST_QUEUE_SIZE && top < INST_QUEUE_SIZE
    requires Stands(later, rest, k - 1, temps) && Sources(rest[..k - 1]) <= busy
    requires temps' == if turn.Save? then temps + {r0} else temps
    requires Foreseen(enough, lost, gone, rest[..k - 1], later + PutOff(turn, e), bottom, top, free)
    ensures Outlook(enough, lost, gone, rest + TurnBack(turn, e, r0), k - 1, later + PutOff(turn, e), bottom, top, free,
            busy, temps')
  {
    hide Stands, Sources, Foreseen;
    StandsMore(later, rest, k - 1, e, turn, r0, temps, temps');
    assert (rest + TurnBack(turn, e, r0))[..k - 1] == rest[..k - 1];
    if k == 1 {
      ForeseenEnd(enough, lost, gone, later + PutOff(turn, e), bottom, top, free);
    }
  }

  // ------------------------------------------------------------------
  // A lost move stays lost.

  /** A start in which all registers differ. */
  function Telling(): State {
    State(seq(MAX_REGS, r requires 0 <= r < MAX_REGS => CFunctor(r, 0)), [], false)
  }

  /** The register bad does not get its value: its pending move reads a wrong value, or it is wrong already. */
  ghost predicate Spoiled(s: State, want: Wanted, q: seq<Entry>, bad: Reg) {
    && !s.failed && bad in want && want[bad].FromReg?
    && if bad in Targets(q) then forall x | x in q && x.target == bad :: WrongSource(s, want[bad].reg, x.source, q)
       else s.regs[bad] != CFunctor(want[bad].reg, 0)
  }

  /** The source of a pending move holds something else, and will not be written any more. */
  ghost predicate WrongSource(s: State, wanted: Reg, source: Source, q: seq<Entry>) {
    source.FromReg? && source.reg !in Targets(q) && s.regs[source.reg] != CFunctor(wanted, 0)
  }

  /** The value a move writes is not that of the register it writes to. */
  lemma WrittenDiffers(s: State, want: Wanted, e: Entry, rest: seq<Entry>, temps: set<nat>)
    requires OnTrack(Telling(), s, want, [e] + rest) && Origin(want, e, temps) && e.source != FromReg(e.target)
    ensures Step(s, Emitted(e)).regs[e.target] != CFunctor(e.target, 0) && !Step(s, Emitted(e)).failed
  {
    assert e in [e] + rest;
    assert Denotes(Telling(), s, want[e.target], e.source);
  }

  /** Writing a register that a pending move reads spoils that move. */
  lemma ClobberSpoils(code: seq<Instr>, want: Wanted, e: Entry, rest: seq<Entry>, k: nat, busy: set<nat>,
                      temps: set<nat>)
    returns (bad: Reg)
    requires Pending(want, [e] + rest, k, busy, temps) && AllOnTrack(code, want, [e] + rest)
    requires e.target in Sources(rest) && e.source != FromReg(e.target)
    ensures Spoiled(Run(Telling(), code + [Emitted(e)]), want, rest, bad)
  {
    var s := Run(Telling(), code);
    RunSnoc(Telling(), code, Emitted(e));
    assert OnTrack(Telling(), s, want, [e] + rest);
    PendingFirst(want, e, rest, k, busy, temps);
    FirstOut(e, rest);
    assert e in [e] + rest && forall x | x in rest :: x in [e] + rest;
    WrittenDiffers(s, want, e, rest, temps);
    var x :| x in rest && x.source.FromReg? && x.source.reg == e.target;
    bad := x.target;
    assert Origin(want, x, temps) && x.source == want[bad];
    forall y | y in rest && y.target == bad ensures y == x {
      OneTarget(rest, x, y);
    }
  }

  lemma OneTarget(q: seq<Entry>, x: Entry, y: Entry)
    requires DistinctTargets(q) && x in q && y in q && x.target == y.target
    ensures x == y
  {
    var i :| 0 <= i < |q| && q[i] == x;
    var j :| 0 <= j < |q| && q[j] == y;
  }

  /** No turn repairs it. */
  lemma SpoiledTurn(code: seq<Instr>, want: Wanted, e: Entry, rest: seq<Entry>, k: nat, busy: set<nat>, temps: set<nat>,
                    straight: bool, r0: Reg, bad: Reg)
    requires Pending(want, [e] + rest, k, busy, temps) && Spoiled(Run(Telling(), code), want, [e] + rest, bad)
    requires TurnFor(e, rest, straight).Save? ==> r0 !in busy + temps
    ensures var turn := TurnFor(e, rest, straight);
            Spoiled(Run(Telling(), code + TurnCode(turn, e, r0)), want, rest + TurnBack(turn, e, r0), bad)
  {
    var turn, s := TurnFor(e, rest, straight), Run(Telling(), code);
    PendingFirst(want, e, rest, k, busy, temps);
    SpoiledRuns(s, want, [e] + rest, bad);
    hide Pending, Spoiled, Separate, Sources, Targets, DistinctTargets;
    assert rest + [] == rest && code + [] == code;
    match turn
    case Drop => SpoiledRest(s, s, want, e, rest, bad);
    case Emit =>
      RunSnoc(Telling(), code, Emitted(e));
      SpoiledRest(s, Step(s, Emitted(e)), want, e, rest, bad);
    case Delay =>
      SpoiledDelay(s, want, e, rest, bad);
    case Save =>
      RunSnoc(Telling(), code, MovReg(e.source.reg, r0));
      SourcesInUse(want, [e] + rest, busy, temps);
      SpoiledSaved(s, Step(s, MovReg(e.source.reg, r0)), want, e, rest, r0, bad, busy, temps);
  }

  lemma SpoiledRuns(s: State, want: Wanted, q: seq<Entry>, bad: Reg)
    requires Spoiled(s, want, q, bad)
    ensures !s.failed
  {
  }

  lemma SpoiledDelay(s: State, want: Wanted, e: Entry, rest: seq<Entry>, bad: Reg)
    requires Spoiled(s, want, [e] + rest, bad)
    ensures Spoiled(s, want, rest + [e], bad)
  {
    FirstOut(e, rest);
    LastIn(rest, e);
    assert forall x | x in rest + [e] :: x in [e] + rest;
  }

  lemma SpoiledRest(s: State, s': State, want: Wanted, e: Entry, rest: seq<Entry>, bad: Reg)
    requires Spoiled(s, want, [e] + rest, bad) && DistinctTargets([e] + rest) && !s'.failed
    requires s' == Step(s, Emitted(e)) || (s' == s && e.source == FromReg(e.target))
    ensures Spoiled(s', want, rest, bad)
  {
    FirstOut(e, rest);
    assert e in [e] + rest && forall x | x in rest :: x in [e] + rest;
    if bad == e.target {
      assert WrongSource(s, want[bad].reg, e.source, [e] + rest);
    } else if bad in Targets(rest) {
      forall x | x in rest && x.target == bad ensures WrongSource(s', want[bad].reg, x.source, rest) {
        assert WrongSource(s, want[bad].reg, x.source, [e] + rest);
      }
    }
  }

  lemma SpoiledSaved(s: State, s': State, want: Wanted, e: Entry, rest: seq<Entry>, r0: Reg, bad: Reg, busy: set<nat>,
                     temps: set<nat>)
    requires Spoiled(s, want, [e] + rest, bad) && DistinctTargets([e] + rest) && e.source.FromReg?
    requires s' == Step(s, MovReg(e.source.reg, r0)) && r0 !in busy + temps
    requires Sources([e] + rest) <= busy + temps && Targets([e] + rest) <= want.Keys <= busy
    ensures Spoiled(s', want, rest + [Entry(FromReg(r0), e.target)], bad)
  {
    var e' := Entry(FromReg(r0), e.target);
    var q' := rest + [e'];
    FirstOut(e, rest);
    LastIn(rest, e');
    assert Targets(q') == Targets([e] + rest);
    assert e in [e] + rest && forall x | x in rest :: x in [e] + rest;
    if bad in Targets(q') {
      forall x | x in q' && x.target == bad ensures WrongSource(s', want[bad].reg, x.source, q') {
        if x in rest {
          assert x.source.FromReg? ==> x.source.reg in Sources([e] + rest);
        } else {
          assert WrongSource(s, want[bad].reg, e.source, [e] + rest);
        }
      }
    }
  }

  lemma SpoiledEnd(code: seq<Instr>, want: Wanted, bad: Reg)
    requires Spoiled(Run(Telling(), code), want, [], bad)
    ensures !AllOnTrack(code, want, [])
  {
    assert !OnTrack(Telling(), Run(Telling(), code), want, []);
  }
}
