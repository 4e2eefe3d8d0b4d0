/** The trail stack with choice points, freeze registers, cuts, and the switch to a frozen environment. */
module Trail {
  import opened Sequences
  import opened TrailSpec
  import opened TrailEnv
  import opened TrailSwitch

  function Max(a: nat, b: nat): nat {
    if a < b then b else a
  }

  class TrailStack {
    const bottom: nat
    var mem: Mem
    var cells: Cells
    var trreg: nat
    var trfreg: nat
    var hbreg: nat
    var ebreg: nat
    var hfreg: nat
    var efreg: nat
    /** The choice points, the oldest first. */
    var cps: seq<ChoicePoint>
    /** The cells when each choice point was made, and those that were conditional from then on. */
    ghost var saved: seq<Cells>
    ghost var kept: seq<iset<nat>>
    /** One for every time the stacks were frozen. */
    ghost var marks: seq<Mark>

    ghost function Here(): Env
      reads this`trreg, this`cells, this`cps, this`saved, this`kept
    {
      Env(trreg, cells, cps, saved, kept)
    }

    /** The cells below the freeze registers. */
    ghost function Frozen(): iset<nat>
      reads this`hfreg, this`efreg
    {
      Region(hfreg, efreg)
    }

    ghost predicate Valid()
      reads this
    {
      && Sound(mem, bottom, Here(), trfreg, Frozen(), marks)
      && hbreg == cps[|cps| - 1].h && ebreg == cps[|cps| - 1].e
    }

    constructor (start: nat, h: nat, e: nat, c: Cells)
      requires start > 0
      ensures Valid() && cps == [ChoicePoint(start, h, e)] && saved == [c] && cells == c && marks == []
    {
      bottom, mem, cells, trreg, trfreg := start, map[start := Parent(start)], c, start, start;
      hbreg, ebreg, hfreg, efreg := h, e, 0, e;
      cps, saved, kept, marks := [ChoicePoint(start, h, e)], [c], [Older(ChoicePoint(start, h, e))], [];
      new;
      assert RestoresAt(mem, bottom, Here(), Frozen(), 0);
    }

    predicate Conditional(a: nat)
      reads this`ebreg, this`efreg, this`hbreg, this`hfreg
    {
      (a >= ebreg || a >= efreg) || (a < hbreg || a < hfreg)
    }

    ghost function ConditionalCells(): iset<nat>
      reads this`ebreg, this`efreg, this`hbreg, this`hfreg
    {
      iset a: nat | Conditional(a)
    }

    /** The test the machine makes is for the cells older than the last choice point and the frozen ones. */
    lemma ConditionalIs()
      requires cps != [] && hbreg == cps[|cps| - 1].h && ebreg == cps[|cps| - 1].e
      ensures ConditionalCells() == Conditionals(Here(), Frozen())
      ensures forall a: nat :: a in Conditionals(Here(), Frozen()) <==> Conditional(a)
    {
      assert ConditionalCells() == Conditionals(Here(), Frozen());
      assert forall a: nat :: a in ConditionalCells() <==> Conditional(a);
    }

    // ---- pushing frames -------------------------------------------------

    /** A three-word frame above both trail registers. */
    method PushTrail0(addr: nat, val: nat)
      requires trreg > 0
      modifies this`mem, this`trreg
      ensures trreg == Max(old(trreg), trfreg) + 3
      ensures SameUpTo(old(mem), mem, Max(old(trreg), trfreg))
      ensures FrameAt(mem, trreg) && mem[trreg] == Parent(old(trreg))
      ensures mem[trreg - 1] == NewValue(val) && mem[trreg - 2] == Variable(addr, false)
    {
      if trfreg > trreg {
        mem := mem[trfreg + 3 := Parent(trreg)];
        trreg := trfreg + 3;
        mem := mem[trreg - 1 := NewValue(val)];
        mem := mem[trreg - 2 := Variable(addr, false)];
      } else {
        trreg := trreg + 3;
        mem := mem[trreg := Parent(trreg - 3)];
        mem := mem[trreg - 1 := NewValue(val)];
        mem := mem[trreg - 2 := Variable(addr, false)];
      }
    }

    /** A four-word frame that keeps the old value. */
    method PushPreImageTrail0(addr: nat, newValue: nat)
      requires trreg > 0 && addr in cells
      modifies this`mem, this`trreg
      ensures trreg == Max(old(trreg), trfreg) + 4
      ensures SameUpTo(old(mem), mem, Max(old(trreg), trfreg))
      ensures FrameAt(mem, trreg) && mem[trreg] == Parent(old(trreg))
      ensures mem[trreg - 1] == NewValue(newValue) && mem[trreg - 2] == Variable(addr, true)
              && mem[trreg - 3] == NewValue(cells[addr])
    {
      if trfreg > trreg {
        mem := mem[trfreg + 4 := Parent(trreg)];
        trreg := trfreg + 4;
        mem := mem[trreg - 1 := NewValue(newValue)];
        mem := mem[trreg - 2 := Variable(addr, true)];
        mem := mem[trreg - 3 := NewValue(cells[addr])];
      } else {
        trreg := trreg + 4;
        mem := mem[trreg := Parent(trreg - 4)];
        mem := mem[trreg - 1 := NewValue(newValue)];
        mem := mem[trreg - 2 := Variable(addr, true)];
        mem := mem[trreg - 3 := NewValue(cells[addr])];
      }
    }

    /** The words of the newest frame. */
    ghost predicate Newest(cell: Word, value: Word)
      reads this`mem, this`trreg
    {
      trreg >= 2 && trreg - 1 in mem && trreg - 2 in mem && mem[trreg - 1] == value && mem[trreg - 2] == cell
    }

    /** Binds a free cell; the binding is trailed if the cell is conditional. */
    method BindCopy(addr: nat, val: nat)
      requires Valid() && addr in cells && cells[addr] == addr
      modifies this`mem, this`trreg, this`cells
      ensures Valid() && cells == old(cells)[addr := val]
      ensures if addr >= ebreg || addr >= efreg || addr < hbreg || addr < hfreg then
                trreg == Max(old(trreg), trfreg) + 3 && Newest(Variable(addr, false), NewValue(val))
              else trreg == old(trreg)
      ensures SameUpTo(old(mem), mem, Max(old(trreg), trfreg))
    {
      hide Sound, Conditionals;
      Tops();
      ghost var here := Here();
      if Conditional(addr) {
        PushTrail0(addr, val);
      }
      cells := cells[addr := val];
      assert Conditional(addr) ==> Undo(mem, trreg, cells) == old(cells);
      Written(old(mem), here, addr, val);
    }

    /** Replaces the value of a cell; the old value is trailed if the cell is conditional. */
    method UpdateCell(addr: nat, val: nat)
      requires Valid() && addr in cells
      modifies this`mem, this`trreg, this`cells
      ensures Valid() && cells == old(cells)[addr := val]
      ensures if addr >= ebreg || addr >= efreg || addr < hbreg || addr < hfreg then
                && trreg == Max(old(trreg), trfreg) + 4 && Newest(Variable(addr, true), NewValue(val))
                && trreg - 3 in mem && mem[trreg - 3] == NewValue(old(cells)[addr])
              else trreg == old(trreg)
      ensures SameUpTo(old(mem), mem, Max(old(trreg), trfreg))
    {
      hide Sound, Conditionals;
      Tops();
      ghost var here := Here();
      if Conditional(addr) {
        PushPreImageTrail0(addr, val);
      }
      cells := cells[addr := val];
      assert Conditional(addr) ==> Undo(mem, trreg, cells) == old(cells);
      Written(old(mem), here, addr, val);
    }

    lemma Tops()
      requires Valid()
      ensures trreg >= bottom > 0 && trfreg > 0 && cps != []
    {
      ChainAtLeast(mem, trreg, bottom);
    }

    /** A cell was written and, if conditional, a frame pushed that undoes the write. */
    lemma Written(mem0: Mem, here: Env, a: nat, v: nat)
      requires Sound(mem0, bottom, here, trfreg, Frozen(), marks)
      requires cps != [] && hbreg == cps[|cps| - 1].h && ebreg == cps[|cps| - 1].e
      requires Here() == here.(tr := trreg, cells := here.cells[a := v])
      requires if Conditional(a) then Pushed(mem0, mem, here, Here(), trfreg, a, v) else mem == mem0 && trreg == here.tr
      ensures Valid()
    {
      ConditionalIs();
      assert Conditionals(here, Frozen()) == Conditionals(Here(), Frozen());
      if Conditional(a) {
        SoundPushed(mem0, mem, bottom, here, Here(), trfreg, Frozen(), marks, a, v);
      } else {
        SoundWritten(mem, bottom, here, trfreg, Frozen(), marks, a, v);
        assert here.(cells := here.cells[a := v]) == Here();
      }
    }

    /** A cell that is not conditional, new or no longer reachable, is written. */
    method Allocate(a: nat, v: nat)
      requires Valid() && !Conditional(a)
      modifies this`cells
      ensures Valid() && cells == old(cells)[a := v]
    {
      hide Sound, Conditionals;
      Tops();
      ghost var here := Here();
      cells := cells[a := v];
      Written(mem, here, a, v);
    }

    // ---- choice points ----------------------------------------------------

    method MakeChoicePoint(h: nat, e: nat)
      requires Valid() && hbreg <= h && e <= ebreg
      modifies this`cps, this`saved, this`kept, this`hbreg, this`ebreg
      ensures Valid() && cps == old(cps) + [ChoicePoint(trreg, h, e)] && saved == old(saved) + [cells]
      ensures kept == old(kept) + [Older(ChoicePoint(trreg, h, e)) + Frozen()]
      ensures ConditionalCells() == Older(ChoicePoint(trreg, h, e)) + Frozen() && hbreg == h && ebreg == e
      ensures kept[|cps| - 1] == ConditionalCells()
      ensures forall a: nat :: Conditional(a) <==> a < h || a >= e || a < hfreg || a >= efreg
    {
      ghost var here, cp := Here(), ChoicePoint(trreg, h, e);
      EnvChoice(mem, bottom, here, Frozen(), cp);
      cps := cps + [ChoicePoint(trreg, h, e)];
      saved := saved + [cells];
      kept := kept + [CondAt(cp, Frozen())];
      hbreg, ebreg := h, e;
      assert Here() == WithChoice(here, cp, CondAt(cp, Frozen()));
      SoundOther(mem, bottom, here, Here(), trfreg, Frozen(), marks);
      ConditionalIs();
    }

    /** Freezes the stacks at their present tops: from now on every cell below these, and the trail
        up to its top, is kept. */
    method Freeze(h: nat, e: nat)
      requires Valid() && hbreg <= h && e <= ebreg
      modifies this`trfreg, this`hfreg, this`efreg, this`marks
      ensures Valid() && trfreg == Max(old(trfreg), trreg)
      ensures Frozen() == old(Frozen()) + Region(h, e)
      ensures forall a: nat :: a in Frozen() <==> a < old(hfreg) || a < h || a >= old(efreg) || a >= e
      ensures marks == old(marks) + [Mark(Here(), Frozen(), mem)]
    {
      hide Sound;
      ghost var F, trf := Frozen(), trfreg;
      Tops();
      if trfreg < trreg {
        trfreg := trreg;
      }
      if hfreg < h {
        hfreg := h;
      }
      if efreg > e {
        efreg := e;
      }
      assert Frozen() == F + Region(h, e) && Older(cps[|cps| - 1]) <= Frozen();
      SoundFrozen(mem, bottom, Here(), trf, F, marks, Frozen(), trfreg);
      marks := marks + [Mark(Here(), Frozen(), mem)];
    }

    /** Restores one cell from the frame at trail_ptr. */
    method Untrail2(trailPtr: nat)
      requires FrameAt(mem, trailPtr)
      modifies this`cells
      ensures cells == Undo(mem, trailPtr, old(cells))
    {
      var v := mem[trailPtr - 2];
      if v.marked {
        cells := cells[v.addr := mem[trailPtr - 3].value];
      } else {
        cells := cells[v.addr := v.addr];
      }
    }

    /** Walks the parent pointers back to a saved trail register. */
    method UndoBindings(oldTrreg: nat)
      requires LinkedTo(mem, trreg, bottom) && bottom <= oldTrreg && OnChain(mem, trreg, oldTrreg)
      modifies this`cells, this`trreg
      ensures trreg == oldTrreg && cells == Untrailed(mem, old(trreg), oldTrreg, bottom, old(cells))
    {
      while trreg > oldTrreg
        invariant LinkedTo(mem, trreg, bottom) && OnChain(mem, trreg, oldTrreg)
        invariant Untrailed(mem, trreg, oldTrreg, bottom, cells) ==
                  Untrailed(mem, old(trreg), oldTrreg, bottom, old(cells))
        decreases trreg
      {
        Untrail2(trreg);
        trreg := ParentOf(mem, trreg);
      }
    }

    /** Main result: failing back to the last choice point gives every cell that was conditional from then on, older or
        frozen, the value it had then. */
    method Backtrack()
      requires Valid()
      modifies this`cells, this`trreg
      ensures Valid() && trreg == cps[|cps| - 1].tr
      ensures AgreeOn(kept[|cps| - 1], cells, saved[|cps| - 1])
    {
      ghost var here, n := Here(), |cps| - 1;
      assert RestoresAt(mem, bottom, here, Frozen(), n);
      UndoBindings(cps[|cps| - 1].tr);
      SoundBack(mem, bottom, here, Here(), trfreg, Frozen(), marks);
    }

    /** What Valid keeps for the j-th freeze: the trail below it is untouched, and from every frame it has in common
        with the present environment on, both restore the same values of the frozen cells; so the frozen cells have the
        values of the freeze when untrailing gets back to it. */
    lemma FrozenRestored(j: nat)
      requires Valid() && j < |marks|
      ensures var m := marks[j];
              && SameUpTo(m.mem, mem, m.env.tr) && LinkedTo(mem, m.env.tr, bottom) && LinkedTo(mem, trreg, bottom)
              && bottom <= m.env.tr
              && (OnChain(mem, trreg, m.env.tr) ==>
                    AgreeOn(m.frozen, Untrailed(mem, trreg, m.env.tr, bottom, cells), m.env.cells))
    {
      var m := marks[j];
      assert MarkAt(mem, bottom, Here(), trfreg, Frozen(), m);
      ChainAtLeast(mem, m.env.tr, bottom);
      if OnChain(mem, trreg, m.env.tr) {
        assert MeetsAt(mem, bottom, trreg, cells, m, m.env.tr);
      }
    }

    /** The last choice point goes when its last alternative is taken, after failing back to it. */
    method DropChoicePoint()
      requires Valid() && |cps| > 1 && trreg == cps[|cps| - 1].tr
      modifies this`cps, this`saved, this`kept, this`hbreg, this`ebreg
      ensures Valid() && cps == old(cps)[..|old(cps)| - 1]
      ensures saved == old(saved)[..|old(cps)| - 1] && kept == old(kept)[..|old(cps)| - 1]
    {
      ghost var here := Here();
      EnvDrop(mem, bottom, here, Frozen());
      var n := |cps| - 1;
      cps := cps[..n];
      saved := saved[..n];
      kept := kept[..n];
      hbreg, ebreg := cps[n - 1].h, cps[n - 1].e;
      SoundOther(mem, bottom, here, Here(), trfreg, Frozen(), marks);
    }

    // ---- cut ----------------------------------------------------------------

    predicate GoodTrailRegister(t: nat)
      requires FrameAt(mem, t)
      reads this
    {
      Conditional(mem[t - 2].addr)
    }

    /** Tidies the trail above the saved register of a choice point and above the freeze register. */
    method UnwindTrail(cpTr: nat)
      requires LinkedTo(mem, trreg, bottom) && bottom <= trfreg && bottom <= cpTr && ParentOf(mem, bottom) <= bottom
      modifies this`mem, this`trreg
      ensures SameRestored(old(mem), old(trreg), mem, trreg, bottom, Max(cpTr, trfreg), ConditionalCells())
      ensures ChainAbove(mem, trreg, Max(cpTr, trfreg), bottom) ==
              GoodFrames(old(mem), ConditionalCells(), ChainAbove(old(mem), old(trreg), Max(cpTr, trfreg), bottom))
      ensures SameFrames(old(mem), mem) && SameUpTo(old(mem), mem, Max(cpTr, trfreg)) && LinkedTo(mem, trreg, bottom)
    {
      ghost var K, limit, mem0, t0 := ConditionalCells(), Max(cpTr, trfreg), mem, trreg;
      DropTops(cpTr);
      TidyStart(mem0, t0, trreg, bottom, limit, K);
      RelinkRest(cpTr, mem0, t0);
    }

    /** Relinks every frame left to the next conditional one. */
    method RelinkRest(cpTr: nat, ghost mem0: Mem, ghost t0: nat)
      requires Tidying(mem0, t0, mem, trreg, trreg, bottom, Max(cpTr, trfreg), ConditionalCells())
               && ParentOf(mem, bottom) <= bottom
      modifies this`mem
      ensures SameRestored(mem0, t0, mem, trreg, bottom, Max(cpTr, trfreg), ConditionalCells())
      ensures ChainAbove(mem, trreg, Max(cpTr, trfreg), bottom) ==
              GoodFrames(mem0, ConditionalCells(), ChainAbove(mem0, t0, Max(cpTr, trfreg), bottom))
      ensures SameFrames(mem0, mem) && SameUpTo(mem0, mem, Max(cpTr, trfreg))
    {
      hide Tidying, SameRestored, GoodFrames, ChainAbove, LinkedTo, SameUpTo, SameFrames, ConditionalCells;
      ghost var K, limit := ConditionalCells(), Max(cpTr, trfreg);
      var t1: nat := trreg;
      var t2 := ParentOf(mem, t1);
      StartsLow(mem0, t0, mem, trreg, limit, K);
      while t2 > cpTr && t2 > trfreg
        invariant Tidying(mem0, t0, mem, trreg, t1, bottom, limit, K) && t2 == ParentOf(mem, t1)
        invariant t2 > limit ==> t1 > t2
        decreases t2
      {
        TidyFrame(mem0, t0, mem, trreg, t1, limit, K);
        GoodIsConditional(mem, t2);
        if !GoodTrailRegister(t2) {
          TidySkip(mem0, t0, mem, trreg, t1, bottom, limit, K);
          t2 := ParentOf(mem, t2);
          mem := mem[t1 := Parent(t2)];
        } else {
          TidyKeep(mem0, t0, mem, trreg, t1, bottom, limit, K);
          t1 := t2;
          t2 := ParentOf(mem, t2);
        }
      }
      TidyEnd(mem0, t0, mem, trreg, t1, bottom, limit, K);
      TidyFacts(mem0, t0, mem, trreg, t1, limit, K);
    }

    lemma GoodIsConditional(m: Mem, t: nat)
      requires FrameAt(m, t)
      ensures Good(m, t, ConditionalCells()) <==> Conditional(m[t - 2].addr)
    {
    }

    lemma StartsLow(mem0: Mem, t0: nat, m: Mem, t: nat, limit: nat, K: iset<nat>)
      requires Tidying(mem0, t0, m, t, t, bottom, limit, K) && ParentOf(m, bottom) <= bottom
      ensures ParentOf(m, t) > limit ==> t > ParentOf(m, t)
    {
    }

    /** The frame below t1, if it is above the limit, and the frame below that. */
    lemma TidyFrame(mem0: Mem, t0: nat, m: Mem, t: nat, t1: nat, limit: nat, K: iset<nat>)
      requires Tidying(mem0, t0, m, t, t1, bottom, limit, K) && limit < ParentOf(m, t1) < t1
      ensures FrameAt(m, t1) && FrameAt(m, ParentOf(m, t1)) && ParentOf(m, ParentOf(m, t1)) < ParentOf(m, t1)
    {
      ChainFrame(m, t, t1, bottom);
    }

    lemma TidyFacts(mem0: Mem, t0: nat, m: Mem, t: nat, t1: nat, limit: nat, K: iset<nat>)
      requires Tidying(mem0, t0, m, t, t1, bottom, limit, K)
      ensures SameRestored(mem0, t0, m, t, bottom, limit, K) && SameFrames(mem0, m) && SameUpTo(mem0, m, limit)
    {
    }

    /** Drops the topmost frames that are not conditional. */
    method DropTops(cpTr: nat)
      requires LinkedTo(mem, trreg, bottom) && bottom <= trfreg && bottom <= cpTr
      modifies this`trreg
      ensures SameRestored(mem, old(trreg), mem, trreg, bottom, Max(cpTr, trfreg), ConditionalCells())
      ensures GoodFrames(mem, ConditionalCells(), ChainAbove(mem, trreg, Max(cpTr, trfreg), bottom)) ==
              GoodFrames(mem, ConditionalCells(), ChainAbove(mem, old(trreg), Max(cpTr, trfreg), bottom))
      ensures trreg <= Max(cpTr, trfreg) || Good(mem, trreg, ConditionalCells())
    {
      hide SameRestored, GoodFrames, ChainAbove;
      ghost var K, limit := ConditionalCells(), Max(cpTr, trfreg);
      SameRestoredRefl(mem, trreg, bottom, limit, K);
      while trreg > trfreg && !GoodTrailRegister(trreg) && trreg > cpTr
        invariant LinkedTo(mem, trreg, bottom)
        invariant SameRestored(mem, old(trreg), mem, trreg, bottom, limit, K)
        invariant GoodFrames(mem, K, ChainAbove(mem, trreg, limit, bottom)) ==
                  GoodFrames(mem, K, ChainAbove(mem, old(trreg), limit, bottom))
        decreases trreg
      {
        DropTop(mem, trreg, bottom, limit, K);
        DropTopGood(mem, trreg, bottom, limit, K);
        SameRestoredTrans(mem, old(trreg), mem, trreg, mem, mem[trreg].parent, bottom, limit, K);
        trreg := ParentOf(mem, trreg);
      }
    }

    /** Main result: a cut back to the i-th choice point tidies the trail, and untrailing to any choice point or
        freeze that is left still gives every older or frozen cell its saved value. */
    method CutTo(i: nat)
      requires Valid() && i < |cps|
      modifies this`mem, this`trreg, this`hbreg, this`ebreg, this`cps, this`saved, this`kept
      ensures Valid() && cps == old(cps)[..i + 1] && saved == old(saved)[..i + 1] && kept == old(kept)[..i + 1]
      ensures i + 1 == |old(cps)| ==> mem == old(mem) && trreg == old(trreg)
      ensures LinkedTo(old(mem), old(trreg), bottom)
      ensures i + 1 < |old(cps)| ==>
                var limit := Max(old(cps)[i + 1].tr, trfreg);
                && bottom <= limit
                && ChainAbove(mem, trreg, limit, bottom) ==
                   GoodFrames(old(mem), ConditionalCells(), ChainAbove(old(mem), old(trreg), limit, bottom))
                && SameFrames(old(mem), mem) && SameUpTo(old(mem), mem, limit)
    {
      hide Sound, GoodFrames, ChainAbove, SameRestored, SameFrames, SameUpTo, LinkedTo, Region, ConditionalCells;
      ghost var here := Here();
      CutFacts(here, i);
      hbreg, ebreg := cps[i].h, cps[i].e;
      if i + 1 < |cps| {
        var breg := |cps| - 1;
        while breg - 1 != i
          invariant i < breg < |cps|
        {
          breg := breg - 1;
        }
        UnwindTrail(cps[breg].tr);
      }
      cps := cps[..i + 1];
      saved := saved[..i + 1];
      kept := kept[..i + 1];
      WasCut(old(mem), here, i);
    }

    lemma CutFacts(e: Env, i: nat)
      requires Sound(mem, bottom, e, trfreg, Frozen(), marks) && i < |e.cps|
      ensures |e.cps| == |e.saved| == |e.kept| && LinkedTo(mem, e.tr, bottom)
              && ParentOf(mem, bottom) <= bottom <= trfreg
      ensures i + 1 < |e.cps| ==> bottom <= e.cps[i + 1].tr
    {
      if i + 1 < |e.cps| {
        assert RestoresAt(mem, bottom, e, Frozen(), i + 1);
      }
    }

    lemma WasCut(mem0: Mem, here: Env, i: nat)
      requires Sound(mem0, bottom, here, trfreg, Frozen(), marks) && i < |here.cps| == |here.saved| == |here.kept|
      requires Here() == FirstChoices(here, i + 1).(tr := trreg) && hbreg == cps[i].h && ebreg == cps[i].e
      requires i + 1 == |here.cps| ==> mem == mem0 && trreg == here.tr
      requires i + 1 < |here.cps| ==>
               bottom <= here.cps[i + 1].tr && LinkedTo(mem, trreg, bottom) && LinkedTo(mem0, here.tr, bottom)
      requires i + 1 < |here.cps| ==>
                 var limit := Max(here.cps[i + 1].tr, trfreg);
                 && SameRestored(mem0, here.tr, mem, trreg, bottom, limit, ConditionalCells())
                 && ChainAbove(mem, trreg, limit, bottom) ==
                    GoodFrames(mem0, ConditionalCells(), ChainAbove(mem0, here.tr, limit, bottom))
                 && SameFrames(mem0, mem) && SameUpTo(mem0, mem, limit)
      ensures Valid()
    {
      ConditionalIs();
      if i + 1 < |here.cps| {
        var K, limit := CondAt(here.cps[i], Frozen()), Max(here.cps[i + 1].tr, trfreg);
        assert ConditionalCells() == K;
        KeepIfMember(ChainAbove(mem0, here.tr, limit, bottom), GoodIn(mem0, K));
        SameGood(mem0, mem, K);
        SoundCut(mem0, mem, bottom, here, Here(), trfreg, Frozen(), marks, i, limit);
      } else {
        assert Here() == here;
      }
    }

    // ---- switching environments ---------------------------------------------

    /** Walks from the present frame to target: frames above the common one are untrailed on one side and done again on
        the other. On the way down the links from target are turned around, on the way up they are turned back. */
    method WalkTo(target: nat) returns (ghost c: nat)
      requires LinkedTo(mem, trreg, bottom) && LinkedTo(mem, target, bottom)
      requires bottom in mem && mem[bottom] == Parent(bottom)
      modifies this`mem, this`cells, this`trreg
      ensures mem == old(mem) && trreg == target
      ensures Arrived(mem, bottom, old(Here()), target, c, cells)
    {
      hide Descending, Ascending, Arrived, LinkedTo, OnChain;
      ghost var mem0, e, path := mem, Here(), [target];
      DescendStart(mem0, bottom, e, target);
      c := trreg;
      var start: nat, end: nat := trreg, target;
      trreg := target;
      var parent := ParentOf(mem, end);
      if start != end {
        while start != end
          invariant Descending(mem0, bottom, e, mem, cells, start, path) && trreg == target
          invariant path != [] && path[0] == target && path[|path| - 1] == end && parent == ParentOf(mem0, end)
          decreases start + end
        {
          ghost var start0, end0 := start, end;
          while start > end
            invariant Descending(mem0, bottom, e, mem, cells, start, path) && start <= start0 && trreg == target
            decreases start
          {
            DescendUndo(mem0, bottom, e, mem, cells, start, path);
            Untrail2(start);
            start := ParentOf(mem, start);
          }
          while end > start
            invariant Descending(mem0, bottom, e, mem, cells, start, path) && end <= end0 && trreg == target
            invariant path != [] && path[0] == target && path[|path| - 1] == end && parent == ParentOf(mem0, end)
            decreases end
          {
            DescendReverse(mem0, bottom, e, mem, cells, start, path);
            var tmp := parent;
            parent := ParentOf(mem, parent);
            mem := mem[tmp := Parent(end)];
            end := tmp;
            path := path + [tmp];
          }
        }
        c := end;
        ghost var k: nat := |path| - 1;
        AscendStart(mem0, bottom, e, mem, cells, path);
        var tmp := ParentOf(mem, end);
        mem := mem[end := Parent(parent)];
        parent := tmp;
        while end < trreg
          invariant Ascending(mem0, bottom, e, c, mem, cells, path, k) && path[k] == end && c <= end
          invariant path[0] == trreg == target && (k > 0 ==> parent == path[k - 1])
          decreases k
        {
          AscendOne(mem0, bottom, e, c, mem, cells, path, k);
          tmp := parent;
          cells := cells[mem[tmp - 2].addr := mem[tmp - 1].value];
          parent := ParentOf(mem, parent);
          mem := mem[tmp := Parent(end)];
          end := tmp;
          k := k - 1;
        }
        AscendEnd(mem0, bottom, e, c, mem, cells, path, k);
      } else {
        NoWay(mem0, bottom, e);
      }
    }

    /** Main result: switching to the environment of the j-th freeze, whatever has happened since, gives every
        frozen cell the value it had, leaves all words of the trail as they are, and the choice points of that
        environment can be restored. */
    method SwitchEnvs(target: nat, stack: seq<ChoicePoint>, ghost j: nat)
      requires Valid() && j < |marks| && marks[j].env.tr == target && marks[j].env.cps == stack
      modifies this`mem, this`cells, this`trreg, this`cps, this`saved, this`kept, this`hbreg, this`ebreg
      ensures Valid() && mem == old(mem) && Here() == marks[j].env.(cells := cells)
      ensures AgreeOn(marks[j].frozen, cells, marks[j].env.cells)
    {
      hide Sound, Arrived;
      ghost var here, m := Here(), marks[j];
      MarkLinked(j);
      ghost var c := WalkTo(target);
      cps, saved, kept := stack, m.env.saved, m.env.kept;
      hbreg, ebreg := cps[|cps| - 1].h, cps[|cps| - 1].e;
      HasArrived(here, j, c);
    }

    lemma MarkLinked(j: nat)
      requires Valid() && j < |marks|
      ensures LinkedTo(mem, trreg, bottom) && LinkedTo(mem, marks[j].env.tr, bottom) && marks[j].env.cps != []
      ensures bottom in mem && mem[bottom] == Parent(bottom)
    {
      assert MarkAt(mem, bottom, Here(), trfreg, Frozen(), marks[j]);
    }

    lemma HasArrived(here: Env, j: nat, c: nat)
      requires Sound(mem, bottom, here, trfreg, Frozen(), marks) && j < |marks|
      requires Arrived(mem, bottom, here, marks[j].env.tr, c, cells)
      requires Here() == marks[j].env.(cells := cells)
      ensures Sound(mem, bottom, Here(), trfreg, Frozen(), marks) && AgreeOn(marks[j].frozen, cells, marks[j].env.cells)
    {
      SoundResumed(mem, bottom, here, trfreg, Frozen(), marks, j, c);
    }
  }
}
