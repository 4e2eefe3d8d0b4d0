/** Environments on values: the trail register, the cells and the choice points, what is frozen of them, and what the
    steps of the machine keep. */
module TrailEnv {
  import opened Sequences
  import opened TrailSpec

  /** What a choice point saves of the trail: the trail register, and the tops of heap and local stack. */
  datatype ChoicePoint = ChoicePoint(tr: nat, h: nat, e: nat)

  /** The cells below the tops h of the heap and e of the local stack, which grow towards each other. */
  ghost function Region(h: nat, e: nat): iset<nat> {
    iset a: nat | InRegion(h, e, a)
  }

  predicate InRegion(h: nat, e: nat, a: nat) {
    a < h || a >= e
  }

  /** Cells that existed when the choice point was made. */
  ghost function Older(cp: ChoicePoint): iset<nat> {
    Region(cp.h, cp.e)
  }

  /** For each choice point: the cells when it was made, and those that were conditional from then on. */
  datatype Env = Env(tr: nat, cells: Cells, cps: seq<ChoicePoint>, saved: seq<Cells>, kept: seq<iset<nat>>)

  /** An environment when it was frozen, the cells frozen then, and the words of the trail. */
  datatype Mark = Mark(env: Env, frozen: iset<nat>, mem: Mem)

  /** Untrailing down to tr gives every cell of K its saved value. */
  ghost predicate Restores(mem: Mem, trreg: nat, bottom: nat, cells: Cells, tr: nat, K: iset<nat>, saved: Cells) {
    && bottom <= tr && LinkedTo(mem, trreg, bottom) && OnChain(mem, trreg, tr)
    && AgreeOn(K, Untrailed(mem, trreg, tr, bottom, cells), saved)
  }

  ghost predicate Nested(cps: seq<ChoicePoint>) {
    forall i, j | 0 <= i < j < |cps| :: cps[i].tr <= cps[j].tr && cps[i].h <= cps[j].h && cps[j].e <= cps[i].e
  }

  /** With F frozen, the cells conditional while cp is the last choice point. */
  ghost function CondAt(cp: ChoicePoint, F: iset<nat>): iset<nat> {
    Older(cp) + F
  }

  ghost predicate RestoresAt(mem: Mem, bottom: nat, e: Env, F: iset<nat>, i: nat)
    requires i < |e.cps| == |e.saved| == |e.kept|
  {
    Restores(mem, e.tr, bottom, e.cells, e.cps[i].tr, e.kept[i], e.saved[i]) && e.kept[i] <= CondAt(e.cps[i], F)
  }

  /** The frames pushed before the next choice point was made are of cells that were conditional. */
  ghost predicate SegmentAt(mem: Mem, bottom: nat, e: Env, F: iset<nat>, i: nat)
    requires i + 1 < |e.cps|
  {
    LinkedTo(mem, e.cps[i + 1].tr, bottom) && FramesIn(mem, e.cps[i + 1].tr, bottom, CondAt(e.cps[i], F))
  }

  ghost function Conditionals(e: Env, F: iset<nat>): iset<nat>
    requires e.cps != []
  {
    CondAt(e.cps[|e.cps| - 1], F)
  }

  /** Every choice point can be restored; all frames are of conditional cells and record their values. */
  ghost predicate EnvOk(mem: Mem, bottom: nat, e: Env, F: iset<nat>) {
    && LinkedTo(mem, e.tr, bottom) && e.cps != [] && |e.cps| == |e.saved| == |e.kept| && Nested(e.cps)
    && (forall i: nat | i < |e.cps| :: RestoresAt(mem, bottom, e, F, i))
    && (forall i: nat | i + 1 < |e.cps| :: SegmentAt(mem, bottom, e, F, i))
    && FramesIn(mem, e.tr, bottom, Conditionals(e, F)) && Right(mem, e.tr, bottom, Conditionals(e, F), e.cells)
  }

  /** A frozen environment is as it was. */
  ghost predicate MarkOk(mem: Mem, bottom: nat, m: Mark) {
    && SameUpTo(m.mem, mem, m.env.tr) && EnvOk(mem, bottom, m.env, m.frozen)
    && Older(m.env.cps[|m.env.cps| - 1]) <= m.frozen
  }

  /** Untrailing from tr or from the mark to a common frame gives the frozen cells the same values. */
  ghost predicate Meets(mem: Mem, bottom: nat, tr: nat, cells: Cells, m: Mark) {
    && LinkedTo(mem, tr, bottom) && LinkedTo(mem, m.env.tr, bottom)
    && forall c: nat | bottom <= c && OnChain(mem, tr, c) && OnChain(mem, m.env.tr, c) ::
        MeetsAt(mem, bottom, tr, cells, m, c)
  }

  ghost predicate MeetsAt(mem: Mem, bottom: nat, tr: nat, cells: Cells, m: Mark, c: nat)
    requires LinkedTo(mem, tr, bottom) && LinkedTo(mem, m.env.tr, bottom) && bottom <= c
  {
    AgreeOn(m.frozen, Untrailed(mem, tr, c, bottom, cells), Untrailed(mem, m.env.tr, c, bottom, m.env.cells))
  }

  /** Frames of the chain that lie below the freeze register are of frozen cells. */
  ghost predicate FrozenBelow(mem: Mem, bottom: nat, tr: nat, trf: nat, F: iset<nat>) {
    forall q: nat | bottom <= q <= trf && OnChain(mem, tr, q) :: LinkedTo(mem, q, bottom) && FramesIn(mem, q, bottom, F)
  }

  ghost predicate MarkAt(mem: Mem, bottom: nat, e: Env, trf: nat, F: iset<nat>, m: Mark) {
    m.env.tr <= trf && m.frozen <= F && MarkOk(mem, bottom, m) && Meets(mem, bottom, e.tr, e.cells, m)
  }

  /** The mark m2 was made later than m1. */
  ghost predicate Pair(mem: Mem, bottom: nat, m1: Mark, m2: Mark) {
    m1.frozen <= m2.frozen && Meets(mem, bottom, m2.env.tr, m2.env.cells, m1)
  }

  /** What every step keeps. */
  ghost predicate Sound(mem: Mem, bottom: nat, e: Env, trf: nat, F: iset<nat>, marks: seq<Mark>) {
    && 0 < bottom <= trf && bottom in mem && mem[bottom] == Parent(bottom)
    && EnvOk(mem, bottom, e, F) && FrozenBelow(mem, bottom, e.tr, trf, F)
    && (forall j: nat | j < |marks| :: MarkAt(mem, bottom, e, trf, F, marks[j]))
    && (forall i: nat, j: nat | i < j < |marks| :: Pair(mem, bottom, marks[i], marks[j]))
  }

  // ------------------------------------------------------------------
  // Words below the top do not change.

  lemma SameBoth(mem: Mem, mem': Mem, t: nat, bottom: nat, c: nat)
    requires SameUpTo(mem, mem', t) && LinkedTo(mem, t, bottom)
    ensures LinkedTo(mem', t, bottom) && (OnChain(mem', t, c) <==> OnChain(mem, t, c))
  {
    SameChain(mem, mem', t, bottom, bottom, map[]);
    if OnChain(mem, t, c) {
      SameOnChain(mem, mem', t, c);
    }
    if OnChain(mem', t, c) {
      SameOnChain(mem', mem, t, c);
    }
  }

  lemma RestoresSame(mem: Mem, mem': Mem, bottom: nat, e: Env, F: iset<nat>, i: nat)
    requires SameUpTo(mem, mem', e.tr) && i < |e.cps| == |e.saved| == |e.kept| && RestoresAt(mem, bottom, e, F, i)
    ensures RestoresAt(mem', bottom, e, F, i) && e.cps[i].tr <= e.tr
  {
    SameBoth(mem, mem', e.tr, bottom, e.cps[i].tr);
    SameChain(mem, mem', e.tr, bottom, e.cps[i].tr, e.cells);
    ChainDown(mem, e.tr, e.cps[i].tr);
  }

  lemma SegmentSame(mem: Mem, mem': Mem, bottom: nat, e: Env, F: iset<nat>, i: nat)
    requires i + 1 < |e.cps| && SameUpTo(mem, mem', e.cps[i + 1].tr) && SegmentAt(mem, bottom, e, F, i)
    ensures SegmentAt(mem', bottom, e, F, i)
  {
    SameChain(mem, mem', e.cps[i + 1].tr, bottom, bottom, map[]);
    SameFramesIn(mem, mem', e.cps[i + 1].tr, bottom, CondAt(e.cps[i], F));
  }

  lemma EnvSame(mem: Mem, mem': Mem, bottom: nat, e: Env, F: iset<nat>)
    requires SameUpTo(mem, mem', e.tr) && EnvOk(mem, bottom, e, F)
    ensures EnvOk(mem', bottom, e, F)
  {
    hide RestoresAt, SegmentAt, Nested;
    SameChain(mem, mem', e.tr, bottom, bottom, map[]);
    SameFramesIn(mem, mem', e.tr, bottom, Conditionals(e, F));
    SameRight(mem, mem', e.tr, bottom, Conditionals(e, F), e.cells);
    forall i: nat | i < |e.cps| ensures RestoresAt(mem', bottom, e, F, i) {
      RestoresSame(mem, mem', bottom, e, F, i);
    }
    forall i: nat | i + 1 < |e.cps| ensures SegmentAt(mem', bottom, e, F, i) {
      RestoresSame(mem, mem', bottom, e, F, i + 1);
      SegmentSame(mem, mem', bottom, e, F, i);
    }
  }

  lemma MarkSame(mem: Mem, mem': Mem, bottom: nat, m: Mark)
    requires SameUpTo(mem, mem', m.env.tr) && MarkOk(mem, bottom, m)
    ensures MarkOk(mem', bottom, m)
  {
    EnvSame(mem, mem', bottom, m.env, m.frozen);
  }

  lemma MeetsSame(mem: Mem, mem': Mem, bottom: nat, tr: nat, cells: Cells, m: Mark)
    requires SameUpTo(mem, mem', tr) && SameUpTo(mem, mem', m.env.tr) && Meets(mem, bottom, tr, cells, m)
    ensures Meets(mem', bottom, tr, cells, m)
  {
    SameChain(mem, mem', tr, bottom, bottom, cells);
    SameChain(mem, mem', m.env.tr, bottom, bottom, cells);
    forall c: nat | bottom <= c && OnChain(mem', tr, c) && OnChain(mem', m.env.tr, c)
      ensures MeetsAt(mem', bottom, tr, cells, m, c)
    {
      SameBoth(mem, mem', tr, bottom, c);
      SameBoth(mem, mem', m.env.tr, bottom, c);
      assert MeetsAt(mem, bottom, tr, cells, m, c);
      SameChain(mem, mem', tr, bottom, c, cells);
      SameChain(mem, mem', m.env.tr, bottom, c, m.env.cells);
    }
  }

  lemma PairsSame(mem: Mem, mem': Mem, bottom: nat, trf: nat, marks: seq<Mark>)
    requires SameUpTo(mem, mem', trf) && forall j: nat | j < |marks| :: marks[j].env.tr <= trf
    requires forall i: nat, j: nat | i < j < |marks| :: Pair(mem, bottom, marks[i], marks[j])
    ensures forall i: nat, j: nat | i < j < |marks| :: Pair(mem', bottom, marks[i], marks[j])
  {
    forall i: nat, j: nat | i < j < |marks| ensures Pair(mem', bottom, marks[i], marks[j]) {
      assert Pair(mem, bottom, marks[i], marks[j]);
      MeetsSame(mem, mem', bottom, marks[j].env.tr, marks[j].env.cells, marks[i]);
    }
  }

  // ------------------------------------------------------------------
  // Writing cells.

  /** A frame was pushed that undoes the write, above both registers. */
  ghost predicate Pushed(mem: Mem, mem': Mem, e: Env, e': Env, trf: nat, a: nat, v: nat) {
    && e' == e.(tr := e'.tr, cells := e.cells[a := v]) && e'.tr > e.tr && e'.tr > trf
    && SameUpTo(mem, mem', e.tr) && SameUpTo(mem, mem', trf)
    && FrameAt(mem', e'.tr) && mem'[e'.tr] == Parent(e.tr) && mem'[e'.tr - 2].addr == a && mem'[e'.tr - 1].value == v
    && Undo(mem', e'.tr, e'.cells) == e.cells
  }

  lemma PushedChain(mem: Mem, mem': Mem, bottom: nat, e: Env, e': Env, trf: nat, a: nat, v: nat, c: nat)
    requires Pushed(mem, mem', e, e', trf, a, v) && LinkedTo(mem, e.tr, bottom) && bottom <= c
    ensures LinkedTo(mem', e'.tr, bottom)
    ensures c < e'.tr ==> (OnChain(mem', e'.tr, c) <==> OnChain(mem, e.tr, c))
    ensures c < e'.tr ==> Untrailed(mem', e'.tr, c, bottom, e'.cells) == Untrailed(mem, e.tr, c, bottom, e.cells)
  {
    ChainAtLeast(mem, e.tr, bottom);
    SameBoth(mem, mem', e.tr, bottom, c);
    SameChain(mem, mem', e.tr, bottom, c, e.cells);
  }

  lemma {:induction false} ChainAtLeast(mem: Mem, t: nat, bottom: nat)
    requires LinkedTo(mem, t, bottom)
    ensures bottom <= t
  {
  }

  lemma EnvPushed(mem: Mem, mem': Mem, bottom: nat, e: Env, e': Env, trf: nat, F: iset<nat>, a: nat, v: nat)
    requires EnvOk(mem, bottom, e, F) && Pushed(mem, mem', e, e', trf, a, v) && a in Conditionals(e, F)
    ensures EnvOk(mem', bottom, e', F)
  {
    hide Nested, SegmentAt;
    EnvSame(mem, mem', bottom, e, F);
    PushedChain(mem, mem', bottom, e, e', trf, a, v, bottom);
    forall i: nat | i < |e.cps| ensures RestoresAt(mem', bottom, e', F, i) {
      RestoresSame(mem, mem', bottom, e, F, i);
      PushedChain(mem, mem', bottom, e, e', trf, a, v, e.cps[i].tr);
    }
    forall i: nat | i + 1 < |e.cps| ensures SegmentAt(mem', bottom, e', F, i) {
      assert SegmentAt(mem', bottom, e, F, i);
      SegmentOther(mem', bottom, e, e', F, i);
    }
  }

  /** Segments only depend on the choice points. */
  lemma SegmentOther(mem: Mem, bottom: nat, e: Env, e': Env, F: iset<nat>, i: nat)
    requires i + 1 < |e.cps| && i + 1 < |e'.cps| && e'.cps[i] == e.cps[i] && e'.cps[i + 1] == e.cps[i + 1]
    requires SegmentAt(mem, bottom, e, F, i)
    ensures SegmentAt(mem, bottom, e', F, i)
  {
  }

  lemma SoundPushed(mem: Mem, mem': Mem, bottom: nat, e: Env, e': Env, trf: nat, F: iset<nat>, marks: seq<Mark>, a: nat,
                    v: nat)
    requires Sound(mem, bottom, e, trf, F, marks) && Pushed(mem, mem', e, e', trf, a, v) && a in Conditionals(e, F)
    ensures Sound(mem', bottom, e', trf, F, marks)
  {
    EnvPushed(mem, mem', bottom, e, e', trf, F, a, v);
    hide EnvOk, MarkOk, Meets, Pushed, Conditionals;
    PushedFrozenBelow(mem, mem', bottom, e, e', trf, F, a, v);
    PushedWords(mem, mem', e, e', trf, a, v);
    PairsSame(mem, mem', bottom, trf, marks);
    forall j: nat | j < |marks| ensures MarkAt(mem', bottom, e', trf, F, marks[j]) {
      assert MarkAt(mem, bottom, e, trf, F, marks[j]);
      MarkSame(mem, mem', bottom, marks[j]);
      MeetsPushed(mem, mem', bottom, e, e', trf, a, v, marks[j]);
    }
  }

  lemma PushedWords(mem: Mem, mem': Mem, e: Env, e': Env, trf: nat, a: nat, v: nat)
    requires Pushed(mem, mem', e, e', trf, a, v)
    ensures SameUpTo(mem, mem', trf) && forall t: nat | t <= trf :: SameUpTo(mem, mem', t)
  {
  }

  lemma PushedFrozenBelow(mem: Mem, mem': Mem, bottom: nat, e: Env, e': Env, trf: nat, F: iset<nat>, a: nat, v: nat)
    requires Pushed(mem, mem', e, e', trf, a, v) && LinkedTo(mem, e.tr, bottom)
             && FrozenBelow(mem, bottom, e.tr, trf, F)
    ensures FrozenBelow(mem', bottom, e'.tr, trf, F)
  {
    forall q: nat | bottom <= q <= trf && OnChain(mem', e'.tr, q)
      ensures LinkedTo(mem', q, bottom) && FramesIn(mem', q, bottom, F)
    {
      PushedChain(mem, mem', bottom, e, e', trf, a, v, q);
      SameChain(mem, mem', q, bottom, bottom, map[]);
      SameFramesIn(mem, mem', q, bottom, F);
    }
  }

  lemma MeetsPushed(mem: Mem, mem': Mem, bottom: nat, e: Env, e': Env, trf: nat, a: nat, v: nat, m: Mark)
    requires Pushed(mem, mem', e, e', trf, a, v) && Meets(mem, bottom, e.tr, e.cells, m) && m.env.tr <= trf
    ensures Meets(mem', bottom, e'.tr, e'.cells, m)
  {
    SameChain(mem, mem', m.env.tr, bottom, bottom, map[]);
    PushedChain(mem, mem', bottom, e, e', trf, a, v, bottom);
    forall c: nat | bottom <= c && OnChain(mem', e'.tr, c) && OnChain(mem', m.env.tr, c)
      ensures MeetsAt(mem', bottom, e'.tr, e'.cells, m, c)
    {
      ChainDown(mem', m.env.tr, c);
      SameBoth(mem, mem', m.env.tr, bottom, c);
      PushedChain(mem, mem', bottom, e, e', trf, a, v, c);
      assert MeetsAt(mem, bottom, e.tr, e.cells, m, c);
      SameChain(mem, mem', m.env.tr, bottom, c, m.env.cells);
    }
  }

  /** A cell that is not conditional may be written without a frame. */
  lemma SoundWritten(mem: Mem, bottom: nat, e: Env, trf: nat, F: iset<nat>, marks: seq<Mark>, a: nat, v: nat)
    requires Sound(mem, bottom, e, trf, F, marks) && a !in Conditionals(e, F)
    ensures Sound(mem, bottom, e.(cells := e.cells[a := v]), trf, F, marks)
  {
    var e' := e.(cells := e.cells[a := v]);
    assert AgreeOn(Conditionals(e, F), e.cells, e'.cells);
    EnvAgree(mem, bottom, e, e'.cells, F);
    hide EnvOk, MarkOk, AgreeOn;
    forall j: nat | j < |marks| ensures MarkAt(mem, bottom, e', trf, F, marks[j]) {
      assert MarkAt(mem, bottom, e, trf, F, marks[j]);
      AgreeLess(Conditionals(e, F), marks[j].frozen, e.cells, e'.cells);
      MeetsAgree(mem, bottom, e.tr, e.cells, e'.cells, marks[j]);
    }
  }

  lemma AgreeLess(K: iset<nat>, L: iset<nat>, c: Cells, d: Cells)
    requires AgreeOn(K, c, d) && L <= K
    ensures AgreeOn(L, c, d)
  {
  }

  lemma AgreeTrans(K: iset<nat>, c: Cells, d: Cells, f: Cells)
    requires AgreeOn(K, c, d) && AgreeOn(K, d, f)
    ensures AgreeOn(K, c, f) && AgreeOn(K, f, c) && AgreeOn(K, d, c)
  {
  }

  lemma MeetsAgree(mem: Mem, bottom: nat, tr: nat, cells: Cells, cells': Cells, m: Mark)
    requires Meets(mem, bottom, tr, cells, m) && AgreeOn(m.frozen, cells, cells')
    ensures Meets(mem, bottom, tr, cells', m)
  {
    forall c: nat | bottom <= c && OnChain(mem, tr, c) && OnChain(mem, m.env.tr, c)
      ensures MeetsAt(mem, bottom, tr, cells', m, c)
    {
      assert MeetsAt(mem, bottom, tr, cells, m, c);
      UntrailAgree(mem, tr, c, bottom, cells, cells', m.frozen);
    }
  }

  /** Only conditional cells matter. */
  lemma EnvAgree(mem: Mem, bottom: nat, e: Env, cells': Cells, F: iset<nat>)
    requires EnvOk(mem, bottom, e, F) && AgreeOn(Conditionals(e, F), e.cells, cells')
    ensures EnvOk(mem, bottom, e.(cells := cells'), F)
  {
    var e' := e.(cells := cells');
    forall i: nat | i < |e.cps| ensures RestoresAt(mem, bottom, e', F, i) {
      assert RestoresAt(mem, bottom, e, F, i);
      OlderNested(e, F, i);
      AgreeLess(Conditionals(e, F), e.kept[i], e.cells, cells');
      UntrailAgree(mem, e.tr, e.cps[i].tr, bottom, e.cells, cells', e.kept[i]);
    }
    forall i: nat | i + 1 < |e.cps| ensures SegmentAt(mem, bottom, e', F, i) {
      assert SegmentAt(mem, bottom, e, F, i);
    }
    RightAgree(mem, e.tr, bottom, Conditionals(e, F), e.cells, cells');
  }

  lemma OlderNested(e: Env, F: iset<nat>, i: nat)
    requires Nested(e.cps) && i < |e.cps|
    ensures Older(e.cps[i]) <= Older(e.cps[|e.cps| - 1]) && CondAt(e.cps[i], F) <= Conditionals(e, F)
  {
  }

  // ------------------------------------------------------------------
  // Choice points and freezing.

  /** Larger sets of conditional cells: all frames are of cells in the smaller one. */
  lemma EnvMore(mem: Mem, bottom: nat, e: Env, F: iset<nat>, F': iset<nat>)
    requires EnvOk(mem, bottom, e, F) && F <= F'
    ensures EnvOk(mem, bottom, e, F')
  {
    var K, L := Conditionals(e, F), Conditionals(e, F');
    FramesMore(mem, e.tr, bottom, K, L);
    RightAll(mem, e.tr, bottom, K, L, e.cells);
    forall i: nat | i < |e.cps| ensures RestoresAt(mem, bottom, e, F', i) {
      assert RestoresAt(mem, bottom, e, F, i);
    }
    forall i: nat | i + 1 < |e.cps| ensures SegmentAt(mem, bottom, e, F', i) {
      assert SegmentAt(mem, bottom, e, F, i);
      FramesMore(mem, e.cps[i + 1].tr, bottom, CondAt(e.cps[i], F), CondAt(e.cps[i], F'));
    }
  }

  /** A choice point with the tops h and e of the stacks. */
  function WithChoice(env: Env, cp: ChoicePoint, K: iset<nat>): Env {
    env.(cps := env.cps + [cp], saved := env.saved + [env.cells], kept := env.kept + [K])
  }

  lemma EnvChoice(mem: Mem, bottom: nat, e: Env, F: iset<nat>, cp: ChoicePoint)
    requires EnvOk(mem, bottom, e, F) && cp.tr == e.tr
    requires e.cps[|e.cps| - 1].h <= cp.h && cp.e <= e.cps[|e.cps| - 1].e
    ensures EnvOk(mem, bottom, WithChoice(e, cp, CondAt(cp, F)), F)
  {
    var e', n := WithChoice(e, cp, CondAt(cp, F)), |e.cps|;
    ChainAtLeast(mem, e.tr, bottom);
    forall i: nat | i < n ensures RestoresAt(mem, bottom, e', F, i) && e.cps[i].tr <= e.tr {
      assert RestoresAt(mem, bottom, e, F, i);
      ChainDown(mem, e.tr, e.cps[i].tr);
    }
    assert RestoresAt(mem, bottom, e', F, n);
    forall i: nat | i + 1 < n + 1 ensures SegmentAt(mem, bottom, e', F, i) {
      if i + 1 < n {
        assert SegmentAt(mem, bottom, e, F, i);
      }
    }
    assert Conditionals(e', F) == CondAt(cp, F) && Conditionals(e, F) <= CondAt(cp, F);
    FramesMore(mem, e.tr, bottom, Conditionals(e, F), CondAt(cp, F));
    RightAll(mem, e.tr, bottom, Conditionals(e, F), CondAt(cp, F), e.cells);
    NestedMore(e.cps, cp);
  }

  lemma NestedMore(cps: seq<ChoicePoint>, cp: ChoicePoint)
    requires Nested(cps) && cps != [] && forall i: nat | i < |cps| :: cps[i].tr <= cp.tr
    requires cps[|cps| - 1].h <= cp.h && cp.e <= cps[|cps| - 1].e
    ensures Nested(cps + [cp])
  {
  }

  /** The same stacks, other choice points. */
  lemma SoundOther(mem: Mem, bottom: nat, e: Env, e': Env, trf: nat, F: iset<nat>, marks: seq<Mark>)
    requires Sound(mem, bottom, e, trf, F, marks) && e'.tr == e.tr && e'.cells == e.cells && EnvOk(mem, bottom, e', F)
    ensures Sound(mem, bottom, e', trf, F, marks)
  {
    hide EnvOk, MarkOk, Meets, FrozenBelow;
    forall j: nat | j < |marks| ensures MarkAt(mem, bottom, e', trf, F, marks[j]) {
      assert MarkAt(mem, bottom, e, trf, F, marks[j]);
    }
  }

  /** The first n choice points. */
  function FirstChoices(e: Env, n: nat): Env
    requires n <= |e.cps| == |e.saved| == |e.kept|
  {
    e.(cps := e.cps[..n], saved := e.saved[..n], kept := e.kept[..n])
  }

  /** The last choice point goes when everything since then has been untrailed. */
  lemma EnvDrop(mem: Mem, bottom: nat, e: Env, F: iset<nat>)
    requires EnvOk(mem, bottom, e, F) && |e.cps| > 1 && e.tr == e.cps[|e.cps| - 1].tr
    ensures EnvOk(mem, bottom, FirstChoices(e, |e.cps| - 1), F)
  {
    var n := |e.cps| - 1;
    var e' := FirstChoices(e, n);
    forall i: nat | i < n ensures RestoresAt(mem, bottom, e', F, i) {
      assert RestoresAt(mem, bottom, e, F, i);
    }
    forall i: nat | i + 1 < n ensures SegmentAt(mem, bottom, e', F, i) {
      assert SegmentAt(mem, bottom, e, F, i);
    }
    assert SegmentAt(mem, bottom, e, F, n - 1);
    RightAll(mem, e.tr, bottom, Conditionals(e, F), Conditionals(e', F), e.cells);
  }

  lemma FramesOnChain(mem: Mem, t: nat, bottom: nat, K: iset<nat>, L: iset<nat>, q: nat)
    requires LinkedTo(mem, t, bottom) && FramesIn(mem, t, bottom, K) && K <= L && OnChain(mem, t, q) && bottom <= q
    ensures LinkedTo(mem, q, bottom) && FramesIn(mem, q, bottom, L)
  {
    FramesMore(mem, t, bottom, K, L);
    FramesBelow(mem, t, q, bottom, L);
  }

  /** Freezing at stack tops above the last choice point's. */
  lemma SoundFrozen(mem: Mem, bottom: nat, e: Env, trf: nat, F: iset<nat>, marks: seq<Mark>, F': iset<nat>, trf': nat)
    requires Sound(mem, bottom, e, trf, F, marks) && F <= F' && Older(e.cps[|e.cps| - 1]) <= F' && trf' >= trf
             && trf' >= e.tr
    ensures Sound(mem, bottom, e, trf', F', marks + [Mark(e, F', mem)])
  {
    var marks', m := marks + [Mark(e, F', mem)], Mark(e, F', mem);
    EnvMore(mem, bottom, e, F, F');
    forall q: nat | bottom <= q <= trf' && OnChain(mem, e.tr, q)
        ensures LinkedTo(mem, q, bottom) && FramesIn(mem, q, bottom, F')
    {
      FramesOnChain(mem, e.tr, bottom, Conditionals(e, F), F', q);
    }
    assert MarkAt(mem, bottom, e, trf', F', m);
    hide EnvOk, MarkOk, Meets, FrozenBelow;
    forall j: nat | j < |marks'| ensures MarkAt(mem, bottom, e, trf', F', marks'[j]) {
      assert j < |marks| ==> MarkAt(mem, bottom, e, trf, F, marks[j]);
    }
    forall i: nat, j: nat | i < j < |marks'| ensures Pair(mem, bottom, marks'[i], marks'[j]) {
      assert MarkAt(mem, bottom, e, trf, F, marks[i]);
      assert j < |marks| ==> Pair(mem, bottom, marks[i], marks[j]);
    }
  }

  // ------------------------------------------------------------------
  // Failing.

  lemma EnvBack(mem: Mem, bottom: nat, e: Env, e': Env, F: iset<nat>)
    requires EnvOk(mem, bottom, e, F) && e' == e.(tr := e'.tr, cells := e'.cells) && e'.tr == e.cps[|e.cps| - 1].tr
    requires bottom <= e'.tr && e'.cells == Untrailed(mem, e.tr, e'.tr, bottom, e.cells)
    ensures EnvOk(mem, bottom, e', F) && OnChain(mem, e.tr, e'.tr)
  {
    hide Nested;
    var n, K := |e.cps| - 1, Conditionals(e, F);
    assert RestoresAt(mem, bottom, e, F, n);
    FramesBelow(mem, e.tr, e'.tr, bottom, K);
    RightBelow(mem, e.tr, e'.tr, bottom, K, e.cells);
    forall i: nat | i < |e.cps| ensures RestoresAt(mem, bottom, e', F, i) {
      assert RestoresAt(mem, bottom, e, F, i);
      LastHighest(e, i);
      ChainPart(mem, e.tr, e'.tr, e.cps[i].tr);
      UntrailTwice(mem, e.tr, e'.tr, e.cps[i].tr, bottom, e.cells);
    }
    forall i: nat | i + 1 < |e.cps| ensures SegmentAt(mem, bottom, e', F, i) {
      assert SegmentAt(mem, bottom, e, F, i);
    }
  }

  lemma LastHighest(e: Env, i: nat)
    requires Nested(e.cps) && i < |e.cps|
    ensures e.cps[i].tr <= e.cps[|e.cps| - 1].tr
  {
  }

  lemma MeetsBack(mem: Mem, bottom: nat, tr: nat, cells: Cells, tr': nat, m: Mark)
    requires Meets(mem, bottom, tr, cells, m) && OnChain(mem, tr, tr') && bottom <= tr'
    ensures Meets(mem, bottom, tr', Untrailed(mem, tr, tr', bottom, cells), m)
  {
    UntrailTwice(mem, tr, tr', bottom, bottom, cells);
    forall c: nat | bottom <= c && OnChain(mem, tr', c) && OnChain(mem, m.env.tr, c)
      ensures MeetsAt(mem, bottom, tr', Untrailed(mem, tr, tr', bottom, cells), m, c)
    {
      ChainTrans(mem, tr, tr', c);
      assert MeetsAt(mem, bottom, tr, cells, m, c);
      UntrailTwice(mem, tr, tr', c, bottom, cells);
    }
  }

  lemma SoundBack(mem: Mem, bottom: nat, e: Env, e': Env, trf: nat, F: iset<nat>, marks: seq<Mark>)
    requires Sound(mem, bottom, e, trf, F, marks)
    requires e' == e.(tr := e'.tr, cells := e'.cells) && e'.tr == e.cps[|e.cps| - 1].tr
    requires bottom <= e'.tr && e'.cells == Untrailed(mem, e.tr, e'.tr, bottom, e.cells)
    ensures Sound(mem, bottom, e', trf, F, marks)
  {
    EnvBack(mem, bottom, e, e', F);
    hide EnvOk, MarkOk, Meets;
    forall q: nat | bottom <= q <= trf && OnChain(mem, e'.tr, q)
        ensures LinkedTo(mem, q, bottom) && FramesIn(mem, q, bottom, F)
    {
      ChainTrans(mem, e.tr, e'.tr, q);
    }
    forall j: nat | j < |marks| ensures MarkAt(mem, bottom, e', trf, F, marks[j]) {
      assert MarkAt(mem, bottom, e, trf, F, marks[j]);
      MeetsBack(mem, bottom, e.tr, e.cells, e'.tr, marks[j]);
    }
  }

  // ------------------------------------------------------------------
  // Cutting.

  /** What tidying the trail above limit has done. */
  ghost predicate Tidied(mem: Mem, mem': Mem, bottom: nat, e: Env, e': Env, limit: nat, K: iset<nat>) {
    && bottom <= limit && SameRestored(mem, e.tr, mem', e'.tr, bottom, limit, K) && SameUpTo(mem, mem', limit)
    && forall x | x in ChainAbove(mem', e'.tr, limit, bottom) :: Good(mem', x, K)
  }

  lemma RestoresCut(mem: Mem, mem': Mem, bottom: nat, tr: nat, tr': nat, cells: Cells, cp: nat, K: iset<nat>,
                    L: iset<nat>, s: Cells, limit: nat)
    requires Restores(mem, tr, bottom, cells, cp, L, s) && cp <= limit && L <= K
    requires SameRestored(mem, tr, mem', tr', bottom, limit, K)
    ensures Restores(mem', tr', bottom, cells, cp, L, s)
  {
    assert OnChain(mem, tr, cp);
    assert SameFrom(mem, tr, mem', tr', bottom, cp, K);
  }

  /** Below limit the frames left are those of the old chain. */
  lemma FramesCut(mem: Mem, mem': Mem, bottom: nat, e: Env, e': Env, trf: nat, F: iset<nat>, i: nat, limit: nat)
    requires EnvOk(mem, bottom, e, F) && FrozenBelow(mem, bottom, e.tr, trf, F) && i + 1 < |e.cps|
    requires limit == (if trf < e.cps[i + 1].tr then e.cps[i + 1].tr else trf)
    requires Tidied(mem, mem', bottom, e, e', limit, CondAt(e.cps[i], F))
    ensures LinkedTo(mem', e'.tr, bottom) && FramesIn(mem', e'.tr, bottom, CondAt(e.cps[i], F))
  {
    var K := CondAt(e.cps[i], F);
    forall q: nat | bottom <= q <= limit && OnChain(mem', e'.tr, q)
        ensures LinkedTo(mem', q, bottom) && FramesIn(mem', q, bottom, K)
    {
      assert OnChain(mem, e.tr, q);
      assert RestoresAt(mem, bottom, e, F, i + 1) && SegmentAt(mem, bottom, e, F, i);
      if q <= e.cps[i + 1].tr {
        ChainPart(mem, e.tr, e.cps[i + 1].tr, q);
        FramesBelow(mem, e.cps[i + 1].tr, q, bottom, K);
      } else {
        FramesMore(mem, q, bottom, F, K);
      }
      SameChain(mem, mem', q, bottom, bottom, map[]);
      SameFramesIn(mem, mem', q, bottom, K);
    }
    TidyFrames(mem', e'.tr, bottom, limit, K);
  }

  lemma EnvCut(mem: Mem, mem': Mem, bottom: nat, e: Env, e': Env, trf: nat, F: iset<nat>, i: nat, limit: nat)
    requires EnvOk(mem, bottom, e, F) && FrozenBelow(mem, bottom, e.tr, trf, F) && i + 1 < |e.cps|
    requires limit == (if trf < e.cps[i + 1].tr then e.cps[i + 1].tr else trf)
    requires e' == FirstChoices(e, i + 1).(tr := e'.tr)
    requires Tidied(mem, mem', bottom, e, e', limit, CondAt(e.cps[i], F))
    ensures EnvOk(mem', bottom, e', F)
  {
    var K := CondAt(e.cps[i], F);
    FramesCut(mem, mem', bottom, e, e', trf, F, i, limit);
    RightAll(mem, e.tr, bottom, Conditionals(e, F), K, e.cells);
    assert Right(mem', e'.tr, bottom, K, e.cells) && Conditionals(e', F) == K;
    forall j: nat | j <= i ensures RestoresAt(mem', bottom, e', F, j) {
      assert RestoresAt(mem, bottom, e, F, j);
      assert e.cps[j].tr <= e.cps[i + 1].tr && CondAt(e.cps[j], F) <= K;
      RestoresCut(mem, mem', bottom, e.tr, e'.tr, e.cells, e.cps[j].tr, K, e.kept[j], e.saved[j], limit);
    }
    forall j: nat | j + 1 <= i ensures SegmentAt(mem', bottom, e', F, j) {
      assert SegmentAt(mem, bottom, e, F, j) && e.cps[j + 1].tr <= e.cps[i + 1].tr;
      SegmentSame(mem, mem', bottom, e, F, j);
    }
  }

  lemma MeetsCut(mem: Mem, mem': Mem, bottom: nat, tr: nat, tr': nat, cells: Cells, m: Mark, limit: nat, K: iset<nat>)
    requires SameRestored(mem, tr, mem', tr', bottom, limit, K) && SameUpTo(mem, mem', limit)
    requires Meets(mem, bottom, tr, cells, m) && m.env.tr <= limit && m.frozen <= K
    ensures Meets(mem', bottom, tr', cells, m)
  {
    SameChain(mem, mem', m.env.tr, bottom, bottom, map[]);
    forall c: nat | bottom <= c && OnChain(mem', tr', c) && OnChain(mem', m.env.tr, c)
        ensures MeetsAt(mem', bottom, tr', cells, m, c)
    {
      ChainDown(mem', m.env.tr, c);
      SameBoth(mem, mem', m.env.tr, bottom, c);
      assert OnChain(mem, tr, c) && SameFrom(mem, tr, mem', tr', bottom, c, K);
      assert MeetsAt(mem, bottom, tr, cells, m, c);
      SameChain(mem, mem', m.env.tr, bottom, c, m.env.cells);
    }
  }

  lemma SoundCut(mem: Mem, mem': Mem, bottom: nat, e: Env, e': Env, trf: nat, F: iset<nat>, marks: seq<Mark>, i: nat,
                 limit: nat)
    requires Sound(mem, bottom, e, trf, F, marks) && i + 1 < |e.cps|
    requires limit == (if trf < e.cps[i + 1].tr then e.cps[i + 1].tr else trf)
    requires e' == FirstChoices(e, i + 1).(tr := e'.tr)
    requires Tidied(mem, mem', bottom, e, e', limit, CondAt(e.cps[i], F))
    ensures Sound(mem', bottom, e', trf, F, marks)
  {
    var K := CondAt(e.cps[i], F);
    EnvCut(mem, mem', bottom, e, e', trf, F, i, limit);
    hide EnvOk, MarkOk, Meets;
    forall q: nat | bottom <= q <= trf && OnChain(mem', e'.tr, q)
        ensures LinkedTo(mem', q, bottom) && FramesIn(mem', q, bottom, F)
    {
      assert OnChain(mem, e.tr, q);
      SameChain(mem, mem', q, bottom, bottom, map[]);
      SameFramesIn(mem, mem', q, bottom, F);
    }
    forall j: nat | j < |marks| ensures MarkAt(mem', bottom, e', trf, F, marks[j]) {
      assert MarkAt(mem, bottom, e, trf, F, marks[j]);
      MarkSame(mem, mem', bottom, marks[j]);
      MeetsCut(mem, mem', bottom, e.tr, e'.tr, e.cells, marks[j], limit, K);
    }
    PairsSame(mem, mem', bottom, trf, marks);
  }
}
