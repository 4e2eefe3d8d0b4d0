/** Generating the code for a term. */
module TermCompiler {
  import opened Sequences
  import opened CompilerState
  import opened Machine
  import opened TermSpec
  import opened BuildSpec

  /** A term whose code is still to be generated, and the register that will refer to its place. */
  datatype Pend = Pend(reg: Reg, term: Term)

  ghost predicate DistinctRegs(q: seq<Pend>) {
    forall i, j | 0 <= i < j < |q| :: q[i].reg != q[j].reg
  }

  ghost predicate QueueIs(q: seq<Pend>, waiting: Waiting) {
    && DistinctRegs(q)
    && (forall x | x in q :: x.reg in waiting && waiting[x.reg] == x.term && Compound(x.term))
    && (forall r | r in waiting :: Pend(r, waiting[r]) in q)
  }

  lemma QueueAdded(q: seq<Pend>, waiting: Waiting, x: Pend)
    requires QueueIs(q, waiting) && x.reg !in waiting && Compound(x.term)
    ensures QueueIs([x] + q, waiting[x.reg := x.term])
  {
    var q', waiting' := [x] + q, waiting[x.reg := x.term];
    forall i, j | 0 <= i < j < |q'| ensures q'[i].reg != q'[j].reg {
      assert q'[j] == q[j - 1] && q[j - 1] in q;
      assert i > 0 ==> q'[i] == q[i - 1];
    }
    assert forall y :: y in q' <==> y == x || y in q;
  }

  lemma QueuePopped(q: seq<Pend>, waiting: Waiting, x: Pend)
    requires QueueIs(q + [x], waiting)
    ensures x.reg in waiting && waiting[x.reg] == x.term && Compound(x.term)
    ensures QueueIs(q, waiting - {x.reg})
  {
    var q' := q + [x];
    assert x in q' && q'[|q|] == x;
    forall y | y in q ensures y.reg != x.reg && y in q' {
      var i :| 0 <= i < |q| && q[i] == y;
      assert q'[i].reg != q'[|q|].reg;
    }
    assert forall i | 0 <= i < |q| :: q'[i] == q[i];
    forall r | r in waiting && r != x.reg ensures Pend(r, waiting[r]) in q {
      assert Pend(r, waiting[r]) in q';
    }
  }

  lemma QueueRotated(q: seq<Pend>, waiting: Waiting, k: nat)
    requires QueueIs(q, waiting) && k <= |q|
    ensures QueueIs(Rotated(q, k), waiting)
  {
    var q' := Rotated(q, k);
    forall i, j | 0 <= i < j < |q'| ensures q'[i].reg != q'[j].reg {
      var i' := if i < |q| - k then i + k else i - (|q| - k);
      var j' := if j < |q| - k then j + k else j - (|q| - k);
      assert q'[i] == q[i'] && q'[j] == q[j'];
      assert if i' < j' then q[i'].reg != q[j'].reg else q[j'].reg != q[i'].reg;
    }
    assert q == q[..k] + q[k..];
    assert forall x :: x in q' <==> x in q;
  }

  // ------------------------------------------------------------------
  // Every pending term gets smaller.

  function Size(t: Term): (n: nat)
    ensures n > 0
  {
    match t
    case List(x, y) => 1 + Size(x) + Size(y)
    case Str(_, args) => 1 + SizeArgs(t, 0)
    case _ => 1
  }

  function SizeArgs(t: Term, i: nat): nat
    requires t.Str?
    decreases t, 0, |t.args| - i
  {
    if i < |t.args| then Size(t.args[i]) + SizeArgs(t, i + 1) else 0
  }

  function Terms(q: seq<Pend>): seq<Term> {
    seq(|q|, i requires 0 <= i < |q| => q[i].term)
  }

  lemma TermsSplit(a: seq<Pend>, b: seq<Pend>)
    ensures Terms(a + b) == Terms(a) + Terms(b)
  {
  }

  function Weight(q: seq<Term>): nat {
    if q == [] then 0 else Weight(q[..|q| - 1]) + Size(q[|q| - 1])
  }

  lemma {:induction false} WeightConcat(a: seq<Term>, b: seq<Term>)
    ensures Weight(a + b) == Weight(a) + Weight(b)
    decreases |b|
  {
    if b == [] {
      assert a + b == a;
    } else {
      assert (a + b)[..|a + b| - 1] == a + b[..|b| - 1];
      WeightConcat(a, b[..|b| - 1]);
    }
  }

  lemma WeightOne(t: Term)
    ensures Weight([t]) == Size(t)
  {
    assert [t][..0] == [];
  }

  // ------------------------------------------------------------------
  // How many registers the waiting terms need.

  function Subterms(t: Term): seq<Term> {
    match t
    case List(x, y) => [x, y]
    case Str(_, args) => args
    case _ => []
  }

  /** What an argument leaves waiting: itself, or the structure at the end of its fused cells. */
  function Waits(t: Term, last: bool): (r: seq<Term>)
    ensures Weight(r) <= Size(t) && |r| <= (if Compound(t) then 1 else 0) && (|r| == 1 ==> Compound(r[0]))
    ensures !last ==> |r| == if Compound(t) then 1 else 0
  {
    if !Compound(t) then []
    else if Fused(t, last) then Waits(t.cdr, last)
    else
      WeightOne(t);
      [t]
  }

  /** What the first i arguments leave waiting, the first one at the end. */
  function WaitsTo(t: Term, i: nat): seq<Term>
    requires i <= |Subterms(t)|
  {
    if i == 0 then [] else Waits(Subterms(t)[i - 1], i == |Subterms(t)|) + WaitsTo(t, i - 1)
  }

  function Children(t: Term): seq<Term> {
    WaitsTo(t, |Subterms(t)|)
  }

  /** The structures among the first i arguments. */
  function WidthTo(t: Term, i: nat): nat
    requires i <= |Subterms(t)|
  {
    if i == 0 then 0 else WidthTo(t, i - 1) + if Compound(Subterms(t)[i - 1]) then 1 else 0
  }

  function Width(t: Term): nat {
    WidthTo(t, |Subterms(t)|)
  }

  lemma {:induction false} WidthGrows(t: Term, i: nat, j: nat)
    requires i <= j <= |Subterms(t)|
    ensures WidthTo(t, i) <= WidthTo(t, j) && |WaitsTo(t, i)| <= |WaitsTo(t, j)|
  {
    hide Waits;
    if i < j {
      WidthGrows(t, i, j - 1);
    }
  }

  lemma {:induction false} WaitsWidth(t: Term, i: nat)
    requires i <= |Subterms(t)|
    ensures |WaitsTo(t, i)| <= WidthTo(t, i)
    ensures i < |Subterms(t)| ==> |WaitsTo(t, i)| == WidthTo(t, i)
  {
    hide Waits;
    if i > 0 {
      WaitsWidth(t, i - 1);
    }
  }

  lemma EmptyWeight()
    ensures Weight([]) == 0
  {
  }

  lemma {:induction false} WaitsSmaller(t: Term, i: nat)
    requires t.Str? && i <= |t.args|
    ensures Weight(WaitsTo(t, i)) + SizeArgs(t, i) <= SizeArgs(t, 0)
  {
    hide Waits, Weight;
    assert WaitsTo(t, 0) == [];
    EmptyWeight();
    if i > 0 {
      WaitsSmaller(t, i - 1);
      WeightConcat(Waits(t.args[i - 1], i == |t.args|), WaitsTo(t, i - 1));
    }
  }

  lemma ChildrenSmaller(t: Term)
    requires Compound(t)
    ensures Weight(Children(t)) < Size(t)
  {
    if t.List? {
      var x, y := Waits(t.car, false), Waits(t.cdr, true);
      assert WaitsTo(t, 1) == x + WaitsTo(t, 0) == x;
      assert Children(t) == y + x;
      WeightConcat(y, x);
    } else {
      WaitsSmaller(t, |t.args|);
    }
  }

  /** The registers that are in use at the same time for the code of a term. */
  function Peak(t: Term): nat
    decreases Size(t), 0
  {
    if !Compound(t) then 0
    else
      ChildrenSmaller(t);
      Larger(Width(t), Need(Children(t)))
  }

  /** The registers in use at the same time from when the terms q wait until all their code is
      there; the last one is next. */
  function Need(q: seq<Term>): nat
    decreases Weight(q), 1 + |q|
  {
    if q == [] then 0 else Larger(|q| - 1 + Peak(q[|q| - 1]), Need(q[..|q| - 1]))
  }

  function Larger(a: nat, b: nat): nat {
    if a < b then b else a
  }

  lemma NeedUnfold(q: seq<Term>)
    ensures Need(q) == if q == [] then 0 else Larger(|q| - 1 + Peak(q[|q| - 1]), Need(q[..|q| - 1]))
  {
    hide Peak, Weight, Size;
  }

  lemma {:induction false} NeedConcat(a: seq<Term>, b: seq<Term>)
    ensures Need(a + b) == if b == [] then Need(a) else Larger(Need(a), |a| + Need(b))
    decreases |b|
  {
    hide Need, Peak;
    NeedUnfold(b);
    NeedUnfold(a + b);
    if b == [] {
      assert a + b == a;
    } else {
      var b' := b[..|b| - 1];
      assert (a + b)[..|a + b| - 1] == a + b';
      NeedConcat(a, b');
      NeedUnfold(b');
    }
  }

  /** Taking the last term and putting its children in its place does not change whether free registers suffice. */
  lemma NeedNext(q: seq<Term>, t: Term, free: nat)
    requires Compound(t) && free >= |q|
    ensures Need(q + [t]) <= free <==> Width(t) <= free - |q| && Need(q + Children(t)) <= free
  {
    NeedConcat(q, [t]);
    NeedConcat(q, Children(t));
    PeakUnfold(t);
    hide Need, Peak, Children, Width;
    assert q + [] == q;
  }

  lemma PeakUnfold(t: Term)
    ensures Need([]) == 0 && Need([t]) == Peak(t)
    ensures Compound(t) ==> Peak(t) == Larger(Width(t), Need(Children(t)))
  {
    assert [t][..0] == [];
  }

  /** A term never needs more registers than it has symbols. */
  lemma {:induction false} PeakAtMostSize(t: Term)
    ensures Peak(t) <= Size(t)
    decreases Size(t), 0
  {
    if Compound(t) {
      ChildrenSmaller(t);
      NeedAtMostWeight(Children(t));
      if t.Str? {
        WidthAtMostSize(t, |t.args|);
      } else {
        assert WidthTo(t, 2) == WidthTo(t, 1) + if Compound(t.cdr) then 1 else 0;
        assert WidthTo(t, 1) == WidthTo(t, 0) + if Compound(t.car) then 1 else 0;
      }
    }
  }

  lemma {:induction false} NeedAtMostWeight(q: seq<Term>)
    ensures Need(q) <= Weight(q) && |q| <= Weight(q)
    decreases Weight(q), 1 + |q|
  {
    if q != [] {
      NeedAtMostWeight(q[..|q| - 1]);
      PeakAtMostSize(q[|q| - 1]);
    }
  }

  lemma {:induction false} WidthAtMostSize(t: Term, i: nat)
    requires t.Str? && i <= |t.args|
    ensures WidthTo(t, i) + SizeArgs(t, i) <= SizeArgs(t, 0)
  {
    if i > 0 {
      WidthAtMostSize(t, i - 1);
    }
  }

  /** The places of the structures among the first n terms. */
  function StructuresIn(ts: seq<Term>, n: nat): set<nat>
    requires n <= |ts|
  {
    set k: nat | k < n && Compound(ts[k])
  }

  lemma {:induction false} WidthCounts(t: Term, i: nat)
    requires i <= |Subterms(t)|
    ensures WidthTo(t, i) == |StructuresIn(Subterms(t), i)|
  {
    if i > 0 {
      WidthCounts(t, i - 1);
      var S := StructuresIn(Subterms(t), i - 1);
      assert StructuresIn(Subterms(t), i) == if Compound(Subterms(t)[i - 1]) then S + {i - 1} else S;
    }
  }

  /** No two arguments are structures. */
  predicate AtMostOne(ts: seq<Term>) {
    forall j, k | 0 <= j < k < |ts| :: !(Compound(ts[j]) && Compound(ts[k]))
  }

  lemma WidthOne(t: Term)
    ensures Width(t) <= 1 <==> AtMostOne(Subterms(t))
  {
    var ts := Subterms(t);
    var S := StructuresIn(ts, |ts|);
    WidthCounts(t, |ts|);
    if j, k :| 0 <= j < k < |ts| && Compound(ts[j]) && Compound(ts[k]) {
      SubsetSize({j, k}, S);
    } else if S != {} {
      var k :| k in S;
      forall j | j in S ensures j == k {
        assert !(j < k) && !(k < j);
      }
      SubsetSize(S, {k});
    }
  }

  /** No structure in the term has two structures as arguments. */
  predicate OnePath(t: Term) {
    match t
    case List(x, y) => !(Compound(x) && Compound(y)) && OnePath(x) && OnePath(y)
    case Str(_, args) => AtMostOne(args) && forall i | 0 <= i < |args| :: OnePath(args[i])
    case _ => true
  }

  ghost predicate AllOnePath(ts: seq<Term>) {
    forall i: nat | i < |ts| :: OnePath(ts[i])
  }

  lemma {:induction false} WaitsOnePath(t: Term, last: bool)
    ensures AllOnePath(Waits(t, last)) <==> OnePath(t)
  {
    if Compound(t) && Fused(t, last) {
      WaitsOnePath(t.cdr, last);
    }
  }

  lemma {:induction false} ChildrenOnePath(t: Term, i: nat)
    requires i <= |Subterms(t)|
    ensures AllOnePath(WaitsTo(t, i)) <==> AllOnePath(Subterms(t)[..i])
  {
    NoneOnePath();
    if i > 0 {
      hide Waits, OnePath, AllOnePath;
      var w, x := Waits(Subterms(t)[i - 1], i == |Subterms(t)|), Subterms(t)[i - 1];
      ChildrenOnePath(t, i - 1);
      WaitsOnePath(x, i == |Subterms(t)|);
      OnePathConcat(w, WaitsTo(t, i - 1));
      OnePathConcat(Subterms(t)[..i - 1], [x]);
      assert Subterms(t)[..i] == Subterms(t)[..i - 1] + [x];
    }
  }

  lemma NoneOnePath()
    ensures AllOnePath([])
  {
  }

  lemma OnePathConcat(a: seq<Term>, b: seq<Term>)
    ensures AllOnePath(a + b) <==> AllOnePath(a) && AllOnePath(b)
    ensures forall x :: AllOnePath([x]) <==> OnePath(x)
  {
    if AllOnePath(a + b) {
      assert forall i: nat | i < |a| :: (a + b)[i] == a[i];
      assert forall i: nat | i < |b| :: (a + b)[|a| + i] == b[i];
    }
    forall x ensures AllOnePath([x]) <==> OnePath(x) {
      assert AllOnePath([x]) ==> OnePath([x][0]);
    }
  }

  lemma OnePathUnfold(t: Term)
    requires Compound(t)
    ensures OnePath(t) <==> AtMostOne(Subterms(t)) && AllOnePath(Subterms(t))
  {
    if t.List? {
      assert AllOnePath([t.car, t.cdr]) <==> OnePath([t.car, t.cdr][0]) && OnePath([t.car, t.cdr][1]);
      assert AtMostOne([t.car, t.cdr]) <==> !(Compound([t.car, t.cdr][0]) && Compound([t.car, t.cdr][1]));
    }
  }

  /** A structure leaves a register for one argument, and that one goes on in the same way. */
  lemma OnePathChild(t: Term) returns (q: seq<Term>)
    requires Compound(t)
    ensures OnePath(t) <==> Width(t) <= 1 && AllOnePath(q)
    ensures Peak(t) <= 1 <==> Width(t) <= 1 && Need(q) <= 1
    ensures |q| <= Width(t) && Weight(q) < Size(t)
  {
    q := Children(t);
    PeakUnfold(t);
    WidthOne(t);
    ChildrenOnePath(t, |Subterms(t)|);
    assert Subterms(t)[..|Subterms(t)|] == Subterms(t);
    OnePathUnfold(t);
    WaitsWidth(t, |Subterms(t)|);
    ChildrenSmaller(t);
    hide Peak, Need, WaitsTo, OnePath, AtMostOne, AllOnePath, Size, Weight;
  }

  lemma NotCompound(t: Term)
    ensures !Compound(t) ==> Peak(t) == 0 && OnePath(t)
  {
  }

  /** One free register is enough exactly for the terms in which no structure has two structures as arguments. */
  lemma {:induction false} OneRegisterEnough(t: Term)
    ensures Peak(t) <= 1 <==> OnePath(t)
    decreases Size(t)
  {
    NotCompound(t);
    hide Peak, Need, OnePath, Size, Weight, Children, Width;
    if Compound(t) {
      var q := OnePathChild(t);
      if |q| == 1 {
        assert q == [q[0]];
        WeightOne(q[0]);
        OneRegisterEnough(q[0]);
        PeakUnfold(q[0]);
      } else if |q| == 0 {
        assert q == [];
        PeakUnfold(t);
      }
    }
  }

  /** A term whose arguments hold no further structures needs a register for each argument that is a structure. */
  lemma FlatArguments(t: Term)
    requires Compound(t) && forall i: nat | i < |Subterms(t)| :: AllFlat(Subterms(Subterms(t)[i]))
    ensures Peak(t) == |StructuresIn(Subterms(t), |Subterms(t)|)|
  {
    WidthCounts(t, |Subterms(t)|);
    PeakUnfold(t);
    FlatChildren(t, |Subterms(t)|);
    WaitsWidth(t, |Subterms(t)|);
    FlatNeed(Children(t));
  }

  predicate AllFlat(ts: seq<Term>) {
    forall i | 0 <= i < |ts| :: !Compound(ts[i])
  }

  lemma {:induction false} FlatChildren(t: Term, i: nat)
    requires i <= |Subterms(t)| && forall k: nat | k < |Subterms(t)| :: AllFlat(Subterms(Subterms(t)[k]))
    ensures forall k: nat | k < |WaitsTo(t, i)| :: AllFlat(Subterms(WaitsTo(t, i)[k]))
  {
    if i > 0 {
      FlatChildren(t, i - 1);
      FlatWaits(Subterms(t)[i - 1], i == |Subterms(t)|);
    }
  }

  lemma FlatWaits(t: Term, last: bool)
    requires AllFlat(Subterms(t))
    ensures forall k: nat | k < |Waits(t, last)| :: AllFlat(Subterms(Waits(t, last)[k]))
  {
    if t.List? {
      assert !Compound(Subterms(t)[1]);
    }
  }

  lemma {:induction false} FlatNeed(q: seq<Term>)
    requires forall k: nat | k < |q| :: AllFlat(Subterms(q[k]))
    ensures Need(q) <= |q|
  {
    hide Need, Peak;
    NeedUnfold(q);
    if q != [] {
      FlatNeed(q[..|q| - 1]);
      FlatNeedsNone(q[|q| - 1]);
    }
  }

  lemma FlatNeedsNone(t: Term)
    requires AllFlat(Subterms(t))
    ensures Peak(t) == 0
  {
    if Compound(t) {
      WidthCounts(t, |Subterms(t)|);
      assert StructuresIn(Subterms(t), |Subterms(t)|) == {};
      WaitsWidth(t, |Subterms(t)|);
      PeakUnfold(t);
    }
  }

  // ------------------------------------------------------------------

  ghost predicate AllBuilding(code: seq<Instr>, p: Progress, start: Reg, t: Term, busy: set<nat>) {
    forall s0: State {:trigger Run(s0, code)} | !s0.failed :: Building(s0, Run(s0, code), p, start, t, busy)
  }

  /** The code so far, and the registers whose terms are waiting: these are in use. */
  ghost predicate Compiling(code: seq<Instr>, p: Progress, q: seq<Pend>, start: Reg, t: Term, busy: set<nat>,
                            temps: set<nat>)
  {
    && AllBuilding(code, p, start, t, busy) && Shaped(p)
    && QueueIs(q, p.waiting) && p.waiting.Keys <= temps && start in busy && busy !! temps
  }

  lemma EmitWord(code: seq<Instr>, p: Progress, q: seq<Pend>, start: Reg, t: Term, busy: set<nat>, temps: set<nat>,
                 i: Instr, sub: Term)
    requires Compiling(code, p, q, start, t, busy, temps) && p.m > 0 && p.len in p.holes && p.holes[p.len] == sub
    requires match i {
               case BldCon(c) => sub == Atom(c)
               case BldNumCon(n) => sub == Int(n)
               case BldNil => sub == EmptyList
               case _ => false
             }
    ensures Compiling(code + [i], OneMore(p), q, start, t, busy, temps)
  {
    hide Building, Shaped;
    OneMoreShaped(p);
    forall s0: State | !s0.failed ensures Building(s0, Run(s0, code + [i]), OneMore(p), start, t, busy) {
      RunSnoc(s0, code, i);
      BuildWord(s0, Run(s0, code), p, start, t, busy, i, sub);
    }
  }

  lemma EmitVar(code: seq<Instr>, p: Progress, q: seq<Pend>, start: Reg, t: Term, busy: set<nat>, temps: set<nat>,
                r: Reg, sub: Term)
    requires Compiling(code, p, q, start, t, busy, temps) && p.m > 0 && p.len in p.holes && p.holes[p.len] == Built(sub)
    requires r !in busy + temps && Compound(sub)
    ensures Compiling(code + [BldTVar(r)], OneVar(p, r, sub), [Pend(r, sub)] + q, start, t, busy, temps + {r})
  {
    hide Building, Shaped;
    OneVarShaped(p, r, sub);
    QueueAdded(q, p.waiting, Pend(r, sub));
    forall s0: State | !s0.failed ensures Building(s0, Run(s0, code + [BldTVar(r)]), OneVar(p, r, sub), start, t, busy)
    {
      RunSnoc(s0, code, BldTVar(r));
      BuildVar(s0, Run(s0, code), p, start, t, busy, r, sub);
    }
  }

  lemma EmitPair(code: seq<Instr>, p: Progress, q: seq<Pend>, start: Reg, t: Term, busy: set<nat>, temps: set<nat>,
                 hi: nat, lo: nat, sub: Term)
    requires Compiling(code, p, q, start, t, busy, temps) && p.m == 1 && p.len in p.holes
             && p.holes[p.len] == BuiltSub(sub, true)
    requires Fused(sub, true) && Trunc32(sub.car.n) == hi * 256 + lo
    ensures Compiling(code + [BldTVarListNumCon(hi, lo)], OnePair(p, sub.cdr), q, start, t, busy, temps)
  {
    hide Building, Shaped;
    OnePairShaped(p, sub.cdr);
    var i := BldTVarListNumCon(hi, lo);
    forall s0: State | !s0.failed ensures Building(s0, Run(s0, code + [i]), OnePair(p, sub.cdr), start, t, busy) {
      RunSnoc(s0, code, i);
      BuildPair(s0, Run(s0, code), p, start, t, busy, hi, lo, sub.cdr);
    }
  }

  lemma EmitOpen(code: seq<Instr>, p: Progress, q: seq<Pend>, x: Pend, start: Reg, t: Term, busy: set<nat>,
                 temps: set<nat>)
    requires Compiling(code, p, q + [x], start, t, busy, temps) && p.m == 0
    ensures x.reg in p.waiting && x.reg in p.at && p.waiting[x.reg] == x.term && Compound(x.term) && x.reg in temps
    ensures Compiling(code + [OpenInstr(x.term, x.reg, false)], Opened(p, x.reg), q, start, t, busy, temps - {x.reg})
  {
    QueuePopped(q, p.waiting, x);
    SameKeys(p);
    hide Building, Shaped;
    OpenedShaped(p, x.reg);
    var i := OpenInstr(x.term, x.reg, false);
    forall s0: State | !s0.failed ensures Building(s0, Run(s0, code + [i]), Opened(p, x.reg), start, t, busy) {
      RunSnoc(s0, code, i);
      OpenWaiting(s0, Run(s0, code), p, start, t, busy, x.reg);
    }
  }

  lemma EmitStart(start: Reg, t: Term, busy: set<nat>, temps: set<nat>)
    requires Compound(t) && start in busy && busy !! temps
    ensures Compiling([OpenInstr(t, start, true)], Started(t), [], start, t, busy, temps)
  {
    StartedShaped(t);
    assert Started(t).waiting == map[] && QueueIs([], map[]);
    hide Building, Shaped, Started, QueueIs, OpenInstr, Step;
    var i := OpenInstr(t, start, true);
    forall s0: State | !s0.failed ensures Building(s0, Run(s0, [i]), Started(t), start, t, busy) {
      RunSnoc(s0, [], i);
      assert [] + [i] == [i] && Run(s0, []) == s0;
      StartBuilding(s0, start, t, busy);
    }
  }

  /** The parts still to come. */
  ghost predicate Coming(p: Progress, parts: seq<Term>) {
    p.m == |parts| && forall i: nat | i < |parts| :: ComesAt(p, p.len + i, parts[i])
  }

  ghost predicate ComesAt(p: Progress, o: nat, part: Term) {
    o in p.holes && p.holes[o] == part
  }

  lemma ComingNext(p: Progress, parts: seq<Term>, r: Reg, t: Term)
    requires Coming(p, parts) && parts != []
    ensures p.m > 0 && p.len in p.holes && p.holes[p.len] == parts[0]
    ensures Coming(OneMore(p), parts[1..]) && Coming(OneVar(p, r, t), parts[1..])
    ensures |parts| == 1 ==> p.m == 1 && Coming(OnePair(p, t), [BuiltSub(t, true)])
  {
    assert ComesAt(p, p.len + 0, parts[0]);
    forall i: nat | i < |parts[1..]| ensures ComesAt(OneMore(p), p.len + 1 + i, parts[1..][i])
        && ComesAt(OneVar(p, r, t), p.len + 1 + i, parts[1..][i])
    {
      var next := i + 1;
      assert ComesAt(p, p.len + next, parts[next]);
    }
  }

  /** The fused instruction for a list cell with a small number. */
  method GenPair(sub: Term, code0: seq<Instr>, ghost p0: Progress, ghost q: seq<Pend>, ghost start: Reg, ghost t: Term,
                 ghost busy: set<nat>, ghost temps: set<nat>)
    returns (code: seq<Instr>, ghost p: Progress)
    requires Compiling(code0, p0, q, start, t, busy, temps) && p0.m == 1 && p0.len in p0.holes
             && p0.holes[p0.len] == BuiltSub(sub, true)
    requires Fused(sub, true)
    ensures Compiling(code, p, q, start, t, busy, temps) && p == OnePair(p0, sub.cdr)
  {
    var num := Trunc32(sub.car.n);
    EmitPair(code0, p0, q, start, t, busy, temps, num / 256, num % 256, sub);
    code, p := code0 + [BldTVarListNumCon(num / 256, num % 256)], OnePair(p0, sub.cdr);
  }

  /** Generates the code for one argument; structures wait in the queue. */
  method DbGenInst(sub0: Term, last: bool, R: RegStat, fq: InstQueue<Pend>, code0: seq<Instr>,
                   ghost p0: Progress, ghost parts: seq<Term>, ghost start: Reg, ghost t: Term)
    returns (ok: bool, code: seq<Instr>, ghost p: Progress)
    requires fq.Valid() && R.Valid() && 0 <= fq.added <= |fq.Contents()|
    requires Compiling(code0, p0, fq.Contents(), start, t, Busy(R), Temps(R))
    requires parts != [] && parts[0] == BuiltSub(sub0, last) && Coming(p0, parts) && (last ==> |parts| == 1)
    modifies fq, fq.cells, R, R.reg
    ensures ok ==> fq.Valid() && R.Valid() && Busy(R) == old(Busy(R)) && 0 <= fq.added <= |fq.Contents()|
    ensures ok ==> Compiling(code, p, fq.Contents(), start, t, Busy(R), Temps(R))
    ensures ok ==> Coming(p, parts[1..])
    ensures ok ==
            ((Compound(sub0) ==> old(FreeCount(R)) > 0) && |Waits(sub0, last)| + |old(fq.Contents())| < INST_QUEUE_SIZE)
    ensures ok ==> Terms(fq.Contents()) == Waits(sub0, last) + old(Terms(fq.Contents()))
    ensures ok ==> FreeCount(R) + |fq.Contents()| == old(FreeCount(R) + |fq.Contents()|)
    ensures ok ==> fq.added - |fq.Contents()| == old(fq.added - |fq.Contents()|)
  {
    hide Compiling, Coming, OneMore, OneVar, OnePair, Busy, Temps, FreeCount, Waits, Terms;
    fq.SizeBound();
    InRange(R);
    WaitsUnfold(sub0, last);
    ghost var now;
    var sub;
    ok, sub, code, p, now := GenFused(sub0, last, R, code0, p0, fq.Contents(), parts, start, t);
    if !ok {
      return;
    }
    WaitsUnfold(sub, last);
    ComingNext(p, now, start, sub);
    if sub.Int? || sub.Atom? || sub.EmptyList? {
      var i := if sub.Int? then BldNumCon(sub.n) else if sub.Atom? then BldCon(sub.name) else BldNil;
      EmitWord(code, p, fq.Contents(), start, t, Busy(R), Temps(R), i, sub);
      code, p := code + [i], OneMore(p);
      return;
    }
    ghost var busy, temps := Busy(R), Temps(R);
    var r;
    ok, r := GetTemp(R);
    if !ok {
      return;
    }
    ComingNext(p, now, r, sub);
    EmitVar(code, p, fq.Contents(), start, t, busy, temps, r, sub);
    code, p := code + [BldTVar(r)], OneVar(p, r, sub);
    TermsOneMore(r, sub, fq.Contents());
    ok := fq.Add(Pend(r, sub));
  }

  lemma WaitsUnfold(t: Term, last: bool)
    ensures |Waits(t, last)| <= 1 && (Fused(t, last) ==> Compound(t))
    ensures !Compound(t) ==> Waits(t, last) == []
    ensures Compound(t) && !Fused(t, last) ==> Waits(t, last) == [t] && BuiltSub(t, last) == Built(t)
    ensures !Compound(t) ==> BuiltSub(t, last) == t
    ensures Fused(t, last) ==> Waits(t, last) == Waits(t.cdr, last)
  {
  }

  lemma TermsOneMore(r: Reg, t: Term, q: seq<Pend>)
    ensures Terms([Pend(r, t)] + q) == [t] + Terms(q)
  {
  }

  /** The cells at the end of a structure that have an instruction of their own; each needs a register for a moment. */
  method GenFused(sub0: Term, last: bool, R: RegStat, code0: seq<Instr>, ghost p0: Progress, ghost q: seq<Pend>,
                  ghost parts: seq<Term>, ghost start: Reg, ghost t: Term)
    returns (ok: bool, sub: Term, code: seq<Instr>, ghost p: Progress, ghost now: seq<Term>)
    requires R.Valid() && Compiling(code0, p0, q, start, t, Busy(R), Temps(R))
    requires parts != [] && parts[0] == BuiltSub(sub0, last) && Coming(p0, parts) && (last ==> |parts| == 1)
    modifies R, R.reg
    ensures ok == (Fused(sub0, last) ==> old(FreeCount(R)) > 0)
    ensures ok ==> !Fused(sub, last) && Waits(sub, last) == Waits(sub0, last)
    ensures ok ==>
            R.Valid() && Busy(R) == old(Busy(R)) && Temps(R) == old(Temps(R)) && FreeCount(R) == old(FreeCount(R))
    ensures ok ==> Compiling(code, p, q, start, t, Busy(R), Temps(R))
    ensures ok ==> now != [] && now[0] == BuiltSub(sub, last) && Coming(p, now) && now[1..] == parts[1..]
    ensures sub == sub0 || Fused(sub0, last)
  {
    hide Compiling, Coming, OneMore, OneVar, OnePair, Busy, Temps, FreeCount, Waits, Fused;
    ghost var busy, temps := Busy(R), Temps(R);
    sub, code, p, ok, now := sub0, code0, p0, true, parts;
    InRange(R);
    while last && sub.List? && sub.car.Int? && 0 <= Trunc32(sub.car.n) <= 0xffff
      invariant R.Valid() && Busy(R) == busy && Temps(R) == temps && FreeCount(R) == old(FreeCount(R))
      invariant Compiling(code, p, q, start, t, busy, temps)
      invariant now != [] && now[0] == BuiltSub(sub, last) && Coming(p, now) && now[1..] == parts[1..]
                && (last ==> |now| == 1)
      invariant ok && Waits(sub, last) == Waits(sub0, last)
      invariant sub == sub0 || (Fused(sub0, last) && FreeCount(R) > 0)
      decreases sub
    {
      FusedTest(sub, last);
      ComingNext(p, now, start, sub);
      WaitsUnfold(sub, last);
      var r;
      ok, r := GetTemp(R);
      if !ok {
        return;
      }
      ComingNext(p, now, r, sub.cdr);
      code, p := GenPair(sub, code, p, q, start, t, busy, temps);
      ReleaseSource(R, r);
      assert temps + {r} - {r} == temps;
      sub := sub.cdr;
      now := [BuiltSub(sub, true)];
    }
    FusedTest(sub, last);
  }

  lemma FusedTest(t: Term, last: bool)
    ensures Fused(t, last) <==> last && t.List? && t.car.Int? && 0 <= Trunc32(t.car.n) <= 0xffff
  {
  }

  /** Generates the code for the arguments of an opened structure. */
  method DbGenArgs(x: Term, R: RegStat, fq: InstQueue<Pend>, code0: seq<Instr>, ghost p0: Progress, ghost start: Reg,
                   ghost t: Term)
    returns (ok: bool, code: seq<Instr>, ghost p: Progress)
    requires fq.Valid() && R.Valid() && 0 <= fq.added <= |fq.Contents()| && Compound(x)
    requires Compiling(code0, p0, fq.Contents(), start, t, Busy(R), Temps(R)) && Coming(p0, Parts(x))
    modifies fq, fq.cells, R, R.reg
    ensures ok ==> fq.Valid() && R.Valid() && Busy(R) == old(Busy(R)) && 0 <= fq.added <= |fq.Contents()|
    ensures ok ==> Compiling(code, p, fq.Contents(), start, t, Busy(R), Temps(R)) && p.m == 0
    ensures ok == (Width(x) <= old(FreeCount(R)) && |Children(x)| + |old(fq.Contents())| < INST_QUEUE_SIZE)
    ensures ok ==> Terms(fq.Contents()) == Children(x) + old(Terms(fq.Contents()))
    ensures ok ==> FreeCount(R) + |fq.Contents()| == old(FreeCount(R) + |fq.Contents()|)
    ensures ok ==> fq.added - |fq.Contents()| == old(fq.added - |fq.Contents()|)
  {
    hide Compiling, Busy, Temps, FreeCount, Waits, Terms, Children, Width;
    ghost var parts := Parts(x);
    if x.List? {
      ghost var waiting := Terms(fq.Contents());
      TermsSize(fq.Contents());
      fq.SizeBound();
      ListWaits(x, waiting);
      assert parts == [BuiltSub(x.car, false), BuiltSub(x.cdr, true)] && parts[1..] == [BuiltSub(x.cdr, true)];
      ok, code, p := DbGenInst(x.car, false, R, fq, code0, p0, parts, start, t);
      if ok {
        TermsSize(fq.Contents());
        fq.SizeBound();
        ok, code, p := DbGenInst(x.cdr, true, R, fq, code, p, parts[1..], start, t);
      }
    } else {
      ok, code, p := GenStrArgs(x, R, fq, code0, p0, start, t);
    }
  }

  method GenStrArgs(x: Term, R: RegStat, fq: InstQueue<Pend>, code0: seq<Instr>, ghost p0: Progress, ghost start: Reg,
                    ghost t: Term)
    returns (ok: bool, code: seq<Instr>, ghost p: Progress)
    requires fq.Valid() && R.Valid() && 0 <= fq.added <= |fq.Contents()| && x.Str?
    requires Compiling(code0, p0, fq.Contents(), start, t, Busy(R), Temps(R)) && Coming(p0, Parts(x))
    modifies fq, fq.cells, R, R.reg
    ensures ok ==> fq.Valid() && R.Valid() && Busy(R) == old(Busy(R)) && 0 <= fq.added <= |fq.Contents()|
    ensures ok ==> Compiling(code, p, fq.Contents(), start, t, Busy(R), Temps(R)) && p.m == 0
    ensures ok == (Width(x) <= old(FreeCount(R)) && |Children(x)| + |old(fq.Contents())| < INST_QUEUE_SIZE)
    ensures ok ==> Terms(fq.Contents()) == Children(x) + old(Terms(fq.Contents()))
    ensures ok ==> FreeCount(R) + |fq.Contents()| == old(FreeCount(R) + |fq.Contents()|)
    ensures ok ==> fq.added - |fq.Contents()| == old(fq.added - |fq.Contents()|)
  {
    hide Compiling, Busy, Temps, FreeCount, Waits, Terms, Children, Width, WaitsTo, WidthTo, Coming, Parts;
    ghost var parts, busy, waiting, free, size := Parts(x), Busy(R), Terms(fq.Contents()), FreeCount(R),
        |fq.Contents()|;
    StrStart(x, waiting);
    TermsSize(fq.Contents());
    ok, code, p := true, code0, p0;
    fq.SizeBound();
    var i := 0;
    while i < |x.args|
      invariant 0 <= i <= |x.args| && ok && fq.Valid() && R.Valid() && Busy(R) == busy
                && 0 <= fq.added <= |fq.Contents()|
      invariant Compiling(code, p, fq.Contents(), start, t, busy, Temps(R)) && Coming(p, parts[i..])
      invariant |fq.Contents()| == |WaitsTo(x, i)| + size < INST_QUEUE_SIZE
      invariant Terms(fq.Contents()) == WaitsTo(x, i) + waiting && WidthTo(x, i) <= free
      invariant FreeCount(R) + |fq.Contents()| == free + size
      invariant fq.added - |fq.Contents()| == old(fq.added) - size
    {
      StrPart(x, i);
      StrWaits(x, i, waiting);
      ok, code, p := DbGenInst(x.args[i], i + 1 == |x.args|, R, fq, code, p, parts[i..], start, t);
      if !ok {
        return;
      }
      TermsSize(fq.Contents());
      fq.SizeBound();
      i := i + 1;
    }
    NothingComing(p, parts[i..]);
  }

  lemma TermsSize(q: seq<Pend>)
    ensures |Terms(q)| == |q|
  {
  }

  lemma NothingComing(p: Progress, parts: seq<Term>)
    requires Coming(p, parts) && parts == []
    ensures p.m == 0
  {
  }

  lemma StrStart(x: Term, waiting: seq<Term>)
    requires x.Str?
    ensures |Parts(x)| == |x.args| && Parts(x)[0..] == Parts(x) && WaitsTo(x, 0) + waiting == waiting
            && WaitsTo(x, 0) == []
    ensures WidthTo(x, 0) == 0 && Children(x) == WaitsTo(x, |x.args|) && Width(x) == WidthTo(x, |x.args|)
  {
  }

  lemma StrPart(x: Term, i: nat)
    requires x.Str? && i < |x.args|
    ensures |Parts(x)| == |x.args| && Parts(x)[i..] != []
    ensures Parts(x)[i..][0] == BuiltSub(x.args[i], i + 1 == |x.args|) && Parts(x)[i..][1..] == Parts(x)[i + 1..]
  {
  }

  lemma ListWaits(x: Term, rest: seq<Term>)
    requires x.List?
    ensures Children(x) + rest == Waits(x.cdr, true) + (Waits(x.car, false) + rest)
    ensures Width(x) == (if Compound(x.car) then 1 else 0) + (if Compound(x.cdr) then 1 else 0)
    ensures |Waits(x.car, false)| == (if Compound(x.car) then 1 else 0)
    ensures |Children(x)| == |Waits(x.cdr, true)| + |Waits(x.car, false)|
    ensures |Waits(x.cdr, true)| <= 1 && (!Compound(x.cdr) ==> Waits(x.cdr, true) == [])
  {
    assert WaitsTo(x, 1) == Waits(x.car, false) + WaitsTo(x, 0) == Waits(x.car, false);
    assert WidthTo(x, 1) == WidthTo(x, 0) + (if Compound(x.car) then 1 else 0);
  }

  lemma StrWaits(x: Term, i: nat, rest: seq<Term>)
    requires x.Str? && i < |x.args|
    ensures WaitsTo(x, i + 1) + rest == Waits(x.args[i], i + 1 == |x.args|) + (WaitsTo(x, i) + rest)
    ensures |WaitsTo(x, i)| == WidthTo(x, i) && WidthTo(x, i + 1) <= Width(x) && |WaitsTo(x, i + 1)| <= |Children(x)|
    ensures WidthTo(x, i + 1) == WidthTo(x, i) + if Compound(x.args[i]) then 1 else 0
  {
    WaitsWidth(x, i);
    WidthGrows(x, i + 1, |x.args|);
    hide Waits;
  }

  /** The cell denotes the term, without holes. */
  predicate Means(heap: seq<Cell>, c: Cell, t: Term) {
    Denotes(heap, 0, map[], c, t)
  }

  lemma {:induction false} NoHolesWord(heap: seq<Cell>, base: nat, a: nat, t: Term)
    requires WordDenotes(heap, base, map[], a, t)
    ensures WordDenotes(heap, 0, map[], a, t)
    decreases t, 1
  {
    NoHoles(heap, base, heap[a], t);
  }

  lemma {:induction false} NoHoles(heap: seq<Cell>, base: nat, c: Cell, t: Term)
    requires Denotes(heap, base, map[], c, t)
    ensures Means(heap, c, t)
    decreases t, 0
  {
    match t
    case List(x, y) =>
      NoHolesWord(heap, base, c.addr, x);
      NoHolesWord(heap, base, c.addr + 1, y);
    case Str(f, args) =>
      forall i | 0 <= i < |args| ensures WordDenotes(heap, 0, map[], c.addr + 1 + i, args[i]) {
        NoHolesWord(heap, base, c.addr + 1 + i, args[i]);
      }
    case _ =>
  }

  /** The run succeeds, register start denotes the built term, nothing old is written. */
  ghost predicate BuiltIn(s0: State, s: State, start: Reg, t: Term, busy: set<nat>) {
    && !s.failed && s0.heap <= s.heap && Means(s.heap, s.regs[start], Built(t))
    && forall r: Reg | r in busy && r != start :: s.regs[r] == s0.regs[r]
  }

  ghost predicate AlwaysBuilt(code: seq<Instr>, start: Reg, t: Term, busy: set<nat>) {
    forall s0: State {:trigger Run(s0, code)} | !s0.failed :: BuiltIn(s0, Run(s0, code), start, t, busy)
  }

  lemma NoneWaiting(p: Progress)
    requires Shaped(p) && p.m == 0 && p.waiting == map[]
    ensures p.holes == map[]
  {
    assert p.at == map[];
    assert forall o :: o in p.holes ==> Placed(p, o);
    assert forall o :: !Placed(p, o);
  }

  lemma CompilingEnd(code: seq<Instr>, p: Progress, start: Reg, t: Term, busy: set<nat>, temps: set<nat>)
    requires Compiling(code, p, [], start, t, busy, temps) && p.m == 0
    ensures AlwaysBuilt(code, start, t, busy)
  {
    assert p.waiting == map[];
    NoneWaiting(p);
    forall s0: State | !s0.failed ensures BuiltIn(s0, Run(s0, code), start, t, busy) {
      var s := Run(s0, code);
      assert Building(s0, s, p, start, t, busy);
      NoHoles(s.heap, |s0.heap|, s.regs[start], Built(t));
    }
  }

  /** Main result: run from any state, the code leaves a register that denotes the built term. The code generator aborts
      exactly if there are fewer free registers than the term needs, and gives all of them back. */
  method DbGenTerms(fq: InstQueue<Pend>, R: RegStat, start: Reg, t: Term) returns (ok: bool, code: seq<Instr>)
    requires fq.Valid() && R.Valid() && fq.Contents() == [Pend(start, t)] && Compound(t)
    requires start in Busy(R)
    modifies fq, fq.cells, R, R.reg
    ensures ok == (Peak(t) <= old(FreeCount(R)))
    ensures ok ==> fq.Valid() && R.Valid() && Busy(R) == old(Busy(R)) && FreeCount(R) == old(FreeCount(R))
    ensures ok ==> AlwaysBuilt(code, start, t, Busy(R))
  {
    hide Compiling, Busy, Temps, Weight, Started, Opened, AlwaysBuilt, Coming, Parts, OpenInstr, Rotated, FreeCount;
    hide Need, Peak, Children, Width, Terms, InstQueue.Contents;
    ghost var busy, p, free := Busy(R), Started(t), FreeCount(R);
    NeedStart(start, t);
    FewRegisters(R);
    var istop := true;
    ok, code := true, [];
    while true
      invariant ok && fq.Valid() && R.Valid() && Busy(R) == busy && start in busy
      invariant istop ==> code == [] && fq.Contents() == [Pend(start, t)]
      invariant !istop ==> Compiling(code, p, fq.Contents(), start, t, busy, Temps(R)) && p.m == 0
      invariant FreeCount(R) + (if istop then 0 else |fq.Contents()|) == free
      invariant Peak(t) <= free <==> Need(Terms(fq.Contents())) <= free
      decreases Weight(Terms(fq.Contents()))
    {
      var empty := fq.Empty();
      if empty {
        break;
      }
      ghost var q := fq.Contents();
      var x := fq.Pop();
      assert q == fq.Contents() + [x];
      ghost var rest := fq.Contents();
      if istop {
        assert q[0] == x && fq.Contents() == [];
      }
      code, p := OpenNext(x, istop, R, rest, code, p, start, t);
      NeedTurn(rest, x, free);
      fq.added := 0;
      ok, code, p := DbGenArgs(x.term, R, fq, code, p, start, t);
      if !ok {
        return;
      }
      QueueTurned(fq.Contents(), p, code, fq.added, start, t, busy, Temps(R), rest, x);
      ok := fq.Rotate();
      istop := false;
    }
    CompilingEnd(code, p, start, t, busy, Temps(R));
    NothingNeeded();
  }

  lemma NeedStart(start: Reg, t: Term)
    ensures Need(Terms([Pend(start, t)])) == Peak(t)
  {
    assert Terms([Pend(start, t)]) == [t] && [t][..0] == [];
  }

  lemma NothingNeeded()
    ensures Need(Terms([])) == 0
  {
  }

  lemma NeedTurn(rest: seq<Pend>, x: Pend, free: nat)
    requires Compound(x.term) && |rest| <= free < INST_QUEUE_SIZE
    ensures Need(Terms(rest + [x])) <= free <==>
            Width(x.term) <= free - |rest| && Need(Terms(rest) + Children(x.term)) <= free
    ensures Width(x.term) <= free - |rest| ==> |Children(x.term)| + |rest| < INST_QUEUE_SIZE
    ensures Weight(Terms(rest) + Children(x.term)) < Weight(Terms(rest + [x]))
  {
    TermsSplit(rest, [x]);
    assert Terms([x]) == [x.term];
    NeedNext(Terms(rest), x.term, free);
    WaitsWidth(x.term, |Subterms(x.term)|);
    WeightConcat(Terms(rest), Children(x.term));
    WeightConcat(Terms(rest), [x.term]);
    ChildrenSmaller(x.term);
    WeightOne(x.term);
  }

  /** The instruction that opens the next structure; its register is released. */
  method OpenNext(x: Pend, istop: bool, R: RegStat, ghost rest: seq<Pend>, code0: seq<Instr>, ghost p0: Progress,
                  ghost start: Reg, ghost t: Term)
    returns (code: seq<Instr>, ghost p: Progress)
    requires R.Valid() && Compound(t) && start in Busy(R)
    requires if istop then code0 == [] && x == Pend(start, t) && rest == []
             else Compiling(code0, p0, rest + [x], start, t, Busy(R), Temps(R)) && p0.m == 0
    modifies R`freeReg, R`free, R.reg
    ensures R.Valid() && Busy(R) == old(Busy(R)) && Compound(x.term)
    ensures FreeCount(R) == old(FreeCount(R)) + if istop then 0 else 1
    ensures Compiling(code, p, rest, start, t, Busy(R), Temps(R)) && Coming(p, Parts(x.term))
  {
    ghost var temps := Temps(R);
    InRange(R);
    hide Compiling, Coming, Started, Opened;
    if istop {
      EmitStart(start, t, Busy(R), temps);
      StartParts(t);
      p := Started(t);
      assert [] + [OpenInstr(t, start, true)] == [OpenInstr(t, start, true)];
      assert temps - {start} == temps;
    } else {
      EmitOpen(code0, p0, rest, x, start, t, Busy(R), temps);
      OpenParts(p0, x.reg);
      p := Opened(p0, x.reg);
    }
    code := code0 + [OpenInstr(x.term, x.reg, istop)];
    ReleaseSource(R, x.reg);
  }

  lemma StartParts(t: Term)
    ensures Coming(Started(t), Parts(t))
  {
    PartHolesAt(map[], |Header(t)|, Parts(t));
  }

  lemma OpenParts(p: Progress, r: Reg)
    requires r in p.waiting && r in p.at
    ensures Coming(Opened(p, r), Parts(p.waiting[r]))
  {
    PartHolesAt(p.holes - {p.at[r]}, Opened(p, r).len, Parts(p.waiting[r]));
  }

  lemma QueueTurned(q: seq<Pend>, p: Progress, code: seq<Instr>, k: nat, start: Reg, t: Term, busy: set<nat>,
                    temps: set<nat>, rest: seq<Pend>, x: Pend)
    requires Compiling(code, p, q, start, t, busy, temps) && k == |q| - |rest|
    requires Terms(q) == Children(x.term) + Terms(rest)
    ensures Compiling(code, p, Rotated(q, k), start, t, busy, temps) && |Rotated(q, k)| == |q|
    ensures Terms(Rotated(q, k)) == Terms(rest) + Children(x.term)
  {
    TermsRotated(q, k, rest, x.term);
    hide Terms, Children, AllBuilding, Shaped, Rotated;
    QueueRotated(q, p.waiting, k);
    hide QueueIs;
  }

  lemma TermsRotated(q: seq<Pend>, k: nat, rest: seq<Pend>, t: Term)
    requires k == |q| - |rest| && Terms(q) == Children(t) + Terms(rest)
    ensures |Rotated(q, k)| == |q| && Terms(Rotated(q, k)) == Terms(rest) + Children(t)
  {
    hide Children;
    TermsSplit(q[k..], q[..k]);
    assert Terms(q[..k]) == Terms(q)[..k] && Terms(q[k..]) == Terms(q)[k..];
  }
}
