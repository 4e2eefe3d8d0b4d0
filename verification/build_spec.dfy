/** Code that builds terms: the state between two instructions. */
module BuildSpec {
  import opened CompilerState
  import opened Machine
  import opened TermSpec

  /** Registers whose variables still have to be bound, with the terms to bind them to. */
  type Waiting = map<Reg, Term>

  /** After len new words: m more words are still to come, and each waiting register refers to
      a free word of its own. */
  datatype Progress = Progress(len: nat, m: nat, holes: Holes, at: map<Reg, nat>, waiting: Waiting)

  ghost predicate Shaped(p: Progress) {
    && Linked(p) && Apart(p.at)
    && (forall o | p.len <= o < p.len + p.m :: o in p.holes)
    && AllPlaced(p)
  }

  ghost predicate Linked(p: Progress) {
    && p.at.Keys == p.waiting.Keys
    && forall r | r in p.waiting :: p.at[r] < p.len && p.at[r] in p.holes && p.holes[p.at[r]] == Built(p.waiting[r])
  }

  ghost predicate Apart(at: map<Reg, nat>) {
    forall r, r' | r in at && r' in at && r != r' :: at[r] != at[r']
  }

  ghost predicate AllPlaced(p: Progress) {
    forall o {:trigger Placed(p, o)} | o in p.holes :: Placed(p, o)
  }

  /** A hole is a word still to come or the word of a waiting register. */
  ghost predicate Placed(p: Progress, o: nat) {
    p.len <= o < p.len + p.m || exists r :: r in p.at && p.at[r] == o
  }

  /** The registers refer to their holes, old words are untouched, and the start register denotes
      the term up to the holes. */
  ghost predicate Building(s0: State, s: State, p: Progress, start: Reg, t: Term, busy: set<nat>) {
    && !s.failed && s0.heap <= s.heap && |s.heap| == |s0.heap| + p.len
    && (forall r | r in p.waiting && r in p.at :: s.regs[r] == CRef(|s0.heap| + p.at[r]) && IsFree(s.heap, s.regs[r]))
    && Denotes(s.heap, |s0.heap|, p.holes, s.regs[start], Built(t))
    && start !in p.waiting && (forall r: Reg | r in busy && r != start :: s.regs[r] == s0.regs[r])
  }

  /** One word that is the whole of the next argument. */
  function OneMore(p: Progress): Progress
    requires p.m > 0
  {
    p.(len := p.len + 1, m := p.m - 1, holes := p.holes - {p.len})
  }

  /** The next argument is a new variable in register r, to be bound later. */
  function OneVar(p: Progress, r: Reg, t: Term): Progress
    requires p.m > 0
  {
    p.(len := p.len + 1, m := p.m - 1, at := p.at[r := p.len], waiting := p.waiting[r := t])
  }

  /** The next argument starts with a fused list cell and its number. */
  function OnePair(p: Progress, t: Term): Progress
    requires p.m == 1
  {
    p.(len := p.len + 2, holes := (p.holes - {p.len})[p.len + 2 := BuiltSub(t, true)])
  }

  lemma OneMoreShaped(p: Progress)
    requires Shaped(p) && p.m > 0
    ensures Shaped(OneMore(p))
  {
    var q := OneMore(p);
    forall o | o in q.holes ensures Placed(q, o) {
      assert Placed(p, o);
    }
  }

  lemma OneVarShaped(p: Progress, r: Reg, t: Term)
    requires Shaped(p) && p.m > 0 && r !in p.waiting && p.len in p.holes && p.holes[p.len] == Built(t)
    ensures Shaped(OneVar(p, r, t))
  {
    var q := OneVar(p, r, t);
    SameKeys(p);
    OneVarLinked(p, r, t);
    hide Linked, Apart, Built;
    assert q.at == p.at[r := p.len];
    forall o | o in q.holes ensures Placed(q, o) {
      assert Placed(p, o);
      assert r in q.at && q.at[r] == p.len;
      if !(p.len <= o < p.len + p.m) {
        var r' :| r' in p.at && p.at[r'] == o;
        assert r' in q.at && q.at[r'] == o;
      }
    }
  }

  lemma OneVarLinked(p: Progress, r: Reg, t: Term)
    requires Linked(p) && Apart(p.at) && p.m > 0 && r !in p.waiting && p.len in p.holes && p.holes[p.len] == Built(t)
    ensures Linked(OneVar(p, r, t)) && Apart(OneVar(p, r, t).at)
  {
    hide Built;
  }

  lemma SameKeys(p: Progress)
    requires Linked(p)
    ensures p.at.Keys == p.waiting.Keys
  {
  }

  lemma OnePairShaped(p: Progress, t: Term)
    requires Shaped(p) && p.m == 1
    ensures Shaped(OnePair(p, t))
    ensures forall x | x in p.holes && x != p.len :: x < p.len
  {
    var q := OnePair(p, t);
    assert q.at == p.at && q.waiting == p.waiting;
    forall x | x in p.holes && x != p.len ensures x < p.len {
      assert Placed(p, x);
    }
    forall o | o in q.holes ensures Placed(q, o) {
      assert o != p.len + 2 ==> Placed(p, o);
    }
  }

  // ------------------------------------------------------------------
  // The effect of each instruction.

  /** The hole at offset o is filled or made free, and words may be appended. */
  lemma Filled(s0: State, s: State, p: Progress, start: Reg, t: Term, busy: set<nat>, s': State, p': Progress, o: nat)
    requires Linked(p) && Building(s0, s, p, start, t, busy)
    requires s0.heap <= s'.heap && |s'.heap| == |s0.heap| + p'.len && !s'.failed
    requires Fills(s.heap, p.holes, s'.heap, p'.holes, |s0.heap|, o)
    requires s'.regs[start] == s.regs[start] && start !in p'.waiting
    requires forall r: Reg | r in busy && r != start :: s'.regs[r] == s.regs[r]
    requires forall r | r in p'.waiting && r in p'.at :: if r in p.waiting
               then p'.at[r] == p.at[r] && p.at[r] != o && s'.regs[r] == s.regs[r]
               else s'.regs[r] == CRef(|s0.heap| + p'.at[r]) && IsFree(s'.heap, s'.regs[r])
    ensures Building(s0, s', p', start, t, busy)
  {
    FilledCell(s.heap, p.holes, s'.heap, p'.holes, |s0.heap|, o, s.regs[start], Built(t));
  }

  lemma BuildWord(s0: State, s: State, p: Progress, start: Reg, t: Term, busy: set<nat>, i: Instr, sub: Term)
    requires Shaped(p) && Building(s0, s, p, start, t, busy) && p.m > 0 && p.len in p.holes && p.holes[p.len] == sub
    requires match i {
               case BldCon(c) => sub == Atom(c)
               case BldNumCon(n) => sub == Int(n)
               case BldNil => sub == EmptyList
               case _ => false
             }
    ensures Building(s0, Step(s, i), OneMore(p), start, t, busy)
  {
    Filled(s0, s, p, start, t, busy, Step(s, i), OneMore(p), p.len);
  }

  lemma BuildVar(s0: State, s: State, p: Progress, start: Reg, t: Term, busy: set<nat>, r: Reg, sub: Term)
    requires Shaped(p) && Building(s0, s, p, start, t, busy) && p.m > 0 && p.len in p.holes
             && p.holes[p.len] == Built(sub)
    requires r !in p.waiting && r !in busy && r != start
    ensures Building(s0, Step(s, BldTVar(r)), OneVar(p, r, sub), start, t, busy)
  {
    Filled(s0, s, p, start, t, busy, Step(s, BldTVar(r)), OneVar(p, r, sub), p.len);
  }

  lemma BuildPair(s0: State, s: State, p: Progress, start: Reg, t: Term, busy: set<nat>, hi: nat, lo: nat, rest: Term)
    requires Shaped(p) && Building(s0, s, p, start, t, busy) && p.m == 1 && p.len in p.holes
    requires p.holes[p.len] == List(Int(hi * 256 + lo), BuiltSub(rest, true))
    ensures Building(s0, Step(s, BldTVarListNumCon(hi, lo)), OnePair(p, rest), start, t, busy)
  {
    var s', p' := Step(s, BldTVarListNumCon(hi, lo)), OnePair(p, rest);
    var base, a := |s0.heap|, |s.heap|;
    OnePairShaped(p, rest);
    assert s'.heap == s.heap + [CList(a + 1), CInt(hi * 256 + lo)];
    PairFills(s.heap, p, s'.heap, base, hi * 256 + lo, rest);
    Filled(s0, s, p, start, t, busy, s', p', p.len);
  }

  lemma PairFills(heap: seq<Cell>, p: Progress, heap': seq<Cell>, base: nat, n: int, rest: Term)
    requires p.m == 1 && |heap| == base + p.len && heap' == heap + [CList(|heap| + 1), CInt(n)]
    requires p.len in p.holes && p.holes[p.len] == List(Int(n), BuiltSub(rest, true))
    requires forall x | x in p.holes && x != p.len :: x < p.len
    ensures Fills(heap, p.holes, heap', OnePair(p, rest).holes, base, p.len)
  {
    var a, holes' := |heap|, OnePair(p, rest).holes;
    assert WordDenotes(heap', base, holes', a + 1, Int(n)) by {
      assert p.len + 1 !in holes';
    }
    assert WordDenotes(heap', base, holes', a + 2, BuiltSub(rest, true));
    assert p.len !in holes';
  }

  // ------------------------------------------------------------------
  // Opening a structure.

  /** What the words of a structure will denote. */
  function Parts(t: Term): seq<Term> {
    match t
    case List(x, y) => [BuiltSub(x, false), BuiltSub(y, true)]
    case Str(_, _) => BuiltArgs(t)
    case _ => []
  }

  function Header(t: Term): seq<Cell> {
    if t.Str? then [CFunctor(t.functor, |t.args|)] else []
  }

  function Pointer(t: Term, a: nat): Cell {
    if t.Str? then CStr(a) else CList(a)
  }

  /** Each word from first on becomes a hole for its part. */
  function PartHoles(holes: Holes, first: nat, parts: seq<Term>): Holes
    decreases |parts|
  {
    if parts == [] then holes else PartHoles(holes[first := parts[0]], first + 1, parts[1..])
  }

  lemma {:induction false} PartHolesAt(holes: Holes, first: nat, parts: seq<Term>)
    ensures forall x: nat :: x in PartHoles(holes, first, parts) <==> x in holes || first <= x < first + |parts|
    ensures forall x: nat | x in holes && !(first <= x < first + |parts|) ::
            PartHoles(holes, first, parts)[x] == holes[x]
    ensures forall i: nat | i < |parts| ::
            first + i in PartHoles(holes, first, parts) && PartHoles(holes, first, parts)[first + i] == parts[i]
    decreases |parts|
  {
    if parts != [] {
      PartHolesAt(holes[first := parts[0]], first + 1, parts[1..]);
      forall i: nat | i < |parts| ensures first + i in PartHoles(holes, first, parts)
          && PartHoles(holes, first, parts)[first + i] == parts[i]
      {
        if i > 0 {
          assert parts[1..][i - 1] == parts[i] && first + 1 + (i - 1) == first + i;
        }
      }
    }
  }

  function Opened(p: Progress, r: Reg): Progress
    requires r in p.waiting && r in p.at
  {
    var t, first := p.waiting[r], p.len + |Header(p.waiting[r])|;
    Progress(first, |Parts(t)|, PartHoles(p.holes - {p.at[r]}, first, Parts(t)), p.at - {r}, p.waiting - {r})
  }

  function Started(t: Term): Progress {
    Progress(|Header(t)|, |Parts(t)|, PartHoles(map[], |Header(t)|, Parts(t)), map[], map[])
  }

  ghost predicate HeaderAt(heap: seq<Cell>, a: nat, t: Term) {
    a + |Header(t)| <= |heap| && (t.Str? ==> heap[a] == CFunctor(t.functor, |t.args|))
  }

  lemma PartsDenoted(heap: seq<Cell>, base: nat, holes: Holes, t: Term, a: nat)
    requires Compound(t) && base <= a && a - base !in holes && HeaderAt(heap, a, t)
    ensures Denotes(heap, base, PartHoles(holes, a - base + |Header(t)|, Parts(t)), Pointer(t, a), Built(t))
  {
    var first := a - base + |Header(t)|;
    var holes' := PartHoles(holes, first, Parts(t));
    PartHolesAt(holes, first, Parts(t));
    hide PartHoles, BuiltSub;
    forall i: nat | i < |Parts(t)| ensures WordDenotes(heap, base, holes', base + first + i, Parts(t)[i]) {
      assert first + i in holes';
    }
    PartsTogether(heap, base, holes', t, a);
  }

  lemma PartsTogether(heap: seq<Cell>, base: nat, holes: Holes, t: Term, a: nat)
    requires Compound(t) && HeaderAt(heap, a, t) && (t.Str? ==> a < base || a - base !in holes)
    requires forall i: nat | i < |Parts(t)| :: WordDenotes(heap, base, holes, a + |Header(t)| + i, Parts(t)[i])
    ensures Denotes(heap, base, holes, Pointer(t, a), Built(t))
  {
    hide WordDenotes, BuiltSub;
    match t
    case List(x, y) =>
      assert Parts(t) == [BuiltSub(x, false), BuiltSub(y, true)];
      assert WordDenotes(heap, base, holes, a + 0 + 0, Parts(t)[0]);
      assert WordDenotes(heap, base, holes, a + 0 + 1, Parts(t)[1]);
    case Str(f, args) =>
      forall i: nat | i < |args| ensures WordDenotes(heap, base, holes, a + 1 + i, BuiltArgs(t)[i]) {
        assert WordDenotes(heap, base, holes, a + |Header(t)| + i, Parts(t)[i]);
      }
  }

  lemma OpenedShaped(p: Progress, r: Reg)
    requires Shaped(p) && p.m == 0 && r in p.waiting
    ensures Shaped(Opened(p, r))
  {
    var q := Opened(p, r);
    PartHolesAt(p.holes - {p.at[r]}, q.len, Parts(p.waiting[r]));
    hide PartHoles, Parts;
    assert Linked(q) && Apart(q.at);
    hide Linked, Apart, Built;
    forall o | o in q.holes ensures Placed(q, o) {
      if !(q.len <= o < q.len + q.m) {
        assert Placed(p, o);
        var r' :| r' in p.at && p.at[r'] == o;
        assert r' in q.at && q.at[r'] == o;
      }
    }
  }

  lemma StartedShaped(t: Term)
    ensures Shaped(Started(t))
  {
    var q := Started(t);
    PartHolesAt(map[], q.len, Parts(t));
    hide PartHoles, Parts;
    forall o | o in q.holes ensures Placed(q, o) {
    }
  }

  function OpenInstr(t: Term, r: Reg, top: bool): Instr {
    if t.Str? then (if top then PutStr(r, t.functor, |t.args|) else GetStr(r, t.functor, |t.args|))
    else (if top then PutList(r) else GetList(r))
  }

  lemma StartBuilding(s0: State, start: Reg, t: Term, busy: set<nat>)
    requires Compound(t) && !s0.failed
    ensures Building(s0, Step(s0, OpenInstr(t, start, true)), Started(t), start, t, busy)
  {
    var s, h := Step(s0, OpenInstr(t, start, true)), |s0.heap|;
    assert s.heap == s0.heap + Header(t);
    assert HeaderAt(s.heap, h, t);
    hide Parts, PartHoles, Built, Denotes;
    PartsDenoted(s.heap, h, map[], t, h);
  }

  /** With no words to come, all holes are below the top. */
  lemma HolesBelow(p: Progress)
    requires Shaped(p) && p.m == 0
    ensures forall x | x in p.holes :: x < p.len
  {
    forall x | x in p.holes ensures x < p.len {
      assert Placed(p, x);
    }
  }

  lemma OpenFills(heap: seq<Cell>, p: Progress, heap': seq<Cell>, base: nat, r: Reg)
    requires Shaped(p) && p.m == 0 && r in p.waiting && Compound(p.waiting[r])
    requires |heap| == base + p.len && IsFree(heap, CRef(base + p.at[r]))
    requires heap' == heap[base + p.at[r] := Pointer(p.waiting[r], |heap|)] + Header(p.waiting[r])
    ensures Fills(heap, p.holes, heap', Opened(p, r).holes, base, p.at[r])
  {
    var sub, o, h := p.waiting[r], p.at[r], |heap|;
    HolesBelow(p);
    PartHolesAt(p.holes - {o}, Opened(p, r).len, Parts(sub));
    hide Parts, PartHoles, Built, BuiltSub, Denotes;
    assert HeaderAt(heap', h, sub);
    PartsDenoted(heap', base, p.holes - {o}, sub, h);
    assert heap'[base + o] == Pointer(sub, h) && o !in Opened(p, r).holes;
  }

  lemma StepOpen(s: State, r: Reg, t: Term, a: nat)
    requires !s.failed && Compound(t) && s.regs[r] == CRef(a) && IsFree(s.heap, s.regs[r])
    ensures Step(s, OpenInstr(t, r, false)) == s.(heap := s.heap[a := Pointer(t, |s.heap|)] + Header(t))
  {
    assert Deref(s.heap, s.regs[r], |s.heap|) == s.regs[r];
  }

  lemma OpenWaiting(s0: State, s: State, p: Progress, start: Reg, t: Term, busy: set<nat>, r: Reg)
    requires Shaped(p) && Building(s0, s, p, start, t, busy) && p.m == 0 && r in p.waiting && Compound(p.waiting[r])
    ensures Building(s0, Step(s, OpenInstr(p.waiting[r], r, false)), Opened(p, r), start, t, busy)
  {
    var sub, base, h := p.waiting[r], |s0.heap|, |s.heap|;
    var o := p.at[r];
    var s', p' := Step(s, OpenInstr(sub, r, false)), Opened(p, r);
    SameKeys(p);
    StepOpen(s, r, sub, base + o);
    OpenFills(s.heap, p, s'.heap, base, r);
    OtherHoles(p, r);
    assert p'.len == p.len + |Header(sub)| && p'.at == p.at - {r} && p'.waiting == p.waiting - {r};
    OpenKeeps(s0, s.heap, s'.heap, base + o, Pointer(sub, h), Header(sub));
    hide PartHoles, Shaped, Step, Parts, Built, Denotes, Opened, Pointer, Header, Fills, Building;
    Filled(s0, s, p, start, t, busy, s', p', o);
  }

  lemma OpenKeeps(s0: State, heap: seq<Cell>, heap': seq<Cell>, a: nat, c: Cell, more: seq<Cell>)
    requires s0.heap <= heap && |s0.heap| <= a < |heap| && heap' == heap[a := c] + more
    ensures s0.heap <= heap' && |heap'| == |heap| + |more|
    ensures forall x: nat | x < |heap| && x != a :: heap'[x] == heap[x]
  {
  }

  lemma OtherHoles(p: Progress, r: Reg)
    requires Shaped(p) && r in p.at
    ensures forall r' | r' in p.at && r' != r :: p.at[r'] != p.at[r]
  {
  }
}
