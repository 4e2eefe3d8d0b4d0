/** The abstract machine that runs the code of asserted clauses: argument registers and heap. */
module Machine {
  import opened CompilerState

  /** A register number. */
  type Reg = r: nat | r < MAX_REGS

  /** A tagged word. A free variable is a reference to itself. */
  datatype Cell =
    | CRef(addr: nat)
    | CCon(name: nat)
    | CInt(n: int)
    | CNil
    | CList(addr: nat)
    | CStr(addr: nat)
    | CFunctor(functor: nat, arity: nat)

  type Regs = s: seq<Cell> | |s| == MAX_REGS witness seq(MAX_REGS, _ => CNil)

  datatype State = State(regs: Regs, heap: seq<Cell>, failed: bool)

  datatype Instr =
    // argument registers
    | MovReg(from: Reg, to: Reg)
    | PutCon(to: Reg, name: nat)
    | PutNumCon(to: Reg, n: int)
    | PutNil(to: Reg)
    | PutTVar(first: Reg, to: Reg)
    // opening a structure
    | PutList(reg: Reg)
    | PutStr(reg: Reg, functor: nat, arity: nat)
    | GetList(reg: Reg)
    | GetStr(reg: Reg, functor: nat, arity: nat)
    // the next word on the heap
    | BldCon(name: nat)
    | BldNumCon(n: int)
    | BldNil
    | BldTVar(reg: Reg)
    | BldTVarListNumCon(hi: nat, lo: nat)

  /** Follows references; a chain of different cells is at most as long as the heap. */
  function Deref(heap: seq<Cell>, c: Cell, fuel: nat): Cell
    decreases fuel
  {
    if c.CRef? && c.addr < |heap| && heap[c.addr] != c && fuel > 0 then Deref(heap, heap[c.addr], fuel - 1) else c
  }

  predicate IsFree(heap: seq<Cell>, c: Cell) {
    c.CRef? && c.addr < |heap| && heap[c.addr] == c
  }

  function Push(s: State, c: Cell): State {
    s.(heap := s.heap + [c])
  }

  function Load(s: State, r: Reg, c: Cell): State {
    s.(regs := s.regs[r := c])
  }

  function Step(s: State, i: Instr): State {
    if s.failed then s else
    match i
    case MovReg(a, t) => Load(s, t, s.regs[a])
    case PutCon(t, c) => Load(s, t, CCon(c))
    case PutNumCon(t, n) => Load(s, t, CInt(n))
    case PutNil(t) => Load(s, t, CNil)
    case PutTVar(a, t) => Push(Load(Load(s, a, CRef(|s.heap|)), t, CRef(|s.heap|)), CRef(|s.heap|))
    case PutList(r) => Load(s, r, CList(|s.heap|))
    case PutStr(r, f, n) => Push(Load(s, r, CStr(|s.heap|)), CFunctor(f, n))
    case GetList(r) =>
      var c := Deref(s.heap, s.regs[r], |s.heap|);
      if IsFree(s.heap, c) then s.(heap := s.heap[c.addr := CList(|s.heap|)])
      else if c.CList? then s
      else s.(failed := true)
    case GetStr(r, f, n) =>
      var c := Deref(s.heap, s.regs[r], |s.heap|);
      if IsFree(s.heap, c) then s.(heap := s.heap[c.addr := CStr(|s.heap|)] + [CFunctor(f, n)])
      else if c.CStr? && c.addr < |s.heap| && s.heap[c.addr] == CFunctor(f, n) then s
      else s.(failed := true)
    case BldCon(c) => Push(s, CCon(c))
    case BldNumCon(n) => Push(s, CInt(n))
    case BldNil => Push(s, CNil)
    case BldTVar(r) => Push(Load(s, r, CRef(|s.heap|)), CRef(|s.heap|))
    case BldTVarListNumCon(hi, lo) => Push(Push(s, CList(|s.heap| + 1)), CInt(hi * 256 + lo))
  }

  function Run(s: State, code: seq<Instr>): State {
    if code == [] then s else Step(Run(s, code[..|code| - 1]), code[|code| - 1])
  }

  lemma RunSnoc(s: State, code: seq<Instr>, i: Instr)
    ensures Run(s, code + [i]) == Step(Run(s, code), i)
  {
    assert (code + [i])[..|code|] == code;
  }

  lemma {:induction false} RunConcat(s: State, a: seq<Instr>, b: seq<Instr>)
    ensures Run(s, a + b) == Run(Run(s, a), b)
    decreases |b|
  {
    if b == [] {
      assert a + b == a;
    } else {
      var i := b[|b| - 1];
      assert a + b == (a + b[..|b| - 1]) + [i] && b == b[..|b| - 1] + [i];
      RunConcat(s, a, b[..|b| - 1]);
      RunSnoc(s, a + b[..|b| - 1], i);
      RunSnoc(Run(s, a), b[..|b| - 1], i);
    }
  }
}
