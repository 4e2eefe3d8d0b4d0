/** Ground terms, the terms their code builds, and heaps that denote terms up to holes. */
module TermSpec {
  import opened CompilerState
  import opened Machine

  datatype Term =
    | Atom(name: nat)
    | Int(n: int)
    | EmptyList
    | List(car: Term, cdr: Term)
    | Str(functor: nat, args: seq<Term>)

  predicate Compound(t: Term) {
    t.List? || t.Str?
  }

  const WORD: int := 0x1_0000_0000

  /** The C conversion to a 32-bit int. */
  function Trunc32(n: int): int {
    (n + WORD / 2) % WORD - WORD / 2
  }

  /** The test for the fused list instruction, on the converted number. */
  predicate Fused(t: Term, last: bool) {
    last && t.List? && t.car.Int? && 0 <= Trunc32(t.car.n) <= 0xffff
  }

  /** What the code for a compound term builds. */
  function Built(t: Term): Term
    decreases t, 1
  {
    match t
    case List(x, y) => List(BuiltSub(x, false), BuiltSub(y, true))
    case Str(f, args) => Str(f, BuiltArgs(t))
    case _ => t
  }

  function BuiltArgs(t: Term): seq<Term>
    requires t.Str?
    decreases t, 0
  {
    seq(|t.args|, i requires 0 <= i < |t.args| => BuiltSub(t.args[i], i + 1 == |t.args|))
  }

  /** What the code for an argument builds; only the last one may be fused. */
  function BuiltSub(t: Term, last: bool): Term
    decreases t, 2
  {
    if Fused(t, last) then List(Int(Trunc32(t.car.n)), BuiltSub(t.cdr, true))
    else Built(t)
  }

  /** No number in a fused position changes by the conversion to 32 bits. */
  predicate Faithful(t: Term)
    decreases t, 0
  {
    match t
    case List(x, y) => FaithfulSub(x, false) && FaithfulSub(y, true)
    case Str(_, args) => forall i | 0 <= i < |args| :: FaithfulSub(args[i], i + 1 == |args|)
    case _ => true
  }

  predicate FaithfulSub(t: Term, last: bool)
    decreases t, 1
  {
    if Fused(t, last) then 0 <= t.car.n <= 0xffff && FaithfulSub(t.cdr, true)
    else Faithful(t)
  }

  /** The code builds the term itself exactly if no fused number is outside of 16 bits. */
  lemma {:induction false} BuiltIffFaithful(t: Term)
    ensures Built(t) == t <==> Faithful(t)
    decreases t, 0
  {
    match t
    case List(x, y) =>
      BuiltSubIffFaithful(x, false);
      BuiltSubIffFaithful(y, true);
    case Str(f, args) =>
      forall i | 0 <= i < |args| ensures BuiltSub(args[i], i + 1 == |args|) == args[i] <==>
          FaithfulSub(args[i], i + 1 == |args|)
      {
        BuiltSubIffFaithful(args[i], i + 1 == |args|);
      }
      var built := BuiltArgs(t);
      assert Built(t) == Str(f, built) && |built| == |args|;
      assert forall i | 0 <= i < |args| :: built[i] == BuiltSub(args[i], i + 1 == |args|);
      if built == args {
        assert forall i | 0 <= i < |args| :: built[i] == args[i];
      }
      if Faithful(t) {
        assert built == args;
      }
    case _ =>
  }

  lemma {:induction false} BuiltSubIffFaithful(t: Term, last: bool)
    ensures BuiltSub(t, last) == t <==> FaithfulSub(t, last)
    decreases t, 1
  {
    if Fused(t, last) {
      BuiltSubIffFaithful(t.cdr, true);
      TruncSmall(t.car.n);
    } else {
      BuiltIffFaithful(t);
    }
  }

  /** The conversion keeps the lowest 32 bits, as a signed number; what fits is unchanged. */
  lemma TruncIs(n: int)
    ensures -WORD / 2 <= Trunc32(n) < WORD / 2 && (Trunc32(n) - n) % WORD == 0
    ensures Trunc32(n) == n <==> -WORD / 2 <= n < WORD / 2
  {
  }

  /** All integers of the term fit 32 bits. */
  predicate SmallInts(t: Term) {
    match t
    case Int(n) => -WORD / 2 <= n < WORD / 2
    case List(x, y) => SmallInts(x) && SmallInts(y)
    case Str(_, args) => forall i | 0 <= i < |args| :: SmallInts(args[i])
    case _ => true
  }

  /** Such a term is compiled to itself. */
  lemma {:induction false} SmallIntsBuilt(t: Term)
    requires SmallInts(t)
    ensures Faithful(t) && Built(t) == t
    decreases t, 0
  {
    BuiltIffFaithful(t);
    match t
    case List(x, y) =>
      SmallIntsSub(x, false);
      SmallIntsSub(y, true);
    case Str(_, args) =>
      forall i | 0 <= i < |args| ensures FaithfulSub(args[i], i + 1 == |args|) {
        SmallIntsSub(args[i], i + 1 == |args|);
      }
    case _ =>
  }

  lemma {:induction false} SmallIntsSub(t: Term, last: bool)
    requires SmallInts(t)
    ensures FaithfulSub(t, last)
    decreases t, 1
  {
    if Fused(t, last) {
      TruncIs(t.car.n);
      SmallIntsSub(t.cdr, true);
    } else {
      SmallIntsBuilt(t);
    }
  }

  lemma TruncSmall(n: int)
    requires 0 <= Trunc32(n) <= 0xffff
    ensures Trunc32(n) == n <==> 0 <= n <= 0xffff
  {
  }

  /** f([4294967296]) is compiled to f([0]). */
  lemma BigNumberChanged()
    ensures Built(Str(0, [List(Int(WORD), EmptyList)])) == Str(0, [List(Int(0), EmptyList)])
  {
    var t := List(Int(WORD), EmptyList);
    assert Trunc32(WORD) == 0;
    assert BuiltSub(EmptyList, true) == EmptyList;
    assert BuiltSub(t, true) == List(Int(0), EmptyList);
    assert Built(Str(0, [t])).args == [List(Int(0), EmptyList)];
  }

  // ------------------------------------------------------------------
  // Heaps that denote terms, except that some words above base are still to be filled.

  type Holes = map<nat, Term>

  predicate WordDenotes(heap: seq<Cell>, base: nat, holes: Holes, a: nat, t: Term)
    decreases t, 1
  {
    if a >= base && a - base in holes then holes[a - base] == t
    else a < |heap| && Denotes(heap, base, holes, heap[a], t)
  }

  predicate Denotes(heap: seq<Cell>, base: nat, holes: Holes, c: Cell, t: Term)
    decreases t, 0
  {
    match t
    case Atom(x) => c == CCon(x)
    case Int(n) => c == CInt(n)
    case EmptyList => c == CNil
    case List(x, y) => c.CList? && WordDenotes(heap, base, holes, c.addr, x)
        && WordDenotes(heap, base, holes, c.addr + 1, y)
    case Str(f, args) =>
      && c.CStr? && (c.addr < base || c.addr - base !in holes) && c.addr < |heap| && heap[c.addr] == CFunctor(f, |args|)
      && forall i | 0 <= i < |args| :: WordDenotes(heap, base, holes, c.addr + 1 + i, args[i])
  }

  /** heap' fills the hole at offset o, and possibly adds words and holes. */
  ghost predicate Fills(heap: seq<Cell>, holes: Holes, heap': seq<Cell>, holes': Holes, base: nat, o: nat) {
    && base <= |heap| <= |heap'|
    && (forall a: nat | a < |heap| && a != base + o :: heap'[a] == heap[a])
    && (forall x | x in holes && x != o :: x in holes' && holes'[x] == holes[x])
    && (forall x | x in holes' && x !in holes :: base + x >= |heap|)
    && o in holes && (base + o >= |heap| || IsFree(heap, heap[base + o]))
    && WordDenotes(heap', base, holes', base + o, holes[o])
  }

  lemma {:induction false} FilledWord(heap: seq<Cell>, holes: Holes, heap': seq<Cell>, holes': Holes, base: nat, o: nat,
                                      a: nat, t: Term)
    requires Fills(heap, holes, heap', holes', base, o)
    requires WordDenotes(heap, base, holes, a, t)
    ensures WordDenotes(heap', base, holes', a, t)
    decreases t, 1
  {
    if a >= base && a - base in holes {
      assert a - base != o ==> holes'[a - base] == holes[a - base];
    } else {
      FilledCell(heap, holes, heap', holes', base, o, heap[a], t);
    }
  }

  lemma {:induction false} FilledCell(heap: seq<Cell>, holes: Holes, heap': seq<Cell>, holes': Holes, base: nat, o: nat,
                                      c: Cell, t: Term)
    requires Fills(heap, holes, heap', holes', base, o)
    requires Denotes(heap, base, holes, c, t)
    ensures Denotes(heap', base, holes', c, t)
    decreases t, 0
  {
    match t
    case List(x, y) =>
      FilledWord(heap, holes, heap', holes', base, o, c.addr, x);
      FilledWord(heap, holes, heap', holes', base, o, c.addr + 1, y);
    case Str(f, args) =>
      forall i | 0 <= i < |args| ensures WordDenotes(heap', base, holes', c.addr + 1 + i, args[i]) {
        FilledWord(heap, holes, heap', holes', base, o, c.addr + 1 + i, args[i]);
      }
    case _ =>
  }
}
