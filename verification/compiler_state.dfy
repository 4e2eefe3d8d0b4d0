/** The ring buffer and the register table of the clause compiler. */
module CompilerState {
  import opened Sequences

  const INST_QUEUE_SIZE := 256
  const MAX_REGS := 257

  function Next(i: nat): (r: nat)
    requires i < INST_QUEUE_SIZE
    ensures r < INST_QUEUE_SIZE
  {
    (i + 1) % INST_QUEUE_SIZE
  }

  /** The cells of the ring from the bottom up to the top. */
  function Ring<T>(a: seq<T>, bottom: nat, top: nat): seq<T>
    requires |a| == INST_QUEUE_SIZE && bottom < INST_QUEUE_SIZE && top < INST_QUEUE_SIZE
  {
    seq(RingSize(bottom, top), i requires 0 <= i < RingSize(bottom, top) => a[Wrapped(bottom + i)])
  }

  function RingSize(bottom: nat, top: nat): nat
    requires bottom < INST_QUEUE_SIZE && top < INST_QUEUE_SIZE
  {
    if bottom <= top then top - bottom else top + INST_QUEUE_SIZE - bottom
  }

  function Wrapped(i: nat): nat {
    if i < INST_QUEUE_SIZE then i else i - INST_QUEUE_SIZE
  }

  lemma RingAt<T>(a: seq<T>, bottom: nat, top: nat)
    requires |a| == INST_QUEUE_SIZE && bottom < INST_QUEUE_SIZE && top < INST_QUEUE_SIZE
    ensures |Ring(a, bottom, top)| == RingSize(bottom, top)
  {
  }

  lemma RingElem<T>(a: seq<T>, bottom: nat, top: nat, i: nat)
    requires |a| == INST_QUEUE_SIZE && bottom < INST_QUEUE_SIZE && top < INST_QUEUE_SIZE && i < |Ring(a, bottom, top)|
    ensures Wrapped(bottom + i) < |a| && Ring(a, bottom, top)[i] == a[Wrapped(bottom + i)]
  {
  }

  lemma RingStraight<T>(a: seq<T>, bottom: nat, top: nat)
    requires |a| == INST_QUEUE_SIZE && bottom <= top < INST_QUEUE_SIZE
    ensures Ring(a, bottom, top) == a[bottom..top]
  {
    forall i: nat | i < top - bottom ensures Ring(a, bottom, top)[i] == a[bottom..top][i] {
      RingElem(a, bottom, top, i);
    }
  }

  lemma RingPush<T>(a: seq<T>, bottom: nat, top: nat, x: T)
    requires |a| == INST_QUEUE_SIZE && bottom < INST_QUEUE_SIZE && top < INST_QUEUE_SIZE
    ensures Next(top) != bottom <==> |Ring(a, bottom, top)| < INST_QUEUE_SIZE - 1
    ensures Next(top) != bottom ==> Ring(a[top := x], bottom, Next(top)) == Ring(a, bottom, top) + [x]
  {
    RingAt(a, bottom, top);
    RingAt(a[top := x], bottom, Next(top));
    hide Ring;
    if Next(top) != bottom {
      var r, r' := Ring(a, bottom, top) + [x], Ring(a[top := x], bottom, Next(top));
      assert |r'| == |r|;
      forall i: nat | i < |r| ensures r'[i] == r[i] {
        RingElem(a[top := x], bottom, Next(top), i);
        if i < |r| - 1 {
          RingElem(a, bottom, top, i);
        }
      }
    }
  }

  lemma RingRem<T>(a: seq<T>, bottom: nat, top: nat)
    requires |a| == INST_QUEUE_SIZE && bottom < INST_QUEUE_SIZE && top < INST_QUEUE_SIZE && bottom != top
    ensures Ring(a, bottom, top) == [a[bottom]] + Ring(a, Next(bottom), top)
  {
    RingAt(a, bottom, top);
    RingAt(a, Next(bottom), top);
    var r, r' := Ring(a, bottom, top), Ring(a, Next(bottom), top);
    forall i: nat | i < |r| ensures r[i] == ([a[bottom]] + r')[i] {
      RingElem(a, bottom, top, i);
      if i > 0 {
        RingElem(a, Next(bottom), top, i - 1);
      }
    }
    hide Ring;
    assert |r| == 1 + |r'|;
  }

  lemma RingPop<T>(a: seq<T>, bottom: nat, top: nat)
    requires |a| == INST_QUEUE_SIZE && bottom < INST_QUEUE_SIZE && top < INST_QUEUE_SIZE && bottom != Next(top)
    ensures Ring(a, bottom, Next(top)) == Ring(a, bottom, top) + [a[top]]
  {
    RingPush(a, bottom, top, a[top]);
    assert a[top := a[top]] == a;
  }

  /** A double-ended queue in a ring of 256 cells; one cell always stays unused. */
  class InstQueue<T> {
    const cells: array<T>
    var top: nat
    var bottom: nat
    var added: int

    ghost predicate Valid()
      reads this`top, this`bottom
    {
      cells.Length == INST_QUEUE_SIZE && top < INST_QUEUE_SIZE && bottom < INST_QUEUE_SIZE
    }

    /** From the bottom to the top. */
    ghost function Contents(): seq<T>
      requires Valid()
      reads this`top, this`bottom, cells
    {
      Ring(cells[..], bottom, top)
    }

    constructor (garbage: T)
      ensures Valid() && fresh(cells) && Contents() == [] && bottom == 10 && top == 10
    {
      cells := new T[INST_QUEUE_SIZE](_ => garbage);
      top, bottom, added := 10, 10, 0;
    }

    method Init()
      requires Valid()
      modifies this`top, this`bottom
      ensures Valid() && Contents() == [] && bottom == 10 && top == 10
    {
      top, bottom := 10, 10;
    }

    method Empty() returns (e: bool)
      requires Valid()
      ensures e == (Contents() == [])
    {
      RingAt(cells[..], bottom, top);
      e := top == bottom;
    }

    /** Adds x at the top. When the ring is full the source throws: ok is false. */
    method Push(x: T) returns (ok: bool)
      requires Valid()
      modifies this`top, cells
      ensures Valid() && ok == (|old(Contents())| < INST_QUEUE_SIZE - 1)
      ensures ok ==> Contents() == old(Contents()) + [x]
      ensures top == Next(old(top)) && forall i: nat | i < INST_QUEUE_SIZE && i != old(top) :: cells[i] == old(cells[i])
    {
      hide Ring;
      RingPush(cells[..], bottom, top, x);
      cells[top] := x;
      assert cells[..] == old(cells[..])[top := x];
      top := (top + 1) % INST_QUEUE_SIZE;
      ok := top != bottom;
    }

    method Pop() returns (x: T)
      requires Valid() && Contents() != []
      modifies this`top
      ensures Valid() && old(Contents()) == Contents() + [x]
    {
      hide Ring;
      RingAt(cells[..], bottom, top);
      if top == 0 {
        top := INST_QUEUE_SIZE;
      }
      top := top - 1;
      x := cells[top];
      RingPop(cells[..], bottom, top);
    }

    method Rem() returns (x: T)
      requires Valid() && Contents() != []
      modifies this`bottom
      ensures Valid() && old(Contents()) == [x] + Contents()
      ensures bottom == Next(old(bottom))
    {
      hide Ring;
      RingAt(cells[..], bottom, top);
      RingRem(cells[..], bottom, top);
      x := cells[bottom];
      bottom := (bottom + 1) % INST_QUEUE_SIZE;
    }

    /** Adds x at the bottom and counts it. When the ring is full the source throws: ok is false. */
    method Add(x: T) returns (ok: bool)
      requires Valid()
      modifies this`bottom, this`added, cells
      ensures Valid() && ok == (|old(Contents())| < INST_QUEUE_SIZE - 1)
      ensures ok ==> Contents() == [x] + old(Contents()) && added == old(added) + 1
    {
      hide Ring;
      RingAt(cells[..], bottom, top);
      if bottom == 0 {
        bottom := INST_QUEUE_SIZE;
      }
      bottom := bottom - 1;
      if top == bottom {
        return false;
      }
      cells[bottom] := x;
      added := added + 1;
      ok := true;
      assert cells[..] == old(cells[..])[bottom := x];
      RingRem(cells[..], bottom, top);
      RingOutside(old(cells[..]), old(bottom), top, bottom, x);
    }

    lemma SizeBound()
      requires Valid()
      ensures |Contents()| < INST_QUEUE_SIZE
    {
      RingAt(cells[..], bottom, top);
    }

    /** Moves the entries added at the bottom since the count was cleared to the top, in reverse order of arrival. */
    method Rotate() returns (ok: bool)
      requires Valid() && 0 <= added <= |Contents()|
      modifies this`top, this`bottom, this`added, cells
      ensures Valid() && ok
      ensures Contents() == Rotated(old(Contents()), old(added))
    {
      hide Ring, Rotated, Next, Contents;
      ghost var c, n := Contents(), added;
      SizeBound();
      ok := true;
      RotatedSize(c, 0);
      while added != 0
        invariant Valid() && ok && 0 <= added <= n <= |c| < INST_QUEUE_SIZE
        invariant Contents() == Rotated(c, n - added)
        decreases added
      {
        ghost var k := n - added;
        RotatedSize(c, k);
        added := added - 1;
        var x := Rem();
        RotateStep(c, k, x, Contents());
        ok := Push(x);
      }
      added := -1;
    }
  }

  /** Writing the free cell just outside does not change the ring. */
  lemma RingOutside<T>(a: seq<T>, bottom: nat, top: nat, i: nat, x: T)
    requires |a| == INST_QUEUE_SIZE && bottom < INST_QUEUE_SIZE && top < INST_QUEUE_SIZE && i < INST_QUEUE_SIZE
    requires Next(i) == bottom && i != top
    ensures Ring(a[i := x], bottom, top) == Ring(a, bottom, top)
  {
    RingAt(a, bottom, top);
    RingAt(a[i := x], bottom, top);
    hide Ring;
    var r, r' := Ring(a, bottom, top), Ring(a[i := x], bottom, top);
    forall j: nat | j < |r| ensures r'[j] == r[j] {
      RingElem(a, bottom, top, j);
      RingElem(a[i := x], bottom, top, j);
    }
  }

  /** The first k elements go behind the others. */
  function Rotated<T>(c: seq<T>, k: nat): seq<T>
    requires k <= |c|
  {
    c[k..] + c[..k]
  }

  lemma RotatedSize<T>(c: seq<T>, k: nat)
    requires k <= |c|
    ensures |Rotated(c, k)| == |c| && Rotated(c, 0) == c
  {
  }

  lemma RotateStep<T>(c: seq<T>, k: nat, x: T, r: seq<T>)
    requires k < |c| && Rotated(c, k) == [x] + r
    ensures |r| < |c| && r + [x] == Rotated(c, k + 1)
  {
    assert c[k..] == [c[k]] + c[k + 1..] && Rotated(c, k)[0] == c[k];
    assert r == Rotated(c, k)[1..] == c[k + 1..] + c[..k];
    assert c[..k + 1] == c[..k] + [c[k]];
  }

  const RVAR := -1
  const TVAR := -2
  const NVAR := -3

  /** Which registers are in use, for what, and which are free. */
  class RegStat {
    const reg: array<int>
    var freeReg: int
    /** Released registers, the next one to hand out first. */
    ghost var free: seq<nat>
    /** The first register never handed out. */
    ghost var rest: nat

    ghost predicate Valid()
      reads this, reg
    {
      && reg.Length == MAX_REGS && 0 < rest < MAX_REGS && reg[rest] == 0 && reg[0] == NVAR
      && FreeChain()
      && forall r: nat | r < rest && r !in free :: reg[r] < 0
    }

    /** Released registers link to the next one, the last one to the registers never handed out. */
    ghost predicate FreeChain()
      requires reg.Length == MAX_REGS && 0 < rest < MAX_REGS
      reads this, reg
    {
      && NoDup(free) && freeReg == (if free == [] then rest else free[0])
      && (forall i: nat | i < |free| :: 0 < free[i] < rest)
      && (forall i: nat | i < |free| :: Link(i))
    }

    ghost predicate Link(i: nat)
      requires reg.Length == MAX_REGS && i < |free| && 0 < free[i] < rest < MAX_REGS
      reads this, reg
    {
      reg[free[i]] == (if i + 1 < |free| then free[i + 1] else rest)
    }

    lemma FreePositive()
      requires reg.Length == MAX_REGS && 0 < rest < MAX_REGS && FreeChain()
      ensures forall i: nat | i < |free| :: 0 < free[i] < rest && reg[free[i]] > 0
    {
      forall i: nat | i < |free| ensures 0 < free[i] < rest && reg[free[i]] > 0 {
        assert Link(i);
      }
    }

    ghost predicate Free(r: nat)
      reads this
    {
      r in free || rest <= r
    }

    constructor (size: nat)
      requires size + 1 < MAX_REGS
      ensures Valid() && fresh(reg) && free == [] && rest == size + 1
      ensures forall r: nat | r <= size :: reg[r] == NVAR
    {
      var a := new int[MAX_REGS](_ => 0);
      var i := 0;
      while i < size + 1
        invariant 0 <= i <= size + 1
        invariant forall r: nat | r < i :: a[r] == NVAR
      {
        a[i] := NVAR;
        i := i + 1;
      }
      a[size + 1] := 0;
      reg := a;
      freeReg := size + 1;
      free, rest := [], size + 1;
    }

    /** Hands out a free register. When none is left the source throws: ok is false. */
    method Get(kind: int) returns (ok: bool, r: nat)
      requires Valid() && kind < 0
      modifies this, reg
      ensures ok == (old(free) != [] || old(rest) + 1 < MAX_REGS)
      ensures ok ==> Valid() && old(Free(r)) && 0 < r < rest && reg[r] == kind && r <= 255
      ensures ok ==> forall q: nat :: Free(q) <==> old(Free(q)) && q != r
      ensures ok ==> forall q: nat | q < MAX_REGS && !old(Free(q)) :: reg[q] == old(reg[q])
      ensures ok ==> rest >= old(rest) && |free| - rest == old(|free| - rest) - 1
    {
      FreePositive();
      assert free != [] ==> reg[free[0]] > 0;
      if reg[freeReg] == 0 {
        ok, r := TakeUnused(kind);
      } else {
        r := TakeReleased(kind);
        ok := true;
      }
    }

    /** The next register never handed out. */
    method TakeUnused(kind: int) returns (ok: bool, r: nat)
      requires Valid() && kind < 0 && free == []
      modifies this, reg
      ensures ok == (old(rest) + 1 < MAX_REGS)
      ensures ok ==> Valid() && r == old(rest) && rest == r + 1 && free == [] && reg[r] == kind
      ensures ok ==> forall q: nat | q < r :: reg[q] == old(reg[q])
    {
      r := freeReg;
      freeReg := freeReg + 1;
      if freeReg >= MAX_REGS {
        return false, r;
      }
      reg[freeReg] := 0;
      rest := rest + 1;
      reg[r] := kind;
      ok := true;
    }

    /** The register released last. */
    method TakeReleased(kind: int) returns (r: nat)
      requires Valid() && kind < 0 && free != []
      modifies this`freeReg, this`free, reg
      ensures Valid() && [r] + free == old(free) && r !in free && 0 < r < rest && reg[r] == kind
      ensures forall q: nat | q < MAX_REGS && q != r :: reg[q] == old(reg[q])
    {
      r := freeReg;
      assert Link(0);
      ghost var free0 := free;
      Tail(free0);
      hide NoDup;
      freeReg := reg[freeReg];
      free := free0[1..];
      reg[r] := kind;
      assert FreeChain() by {
        forall i: nat | i < |free| ensures 0 < free[i] < rest && Link(i) {
          assert free[i] == free0[i + 1] && free[i] in free && old(Link(i + 1));
        }
      }
      hide FreeChain;
      assert forall q: nat | q < rest && q !in free && q != r :: q !in free0;
    }

    static lemma Tail(c: seq<nat>)
      requires NoDup(c) && c != []
      ensures NoDup(c[1..]) && c[0] !in c[1..] && c == [c[0]] + c[1..]
    {
      assert forall i: nat | i < |c[1..]| :: c[1..][i] == c[i + 1];
    }

    /** Frees r if it holds an introduced variable. */
    method Release(r: nat)
      requires Valid() && r < rest
      modifies this`freeReg, this`free, reg
      ensures Valid() && (old(reg[r]) == TVAR ==> !old(Free(r)))
      ensures forall q: nat :: Free(q) <==> old(Free(q)) || (q == r && old(reg[r]) == TVAR)
      ensures forall q: nat | q < MAX_REGS && !Free(q) :: reg[q] == old(reg[q])
      ensures |free| == |old(free)| + if old(reg[r]) == TVAR then 1 else 0
    {
      ReleaseIf(r, TVAR);
    }

    /** Frees r if it holds a real variable. */
    method ReleasePerm(r: nat)
      requires Valid() && r < rest
      modifies this`freeReg, this`free, reg
      ensures Valid() && (old(reg[r]) == RVAR ==> !old(Free(r)))
      ensures forall q: nat :: Free(q) <==> old(Free(q)) || (q == r && old(reg[r]) == RVAR)
      ensures forall q: nat | q < MAX_REGS && !Free(q) :: reg[q] == old(reg[q])
      ensures |free| == |old(free)| + if old(reg[r]) == RVAR then 1 else 0
    {
      ReleaseIf(r, RVAR);
    }

    method ReleaseIf(r: nat, kind: int)
      requires Valid() && r < rest && NVAR < kind < 0
      modifies this`freeReg, this`free, reg
      ensures Valid() && (old(reg[r]) == kind ==> !old(Free(r)))
      ensures forall q: nat :: Free(q) <==> old(Free(q)) || (q == r && old(reg[r]) == kind)
      ensures forall q: nat | q < MAX_REGS && !Free(q) :: reg[q] == old(reg[q])
      ensures |free| == |old(free)| + if old(reg[r]) == kind then 1 else 0
    {
      if r in free {
        var i :| 0 <= i < |free| && free[i] == r;
        FreePositive();
      }
      if reg[r] == kind {
        reg[r] := freeReg;
        NoDupCons(r, free);
        freeReg := r;
        free := [r] + free;
        assert forall i: nat | 0 < i < |free| :: free[i] == old(free)[i - 1] && old(Link(i - 1));
      }
    }
  }

  /** Registers in use other than for introduced variables. */
  ghost function Busy(R: RegStat): set<nat>
    requires R.Valid()
    reads R, R.reg
  {
    set r: nat | r < MAX_REGS && !R.Free(r) && R.reg[r] != TVAR
  }

  /** Registers in use for introduced variables. */
  ghost function Temps(R: RegStat): set<nat>
    requires R.Valid()
    reads R, R.reg
  {
    set r: nat | r < MAX_REGS && !R.Free(r) && R.reg[r] == TVAR
  }

  /** How many registers can still be handed out. */
  ghost function FreeCount(R: RegStat): nat
    requires R.Valid()
    reads R, R.reg
  {
    |R.free| + (MAX_REGS - 1 - R.rest)
  }

  ghost function RegistersBelow(n: nat): (s: set<nat>)
    ensures |s| == (if n > 0 then n - 1 else 0) && forall r: nat :: r in s <==> 0 < r < n
  {
    if n <= 1 then {} else RegistersBelow(n - 1) + {n - 1}
  }

  lemma FewRegisters(R: RegStat)
    requires R.Valid()
    ensures FreeCount(R) <= 255
  {
    NoDupSize(R.free);
    assert forall r | r in R.free :: 0 < r < R.rest;
    SubsetSize(Elements(R.free), RegistersBelow(R.rest));
  }

  method GetTemp(R: RegStat) returns (ok: bool, r: nat)
    requires R.Valid()
    modifies R, R.reg
    ensures ok == (old(FreeCount(R)) > 0)
    ensures ok ==> R.Valid() && FreeCount(R) == old(FreeCount(R)) - 1
    ensures ok ==> 0 < r <= 255 && r !in old(Busy(R) + Temps(R))
    ensures ok ==> Busy(R) == old(Busy(R)) && Temps(R) == old(Temps(R)) + {r}
  {
    ok, r := R.Get(TVAR);
    if ok {
      assert forall q: nat :: q in Busy(R) <==> q in old(Busy(R));
      assert forall q: nat :: q in Temps(R) <==> q in old(Temps(R)) || q == r;
    }
  }

  method GetReal(R: RegStat) returns (ok: bool, r: nat)
    requires R.Valid()
    modifies R, R.reg
    ensures ok == (old(FreeCount(R)) > 0)
    ensures ok ==> R.Valid() && FreeCount(R) == old(FreeCount(R)) - 1
    ensures ok ==> 0 < r <= 255 && r !in old(Busy(R) + Temps(R))
    ensures ok ==> Busy(R) == old(Busy(R)) + {r} && Temps(R) == old(Temps(R))
  {
    ok, r := R.Get(RVAR);
    if ok {
      assert forall q: nat :: q in Busy(R) <==> q in old(Busy(R)) || q == r;
      assert forall q: nat :: q in Temps(R) <==> q in old(Temps(R));
    }
  }

  method ReleaseSource(R: RegStat, r: nat)
    requires R.Valid() && r in Busy(R) + Temps(R)
    modifies R`freeReg, R`free, R.reg
    ensures R.Valid() && Busy(R) == old(Busy(R)) && Temps(R) == old(Temps(R)) - {r}
    ensures FreeCount(R) == old(FreeCount(R)) + if r in old(Temps(R)) then 1 else 0
  {
    assert r < R.rest;
    R.Release(r);
    assert forall q: nat :: q in Busy(R) <==> q in old(Busy(R));
    assert forall q: nat :: q in Temps(R) <==> q in old(Temps(R)) && q != r;
  }

  lemma InRange(R: RegStat)
    requires R.Valid()
    ensures MAX_REGS !in Busy(R) + Temps(R) && Busy(R) !! Temps(R)
  {
  }
}
