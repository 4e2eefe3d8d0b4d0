/** The trail on values: frames in word-addressed memory, what untrailing does, and what tidying may change. */
module TrailSpec {
  import opened Sequences

  datatype Word = Parent(parent: nat) | NewValue(value: nat) | Variable(addr: nat, marked: bool)

  type Mem = map<nat, Word>

  /** Heap and local stack; a free cell refers to itself. */
  type Cells = map<nat, nat>

  function ParentOf(mem: Mem, t: nat): nat {
    if t in mem && mem[t].Parent? then mem[t].parent else 0
  }

  /** The words of a frame end in its parent word t; a marked variable is preceded by its old value. */
  ghost predicate FrameAt(mem: Mem, t: nat) {
    && t >= 4 && t in mem && mem[t].Parent? && t - 1 in mem && mem[t - 1].NewValue?
    && t - 2 in mem && mem[t - 2].Variable?
    && (mem[t - 2].marked ==> t - 3 in mem && mem[t - 3].NewValue?)
    && mem[t].parent < (if mem[t - 2].marked then t - 3 else t - 2)
  }

  /** From t, parents lead strictly downwards to the bottom of the trail. */
  ghost predicate LinkedTo(mem: Mem, t: nat, bottom: nat)
    decreases t
  {
    t == bottom || (t > bottom && FrameAt(mem, t) && LinkedTo(mem, mem[t].parent, bottom))
  }

  ghost predicate OnChain(mem: Mem, t: nat, to: nat)
    decreases t
  {
    t == to || (t > to && FrameAt(mem, t) && OnChain(mem, mem[t].parent, to))
  }

  /** Undoes one frame: the old value comes back, or the cell is free again. */
  function Undo(mem: Mem, t: nat, cells: Cells): Cells
    requires FrameAt(mem, t)
  {
    var a := mem[t - 2].addr;
    cells[a := if mem[t - 2].marked then mem[t - 3].value else a]
  }

  function Untrailed(mem: Mem, t: nat, to: nat, bottom: nat, cells: Cells): Cells
    requires LinkedTo(mem, t, bottom) && bottom <= to
    decreases t
  {
    if t <= to then cells else Untrailed(mem, mem[t].parent, to, bottom, Undo(mem, t, cells))
  }

  ghost predicate SameUpTo(mem: Mem, mem': Mem, t: nat) {
    forall a: nat | a <= t :: (a in mem <==> a in mem') && (a in mem ==> mem'[a] == mem[a])
  }

  lemma {:induction false} SameChain(mem: Mem, mem': Mem, t: nat, bottom: nat, to: nat, cells: Cells)
    requires SameUpTo(mem, mem', t) && LinkedTo(mem, t, bottom) && bottom <= to
    ensures LinkedTo(mem', t, bottom) && Untrailed(mem', t, to, bottom, cells) == Untrailed(mem, t, to, bottom, cells)
    decreases t
  {
    if t > bottom {
      SameChain(mem, mem', mem[t].parent, bottom, to, if t > to then Undo(mem, t, cells) else cells);
    }
  }

  lemma {:induction false} SameOnChain(mem: Mem, mem': Mem, t: nat, to: nat)
    requires SameUpTo(mem, mem', t) && OnChain(mem, t, to)
    ensures OnChain(mem', t, to)
    decreases t
  {
    if t != to {
      SameOnChain(mem, mem', mem[t].parent, to);
    }
  }

  ghost predicate AgreeOn(K: iset<nat>, c: Cells, d: Cells) {
    forall a: nat | a in K :: (a in c <==> a in d) && (a in c ==> c[a] == d[a])
  }

  /** Cells outside of K do not influence what untrailing restores in K. */
  lemma {:induction false} UntrailAgree(mem: Mem, t: nat, to: nat, bottom: nat, c: Cells, d: Cells, K: iset<nat>)
    requires LinkedTo(mem, t, bottom) && bottom <= to && AgreeOn(K, c, d)
    ensures AgreeOn(K, Untrailed(mem, t, to, bottom, c), Untrailed(mem, t, to, bottom, d))
    decreases t
  {
    if t > to {
      UntrailAgree(mem, mem[t].parent, to, bottom, Undo(mem, t, c), Undo(mem, t, d), K);
    }
  }

  /** Untrailing in two steps. */
  lemma {:induction false} UntrailTwice(mem: Mem, t: nat, mid: nat, to: nat, bottom: nat, c: Cells)
    requires LinkedTo(mem, t, bottom) && bottom <= to <= mid && OnChain(mem, t, mid)
    ensures LinkedTo(mem, mid, bottom)
    ensures Untrailed(mem, t, to, bottom, c) == Untrailed(mem, mid, to, bottom, Untrailed(mem, t, mid, bottom, c))
    decreases t
  {
    if t != mid {
      UntrailTwice(mem, mem[t].parent, mid, to, bottom, Undo(mem, t, c));
    }
  }

  lemma {:induction false} ChainTrans(mem: Mem, t: nat, mid: nat, to: nat)
    requires OnChain(mem, t, mid) && OnChain(mem, mid, to)
    ensures OnChain(mem, t, to) && to <= mid <= t
    decreases t
  {
    if t != mid {
      ChainTrans(mem, mem[t].parent, mid, to);
    } else {
      ChainDown(mem, mid, to);
    }
  }

  lemma {:induction false} ChainDown(mem: Mem, t: nat, to: nat)
    requires OnChain(mem, t, to)
    ensures to <= t
  {
  }

  lemma {:induction false} ChainPart(mem: Mem, t: nat, mid: nat, to: nat)
    requires OnChain(mem, t, mid) && OnChain(mem, t, to) && to <= mid
    ensures OnChain(mem, mid, to)
    decreases t
  {
    if t != mid {
      ChainPart(mem, mem[t].parent, mid, to);
    }
  }

  // ------------------------------------------------------------------
  // Doing the frames again.

  /** The cell of a frame gets its value again. */
  function Redo(mem: Mem, t: nat, cells: Cells): Cells
    requires FrameAt(mem, t)
  {
    cells[mem[t - 2].addr := mem[t - 1].value]
  }

  /** The frames above to are done again, the lowest first. */
  function Redone(mem: Mem, t: nat, to: nat, bottom: nat, cells: Cells): Cells
    requires LinkedTo(mem, t, bottom) && bottom <= to
    decreases t
  {
    if t <= to then cells else Redo(mem, t, Redone(mem, mem[t].parent, to, bottom, cells))
  }

  /** The variable of a frame is in K; the mark does not matter. */
  ghost predicate Good(mem: Mem, t: nat, K: iset<nat>) {
    t >= 2 && t - 2 in mem && mem[t - 2].Variable? && mem[t - 2].addr in K
  }

  /** All frames of a chain are of cells in K. */
  ghost predicate FramesIn(mem: Mem, t: nat, bottom: nat, K: iset<nat>)
    requires LinkedTo(mem, t, bottom)
    decreases t
  {
    t == bottom || (Good(mem, t, K) && FramesIn(mem, mem[t].parent, bottom, K))
  }

  ghost predicate Holds(mem: Mem, t: nat, cells: Cells)
    requires FrameAt(mem, t)
  {
    mem[t - 2].addr in cells && cells[mem[t - 2].addr] == mem[t - 1].value
  }

  /** Each frame of a cell in K records the value that the cell has when untrailing gets to the frame. */
  ghost predicate Right(mem: Mem, t: nat, bottom: nat, K: iset<nat>, cells: Cells)
    requires LinkedTo(mem, t, bottom)
    decreases t
  {
    || t == bottom
    || ((Good(mem, t, K) ==> Holds(mem, t, cells)) && Right(mem, mem[t].parent, bottom, K, Undo(mem, t, cells)))
  }

  lemma {:induction false} SameFramesIn(mem: Mem, mem': Mem, t: nat, bottom: nat, K: iset<nat>)
    requires SameUpTo(mem, mem', t) && LinkedTo(mem, t, bottom) && LinkedTo(mem', t, bottom)
    ensures FramesIn(mem', t, bottom, K) == FramesIn(mem, t, bottom, K)
    decreases t
  {
    if t > bottom {
      SameFramesIn(mem, mem', mem[t].parent, bottom, K);
    }
  }

  lemma {:induction false} SameRight(mem: Mem, mem': Mem, t: nat, bottom: nat, K: iset<nat>, cells: Cells)
    requires SameUpTo(mem, mem', t) && LinkedTo(mem, t, bottom) && LinkedTo(mem', t, bottom)
    ensures Right(mem', t, bottom, K, cells) == Right(mem, t, bottom, K, cells)
    decreases t
  {
    if t > bottom {
      SameRight(mem, mem', mem[t].parent, bottom, K, Undo(mem, t, cells));
    }
  }

  lemma {:induction false} FramesMore(mem: Mem, t: nat, bottom: nat, K: iset<nat>, L: iset<nat>)
    requires LinkedTo(mem, t, bottom) && FramesIn(mem, t, bottom, K) && K <= L
    ensures FramesIn(mem, t, bottom, L)
    decreases t
  {
    if t > bottom {
      FramesMore(mem, mem[t].parent, bottom, K, L);
    }
  }

  lemma {:induction false} FramesBelow(mem: Mem, t: nat, mid: nat, bottom: nat, K: iset<nat>)
    requires LinkedTo(mem, t, bottom) && FramesIn(mem, t, bottom, K) && OnChain(mem, t, mid) && bottom <= mid
    ensures LinkedTo(mem, mid, bottom) && FramesIn(mem, mid, bottom, K)
    decreases t
  {
    if t != mid {
      FramesBelow(mem, mem[t].parent, mid, bottom, K);
    }
  }

  lemma {:induction false} RightAgree(mem: Mem, t: nat, bottom: nat, K: iset<nat>, c: Cells, d: Cells)
    requires LinkedTo(mem, t, bottom) && Right(mem, t, bottom, K, c) && AgreeOn(K, c, d)
    ensures Right(mem, t, bottom, K, d)
    decreases t
  {
    if t > bottom {
      RightAgree(mem, mem[t].parent, bottom, K, Undo(mem, t, c), Undo(mem, t, d));
    }
  }

  /** If all frames are of cells in K, the frames of other cells do not matter. */
  lemma {:induction false} RightAll(mem: Mem, t: nat, bottom: nat, K: iset<nat>, L: iset<nat>, c: Cells)
    requires LinkedTo(mem, t, bottom) && FramesIn(mem, t, bottom, K) && Right(mem, t, bottom, K, c)
    ensures Right(mem, t, bottom, L, c)
    decreases t
  {
    if t > bottom {
      RightAll(mem, mem[t].parent, bottom, K, L, Undo(mem, t, c));
    }
  }

  lemma {:induction false} RightBelow(mem: Mem, t: nat, mid: nat, bottom: nat, K: iset<nat>, c: Cells)
    requires LinkedTo(mem, t, bottom) && Right(mem, t, bottom, K, c) && OnChain(mem, t, mid) && bottom <= mid
    ensures LinkedTo(mem, mid, bottom) && Right(mem, mid, bottom, K, Untrailed(mem, t, mid, bottom, c))
    decreases t
  {
    if t != mid {
      RightBelow(mem, mem[t].parent, mid, bottom, K, Undo(mem, t, c));
    }
  }

  /** Untrailing and doing the same frames again changes nothing. */
  lemma {:induction false} RedoUntrailed(mem: Mem, t: nat, to: nat, bottom: nat, K: iset<nat>, c: Cells)
    requires LinkedTo(mem, t, bottom) && bottom <= to && FramesIn(mem, t, bottom, K) && Right(mem, t, bottom, K, c)
    ensures Redone(mem, t, to, bottom, Untrailed(mem, t, to, bottom, c)) == c
    decreases t
  {
    if t > to {
      RedoUntrailed(mem, mem[t].parent, to, bottom, K, Undo(mem, t, c));
      assert Redo(mem, t, Undo(mem, t, c)) == c;
    }
  }

  lemma {:induction false} RedoAgree(mem: Mem, t: nat, to: nat, bottom: nat, c: Cells, d: Cells, K: iset<nat>)
    requires LinkedTo(mem, t, bottom) && bottom <= to && AgreeOn(K, c, d)
    ensures AgreeOn(K, Redone(mem, t, to, bottom, c), Redone(mem, t, to, bottom, d))
    decreases t
  {
    if t > to {
      RedoAgree(mem, mem[t].parent, to, bottom, c, d, K);
    }
  }

  /** The cells outside of K. */
  ghost function Others(K: iset<nat>): iset<nat> {
    iset a: nat | a !in K
  }

  lemma {:induction false} OthersUntouched(mem: Mem, t: nat, to: nat, bottom: nat, K: iset<nat>, c: Cells)
    requires LinkedTo(mem, t, bottom) && bottom <= to && FramesIn(mem, t, bottom, K)
    ensures AgreeOn(Others(K), Untrailed(mem, t, to, bottom, c), c)
    ensures AgreeOn(Others(K), Redone(mem, t, to, bottom, c), c)
    decreases t
  {
    if t > to {
      OthersUntouched(mem, mem[t].parent, to, bottom, K, Undo(mem, t, c));
      OthersUntouched(mem, mem[t].parent, to, bottom, K, c);
    }
  }

  lemma AgreeEverywhere(K: iset<nat>, c: Cells, d: Cells)
    requires AgreeOn(K, c, d) && AgreeOn(Others(K), c, d)
    ensures c == d
  {
    assert forall a: nat :: a in K || a in Others(K);
    assert c.Keys == d.Keys;
  }

  /** Doing the frames again on cells that agree with what untrailing left, and untrailing them, changes nothing. */
  lemma UntrailRedone(mem: Mem, t: nat, to: nat, bottom: nat, K: iset<nat>, c: Cells, x: Cells)
    requires LinkedTo(mem, t, bottom) && bottom <= to && FramesIn(mem, t, bottom, K) && Right(mem, t, bottom, K, c)
    requires AgreeOn(K, x, Untrailed(mem, t, to, bottom, c))
    ensures AgreeOn(K, Redone(mem, t, to, bottom, x), c)
    ensures Untrailed(mem, t, to, bottom, Redone(mem, t, to, bottom, x)) == x
  {
    var u, y := Untrailed(mem, t, to, bottom, c), Redone(mem, t, to, bottom, x);
    RedoUntrailed(mem, t, to, bottom, K, c);
    RedoAgree(mem, t, to, bottom, x, u, K);
    UntrailAgree(mem, t, to, bottom, y, c, K);
    OthersUntouched(mem, t, to, bottom, K, x);
    OthersUntouched(mem, t, to, bottom, K, y);
    AgreeEverywhere(K, Untrailed(mem, t, to, bottom, y), x);
  }

  // ------------------------------------------------------------------
  // Tidying.

  /** The frames above limit, from the top. */
  function ChainAbove(mem: Mem, t: nat, limit: nat, bottom: nat): seq<nat>
    requires LinkedTo(mem, t, bottom) && bottom <= limit
    decreases t
  {
    if t <= limit then [] else [t] + ChainAbove(mem, mem[t].parent, limit, bottom)
  }

  lemma {:induction false} ChainBelow(mem: Mem, t: nat, limit: nat, bottom: nat)
    requires LinkedTo(mem, t, bottom) && bottom <= limit
    ensures forall x | x in ChainAbove(mem, t, limit, bottom) :: limit < x <= t
    decreases t
  {
    if t > limit {
      ChainBelow(mem, mem[t].parent, limit, bottom);
    }
  }

  /** A frame whose variable is not in K may be skipped. */
  lemma SkipTop(mem: Mem, t: nat, to: nat, bottom: nat, c: Cells, K: iset<nat>)
    requires LinkedTo(mem, t, bottom) && bottom <= to < t && !Good(mem, t, K)
    ensures AgreeOn(K, Untrailed(mem, mem[t].parent, to, bottom, c), Untrailed(mem, t, to, bottom, c))
  {
    UntrailAgree(mem, mem[t].parent, to, bottom, c, Undo(mem, t, c), K);
  }

  /** mem' skips the frame t2 below t1 and changes nothing else. */
  ghost predicate Relinked(mem: Mem, mem': Mem, t1: nat, t2: nat) {
    && t1 in mem && mem[t1] == Parent(t2) && t2 < t1
    && mem' == mem[t1 := Parent(ParentOf(mem, t2))]
  }

  lemma {:induction false} RelinkLinked(mem: Mem, mem': Mem, t: nat, t1: nat, t2: nat, bottom: nat)
    requires LinkedTo(mem, t, bottom) && OnChain(mem, t, t1) && Relinked(mem, mem', t1, t2) && bottom < t2
    ensures LinkedTo(mem', t, bottom)
    decreases t
  {
    if t == t1 {
      assert LinkedTo(mem, t2, bottom);
      SameChain(mem, mem', mem[t2].parent, bottom, bottom, map[]);
    } else {
      Above(mem, t, t1);
      RelinkLinked(mem, mem', mem[t].parent, t1, t2, bottom);
    }
  }

  lemma Above(mem: Mem, t: nat, t1: nat)
    requires OnChain(mem, t, t1) && t != t1
    ensures t1 <= mem[t].parent < t
  {
  }

  lemma {:induction false} RelinkUntrail(mem: Mem, mem': Mem, t: nat, t1: nat, t2: nat, to: nat, bottom: nat, c: Cells,
                                         K: iset<nat>)
    requires LinkedTo(mem, t, bottom) && OnChain(mem, t, t1) && Relinked(mem, mem', t1, t2) && bottom <= to < t2
    requires !Good(mem, t2, K)
    ensures LinkedTo(mem', t, bottom)
    ensures AgreeOn(K, Untrailed(mem', t, to, bottom, c), Untrailed(mem, t, to, bottom, c))
    decreases t
  {
    RelinkLinked(mem, mem', t, t1, t2, bottom);
    if t == t1 {
      var d := Undo(mem, t, c);
      SameChain(mem, mem', mem[t2].parent, bottom, to, d);
      SkipTop(mem, t2, to, bottom, d, K);
      assert Undo(mem', t, c) == d;
    } else {
      Above(mem, t, t1);
      RelinkUntrail(mem, mem', mem[t].parent, t1, t2, to, bottom, Undo(mem, t, c), K);
      assert Undo(mem', t, c) == Undo(mem, t, c);
    }
  }

  lemma SkipRight(mem: Mem, t: nat, bottom: nat, c: Cells, K: iset<nat>)
    requires LinkedTo(mem, t, bottom) && bottom < t && !Good(mem, t, K) && Right(mem, t, bottom, K, c)
    ensures Right(mem, mem[t].parent, bottom, K, c)
  {
    RightAgree(mem, mem[t].parent, bottom, K, Undo(mem, t, c), c);
  }

  lemma {:induction false} RelinkRight(mem: Mem, mem': Mem, t: nat, t1: nat, t2: nat, bottom: nat, c: Cells,
                                       K: iset<nat>)
    requires LinkedTo(mem, t, bottom) && OnChain(mem, t, t1) && Relinked(mem, mem', t1, t2) && bottom < t2
    requires !Good(mem, t2, K) && Right(mem, t, bottom, K, c)
    ensures LinkedTo(mem', t, bottom) && Right(mem', t, bottom, K, c)
    decreases t
  {
    RelinkLinked(mem, mem', t, t1, t2, bottom);
    var d := Undo(mem, t, c);
    assert Undo(mem', t, c) == d && Good(mem', t, K) == Good(mem, t, K);
    if t == t1 {
      SkipRight(mem, t2, bottom, d, K);
      SameRight(mem, mem', mem[t2].parent, bottom, K, d);
    } else {
      Above(mem, t, t1);
      RelinkRight(mem, mem', mem[t].parent, t1, t2, bottom, d, K);
    }
  }

  lemma {:induction false} RelinkOnChain(mem: Mem, mem': Mem, t: nat, t1: nat, t2: nat, to: nat)
    requires OnChain(mem, t, t1) && OnChain(mem, t, to) && Relinked(mem, mem', t1, t2) && to < t2
    ensures OnChain(mem', t, to)
    decreases t
  {
    if t == t1 {
      assert OnChain(mem, t2, to);
      SameOnChain(mem, mem', mem[t2].parent, to);
    } else {
      Above(mem, t, t1);
      RelinkOnChain(mem, mem', mem[t].parent, t1, t2, to);
    }
  }

  lemma {:induction false} RelinkOffChain(mem: Mem, mem': Mem, t: nat, t1: nat, t2: nat, to: nat, bottom: nat)
    requires LinkedTo(mem, t, bottom) && OnChain(mem, t, t1) && Relinked(mem, mem', t1, t2) && bottom <= to < t2
    requires OnChain(mem', t, to)
    ensures OnChain(mem, t, to)
    decreases t
  {
    if t == t1 {
      assert LinkedTo(mem, t2, bottom);
      SameOnChain(mem', mem, mem[t2].parent, to);
    } else {
      Above(mem, t, t1);
      RelinkOffChain(mem, mem', mem[t].parent, t1, t2, to, bottom);
    }
  }

  lemma {:induction false} RelinkChain(mem: Mem, mem': Mem, t: nat, t1: nat, t2: nat, limit: nat, bottom: nat)
    requires LinkedTo(mem, t, bottom) && OnChain(mem, t, t1) && Relinked(mem, mem', t1, t2) && bottom <= limit < t2
    ensures LinkedTo(mem', t, bottom)
    ensures ChainAbove(mem', t, limit, bottom) == Without(ChainAbove(mem, t, limit, bottom), t2)
    ensures OnChain(mem', t, t1)
    decreases t
  {
    hide Without;
    RelinkLinked(mem, mem', t, t1, t2, bottom);
    WithoutHead(t, ChainAbove(mem, mem[t].parent, limit, bottom), t2);
    if t == t1 {
      WithoutHead(t2, ChainAbove(mem, mem[t2].parent, limit, bottom), t2);
      SameChain(mem, mem', mem[t2].parent, bottom, limit, map[]);
      SameChainAbove(mem, mem', mem[t2].parent, limit, bottom);
      ChainBelow(mem, mem[t2].parent, limit, bottom);
      assert t2 !in ChainAbove(mem, mem[t2].parent, limit, bottom);
    } else {
      Above(mem, t, t1);
      RelinkChain(mem, mem', mem[t].parent, t1, t2, limit, bottom);
    }
  }

  lemma {:induction false} SameChainAbove(mem: Mem, mem': Mem, t: nat, limit: nat, bottom: nat)
    requires SameUpTo(mem, mem', t) && LinkedTo(mem, t, bottom) && LinkedTo(mem', t, bottom) && bottom <= limit
    ensures ChainAbove(mem', t, limit, bottom) == ChainAbove(mem, t, limit, bottom)
    decreases t
  {
    if t > limit {
      SameChainAbove(mem, mem', mem[t].parent, limit, bottom);
    }
  }

  /** Only parent words differ. */
  ghost predicate SameFrames(mem: Mem, mem': Mem) {
    mem'.Keys == mem.Keys && forall a | a in mem ::
        mem'[a].Parent? == mem[a].Parent? && (!mem[a].Parent? ==> mem'[a] == mem[a])
  }

  /** Between a frame and its parent there is no other frame of the chain. */
  lemma {:induction false} ChainGap(mem: Mem, t: nat, t1: nat, limit: nat, bottom: nat)
    requires LinkedTo(mem, t, bottom) && OnChain(mem, t, t1) && bottom <= limit
    ensures forall x | x in ChainAbove(mem, t, limit, bottom) :: x >= t1 || x <= ParentOf(mem, t1)
    decreases t
  {
    if t > limit {
      ChainBelow(mem, mem[t].parent, limit, bottom);
      if t != t1 {
        ChainGap(mem, mem[t].parent, t1, limit, bottom);
      }
    }
  }

  ghost function GoodIn(mem: Mem, K: iset<nat>): nat -> bool {
    (t: nat) => Good(mem, t, K)
  }

  /** The good frames of a chain, in order. */
  ghost function GoodFrames(mem: Mem, K: iset<nat>, c: seq<nat>): seq<nat> {
    KeepIf(c, GoodIn(mem, K))
  }

  lemma GoodWithout(mem: Mem, K: iset<nat>, c: seq<nat>, x: nat)
    requires !Good(mem, x, K)
    ensures GoodFrames(mem, K, Without(c, x)) == GoodFrames(mem, K, c)
  {
    hide Good;
    KeepIfTwice(c, NotMemberOf({x}), GoodIn(mem, K), GoodIn(mem, K));
  }

  lemma {:induction false} ChainFirst(mem: Mem, t: nat, limit: nat, bottom: nat)
    requires LinkedTo(mem, t, bottom) && bottom <= limit < t
    ensures ChainAbove(mem, t, limit, bottom)[1..] == ChainAbove(mem, mem[t].parent, limit, bottom)
  {
  }

  /** The chains have the same frames below limit, what is restored in K is the same from (mem', t')
      as from (mem, t), and frames of cells in K are right for the same cells. */
  ghost predicate SameRestored(mem: Mem, t: nat, mem': Mem, t': nat, bottom: nat, limit: nat, K: iset<nat>) {
    && LinkedTo(mem, t, bottom) && LinkedTo(mem', t', bottom)
    && (forall to: nat {:trigger OnChain(mem, t, to)} | bottom <= to <= limit && OnChain(mem, t, to) ::
          OnChain(mem', t', to) && SameFrom(mem, t, mem', t', bottom, to, K))
    && (forall to: nat {:trigger OnChain(mem', t', to)} | bottom <= to <= limit && OnChain(mem', t', to) ::
          OnChain(mem, t, to))
    && StillRight(mem, t, mem', t', bottom, K)
  }

  ghost predicate StillRight(mem: Mem, t: nat, mem': Mem, t': nat, bottom: nat, K: iset<nat>)
    requires LinkedTo(mem, t, bottom) && LinkedTo(mem', t', bottom)
  {
    forall c: Cells | Right(mem, t, bottom, K, c) :: Right(mem', t', bottom, K, c)
  }

  ghost predicate SameFrom(mem: Mem, t: nat, mem': Mem, t': nat, bottom: nat, to: nat, K: iset<nat>)
    requires LinkedTo(mem, t, bottom) && LinkedTo(mem', t', bottom) && bottom <= to
  {
    forall c: Cells :: AgreeOn(K, Untrailed(mem', t', to, bottom, c), Untrailed(mem, t, to, bottom, c))
  }

  lemma SameRestoredTrans(mem: Mem, t: nat, mem1: Mem, t1: nat, mem2: Mem, t2: nat, bottom: nat, limit: nat,
                          K: iset<nat>)
    requires SameRestored(mem, t, mem1, t1, bottom, limit, K) && SameRestored(mem1, t1, mem2, t2, bottom, limit, K)
    ensures SameRestored(mem, t, mem2, t2, bottom, limit, K)
  {
    forall to: nat | bottom <= to <= limit && OnChain(mem, t, to)
        ensures OnChain(mem2, t2, to) && SameFrom(mem, t, mem2, t2, bottom, to, K)
    {
      assert OnChain(mem1, t1, to);
      forall c: Cells ensures AgreeOn(K, Untrailed(mem2, t2, to, bottom, c), Untrailed(mem, t, to, bottom, c)) {
        assert SameFrom(mem, t, mem1, t1, bottom, to, K) && SameFrom(mem1, t1, mem2, t2, bottom, to, K);
      }
    }
  }

  lemma DropTopGood(mem: Mem, t: nat, bottom: nat, limit: nat, K: iset<nat>)
    requires LinkedTo(mem, t, bottom) && bottom <= limit < t && !Good(mem, t, K)
    ensures GoodFrames(mem, K, ChainAbove(mem, mem[t].parent, limit, bottom)) ==
            GoodFrames(mem, K, ChainAbove(mem, t, limit, bottom))
  {
    ChainFirst(mem, t, limit, bottom);
  }

  lemma SameRestoredRefl(mem: Mem, t: nat, bottom: nat, limit: nat, K: iset<nat>)
    requires LinkedTo(mem, t, bottom)
    ensures SameRestored(mem, t, mem, t, bottom, limit, K)
  {
  }

  lemma DropTop(mem: Mem, t: nat, bottom: nat, limit: nat, K: iset<nat>)
    requires LinkedTo(mem, t, bottom) && bottom <= limit < t && !Good(mem, t, K)
    ensures SameRestored(mem, t, mem, mem[t].parent, bottom, limit, K)
  {
    forall to: nat | bottom <= to <= limit && OnChain(mem, t, to)
      ensures OnChain(mem, mem[t].parent, to) && SameFrom(mem, t, mem, mem[t].parent, bottom, to, K)
    {
      forall c: Cells ensures AgreeOn(K, Untrailed(mem, mem[t].parent, to, bottom, c), Untrailed(mem, t, to, bottom, c))
      {
        SkipTop(mem, t, to, bottom, c, K);
      }
    }
    forall c: Cells | Right(mem, t, bottom, K, c) ensures Right(mem, mem[t].parent, bottom, K, c) {
      SkipRight(mem, t, bottom, c, K);
    }
  }

  lemma Relink(mem: Mem, mem': Mem, t: nat, t1: nat, t2: nat, bottom: nat, limit: nat, K: iset<nat>)
    requires LinkedTo(mem, t, bottom) && OnChain(mem, t, t1) && Relinked(mem, mem', t1, t2) && bottom <= limit < t2
             && !Good(mem, t2, K)
    ensures SameRestored(mem, t, mem', t, bottom, limit, K)
  {
    RelinkLinked(mem, mem', t, t1, t2, bottom);
    forall to: nat | bottom <= to <= limit && OnChain(mem', t, to) ensures OnChain(mem, t, to) {
      RelinkOffChain(mem, mem', t, t1, t2, to, bottom);
    }
    forall to: nat | bottom <= to <= limit && OnChain(mem, t, to)
      ensures OnChain(mem', t, to) && SameFrom(mem, t, mem', t, bottom, to, K)
    {
      RelinkOnChain(mem, mem', t, t1, t2, to);
      forall c: Cells ensures AgreeOn(K, Untrailed(mem', t, to, bottom, c), Untrailed(mem, t, to, bottom, c)) {
        RelinkUntrail(mem, mem', t, t1, t2, to, bottom, c, K);
      }
    }
    forall c: Cells | Right(mem, t, bottom, K, c) ensures Right(mem', t, bottom, K, c) {
      RelinkRight(mem, mem', t, t1, t2, bottom, c, K);
    }
  }

  /** Down to t1, only good frames are left on the chain from t. */
  ghost predicate Tidying(mem0: Mem, t0: nat, mem: Mem, t: nat, t1: nat, bottom: nat, limit: nat, K: iset<nat>) {
    && LinkedTo(mem0, t0, bottom) && bottom <= limit && LinkedTo(mem, t, bottom) && OnChain(mem, t, t1)
    && SameRestored(mem0, t0, mem, t, bottom, limit, K)
    && SameFrames(mem0, mem) && SameUpTo(mem0, mem, limit)
    && GoodFrames(mem0, K, ChainAbove(mem, t, limit, bottom)) == GoodFrames(mem0, K,
        ChainAbove(mem0, t0, limit, bottom))
    && forall x | x in ChainAbove(mem, t, limit, bottom) && x >= t1 :: Good(mem0, x, K)
  }

  lemma {:induction false} ChainFrame(mem: Mem, t: nat, t1: nat, bottom: nat)
    requires LinkedTo(mem, t, bottom) && OnChain(mem, t, t1) && bottom <= t1
    ensures LinkedTo(mem, t1, bottom)
    decreases t
  {
    if t != t1 {
      ChainFrame(mem, mem[t].parent, t1, bottom);
    }
  }

  lemma {:induction false} ChainNext(mem: Mem, t: nat, t1: nat, bottom: nat)
    requires LinkedTo(mem, t, bottom) && OnChain(mem, t, t1) && bottom < t1 && FrameAt(mem, t1)
    ensures OnChain(mem, t, mem[t1].parent)
    decreases t
  {
    if t != t1 {
      Above(mem, t, t1);
      ChainNext(mem, mem[t].parent, t1, bottom);
    }
  }

  lemma SameGood(mem: Mem, mem': Mem, K: iset<nat>)
    requires SameFrames(mem, mem')
    ensures forall x :: Good(mem', x, K) <==> Good(mem, x, K)
  {
  }

  /** A bad frame below t1 is skipped. */
  lemma TidySkip(mem0: Mem, t0: nat, mem: Mem, t: nat, t1: nat, bottom: nat, limit: nat, K: iset<nat>)
    requires Tidying(mem0, t0, mem, t, t1, bottom, limit, K)
    requires limit < t1 && limit < ParentOf(mem, t1) && !Good(mem, ParentOf(mem, t1), K)
    ensures Tidying(mem0, t0, mem[t1 := Parent(ParentOf(mem, ParentOf(mem, t1)))], t, t1, bottom, limit, K)
  {
    var t2 := ParentOf(mem, t1);
    var mem' := mem[t1 := Parent(ParentOf(mem, t2))];
    ChainFrame(mem, t, t1, bottom);
    Relink(mem, mem', t, t1, t2, bottom, limit, K);
    SameRestoredTrans(mem0, t0, mem, t, mem', t, bottom, limit, K);
    RelinkChain(mem, mem', t, t1, t2, limit, bottom);
    SameGood(mem0, mem, K);
    GoodWithout(mem0, K, ChainAbove(mem, t, limit, bottom), t2);
  }

  /** A good frame below t1 stays. */
  lemma TidyKeep(mem0: Mem, t0: nat, mem: Mem, t: nat, t1: nat, bottom: nat, limit: nat, K: iset<nat>)
    requires Tidying(mem0, t0, mem, t, t1, bottom, limit, K)
    requires limit < t1 && limit < ParentOf(mem, t1) && Good(mem, ParentOf(mem, t1), K)
    ensures Tidying(mem0, t0, mem, t, ParentOf(mem, t1), bottom, limit, K)
  {
    ChainFrame(mem, t, t1, bottom);
    ChainNext(mem, t, t1, bottom);
    ChainGap(mem, t, t1, limit, bottom);
    SameGood(mem0, mem, K);
  }

  lemma TidyEnd(mem0: Mem, t0: nat, mem: Mem, t: nat, t1: nat, bottom: nat, limit: nat, K: iset<nat>)
    requires Tidying(mem0, t0, mem, t, t1, bottom, limit, K) && ParentOf(mem, t1) <= limit
    ensures ChainAbove(mem, t, limit, bottom) == GoodFrames(mem0, K, ChainAbove(mem0, t0, limit, bottom))
  {
    ChainGap(mem, t, t1, limit, bottom);
    ChainBelow(mem, t, limit, bottom);
    KeepIfAll(ChainAbove(mem, t, limit, bottom), GoodIn(mem0, K));
  }

  /** Tidied frames are good; so are all, if those at or below limit are. */
  lemma {:induction false} TidyFrames(mem: Mem, t: nat, bottom: nat, limit: nat, K: iset<nat>)
    requires LinkedTo(mem, t, bottom) && bottom <= limit
    requires forall x | x in ChainAbove(mem, t, limit, bottom) :: Good(mem, x, K)
    requires forall q: nat | bottom <= q <= limit && OnChain(mem, t, q) ::
             LinkedTo(mem, q, bottom) && FramesIn(mem, q, bottom, K)
    ensures FramesIn(mem, t, bottom, K)
    decreases t
  {
    if t > limit {
      TidyFrames(mem, mem[t].parent, bottom, limit, K);
    } else {
      assert OnChain(mem, t, t);
    }
  }

  lemma TidyStart(mem: Mem, t0: nat, t: nat, bottom: nat, limit: nat, K: iset<nat>)
    requires LinkedTo(mem, t0, bottom) && bottom <= limit && SameRestored(mem, t0, mem, t, bottom, limit, K)
    requires GoodFrames(mem, K, ChainAbove(mem, t, limit, bottom)) ==
             GoodFrames(mem, K, ChainAbove(mem, t0, limit, bottom))
    requires t <= limit || Good(mem, t, K)
    ensures Tidying(mem, t0, mem, t, t, bottom, limit, K)
  {
    ChainBelow(mem, t, limit, bottom);
  }
}
