/** Tagged and boxed numbers in 64-bit words. */
module Boxed64 {
  type Word = bv64

  const XSB_INT: Word := 2
  const BOX_ID_OFFSET: bv7 := 16
  const ID_BOXED_INT: Word := 1
  const ID_BOXED_FLOAT: Word := 2
  const LOW_24_BITS_MASK: Word := 0xff_ffff
  const LOW_16_BITS_MASK: Word := 0xffff

  /** The C shift of a signed word: bit 60 of the shifted word is copied upwards. */
  function ShiftRightSigned3(w: Word): Word {
    ((w >> 3) ^ 0x1000_0000_0000_0000) - 0x1000_0000_0000_0000
  }

  function MakeInt(v: Word): Word {
    (v << 3) | XSB_INT
  }

  function IntVal(w: Word): Word {
    ShiftRightSigned3(w)
  }

  predicate IntOverflow(v: Word) {
    IntVal(MakeInt(v)) != v
  }

  /** Read as a signed number, the word is at least -2^60 and less than 2^60. */
  predicate Fits61(v: Word) {
    v < 0x1000_0000_0000_0000 || v >= 0xf000_0000_0000_0000
  }

  lemma SmallRoundTrip(v: Word)
    requires v < 0x1000_0000_0000_0000
    ensures IntVal(MakeInt(v)) == v
  {
  }

  lemma NegativeRoundTrip(v: Word)
    requires v >= 0xf000_0000_0000_0000
    ensures IntVal(MakeInt(v)) == v
  {
  }

  lemma BigIsLost(v: Word)
    requires 0x1000_0000_0000_0000 <= v < 0xf000_0000_0000_0000
    ensures IntVal(MakeInt(v)) != v
  {
  }

  /** Boxing is needed exactly outside of 61 bits. */
  lemma OverflowOutside61(v: Word)
    ensures IntOverflow(v) <==> !Fits61(v)
  {
    hide MakeInt, IntVal;
    if v < 0x1000_0000_0000_0000 {
      SmallRoundTrip(v);
    } else if v >= 0xf000_0000_0000_0000 {
      NegativeRoundTrip(v);
    } else {
      BigIsLost(v);
    }
  }

  /** A cell: an integer word, or a pointer to a box record. */
  datatype Cell = Tagged(w: Word) | BoxRef(addr: nat)

  /** Heap words: the functor of a box record, or an integer word. */
  datatype HeapWord = BoxPsc | IntWord(w: Word)

  predicate IsBoxed(heap: seq<HeapWord>, c: Cell) {
    && c.BoxRef? && c.addr + 3 < |heap| && heap[c.addr].BoxPsc?
    && heap[c.addr + 1].IntWord? && heap[c.addr + 2].IntWord? && heap[c.addr + 3].IntWord?
  }

  function Arg(heap: seq<HeapWord>, c: Cell, i: nat): Word
    requires IsBoxed(heap, c) && 1 <= i <= 3
  {
    IntVal(heap[c.addr + i].w)
  }

  predicate IsBoxedInteger(heap: seq<HeapWord>, c: Cell) {
    IsBoxed(heap, c) && Arg(heap, c, 1) >> BOX_ID_OFFSET == ID_BOXED_INT
  }

  predicate IsBoxedFloat(heap: seq<HeapWord>, c: Cell) {
    IsBoxed(heap, c) && Arg(heap, c, 1) >> BOX_ID_OFFSET == ID_BOXED_FLOAT
  }

  function BoxedIntVal(heap: seq<HeapWord>, c: Cell): Word
    requires IsBoxed(heap, c)
  {
    (Arg(heap, c, 2) << 24) | Arg(heap, c, 3)
  }

  function OintVal(heap: seq<HeapWord>, c: Cell): Word {
    if c.Tagged? then IntVal(c.w)
    else if IsBoxedInteger(heap, c) then BoxedIntVal(heap, c)
    else 0x8000_0000
  }

  lemma SplitInt(v: Word)
    ensures v >> 24 < 0x1000_0000_0000_0000 && v & LOW_24_BITS_MASK < 0x1000_0000_0000_0000
    ensures ((v >> 24) << 24) | (v & LOW_24_BITS_MASK) == v
  {
  }

  /** Splitting a float pattern 16/24/24 and joining the parts again. */
  function High16(f: Word): Word {
    (f >> 48) & LOW_16_BITS_MASK
  }

  function Middle24(f: Word): Word {
    (f >> 24) & LOW_24_BITS_MASK
  }

  function Low24(f: Word): Word {
    f & LOW_24_BITS_MASK
  }

  function Joined(high: Word, middle: Word, low: Word): Word {
    ((high & LOW_16_BITS_MASK) << 48) | ((middle & LOW_24_BITS_MASK) << 24) | (low & LOW_24_BITS_MASK)
  }

  function BoxedFloatVal(heap: seq<HeapWord>, c: Cell): Word
    requires IsBoxed(heap, c)
  {
    Joined(Arg(heap, c, 1), Arg(heap, c, 2), Arg(heap, c, 3))
  }

  /** The box id in the first word does not disturb the high part. */
  lemma SplitFloat(f: Word)
    ensures Joined((ID_BOXED_FLOAT << BOX_ID_OFFSET) | High16(f), Middle24(f), Low24(f)) == f
    ensures ((ID_BOXED_FLOAT << BOX_ID_OFFSET) | High16(f)) >> BOX_ID_OFFSET == ID_BOXED_FLOAT
    ensures (ID_BOXED_FLOAT << BOX_ID_OFFSET) | High16(f) < 0x1000_0000_0000_0000
    ensures Middle24(f) < 0x1000_0000_0000_0000 && Low24(f) < 0x1000_0000_0000_0000
  {
  }

  class Heap {
    var words: seq<HeapWord>

    /** Boxes the number. */
    method BldBoxedInt(value: Word) returns (c: Cell)
      modifies this
      ensures old(words) <= words && c.BoxRef? && IsBoxedInteger(words, c) && BoxedIntVal(words, c) == value
    {
      c := BoxRef(|words|);
      words := words + [BoxPsc];
      words := words + [IntWord(MakeInt(ID_BOXED_INT << BOX_ID_OFFSET))];
      words := words + [IntWord(MakeInt(value >> 24))];
      words := words + [IntWord(MakeInt(value & LOW_24_BITS_MASK))];
      SplitInt(value);
      SmallRoundTrip(ID_BOXED_INT << BOX_ID_OFFSET);
      SmallRoundTrip(value >> 24);
      SmallRoundTrip(value & LOW_24_BITS_MASK);
      hide MakeInt, IntVal;
    }

    /** Main result: any number is read back as it was built, and it is boxed exactly if it does not fit 61 bits. */
    method BldOint(value: Word) returns (c: Cell)
      modifies this
      ensures old(words) <= words && OintVal(words, c) == value
      ensures c.BoxRef? <==> !Fits61(value)
      ensures c.Tagged? ==> words == old(words)
    {
      OverflowOutside61(value);
      if IntVal(MakeInt(value)) != value {
        c := BldBoxedInt(value);
      } else {
        c := Tagged(MakeInt(value));
      }
    }

    method BldBoxedFloat(value: Word) returns (c: Cell)
      modifies this
      ensures old(words) <= words && IsBoxedFloat(words, c) && !IsBoxedInteger(words, c)
              && BoxedFloatVal(words, c) == value
    {
      c := BoxRef(|words|);
      words := words + [BoxPsc, IntWord(MakeInt((ID_BOXED_FLOAT << BOX_ID_OFFSET) | High16(value))),
                        IntWord(MakeInt(Middle24(value))), IntWord(MakeInt(Low24(value)))];
      SplitFloat(value);
      SmallRoundTrip((ID_BOXED_FLOAT << BOX_ID_OFFSET) | High16(value));
      SmallRoundTrip(Middle24(value));
      SmallRoundTrip(Low24(value));
      hide MakeInt, IntVal, High16, Middle24, Low24, Joined;
    }
  }
}
