/** Contents of a one-argument index, on values: SOB segments, buckets and what a lookup returns. */
module IndexSpec {
  import opened Sequences
  import opened ClauseChains

  /** The hash code of the indexed argument, or a variable. */
  datatype Key = VarKey | HashKey(code: nat)

  /** The bucket a clause goes to; variables go to bucket 0 (of a one-bucket table). */
  function SlotOf(k: Key, size: nat): nat
    requires size > 0
  {
    match k
    case VarKey => 0
    case HashKey(code) => code % size
  }

  /** The index words of the clauses of c that hash to slot h, in order. */
  function SlotWords(keys: map<nat, Key>, size: nat, c: seq<Ref>, h: nat): (r: seq<Ref>)
    requires size > 0
    requires forall x | x in c :: x.Clause? && x.clause in keys
    ensures |r| <= |c|
    ensures forall x | x in r :: x.Ind? && Clause(x.clause) in c && SlotOf(keys[x.clause], size) == h
    ensures forall x | x in c && SlotOf(keys[x.clause], size) == h :: Ind(x.clause) in r
  {
    if c == [] then []
    else if SlotOf(keys[c[0].clause], size) == h then [Ind(c[0].clause)] + SlotWords(keys, size, c[1..], h)
    else SlotWords(keys, size, c[1..], h)
  }

  lemma {:induction false} SlotWordsConcat(keys: map<nat, Key>, size: nat, c: seq<Ref>, d: seq<Ref>, h: nat)
    requires size > 0
    requires forall x | x in c + d :: x.Clause? && x.clause in keys
    ensures SlotWords(keys, size, c + d, h) == SlotWords(keys, size, c, h) + SlotWords(keys, size, d, h)
  {
    assert forall x | x in c :: x in c + d;
    assert forall x | x in d :: x in c + d;
    if c == [] {
      assert c + d == d;
    } else {
      assert (c + d)[1..] == c[1..] + d;
      SlotWordsConcat(keys, size, c[1..], d, h);
    }
  }

  /** The words before, at and after position i. */
  lemma SlotWordsSplit(keys: map<nat, Key>, size: nat, c: seq<Ref>, i: nat, h: nat)
    requires size > 0 && i < |c|
    requires forall x | x in c :: x.Clause? && x.clause in keys
    ensures forall x | x in Removed(c, i) :: x in c
    ensures SlotWords(keys, size, c, h) ==
            SlotWords(keys, size, c[..i], h)
            + (if SlotOf(keys[c[i].clause], size) == h then [Ind(c[i].clause)] else [])
            + SlotWords(keys, size, c[i + 1..], h)
    ensures SlotWords(keys, size, Removed(c, i), h) ==
            SlotWords(keys, size, c[..i], h) + SlotWords(keys, size, c[i + 1..], h)
  {
    hide SlotWords, Removed;
    SlotWordsAt(keys, size, c, i, h);
    SlotWordsWithout(keys, size, c, i, h);
  }

  lemma SlotWordsAt(keys: map<nat, Key>, size: nat, c: seq<Ref>, i: nat, h: nat)
    requires size > 0 && i < |c|
    requires forall x | x in c :: x.Clause? && x.clause in keys
    ensures SlotWords(keys, size, c, h) ==
            SlotWords(keys, size, c[..i], h)
            + (if SlotOf(keys[c[i].clause], size) == h then [Ind(c[i].clause)] else [])
            + SlotWords(keys, size, c[i + 1..], h)
  {
    hide SlotWords;
    assert c == c[..i] + c[i..] && c[i..][1..] == c[i + 1..];
    SlotWordsFrom(keys, size, c[i..], h);
    SlotWordsConcat(keys, size, c[..i], c[i..], h);
  }

  lemma SlotWordsWithout(keys: map<nat, Key>, size: nat, c: seq<Ref>, i: nat, h: nat)
    requires size > 0 && i < |c|
    requires forall x | x in c :: x.Clause? && x.clause in keys
    ensures forall x | x in Removed(c, i) :: x in c
    ensures SlotWords(keys, size, Removed(c, i), h) ==
            SlotWords(keys, size, c[..i], h) + SlotWords(keys, size, c[i + 1..], h)
  {
    hide SlotWords;
    assert forall x | x in c[..i] + c[i + 1..] :: x in c;
    SlotWordsConcat(keys, size, c[..i], c[i + 1..], h);
  }

  lemma SlotWordsFrom(keys: map<nat, Key>, size: nat, c: seq<Ref>, h: nat)
    requires size > 0 && c != []
    requires forall x | x in c :: x.Clause? && x.clause in keys
    ensures SlotWords(keys, size, c, h) ==
            (if SlotOf(keys[c[0].clause], size) == h then [Ind(c[0].clause)] else []) + SlotWords(keys, size, c[1..], h)
  {
  }

  /** Taking a clause out of the segment takes its word out of its own slot only. */
  lemma SlotWordsRemoved(keys: map<nat, Key>, size: nat, c: seq<Ref>, i: nat, h: nat)
    requires size > 0 && i < |c|
    requires forall x | x in c :: x.Clause? && x.clause in keys
    ensures forall x | x in Removed(c, i) :: x in c
    ensures var w, j := SlotWords(keys, size, c, h), |SlotWords(keys, size, c[..i], h)|;
            if SlotOf(keys[c[i].clause], size) == h then
              j < |w| && w[j] == Ind(c[i].clause) && Removed(w, j) == SlotWords(keys, size, Removed(c, i), h)
            else w == SlotWords(keys, size, Removed(c, i), h)
  {
    SlotWordsSplit(keys, size, c, i, h);
    RemovedMiddle(SlotWords(keys, size, c[..i], h), Ind(c[i].clause), SlotWords(keys, size, c[i + 1..], h));
  }

  lemma RemovedMiddle<T>(a: seq<T>, x: T, b: seq<T>)
    ensures (a + [x] + b)[|a|] == x && Removed(a + [x] + b, |a|) == a + b
    ensures a + [] + b == a + b
  {
  }

  lemma SlotWordsFront(keys: map<nat, Key>, size: nat, x: Ref, c: seq<Ref>, h: nat)
    requires size > 0
    requires forall y | y in [x] + c :: y.Clause? && y.clause in keys
    ensures forall y | y in c :: y in [x] + c
    ensures x in [x] + c
    ensures SlotWords(keys, size, [x] + c, h) ==
            if SlotOf(keys[x.clause], size) == h then [Ind(x.clause)] + SlotWords(keys, size, c, h)
            else SlotWords(keys, size, c, h)
  {
    assert ([x] + c)[1..] == c && ([x] + c)[0] == x;
  }

  lemma SlotWordsBack(keys: map<nat, Key>, size: nat, c: seq<Ref>, x: Ref, h: nat)
    requires size > 0
    requires forall y | y in c + [x] :: y.Clause? && y.clause in keys
    ensures forall y | y in c :: y in c + [x]
    ensures SlotWords(keys, size, c + [x], h) ==
            if (assert x == (c + [x])[|c|]; SlotOf(keys[x.clause], size) == h)
                then SlotWords(keys, size, c, h) + [Ind(x.clause)]
            else SlotWords(keys, size, c, h)
  {
    SlotWordsConcat(keys, size, c, [x], h);
    assert [x][1..] == [];
  }

  lemma {:induction false} SlotWordsKeys(keys: map<nat, Key>, keys': map<nat, Key>, size: nat, c: seq<Ref>, h: nat)
    requires size > 0
    requires forall x | x in c ::
             x.Clause? && x.clause in keys && x.clause in keys' && keys'[x.clause] == keys[x.clause]
    ensures SlotWords(keys', size, c, h) == SlotWords(keys, size, c, h)
  {
    if c != [] {
      SlotWordsKeys(keys, keys', size, c[1..], h);
    }
  }

  // ------------------------------------------------------------------
  // Hash table sizes.

  const HASH_SIZES: seq<nat> := [17, 389, 6151, 49157, 196613, 393241, 786433, 1572869,
                                 3145739, 6291469, 12582917, 25165843, 50331653, 50331653, 50331653, 50331653]

  /** The first table size satisfying the test, from position i; the last one if none does. */
  function SizeAbove(i: nat, bound: nat): (r: nat)
    requires i < |HASH_SIZES|
    ensures r >= 17 && r in HASH_SIZES
    ensures bound < HASH_SIZES[15] ==> r > bound
    decreases |HASH_SIZES| - i
  {
    if HASH_SIZES[i] > bound || i == 15 then HASH_SIZES[i] else SizeAbove(i + 1, bound)
  }

  function SizeAtLeast(i: nat, bound: nat): (r: nat)
    requires i < |HASH_SIZES|
    ensures r >= 17 && r in HASH_SIZES
    ensures bound <= HASH_SIZES[15] ==> r >= bound
    decreases |HASH_SIZES| - i
  {
    if HASH_SIZES[i] >= bound || i == 15 then HASH_SIZES[i] else SizeAtLeast(i + 1, bound)
  }

  /** The table size for the next clause: of an empty predicate, or next to a SOB of the given
      size and number of nonempty buckets. */
  function HashResize(empty: bool, size: nat, nonempty: nat, oldTabSize: nat): nat {
    if empty then SizeAtLeast(0, oldTabSize)
    else
      var t :=
        if nonempty > (size / 4) * 3 then
          if size >= HASH_SIZES[15] then size + 2 else SizeAbove(0, size)
        else size;
      if t > oldTabSize then t else oldTabSize
  }

  /** n is the first table size above bound. */
  predicate FirstAbove(n: nat, bound: nat) {
    n in HASH_SIZES && n > bound && forall p | p in HASH_SIZES && p > bound :: n <= p
  }

  /** n is the first table size not below bound, or the last one if all are below. */
  predicate FirstFrom(n: nat, bound: nat) {
    n in HASH_SIZES && if bound <= 50331653 then n >= bound && forall p | p in HASH_SIZES && p >= bound :: n <= p
                       else n == 50331653
  }

  function Larger(a: nat, b: nat): nat {
    if a < b then b else a
  }

  /** The size of a new table for a bound argument, when the one at the end of the predicate has the given size
      and number of nonempty buckets and will not do: more than three quarters of them are used, or it is
      smaller than asked for. */
  ghost predicate GrownTo(n: nat, size: nat, nonempty: nat, asked: nat) {
    if nonempty <= size / 4 * 3 then n == asked
    else if size < 50331653 then exists t: nat :: FirstAbove(t, size) && n == Larger(t, asked)
    else n == Larger(size + 2, asked)
  }

  lemma SizeAboveFirst(i: nat, bound: nat)
    requires i <= 12 && bound < 50331653 && forall j: nat | j < i :: HASH_SIZES[j] <= bound
    ensures FirstAbove(SizeAbove(i, bound), bound)
    decreases 12 - i
  {
    SizesSorted();
    if HASH_SIZES[i] <= bound {
      SizeAboveFirst(i + 1, bound);
    }
  }

  lemma SizeAtLeastFirst(i: nat, bound: nat)
    requires i <= 15 && forall j: nat | j < i :: HASH_SIZES[j] < bound
    ensures FirstFrom(SizeAtLeast(i, bound), bound)
    decreases 15 - i
  {
    SizesSorted();
    if i < 15 && HASH_SIZES[i] < bound {
      SizeAtLeastFirst(i + 1, bound);
    }
  }

  lemma SizesSorted()
    ensures forall i, j | 0 <= i < j < |HASH_SIZES| :: HASH_SIZES[i] <= HASH_SIZES[j]
    ensures |HASH_SIZES| == 16 && HASH_SIZES[12] == HASH_SIZES[15] == 50331653
  {
  }

  /** A table is kept exactly if at most three quarters of its buckets are used and it is as large as
      asked for; otherwise the new one is the next larger one, or the one asked for; the first one is the
      smallest as large as asked for. */
  lemma HashResizeIs(size: nat, nonempty: nat, asked: nat)
    ensures HashResize(false, size, nonempty, asked) == size <==> nonempty <= size / 4 * 3 && asked <= size
    ensures HashResize(false, size, nonempty, asked) != size ==>
              GrownTo(HashResize(false, size, nonempty, asked), size, nonempty, asked)
    ensures FirstFrom(HashResize(true, size, nonempty, asked), asked)
  {
    SizeAtLeastFirst(0, asked);
    if size < 50331653 {
      SizeAboveFirst(0, size);
      assert FirstAbove(SizeAbove(0, size), size);
    }
  }

  /** A clause with a bound argument never lands in a one-bucket table. */
  lemma HashResizeBig(empty: bool, size: nat, nonempty: nat, oldTabSize: nat)
    requires empty || (size >= 17 || (size == 1 && nonempty == 1))
    ensures HashResize(empty, size, nonempty, oldTabSize) >= 17
  {
  }
}
