/** Sequences without repetitions, filters and removal, and cardinalities of sets. */
module Sequences {

  datatype Option<T> = None | Some(value: T)

  ghost predicate NoDup<T>(s: seq<T>) {
    forall i, j | 0 <= i < j < |s| :: s[i] != s[j]
  }

  lemma NoDupCons<T>(x: T, s: seq<T>)
    requires NoDup(s) && x !in s
    ensures NoDup([x] + s)
  {
    var r := [x] + s;
    forall i, j | 0 <= i < j < |r| ensures r[i] != r[j] {
      assert r[j] == s[j - 1];
      if i > 0 {
        assert r[i] == s[i - 1];
      }
    }
  }

  lemma NoDupSnoc<T>(s: seq<T>, x: T)
    requires NoDup(s) && x !in s
    ensures NoDup(s + [x])
  {
    var r := s + [x];
    forall i, j | 0 <= i < j < |r| ensures r[i] != r[j] {
      assert r[i] == s[i];
      if j < |s| {
        assert r[j] == s[j];
      }
    }
  }

  lemma NoDupConcat<T>(s: seq<T>, t: seq<T>)
    requires NoDup(s) && NoDup(t) && forall x | x in s :: x !in t
    ensures NoDup(s + t)
  {
    var r := s + t;
    forall i, j | 0 <= i < j < |r| ensures r[i] != r[j] {
      if i < |s| {
        assert r[i] == s[i] && s[i] in s;
        if j >= |s| {
          assert r[j] == t[j - |s|] && t[j - |s|] in t;
        }
      } else {
        assert r[i] == t[i - |s|] && r[j] == t[j - |s|];
      }
    }
  }

  function Elements<T>(s: seq<T>): set<T> {
    set x | x in s
  }

  lemma {:induction false} NoDupSize<T>(s: seq<T>)
    requires NoDup(s)
    ensures |Elements(s)| == |s|
  {
    if s != [] {
      var n := |s| - 1;
      NoDupSize(s[..n]);
      assert Elements(s) == Elements(s[..n]) + {s[n]} && s[n] !in s[..n];
    }
  }

  lemma SubsetSize<T>(A: set<T>, B: set<T>)
    requires A <= B
    ensures |A| <= |B|
    ensures |A| == |B| ==> A == B
  {
    assert B == A + (B - A);
    assert |B| == |A| + |B - A|;
  }

  lemma DisjointSize<T>(A: set<T>, B: set<T>)
    requires A !! B
    ensures |A + B| == |A| + |B|
  {
  }

  /** The elements of c that satisfy p, in order. */
  function KeepIf<T>(c: seq<T>, p: T -> bool): seq<T> {
    if c == [] then [] else (if p(c[0]) then [c[0]] else []) + KeepIf(c[1..], p)
  }

  lemma KeepIfUnfold<T>(c: seq<T>, p: T -> bool)
    ensures KeepIf(c, p) == if c == [] then [] else (if p(c[0]) then [c[0]] else []) + KeepIf(c[1..], p)
  {
  }

  lemma {:induction false} KeepIfConcat<T>(a: seq<T>, b: seq<T>, p: T -> bool)
    ensures KeepIf(a + b, p) == KeepIf(a, p) + KeepIf(b, p)
  {
    hide KeepIf;
    KeepIfUnfold(a, p);
    if a == [] {
      assert a + b == b;
    } else {
      assert (a + b)[1..] == a[1..] + b;
      KeepIfUnfold(a + b, p);
      KeepIfConcat(a[1..], b, p);
    }
  }

  lemma {:induction false} KeepIfMember<T(!new)>(c: seq<T>, p: T -> bool)
    ensures forall x :: x in KeepIf(c, p) <==> x in c && p(x)
  {
    if c != [] {
      assert c == [c[0]] + c[1..];
      KeepIfMember(c[1..], p);
    }
  }

  lemma {:induction false} KeepIfAgree<T>(c: seq<T>, p: T -> bool, q: T -> bool)
    requires forall x | x in c :: p(x) == q(x)
    ensures KeepIf(c, p) == KeepIf(c, q)
  {
    if c != [] {
      assert c[0] in c && forall x | x in c[1..] :: x in c;
      KeepIfAgree(c[1..], p, q);
    }
  }

  lemma {:induction false} KeepIfAll<T>(c: seq<T>, p: T -> bool)
    requires forall x | x in c :: p(x)
    ensures KeepIf(c, p) == c
  {
    if c != [] {
      assert c[0] in c && c == [c[0]] + c[1..];
      KeepIfAll(c[1..], p);
    }
  }

  /** Filtering twice is filtering for both. */
  lemma {:induction false} KeepIfTwice<T>(c: seq<T>, p: T -> bool, q: T -> bool, both: T -> bool)
    requires forall x | x in c :: both(x) <==> p(x) && q(x)
    ensures KeepIf(KeepIf(c, p), q) == KeepIf(c, both)
  {
    if c != [] {
      assert c[0] in c && forall x | x in c[1..] :: x in c;
      KeepIfConcat(if p(c[0]) then [c[0]] else [], KeepIf(c[1..], p), q);
      KeepIfTwice(c[1..], p, q, both);
    }
  }

  /** Removing an element from a list removes it from the filtered list, or leaves that alone. */
  lemma KeepIfRemoved<T>(c: seq<T>, i: nat, p: T -> bool)
    requires i < |c|
    ensures var j := |KeepIf(c[..i], p)|;
            if p(c[i]) then j < |KeepIf(c, p)| && KeepIf(c, p)[j] == c[i]
                && KeepIf(Removed(c, i), p) == Removed(KeepIf(c, p), j)
            else KeepIf(Removed(c, i), p) == KeepIf(c, p)
  {
    hide KeepIf;
    assert c == c[..i] + c[i..] && c[i..][1..] == c[i + 1..];
    KeepIfUnfold(c[i..], p);
    KeepIfConcat(c[..i], c[i..], p);
    KeepIfConcat(c[..i], c[i + 1..], p);
  }

  function MemberOf<T(==)>(S: set<T>): T -> bool {
    x => x in S
  }

  function NotMemberOf<T(==)>(S: set<T>): T -> bool {
    x => x !in S
  }

  /** The elements of c that are in S, in order. */
  function KeepIn<T(==)>(c: seq<T>, S: set<T>): seq<T> {
    KeepIf(c, MemberOf(S))
  }

  /** c without the elements of D, in order. */
  function Minus<T(==)>(c: seq<T>, D: set<T>): seq<T> {
    KeepIf(c, NotMemberOf(D))
  }

  lemma MinusMember<T(!new)>(c: seq<T>, D: set<T>)
    ensures forall x :: x in Minus(c, D) <==> x in c && x !in D
  {
    KeepIfMember(c, NotMemberOf(D));
  }

  lemma MinusNothing<T>(c: seq<T>, D: set<T>)
    requires forall x | x in c :: x !in D
    ensures Minus(c, D) == c
  {
    KeepIfAll(c, NotMemberOf(D));
  }

  lemma MinusMinus<T>(c: seq<T>, D: set<T>, E: set<T>)
    ensures Minus(Minus(c, D), E) == Minus(c, D + E)
  {
    KeepIfTwice(c, NotMemberOf(D), NotMemberOf(E), NotMemberOf(D + E));
  }

  lemma MinusOne<T(!new)>(c: seq<T>, i: nat)
    requires NoDup(c) && i < |c|
    ensures Minus(c, {c[i]}) == Removed(c, i)
  {
    var D := {c[i]};
    KeepIfRemoved(c, i, NotMemberOf(D));
    RemovedNoDup(c, i);
    KeepIfAll(Removed(c, i), NotMemberOf(D));
  }

  /** s without the occurrences of x, in order. */
  function Without<T(==, !new)>(s: seq<T>, x: T): (r: seq<T>)
    ensures x !in r
    ensures forall y | y != x :: y in r <==> y in s
    ensures x !in s ==> r == s
  {
    KeepIfMember(s, NotMemberOf({x}));
    assert x !in s ==> Minus(s, {x}) == s by {
      if x !in s {
        KeepIfAll(s, NotMemberOf({x}));
      }
    }
    Minus(s, {x})
  }

  lemma WithoutHead<T(!new)>(y: T, s: seq<T>, x: T)
    ensures Without([y] + s, x) == (if y == x then [] else [y]) + Without(s, x)
  {
    KeepIfUnfold([y] + s, NotMemberOf({x}));
    assert ([y] + s)[1..] == s;
  }

  lemma WithoutNoDup<T(!new)>(s: seq<T>, x: T)
    requires NoDup(s)
    ensures NoDup(Without(s, x))
    ensures |Without(s, x)| == if x in s then |s| - 1 else |s|
  {
    if x in s {
      var i :| 0 <= i < |s| && s[i] == x;
      MinusOne(s, i);
      RemovedNoDup(s, i);
    }
  }

  function Removed<T>(c: seq<T>, i: nat): seq<T>
    requires i < |c|
  {
    c[..i] + c[i + 1..]
  }

  lemma RemovedNoDup<T>(c: seq<T>, i: nat)
    requires NoDup(c) && i < |c|
    ensures NoDup(Removed(c, i))
    ensures forall x :: x in Removed(c, i) <==> x in c && x != c[i]
  {
    var d := Removed(c, i);
    forall j, k | 0 <= j < k < |d| ensures d[j] != d[k] {
      assert d[j] == c[if j < i then j else j + 1] && d[k] == c[if k < i then k else k + 1];
    }
    forall x ensures x in d <==> x in c && x != c[i] {
      if x in d {
        var k :| 0 <= k < |d| && d[k] == x;
        assert c[if k < i then k else k + 1] == x;
      }
      if x in c && x != c[i] {
        var k :| 0 <= k < |c| && c[k] == x;
        assert d[if k < i then k else k - 1] == x;
      }
    }
  }
}
