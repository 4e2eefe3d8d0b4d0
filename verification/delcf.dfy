/** The frames of retracted but unreclaimed clauses, in a global and a per-predicate doubly linked list. */
module DeletedFrames {
  import opened Sequences

  datatype Kind = DeletedPrRef | DeletedClRef

  /** What a frame keeps: its predicate, the deleted clause or first clause, and which of the two. */
  datatype Info = Info(prref: nat, clref: nat, kind: Kind)

  type Frames = map<nat, Info>

  type Links = map<nat, Option<nat>>

  function At(c: seq<nat>, i: int): Option<nat> {
    if 0 <= i < |c| then Some(c[i]) else None
  }

  lemma AtValue(c: seq<nat>, i: nat)
    requires i <= |c|
    ensures if i < |c| then At(c, i) == Some(c[i]) else At(c, i) == None
  {
  }

  ghost predicate LinkedAt(c: seq<nat>, next: Links, prev: Links, i: nat)
    requires i < |c|
  {
    && c[i] in next && next[c[i]] == At(c, i + 1)
    && c[i] in prev && prev[c[i]] == At(c, i - 1)
  }

  ghost predicate Linked(c: seq<nat>, head: Option<nat>, next: Links, prev: Links) {
    && NoDup(c) && head == At(c, 0)
    && forall i: nat | i < |c| :: LinkedAt(c, next, prev, i)
  }

  lemma LinkedFrame(c: seq<nat>, head: Option<nat>, next: Links, prev: Links, next': Links, prev': Links)
    requires Linked(c, head, next, prev)
    requires forall f | f in c :: f in next && f in prev ==>
             f in next' && f in prev' && next'[f] == next[f] && prev'[f] == prev[f]
    ensures Linked(c, head, next', prev')
  {
    forall i: nat | i < |c| ensures LinkedAt(c, next', prev', i) {
      assert LinkedAt(c, next, prev, i);
      assert c[i] in c;
    }
  }

  /** prev with the back link of the old head set, if there is one. */
  function BackLinked(prev: Links, f: Option<nat>, to: Option<nat>): Links {
    if f.Some? then prev[f.value := to] else prev
  }

  lemma LinkedPush(c: seq<nat>, head: Option<nat>, next: Links, prev: Links, f: nat)
    requires Linked(c, head, next, prev) && f !in c
    ensures Linked([f] + c, Some(f), next[f := head], BackLinked(prev[f := None], head, Some(f)))
  {
    var d := [f] + c;
    NoDupCons(f, c);
    var next', prev' := next[f := head], BackLinked(prev[f := None], head, Some(f));
    forall i: nat | i < |d| ensures LinkedAt(d, next', prev', i) {
      if i > 0 {
        assert LinkedAt(c, next, prev, i - 1);
        assert d[i] == c[i - 1] && c[i - 1] in c;
      }
    }
  }

  lemma LinkedUnlink(c: seq<nat>, head: Option<nat>, next: Links, prev: Links, i: nat)
    requires Linked(c, head, next, prev) && i < |c|
    ensures c[i] in next && c[i] in prev && prev[c[i]] != Some(c[i])
    ensures Linked(Removed(c, i), if prev[c[i]].None? then next[c[i]] else head,
                   BackLinked(next, prev[c[i]], next[c[i]]), BackLinked(prev, next[c[i]], prev[c[i]]))
  {
    assert LinkedAt(c, next, prev, i);
    var d := Removed(c, i);
    RemovedNoDup(c, i);
    var next', prev' := BackLinked(next, prev[c[i]], next[c[i]]), BackLinked(prev, next[c[i]], prev[c[i]]);
    forall k: nat | k < |d| ensures LinkedAt(d, next', prev', k) {
      var k' := if k < i then k else k + 1;
      assert d[k] == c[k'] && LinkedAt(c, next, prev, k');
      assert k > 0 ==> d[k - 1] == c[if k - 1 < i then k - 1 else k];
      assert k + 1 < |d| ==> d[k + 1] == c[if k + 1 < i then k + 1 else k + 2];
    }
  }

  /** Taking an element out of the set takes it out of the filtered list. */
  lemma KeepInLess<T(!new)>(c: seq<T>, S: set<T>, m: nat)
    requires NoDup(c) && m < |c| && c[m] in S
    ensures var j := |KeepIn(c[..m], S)|;
            j < |KeepIn(c, S)| && KeepIn(c, S)[j] == c[m] && KeepIn(c, S - {c[m]}) == Removed(KeepIn(c, S), j)
  {
    hide KeepIf;
    var x := c[m];
    assert c == c[..m] + c[m..] && c[m..][1..] == c[m + 1..];
    KeepIfUnfold(c[m..], MemberOf(S));
    KeepIfUnfold(c[m..], MemberOf(S - {x}));
    KeepIfConcat(c[..m], c[m..], MemberOf(S));
    KeepIfConcat(c[..m], c[m..], MemberOf(S - {x}));
    KeepIfAgree(c[..m], MemberOf(S), MemberOf(S - {x}));
    KeepIfAgree(c[m + 1..], MemberOf(S), MemberOf(S - {x}));
    assert KeepIn(c[m..], S) == [x] + KeepIn(c[m + 1..], S);
    assert KeepIn(c[m..], S - {x}) == KeepIn(c[m + 1..], S - {x});
  }

  function FramesOf(info: Frames, p: nat): set<nat> {
    set f | f in info && info[f].prref == p
  }

  function ClauseFramesOf(info: Frames, p: nat): set<nat> {
    set f | f in info && info[f].prref == p && info[f].kind == DeletedClRef
  }

  /** Of the frames of list, exactly the deleted clauses of predicate p are missing in kept. */
  ghost predicate ClausesGone(list: seq<nat>, kept: seq<nat>, info: Frames, p: nat) {
    && (forall f: nat | f in list :: f in info && (f in kept <==> info[f].prref != p || info[f].kind != DeletedClRef))
    && (forall f: nat | f in kept :: f in list)
  }

  /** The frames of predicate p, in the order of the global list. */
  function OfPred(all: seq<nat>, info: Frames, p: nat): seq<nat> {
    KeepIn(all, FramesOf(info, p))
  }

  lemma PushPred(all: seq<nat>, info: Frames, delcf: Links, nextPred: Links, prevPred: Links, f: nat, x: Info, q: nat)
    requires f !in all && x.prref in delcf && q in delcf
    requires Linked(OfPred(all, info, q), delcf[q], nextPred, prevPred)
    requires Linked(OfPred(all, info, x.prref), delcf[x.prref], nextPred, prevPred)
    ensures Linked(OfPred([f] + all, info[f := x], q), delcf[x.prref := Some(f)][q],
                   nextPred[f := delcf[x.prref]], BackLinked(prevPred[f := None], delcf[x.prref], Some(f)))
  {
    var p := x.prref;
    var c, c' := OfPred(all, info, p), OfPred(all, info, q);
    KeepIfAgree(all, MemberOf(FramesOf(info, q)), MemberOf(FramesOf(info[f := x], q)));
    assert ([f] + all)[1..] == all;
    KeepIfMember(all, MemberOf(FramesOf(info, p)));
    KeepIfMember(all, MemberOf(FramesOf(info, q)));
    if q == p {
      LinkedPush(c, delcf[p], nextPred, prevPred, f);
      assert OfPred([f] + all, info[f := x], q) == [f] + c;
    } else {
      assert OfPred([f] + all, info[f := x], q) == c';
      assert delcf[p].Some? ==> c[0] == delcf[p].value && c[0] in c && c[0] !in c';
      LinkedFrame(c', delcf[q], nextPred, prevPred, nextPred[f := delcf[p]],
          BackLinked(prevPred[f := None], delcf[p], Some(f)));
    }
  }

  lemma {:induction false} NoneOf(c: seq<nat>, info: Frames, p: nat)
    requires forall f | f in c :: f !in FramesOf(info, p)
    ensures OfPred(c, info, p) == []
  {
    if c != [] {
      assert c[0] in c;
      NoneOf(c[1..], info, p);
    }
  }

  ghost predicate Recorded(all: seq<nat>, info: Frames, delcf: Links) {
    forall f: nat {:trigger f in all} | f in all :: f in info && info[f].prref in delcf
  }

  /** Each predicate's list holds its frames, in the order of the global list. */
  ghost predicate PredLists(all: seq<nat>, info: Frames, delcf: Links, nextPred: Links, prevPred: Links) {
    forall p: nat | p in delcf :: Linked(OfPred(all, info, p), delcf[p], nextPred, prevPred)
  }

  lemma PushAll(all: seq<nat>, info: Frames, delcf: Links, nextPred: Links, prevPred: Links, f: nat, x: Info)
    requires f !in all && x.prref in delcf && PredLists(all, info, delcf, nextPred, prevPred)
             && Recorded(all, info, delcf)
    ensures PredLists([f] + all, info[f := x], delcf[x.prref := Some(f)],
                      nextPred[f := delcf[x.prref]], BackLinked(prevPred[f := None], delcf[x.prref], Some(f)))
    ensures Recorded([f] + all, info[f := x], delcf[x.prref := Some(f)])
  {
    forall q: nat | q in delcf
      ensures Linked(OfPred([f] + all, info[f := x], q), delcf[x.prref := Some(f)][q],
                     nextPred[f := delcf[x.prref]], BackLinked(prevPred[f := None], delcf[x.prref], Some(f)))
    {
      PushPred(all, info, delcf, nextPred, prevPred, f, x, q);
    }
  }

  /** Where the i-th frame of the global list is in its predicate's list. */
  function PlaceInPred(all: seq<nat>, info: Frames, i: nat): nat
    requires i < |all| && all[i] in info
  {
    |OfPred(all[..i], info, info[all[i]].prref)|
  }

  lemma UnlinkPred(all: seq<nat>, info: Frames, delcf: Links, nextPred: Links, prevPred: Links, i: nat, q: nat)
    requires i < |all| && NoDup(all) && Recorded(all, info, delcf) && q in delcf
    requires PredLists(all, info, delcf, nextPred, prevPred)
    ensures all[i] in info && all[i] in nextPred && all[i] in prevPred && prevPred[all[i]] != Some(all[i])
    ensures var f := all[i];
            Linked(OfPred(Removed(all, i), info, q),
                   (if prevPred[f].None? then delcf[info[f].prref := nextPred[f]] else delcf)[q],
                   BackLinked(nextPred, prevPred[f], nextPred[f]), BackLinked(prevPred, nextPred[f], prevPred[f]))
  {
    var f := all[i];
    assert f in all;
    var p := info[f].prref;
    var c, j := OfPred(all, info, p), PlaceInPred(all, info, i);
    KeepIfRemoved(all, i, MemberOf(FramesOf(info, p)));
    assert c[j] == f;
    LinkedUnlink(c, delcf[p], nextPred, prevPred, j);
    if q != p {
      var c' := OfPred(all, info, q);
      KeepIfRemoved(all, i, MemberOf(FramesOf(info, q)));
      KeepIfMember(all, MemberOf(FramesOf(info, p)));
      KeepIfMember(all, MemberOf(FramesOf(info, q)));
      assert LinkedAt(c, nextPred, prevPred, j);
      assert j + 1 < |c| ==> c[j + 1] in c;
      assert j > 0 ==> c[j - 1] in c;
      LinkedFrame(c', delcf[q], nextPred, prevPred, BackLinked(nextPred, prevPred[f], nextPred[f]),
          BackLinked(prevPred, nextPred[f], prevPred[f]));
    }
  }

  lemma UnlinkAll(all: seq<nat>, info: Frames, delcf: Links, nextPred: Links, prevPred: Links, i: nat)
    requires i < |all| && NoDup(all) && Recorded(all, info, delcf) && PredLists(all, info, delcf, nextPred, prevPred)
    ensures all[i] in info && all[i] in nextPred && all[i] in prevPred && prevPred[all[i]] != Some(all[i])
            && info[all[i]].prref in delcf
    ensures var f := all[i];
            var delcf' := if prevPred[f].None? then delcf[info[f].prref := nextPred[f]] else delcf;
            && PredLists(Removed(all, i), info, delcf', BackLinked(nextPred, prevPred[f], nextPred[f]),
                BackLinked(prevPred, nextPred[f], prevPred[f]))
            && Recorded(Removed(all, i), info, delcf')
  {
    var f := all[i];
    assert f in all && info[f].prref in delcf;
    UnlinkPred(all, info, delcf, nextPred, prevPred, i, info[f].prref);
    var delcf' := if prevPred[f].None? then delcf[info[f].prref := nextPred[f]] else delcf;
    forall q: nat | q in delcf'
      ensures Linked(OfPred(Removed(all, i), info, q), delcf'[q],
                     BackLinked(nextPred, prevPred[f], nextPred[f]), BackLinked(prevPred, nextPred[f], prevPred[f]))
    {
      UnlinkPred(all, info, delcf, nextPred, prevPred, i, q);
    }
    RemovedNoDup(all, i);
  }

  function Survivors(all: seq<nat>, info: Frames, marked: set<nat>, safe: set<nat>): set<nat> {
    set f | f in all && (f in marked || (f in info && info[f].kind == DeletedClRef && f !in safe))
  }

  /** The first i frames of list have been visited. */
  ghost predicate Swept(list: seq<nat>, survivors: set<nat>, marked0: set<nat>, i: nat, all: seq<nat>, marked: set<nat>,
                        count: nat)
  {
    && NoDup(list) && i <= |list|
    && all == KeepIn(list[..i], survivors) + list[i..] && count == |KeepIn(list[..i], survivors)|
    && marked == marked0 - Elements(list[..i])
  }

  lemma SweepPlace(list: seq<nat>, survivors: set<nat>, marked0: set<nat>, i: nat, all: seq<nat>, marked: set<nat>,
                   count: nat)
    requires Swept(list, survivors, marked0, i, all, marked, count) && i < |list|
    ensures count < |all| && all[count] == list[i] && At(all, count + 1) == At(list, i + 1)
    ensures list[i] in marked <==> list[i] in marked0
  {
    assert list[i..] == [list[i]] + list[i + 1..];
  }

  lemma SweepNext(list: seq<nat>, survivors: set<nat>, marked0: set<nat>, i: nat, all: seq<nat>, marked: set<nat>,
                  count: nat, stays: bool)
    requires i < |list| && stays == (list[i] in survivors)
    requires Swept(list, survivors, marked0, i, all, marked, count)
    ensures count < |all|
    ensures Swept(list, survivors, marked0, i + 1, if stays then all else Removed(all, count),
                  marked - {list[i]}, if stays then count + 1 else count)
  {
    hide KeepIf;
    assert list[i..] == [list[i]] + list[i + 1..];
    assert list[..i + 1] == list[..i] + [list[i]];
    KeepIfUnfold([list[i]], MemberOf(survivors));
    KeepIfUnfold<nat>([], MemberOf(survivors));
    assert [list[i]][1..] == [];
    KeepIfConcat(list[..i], [list[i]], MemberOf(survivors));
    assert Elements(list[..i + 1]) == Elements(list[..i]) + {list[i]};
  }

  lemma SweepEnd(list: seq<nat>, survivors: set<nat>, marked0: set<nat>, all: seq<nat>, marked: set<nat>, count: nat)
    requires Swept(list, survivors, marked0, |list|, all, marked, count)
    ensures all == KeepIn(list, survivors) && count == |all| && marked == marked0 - Elements(list)
  {
    assert list[..|list|] == list;
  }

  lemma IsSurvivor(list: seq<nat>, info: Frames, marked: set<nat>, safe: set<nat>, i: nat)
    requires i < |list| && list[i] in info
    ensures list[i] in Survivors(list, info, marked, safe) <==>
            list[i] in marked || (info[list[i]].kind == DeletedClRef && list[i] !in safe)
  {
    assert list[i] in list;
  }

  lemma DropFromKept(list: seq<nat>, gone: set<nat>, kept: seq<nat>, i: nat)
    requires NoDup(list) && kept == KeepIn(list, Elements(list) - gone) && NoDup(kept) && i < |kept|
    ensures Removed(kept, i) == KeepIn(list, Elements(list) - (gone + {kept[i]}))
  {
    var S := Elements(list) - gone;
    KeepIfMember(list, MemberOf(S));
    assert kept[i] in kept;
    var m :| 0 <= m < |list| && list[m] == kept[i];
    KeepInLess(list, S, m);
    assert S - {kept[i]} == Elements(list) - (gone + {kept[i]});
  }

  /** The first j frames of c, the list of the predicate, have been visited; pre are those that stay. */
  ghost predicate Freed(list: seq<nat>, c: seq<nat>, clauses: set<nat>, j: nat, pre: seq<nat>, all: seq<nat>,
                        mine: seq<nat>)
  {
    && NoDup(list) && j <= |c| && mine == pre + c[j..]
    && all == KeepIn(list, Elements(list) - Elements(c[..j]) * clauses)
  }

  lemma FreedStart(list: seq<nat>, c: seq<nat>, clauses: set<nat>)
    requires NoDup(list)
    ensures Freed(list, c, clauses, 0, [], list, c)
  {
    KeepIfAll(list, MemberOf(Elements(list)));
    assert Elements(list) - Elements(c[..0]) * clauses == Elements(list);
    assert [] + c[0..] == c;
  }

  lemma FreedPlace(list: seq<nat>, c: seq<nat>, clauses: set<nat>, j: nat, pre: seq<nat>, all: seq<nat>, mine: seq<nat>)
    requires Freed(list, c, clauses, j, pre, all, mine) && j < |c|
    ensures |pre| < |mine| && mine[|pre|] == c[j] && At(mine, |pre| + 1) == At(c, j + 1)
  {
  }

  lemma FreedNext(list: seq<nat>, c: seq<nat>, clauses: set<nat>, j: nat, pre: seq<nat>, all: seq<nat>, mine: seq<nat>,
                  i: nat)
    requires Freed(list, c, clauses, j, pre, all, mine) && j < |c| && NoDup(all) && i < |all| && all[i] == c[j]
    ensures |pre| < |mine|
    ensures if c[j] in clauses then Freed(list, c, clauses, j + 1, pre, Removed(all, i), Removed(mine, |pre|))
            else Freed(list, c, clauses, j + 1, pre + [c[j]], all, mine)
  {
    hide KeepIf;
    assert c[..j + 1] == c[..j] + [c[j]];
    var gone := Elements(c[..j]) * clauses;
    if c[j] in clauses {
      assert Elements(c[..j + 1]) * clauses == gone + {c[j]};
      DropFromKept(list, gone, all, i);
      assert Removed(mine, |pre|) == pre + c[j + 1..];
    } else {
      assert Elements(c[..j + 1]) * clauses == gone;
      assert mine == (pre + [c[j]]) + c[j + 1..];
    }
  }

  lemma AllGone(list: seq<nat>, c: seq<nat>, info: Frames, p: nat, all: seq<nat>, pre: seq<nat>, mine: seq<nat>)
    requires c == OfPred(list, info, p) && Freed(list, c, ClauseFramesOf(info, p), |c|, pre, all, mine)
    ensures all == KeepIn(list, Elements(list) - ClauseFramesOf(info, p))
    ensures forall f | f in all :: f in list
  {
    var clauses := ClauseFramesOf(info, p);
    assert c[..|c|] == c;
    KeepIfMember(list, MemberOf(FramesOf(info, p)));
    assert Elements(list) - Elements(c) * clauses == Elements(list) - clauses;
    KeepIfMember(list, MemberOf(Elements(list) - clauses));
  }

  class FrameLists {
    var begin: Option<nat>
    var next: Links
    var prev: Links
    /** The first frame of each predicate. */
    var delcf: Links
    var nextPred: Links
    var prevPred: Links
    var info: Frames
    var marked: set<nat>
    ghost var all: seq<nat>

    ghost predicate Valid()
      reads this
    {
      && Linked(all, begin, next, prev)
      && Recorded(all, info, delcf)
      && PredLists(all, info, delcf, nextPred, prevPred)
    }

    constructor ()
      ensures Valid() && all == []
    {
      begin, next, prev, delcf, nextPred, prevPred := None, map[], map[], map[], map[], map[];
      info, marked, all := map[], {}, [];
    }

    method NewPrRef(p: nat)
      requires Valid() && p !in delcf
      modifies this
      ensures Valid() && all == old(all) && delcf == old(delcf)[p := None]
    {
      NoneOf(all, info, p);
      delcf := delcf[p := None];
    }

    /** Puts an unmarked frame in front of both lists. */
    method NewDelCF(f: nat, x: Info)
      requires Valid() && x.prref in delcf && f !in all
      modifies this
      ensures Valid() && all == [f] + old(all)
      ensures info == old(info)[f := x] && marked == old(marked) - {f} && delcf.Keys == old(delcf).Keys
    {
      hide Linked, PredLists, Recorded, NoDup, Removed;
      LinkedPush(all, begin, next, prev, f);
      PushAll(all, info, delcf, nextPred, prevPred, f, x);
      var p := x.prref;
      info, marked := info[f := x], marked - {f};
      prev := prev[f := None];
      prevPred := prevPred[f := None];
      next := next[f := begin];
      nextPred := nextPred[f := delcf[p]];
      if begin.Some? {
        prev := prev[begin.value := Some(f)];
      }
      if delcf[p].Some? {
        prevPred := prevPred[delcf[p].value := Some(f)];
      }
      begin := Some(f);
      delcf := delcf[p := Some(f)];
      all := [f] + all;
    }

    /** Takes a frame out of the global list. */
    method UnlinkGlobal(f: nat)
      requires f in next && f in prev && prev[f] != Some(f)
      modifies this`begin, this`next, this`prev
      ensures begin == (if old(prev)[f].None? then old(next)[f] else old(begin))
      ensures next == BackLinked(old(next), old(prev)[f], old(next)[f])
      ensures prev == BackLinked(old(prev), old(next)[f], old(prev)[f])
    {
      if prev[f].None? {
        begin := next[f];
      } else {
        next := next[prev[f].value := next[f]];
      }
      if next[f].Some? {
        prev := prev[next[f].value := prev[f]];
      }
    }

    /** Takes a frame out of the list of predicate p. */
    method UnlinkFromPred(f: nat, p: nat)
      requires f in nextPred && f in prevPred && prevPred[f] != Some(f) && p in delcf
      modifies this`delcf, this`nextPred, this`prevPred
      ensures delcf == (if old(prevPred)[f].None? then old(delcf)[p := old(nextPred)[f]] else old(delcf))
      ensures nextPred == BackLinked(old(nextPred), old(prevPred)[f], old(nextPred)[f])
      ensures prevPred == BackLinked(old(prevPred), old(nextPred)[f], old(prevPred)[f])
      ensures nextPred[f] == old(nextPred)[f]
    {
      if prevPred[f].None? {
        delcf := delcf[p := nextPred[f]];
      } else {
        nextPred := nextPred[prevPred[f].value := nextPred[f]];
      }
      if nextPred[f].Some? {
        prevPred := prevPred[nextPred[f].value := prevPred[f]];
      }
    }

    /** Takes a frame of predicate p out of both lists. */
    method FreeDelCF(f: nat, p: nat, ghost i: nat)
      requires Valid() && i < |all| && all[i] == f && f in info && info[f].prref == p
      modifies this`begin, this`next, this`prev, this`delcf, this`nextPred, this`prevPred, this`all
      ensures Valid() && all == Removed(old(all), i)
      ensures delcf.Keys == old(delcf).Keys
      ensures f in old(nextPred) && f in nextPred && nextPred[f] == old(nextPred)[f]
    {
      LinkedUnlink(all, begin, next, prev, i);
      UnlinkAll(all, info, delcf, nextPred, prevPred, i);
      hide Linked, PredLists, Recorded, NoDup, Removed;
      UnlinkGlobal(f);
      UnlinkFromPred(f, p);
      all := Removed(all, i);
    }

    /** The frame of a cursor. */
    lemma CursorAt(i: nat)
      requires Valid() && i < |all|
      ensures all[i] in next && next[all[i]] == At(all, i + 1) && all[i] in info && info[all[i]].prref in delcf
    {
      assert LinkedAt(all, next, prev, i);
      assert all[i] in all;
    }

    /** Visits the i-th frame; returns whether it stays. */
    method SweepFrame(f: nat, safe: set<nat>, ghost i: nat) returns (stays: bool)
      requires Valid() && i < |all| && all[i] == f && f in info && info[f].prref in delcf
      modifies this`begin, this`next, this`prev, this`delcf, this`nextPred, this`prevPred, this`marked, this`all
      ensures Valid() && delcf.Keys == old(delcf).Keys
      ensures stays == (f in old(marked) || (info[f].kind == DeletedClRef && f !in safe))
      ensures all == if stays then old(all) else Removed(old(all), i)
      ensures marked == old(marked) - {f}
    {
      hide Linked, Recorded, PredLists;
      stays := true;
      if f in marked {
        marked := marked - {f};
      } else if info[f].kind == DeletedPrRef || f in safe {
        FreeDelCF(f, info[f].prref, i);
        stays := false;
      }
    }

    /** Clears marks; frees the unmarked frames of predicates, and those of clauses that are safe to delete. */
    method SweepDynamic(safe: set<nat>) returns (count: nat)
      requires Valid()
      modifies this`begin, this`next, this`prev, this`delcf, this`nextPred, this`prevPred, this`marked, this`all
      ensures Valid() && delcf.Keys == old(delcf).Keys
      ensures all == KeepIn(old(all), Survivors(old(all), info, old(marked), safe))
      ensures count == |all| && marked == old(marked) - Elements(old(all))
    {
      hide Linked, Recorded, PredLists, KeepIf, Swept, Survivors, At, Removed, Elements, NoDup;
      ghost var list, marked0, survivors := all, marked, Survivors(all, info, marked, safe);
      count := 0;
      StartSweep(list, marked0, survivors);
      ghost var i := 0;
      var cur := begin;
      while cur.Some?
        invariant i <= |list| && cur == At(list, i)
        invariant Valid() && delcf.Keys == old(delcf).Keys
        invariant Swept(list, survivors, marked0, i, all, marked, count)
        decreases |list| - i
      {
        var f := cur.value;
        AtValue(list, i);
        SweepPlace(list, survivors, marked0, i, all, marked, count);
        CursorAt(count);
        IsSurvivor(list, info, marked0, safe, i);
        ghost var all1, marked1 := all, marked;
        var nxt := next[f];
        var stays := SweepFrame(f, safe, count);
        SweepNext(list, survivors, marked0, i, all1, marked1, count, stays);
        if stays {
          count := count + 1;
        }
        cur := nxt;
        i := i + 1;
      }
      AtValue(list, i);
      SweepEnd(list, survivors, marked0, all, marked, count);
    }

    lemma StartSweep(list: seq<nat>, marked0: set<nat>, survivors: set<nat>)
      requires Valid() && all == list && marked == marked0
      ensures Swept(list, survivors, marked0, 0, list, marked0, 0) && begin == At(list, 0)
    {
      assert Elements(list[..0]) == {};
    }

    /** Which frames a list without the predicate's clause frames holds. */
    lemma OthersStay(list: seq<nat>, p: nat)
      requires Recorded(list, info, delcf)
      ensures ClausesGone(list, KeepIn(list, Elements(list) - ClauseFramesOf(info, p)), info, p)
    {
      KeepIfMember(list, MemberOf(Elements(list) - ClauseFramesOf(info, p)));
    }

    /** Frees the frames of the deleted clauses of predicate p. */
    method FreeClauseFrames(p: nat)
      requires Valid() && p in delcf
      modifies this`begin, this`next, this`prev, this`delcf, this`nextPred, this`prevPred, this`all
      ensures Valid() && delcf.Keys == old(delcf).Keys
      ensures all == KeepIn(old(all), Elements(old(all)) - ClauseFramesOf(info, p))
      ensures ClausesGone(old(all), all, info, p)
    {
      hide ClausesGone, Linked, Recorded, PredLists, KeepIf, OfPred, Freed, At, NoDup, Removed;
      ghost var list, c, clauses := all, OfPred(all, info, p), ClauseFramesOf(info, p);
      OthersStay(all, p);
      ghost var start := PredAt(p, 0);
      FreedStart(list, c, clauses);
      var dcf := delcf[p];
      ghost var j, pre := 0, [];
      while dcf.Some?
        invariant j <= |c| && dcf == At(c, j)
        invariant Valid() && delcf.Keys == old(delcf).Keys
        invariant Freed(list, c, clauses, j, pre, all, OfPred(all, info, p))
        decreases |c| - j
      {
        var g := dcf.value;
        AtValue(c, j);
        FreedPlace(list, c, clauses, j, pre, all, OfPred(all, info, p));
        ghost var i := PredAt(p, |pre|);
        FreedNext(list, c, clauses, j, pre, all, OfPred(all, info, p), i);
        if info[g].kind == DeletedClRef {
          FreeDelCF(g, p, i);
        } else {
          pre := pre + [g];
        }
        dcf := nextPred[g];
        j := j + 1;
      }
      AtValue(c, j);
      AllGone(list, c, info, p, all, pre, OfPred(all, info, p));
    }

    /** retractall supersedes the retracted clauses of the predicate: their frames go, a predicate frame comes first. */
    method CheckInsertDelCFPred(p: nat, f: nat, first: nat)
      requires Valid() && p in delcf && f !in all
      modifies this
      ensures Valid() && delcf.Keys == old(delcf).Keys
      ensures info == old(info)[f := Info(p, first, DeletedPrRef)]
      ensures all == [f] + KeepIn(old(all), Elements(old(all)) - ClauseFramesOf(old(info), p))
      ensures ClausesGone(old(all), all[1..], old(info), p) && marked == old(marked) - {f}
    {
      FreeClauseFrames(p);
      NewDelCF(f, Info(p, first, DeletedPrRef));
    }

    lemma PredAt(p: nat, j: nat) returns (i: nat)
      requires Valid() && p in delcf && j <= |OfPred(all, info, p)|
      ensures j == 0 ==> delcf[p] == At(OfPred(all, info, p), 0)
      ensures NoDup(all)
      ensures j < |OfPred(all, info, p)| ==>
                var f := OfPred(all, info, p)[j];
                && i < |all| && all[i] == f && f in FramesOf(info, p) && f in nextPred
                    && nextPred[f] == At(OfPred(all, info, p), j + 1)
                && OfPred(Removed(all, i), info, p) == Removed(OfPred(all, info, p), j)
    {
      i := 0;
      var c := OfPred(all, info, p);
      if j < |c| {
        KeepIfMember(all, MemberOf(FramesOf(info, p)));
        assert c[j] in c && LinkedAt(c, nextPred, prevPred, j);
        i :| i < |all| && all[i] == c[j];
        KeepIfRemoved(all, i, MemberOf(FramesOf(info, p)));
      }
    }
  }
}
