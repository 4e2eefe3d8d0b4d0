/** Dependencies between threads that compute shared tables: one entry per thread, with the
    oldest subgoal depended on. */
module ThreadDeps {
  import opened Sequences

  const MAX_THREAD_DEPS := 256

  /** A subgoal, the thread that computes it, and its place on that thread's completion stack; older is greater. */
  datatype Subgoal = Subgoal(id: nat, tid: nat, age: nat, completed: bool)

  /** A dependency, with the number of the other thread's last answer known. */
  datatype Dep = Dep(subgoal: Subgoal, last: nat)

  ghost predicate OneEach(list: seq<Dep>) {
    forall i, j | 0 <= i < j < |list| :: list[i].subgoal.tid != list[j].subgoal.tid
  }

  predicate Has(list: seq<Dep>, tid: nat) {
    exists d :: d in list && d.subgoal.tid == tid
  }

  /** The list has an entry for the thread of u that is at least as old. */
  predicate Covers(list: seq<Dep>, u: Subgoal) {
    exists d :: d in list && d.subgoal.tid == u.tid && d.subgoal.age >= u.age
  }

  /** list' is list with s taken into account; the known answers are kept. */
  ghost predicate Inserted(list: seq<Dep>, s: Subgoal, list': seq<Dep>) {
    && OneEach(list')
    && (forall u: Subgoal :: Covers(list', u) <==> Covers(list, u) || (u.tid == s.tid && u.age <= s.age))
    && (forall t: nat :: Has(list', t) <==> Has(list, t) || t == s.tid)
    && (forall d | d in list' :: d.subgoal == s || exists e :: e in list && e.subgoal == d.subgoal)
    && (forall d | d in list' && Has(list, d.subgoal.tid) :: exists e ::
        e in list && e.subgoal.tid == d.subgoal.tid && e.last == d.last)
  }

  lemma Unchanged(list: seq<Dep>, i: nat, s: Subgoal)
    requires OneEach(list) && i < |list| && list[i].subgoal.tid == s.tid && s.age <= list[i].subgoal.age
    ensures Inserted(list, s, list) && Covers(list, s)
  {
    assert list[i] in list;
  }

  lemma Replaced(list: seq<Dep>, i: nat, s: Subgoal)
    requires OneEach(list) && i < |list| && list[i].subgoal.tid == s.tid && s.age > list[i].subgoal.age
    ensures Inserted(list, s, list[i := list[i].(subgoal := s)]) && !Covers(list, s)
  {
    var list' := list[i := list[i].(subgoal := s)];
    assert list'[i] in list' && list[i] in list;
    forall d | d in list && d != list[i] ensures d in list' && d.subgoal.tid != s.tid {
      var j :| 0 <= j < |list| && list[j] == d;
      assert list'[j] == d;
      assert if i < j then list[i].subgoal.tid != list[j].subgoal.tid else list[j].subgoal.tid != list[i].subgoal.tid;
    }
    forall d | d in list' ensures d == list'[i] || (d in list && d != list[i]) {
      var j :| 0 <= j < |list'| && list'[j] == d;
      if j != i {
        assert list[j] == d;
        assert if i < j then list[i].subgoal.tid != list[j].subgoal.tid else list[j].subgoal.tid != list[i].subgoal.tid;
      }
    }
    forall j, k | 0 <= j < k < |list'| ensures list'[j].subgoal.tid != list'[k].subgoal.tid {
      assert list[j].subgoal.tid != list[k].subgoal.tid;
    }
    InsertedFrom(list, s, list', list[i]);
  }

  lemma InsertedFrom(list: seq<Dep>, s: Subgoal, list': seq<Dep>, was: Dep)
    requires OneEach(list') && was in list && was.subgoal.tid == s.tid && s.age > was.subgoal.age
    requires was.(subgoal := s) in list'
    requires forall d | d in list && d != was :: d in list' && d.subgoal.tid != s.tid
    requires forall d | d in list' :: d == was.(subgoal := s) || (d in list && d != was)
    ensures Inserted(list, s, list') && !Covers(list, s)
  {
    var now := was.(subgoal := s);
    assert now.subgoal == s && now.last == was.last;
    forall u: Subgoal ensures Covers(list', u) <==> Covers(list, u) || (u.tid == s.tid && u.age <= s.age) {
      if u.tid == s.tid {
        assert u.age <= s.age ==> now in list' && now.subgoal.tid == u.tid;
      }
    }
    forall t: nat ensures Has(list', t) <==> Has(list, t) || t == s.tid {
      assert now in list';
    }
  }

  lemma Appended(list: seq<Dep>, s: Subgoal, last: nat)
    requires OneEach(list) && !Has(list, s.tid)
    ensures Inserted(list, s, list + [Dep(s, last)]) && !Covers(list, s)
  {
    var list' := list + [Dep(s, last)];
    assert list'[|list|] in list';
    assert forall d :: d in list' <==> d in list || d == Dep(s, last);
    forall j, k | 0 <= j < k < |list'| ensures list'[j].subgoal.tid != list'[k].subgoal.tid {
      assert list'[j] in list;
    }
    forall u: Subgoal ensures Covers(list', u) <==> Covers(list, u) || (u.tid == s.tid && u.age <= s.age) {
    }
  }

  /** Inserts a dependency; found tells whether it was new. ok is false when the source aborts
      because the list is full. */
  method CheckInsSubg(TDL: seq<Dep>, subg: Subgoal) returns (ok: bool, list: seq<Dep>, found: bool)
    requires OneEach(TDL)
    ensures ok == (|TDL| != MAX_THREAD_DEPS - 1 || Has(TDL, subg.tid))
    ensures ok ==> Inserted(TDL, subg, list) && found == !Covers(TDL, subg)
    ensures ok && |TDL| < MAX_THREAD_DEPS ==> |list| < MAX_THREAD_DEPS
  {
    ok, list := true, TDL;
    var i := 0;
    while i < |list|
      invariant 0 <= i <= |list| && list == TDL
      invariant forall j | 0 <= j < i :: list[j].subgoal.tid != subg.tid
    {
      if list[i].subgoal.tid == subg.tid {
        assert list[i] in TDL;
        if subg.age > list[i].subgoal.age {
          Replaced(TDL, i, subg);
          list := list[i := list[i].(subgoal := subg)];
          return ok, list, true;
        } else {
          Unchanged(TDL, i, subg);
          return ok, list, false;
        }
      }
      i := i + 1;
    }
    if |list| == MAX_THREAD_DEPS - 1 {
      return false, list, false;
    }
    var last: nat := *;
    Appended(TDL, subg, last);
    list := list + [Dep(subg, last)];
    found := true;
  }

  // ------------------------------------------------------------------
  // A list has room for 255 threads.

  function Threads(list: seq<Dep>): set<nat> {
    set d | d in list :: d.subgoal.tid
  }

  function ThreadsOf(S: set<Subgoal>): set<nat> {
    set s | s in S :: s.tid
  }

  /** There is room for the threads of the list and of S. */
  predicate Fits(list: seq<Dep>, S: set<Subgoal>) {
    |Threads(list) + ThreadsOf(S)| < MAX_THREAD_DEPS
  }

  lemma {:induction false} AsManyThreads(list: seq<Dep>)
    requires OneEach(list)
    ensures |Threads(list)| == |list|
  {
    if list != [] {
      var n := |list| - 1;
      assert list == list[..n] + [list[n]];
      AsManyThreads(list[..n]);
      assert Threads(list) == Threads(list[..n]) + {list[n].subgoal.tid};
      assert list[n].subgoal.tid !in Threads(list[..n]);
    }
  }

  lemma GrownFits(a: seq<Dep>, S: set<Subgoal>, b: seq<Dep>)
    requires Grown(a, S, b) && |b| < MAX_THREAD_DEPS
    ensures Fits(a, S)
  {
    AsManyThreads(b);
    forall t: nat ensures t in Threads(a) + ThreadsOf(S) <==> t in Threads(b) {
      assert Has(b, t) <==> Has(a, t) || Hosts(S, t);
      assert Has(b, t) <==> t in Threads(b);
    }
    assert Threads(a) + ThreadsOf(S) == Threads(b);
  }

  /** A full list cannot take the thread of s, so it cannot take S either. */
  lemma FullCannotFit(a: seq<Dep>, S: set<Subgoal>, b: seq<Dep>, s: Subgoal, T: set<Subgoal>)
    requires Grown(a, S, b) && |b| == MAX_THREAD_DEPS - 1 && !Has(b, s.tid) && S + {s} <= T
    ensures !Fits(a, T)
  {
    AsManyThreads(b);
    forall t: nat | t in Threads(b) ensures t in Threads(a) + ThreadsOf(T) {
      assert Has(b, t) && (Has(a, t) || Hosts(S, t));
    }
    SubsetSize(Threads(b) + {s.tid}, Threads(a) + ThreadsOf(T));
  }

  /** What does not fit on top of a does not fit on top of the list that grew into a. */
  lemma StillNoRoom(a: seq<Dep>, S: set<Subgoal>, b: seq<Dep>, T: set<Subgoal>)
    requires Grown(a, S, b)
    ensures Fits(b, T) <==> Fits(a, S + T)
  {
    forall t: nat ensures t in Threads(b) + ThreadsOf(T) <==> t in Threads(a) + ThreadsOf(S + T) {
      assert Has(b, t) <==> Has(a, t) || Hosts(S, t);
      assert Has(b, t) <==> t in Threads(b);
    }
    assert Threads(b) + ThreadsOf(T) == Threads(a) + ThreadsOf(S + T);
  }

  lemma FitsLess(list: seq<Dep>, S: set<Subgoal>, T: set<Subgoal>)
    requires S <= T && Fits(list, T)
    ensures Fits(list, S)
  {
    SubsetSize(Threads(list) + ThreadsOf(S), Threads(list) + ThreadsOf(T));
  }

  // ------------------------------------------------------------------
  // Many insertions.

  /** list' is list with the subgoals S taken into account. */
  ghost predicate Grown(list: seq<Dep>, S: set<Subgoal>, list': seq<Dep>) {
    && OneEach(list')
    && (forall u: Subgoal :: Covers(list', u) <==> Covers(list, u) || Under(S, u))
    && (forall t: nat :: Has(list', t) <==> Has(list, t) || Hosts(S, t))
    && (forall d | d in list' :: d.subgoal in S || IsSubgoalOf(list, d.subgoal))
  }

  /** What is recorded as known stays recorded. */
  ghost predicate KeepsLast(list: seq<Dep>, list': seq<Dep>) {
    forall t: nat, last: nat {:trigger Knows(list', t, last)} ::
        Has(list, t) && Knows(list, t, last) ==> Knows(list', t, last)
  }

  /** S has an at least equally old subgoal of the same thread. */
  predicate Under(S: set<Subgoal>, u: Subgoal) {
    exists s :: s in S && s.tid == u.tid && u.age <= s.age
  }

  predicate Hosts(S: set<Subgoal>, t: nat) {
    exists s :: s in S && s.tid == t
  }

  predicate IsSubgoalOf(list: seq<Dep>, u: Subgoal) {
    exists e :: e in list && e.subgoal == u
  }

  /** Every entry for thread t records last as its known answer. */
  predicate Knows(list: seq<Dep>, t: nat, last: nat) {
    forall d | d in list && d.subgoal.tid == t :: d.last == last
  }

  lemma InsertedGrown(list: seq<Dep>, s: Subgoal, list': seq<Dep>)
    requires Inserted(list, s, list')
    ensures Grown(list, {s}, list') && KeepsLast(list, list')
  {
    assert forall u: Subgoal :: Under({s}, u) <==> u.tid == s.tid && u.age <= s.age;
    assert forall t: nat :: Hosts({s}, t) <==> t == s.tid;
  }

  lemma GrownNothing(list: seq<Dep>)
    requires OneEach(list)
    ensures Grown(list, {}, list) && KeepsLast(list, list)
  {
    forall d | d in list ensures IsSubgoalOf(list, d.subgoal) {
    }
  }

  lemma GrownTrans(a: seq<Dep>, S: set<Subgoal>, b: seq<Dep>, T: set<Subgoal>, c: seq<Dep>)
    requires Grown(a, S, b) && Grown(b, T, c)
    ensures Grown(a, S + T, c)
    ensures KeepsLast(a, b) && KeepsLast(b, c) ==> KeepsLast(a, c)
  {
    forall u: Subgoal ensures Under(S + T, u) <==> Under(S, u) || Under(T, u) {
    }
    forall t: nat ensures Hosts(S + T, t) <==> Hosts(S, t) || Hosts(T, t) {
    }
    forall d | d in c ensures d.subgoal in S + T || IsSubgoalOf(a, d.subgoal) {
      if IsSubgoalOf(b, d.subgoal) {
        var e :| e in b && e.subgoal == d.subgoal;
      }
    }
  }

  ghost predicate Uncovered(list: seq<Dep>, S: set<Subgoal>) {
    exists u :: u in S && !Covers(list, u)
  }

  /** An unfinished subgoal of another thread. */
  predicate Live(me: nat, u: Subgoal) {
    !u.completed && u.tid != me
  }

  predicate Own(me: nat, u: Subgoal) {
    !u.completed && u.tid == me
  }

  function LiveIn(me: nat, deps: seq<Dep>): set<Subgoal> {
    set d | d in deps && Live(me, d.subgoal) :: d.subgoal
  }

  /** leader dominates the own subgoals of the list and is one of them or was. */
  ghost predicate LeaderFrom(me: nat, deps: seq<Dep>, leader0: nat, leader: nat) {
    && leader0 <= leader
    && (forall d | d in deps && Own(me, d.subgoal) :: d.subgoal.age <= leader)
    && (leader == leader0 || exists d :: d in deps && Own(me, d.subgoal) && d.subgoal.age == leader)
  }

  /** Passes the dependencies of a blocked thread on. */
  method PropagateDeps(me: nat, depTDL: seq<Dep>, NewTDL: seq<Dep>, leader0: nat, newDeps0: bool)
    returns (ok: bool, list: seq<Dep>, leader: nat, newDeps: bool)
    requires OneEach(NewTDL) && |NewTDL| < MAX_THREAD_DEPS
    ensures ok == Fits(NewTDL, LiveIn(me, depTDL))
    ensures ok ==> Grown(NewTDL, LiveIn(me, depTDL), list) && |list| < MAX_THREAD_DEPS
    ensures ok ==> KeepsLast(NewTDL, list) && LeaderFrom(me, depTDL, leader0, leader)
    ensures ok ==> newDeps == (newDeps0 || Uncovered(NewTDL, LiveIn(me, depTDL)))
  {
    ok, list, leader, newDeps := true, NewTDL, leader0, newDeps0;
    GrownNothing(NewTDL);
    assert LiveIn(me, depTDL[..0]) == {};
    hide Grown, KeepsLast, LiveIn, Covers, LeaderFrom, Inserted, Uncovered, Fits;
    NothingUncovered(NewTDL);
    NoLeaderYet(me, depTDL, leader0);
    var i := 0;
    while i < |depTDL|
      invariant ok && OneEach(list) && |list| < MAX_THREAD_DEPS && KeepsLast(NewTDL, list)
      invariant i <= |depTDL| && Grown(NewTDL, LiveIn(me, depTDL[..i]), list)
                && LeaderFrom(me, depTDL[..i], leader0, leader)
      invariant newDeps == (newDeps0 || Uncovered(NewTDL, LiveIn(me, depTDL[..i])))
    {
      var sgf := depTDL[i].subgoal;
      OneMoreDep(me, depTDL, i, leader0, leader);
      if !sgf.completed {
        if sgf.tid == me {
          if sgf.age > leader {
            leader := sgf.age;
          }
        } else {
          var found;
          ghost var before := list;
          ok, list, found := CheckInsSubg(list, sgf);
          if !ok {
            LiveBefore(me, depTDL, i + 1);
            FullCannotFit(NewTDL, LiveIn(me, depTDL[..i]), before, sgf, LiveIn(me, depTDL));
            return;
          }
          InsertedOneEach(before, sgf, list);
          InsertedGrown(before, sgf, list);
          GrownTrans(NewTDL, LiveIn(me, depTDL[..i]), before, {sgf}, list);
          NewFound(NewTDL, LiveIn(me, depTDL[..i]), before, sgf);
          if found {
            newDeps := true;
          }
        }
      }
      i := i + 1;
    }
    assert depTDL[..i] == depTDL;
    GrownFits(NewTDL, LiveIn(me, depTDL), list);
  }

  lemma LiveBefore(me: nat, deps: seq<Dep>, i: nat)
    requires i <= |deps|
    ensures LiveIn(me, deps[..i]) <= LiveIn(me, deps)
  {
  }

  lemma NothingUncovered(list: seq<Dep>)
    ensures !Uncovered(list, {})
  {
  }

  lemma NoLeaderYet(me: nat, deps: seq<Dep>, leader: nat)
    ensures LeaderFrom(me, deps[..0], leader, leader)
  {
  }

  lemma InsertedOneEach(list: seq<Dep>, s: Subgoal, list': seq<Dep>)
    requires Inserted(list, s, list')
    ensures OneEach(list')
  {
  }

  lemma OneMoreDep(me: nat, deps: seq<Dep>, i: nat, leader0: nat, leader: nat)
    requires i < |deps| && LeaderFrom(me, deps[..i], leader0, leader)
    ensures LiveIn(me, deps[..i + 1]) == LiveIn(me, deps[..i])
            + (if Live(me, deps[i].subgoal) then {deps[i].subgoal} else {})
    ensures var older := Own(me, deps[i].subgoal) && deps[i].subgoal.age > leader;
            LeaderFrom(me, deps[..i + 1], leader0, if older then deps[i].subgoal.age else leader)
  {
    assert deps[..i + 1] == deps[..i] + [deps[i]];
    assert deps[i] in deps[..i + 1];
  }

  lemma NewFound(list: seq<Dep>, S: set<Subgoal>, before: seq<Dep>, s: Subgoal)
    requires Grown(list, S, before)
    ensures Uncovered(list, S + {s}) <==> Uncovered(list, S) || !Covers(before, s)
    ensures OneEach(before)
  {
    if !Covers(before, s) {
      assert s in S + {s} && !Covers(list, s);
    }
    if Uncovered(list, S) {
      var u :| u in S && !Covers(list, u);
      assert u in S + {s};
    }
    if Covers(before, s) && !Covers(list, s) {
      var v :| v in S && v.tid == s.tid && s.age <= v.age;
      assert !Covers(list, v);
    }
  }

  // ------------------------------------------------------------------
  // What a thread depends on.

  /** The threads during the computation: which are blocked, their last answers and dependencies. */
  datatype World = World(me: nat, completing: map<nat, bool>, lastAns: map<nat, nat>, tdl: map<nat, seq<Dep>>)

  predicate Blocked(w: World, t: nat) {
    t in w.completing && w.completing[t]
  }

  /** Every thread depended on exists. */
  ghost predicate Known(w: World) {
    && w.me in w.tdl
    && forall t, d | t in w.tdl && d in w.tdl[t] ::
         d.subgoal.tid in w.completing && d.subgoal.tid in w.lastAns && d.subgoal.tid in w.tdl
  }

  /** The thread of s is blocked and depends on the unfinished subgoal u of another thread. */
  predicate Passes(w: World, s: Subgoal, u: Subgoal) {
    Blocked(w, s.tid) && s.tid in w.tdl && Live(w.me, u) && IsSubgoalOf(w.tdl[s.tid], u)
  }

  ghost predicate ClosedUnder(w: World, X: iset<Subgoal>) {
    forall s, u {:trigger Passes(w, s, u)} | s in X && Passes(w, s, u) :: u in X
  }

  ghost predicate Within(start: seq<Dep>, X: iset<Subgoal>) {
    forall d | d in start :: d.subgoal in X
  }

  /** u is in the least set that holds the direct dependencies and whatever blocked threads in it depend on. */
  ghost predicate Reached(w: World, u: Subgoal) {
    w.me in w.tdl && forall X: iset<Subgoal> {:trigger ClosedUnder(w, X)} | Within(w.tdl[w.me], X)
        && ClosedUnder(w, X) :: u in X
  }

  lemma ReachedStart(w: World, d: Dep)
    requires w.me in w.tdl && d in w.tdl[w.me]
    ensures Reached(w, d.subgoal)
  {
  }

  lemma ReachedNext(w: World, s: Subgoal, u: Subgoal)
    requires Reached(w, s) && Passes(w, s, u)
    ensures Reached(w, u)
  {
  }

  /** An own unfinished subgoal that a reached, blocked thread depends on. */
  ghost predicate OwnMet(w: World, u: Subgoal) {
    Own(w.me, u) && exists s :: Reached(w, s) && Blocked(w, s.tid) && s.tid in w.tdl && IsSubgoalOf(w.tdl[s.tid], u)
  }

  /** The dependencies of thread t have been dealt with. */
  ghost predicate Done(w: World, list: seq<Dep>, leader: nat, busy: bool, t: nat) {
    && Has(list, t) && t in w.lastAns && t in w.tdl
    && Knows(list, t, if Blocked(w, t) then w.lastAns[t] else 0)
    && (if Blocked(w, t) then forall d | d in w.tdl[t] :: Settled(w, list, leader, d.subgoal) else busy)
  }

  predicate Settled(w: World, list: seq<Dep>, leader: nat, u: Subgoal) {
    (Own(w.me, u) ==> u.age <= leader) && (Live(w.me, u) ==> Covers(list, u))
  }

  lemma StillDone(w: World, list: seq<Dep>, leader: nat, busy: bool, t: nat, S: set<Subgoal>, list': seq<Dep>,
                  leader': nat, busy': bool)
    requires Done(w, list, leader, busy, t) && Grown(list, S, list') && leader <= leader' && (busy ==> busy')
    requires Knows(list', t, if Blocked(w, t) then w.lastAns[t] else 0)
    ensures Done(w, list', leader', busy', t)
  {
    if Blocked(w, t) {
      forall d | d in w.tdl[t] ensures Settled(w, list', leader', d.subgoal) {
        assert Settled(w, list, leader, d.subgoal);
      }
    }
  }

  /** The place of the entry for a thread. */
  method FindTid(list: seq<Dep>, tid: nat) returns (i: nat, found: bool)
    ensures found == Has(list, tid)
    ensures found ==> i < |list| && list[i].subgoal.tid == tid
  {
    i := 0;
    while i < |list|
      invariant i <= |list| && forall j | 0 <= j < i :: list[j].subgoal.tid != tid
    {
      if list[i].subgoal.tid == tid {
        assert list[i] in list;
        return i, true;
      }
      i := i + 1;
    }
    found := false;
  }

  /** Records what thread t's last answer is known to be. */
  method SetLast(list0: seq<Dep>, tid: nat, last: nat) returns (list: seq<Dep>)
    requires OneEach(list0) && Has(list0, tid)
    ensures Grown(list0, {}, list) && Knows(list, tid, last) && |list| == |list0|
    ensures forall t: nat, l: nat {:trigger Knows(list, t, l)} | t != tid && Knows(list0, t, l) :: Knows(list, t, l)
  {
    var i, found := FindTid(list0, tid);
    list := list0[i := list0[i].(last := last)];
    SameSubgoals(list0, list, i);
  }

  lemma SameSubgoals(list: seq<Dep>, list': seq<Dep>, i: nat)
    requires OneEach(list) && i < |list| && |list'| == |list|
    requires forall j | 0 <= j < |list| :: list'[j].subgoal == list[j].subgoal && (j != i ==> list'[j] == list[j])
    ensures Grown(list, {}, list')
    ensures Knows(list', list[i].subgoal.tid, list'[i].last)
    ensures forall t: nat, l: nat {:trigger Knows(list', t, l)} | t != list[i].subgoal.tid && Knows(list, t, l) ::
            Knows(list', t, l)
  {
    forall d | d in list' ensures IsSubgoalOf(list, d.subgoal)
        && (d == list'[i] || (d in list && d.subgoal.tid != list[i].subgoal.tid))
    {
      var j :| 0 <= j < |list'| && list'[j] == d;
      assert list[j] in list;
      assert j < i ==> list[j].subgoal.tid != list[i].subgoal.tid;
      assert i < j ==> list[i].subgoal.tid != list[j].subgoal.tid;
    }
    forall d | d in list ensures exists e :: e in list' && e.subgoal == d.subgoal {
      var j :| 0 <= j < |list| && list[j] == d;
      assert list'[j] in list';
    }
    forall u: Subgoal ensures Covers(list', u) <==> Covers(list, u) || Under({}, u) {
      if Covers(list, u) {
        var d :| d in list && d.subgoal.tid == u.tid && d.subgoal.age >= u.age;
        var e :| e in list' && e.subgoal == d.subgoal;
      }
      if Covers(list', u) {
        var d :| d in list' && d.subgoal.tid == u.tid && d.subgoal.age >= u.age;
        assert IsSubgoalOf(list, d.subgoal);
      }
    }
    forall t: nat ensures Has(list', t) <==> Has(list, t) || Hosts({}, t) {
      if Has(list, t) {
        var d :| d in list && d.subgoal.tid == t;
        var e :| e in list' && e.subgoal == d.subgoal;
      }
      if Has(list', t) {
        var d :| d in list' && d.subgoal.tid == t;
        assert IsSubgoalOf(list, d.subgoal);
      }
    }
  }

  ghost predicate AllReached(w: World, S: set<Subgoal>) {
    forall s | s in S :: Reached(w, s)
  }

  ghost predicate ListReached(w: World, list: seq<Dep>) {
    forall d | d in list :: Reached(w, d.subgoal)
  }

  /** The leader found so far was there before or was met on the way. */
  ghost predicate LeaderMet(w: World, leader0: nat, leader: nat) {
    leader0 <= leader && (leader == leader0 || exists u :: OwnMet(w, u) && u.age == leader)
  }

  ghost predicate BusyMet(w: World, busy: bool) {
    busy ==> exists u :: Reached(w, u) && !Blocked(w, u.tid)
  }

  /** The first i dependencies have been dealt with. */
  ghost predicate PassedTo(w: World, TDL: seq<Dep>, list: seq<Dep>, leader: nat, busy: bool, i: nat) {
    i <= |TDL| && forall j: nat | j < i ::
        Done(w, list, leader, busy, TDL[j].subgoal.tid) && Covers(list, TDL[j].subgoal)
  }

  ghost predicate OnlyThreadsOf(list: seq<Dep>, a: seq<Dep>, b: seq<Dep>) {
    forall t: nat :: Has(list, t) ==> Has(a, t) || Has(b, t)
  }

  /** What one dependency brings in: itself, and what its thread passes on if it is blocked. */
  function Brings(w: World, s: Subgoal): set<Subgoal> {
    {s} + if Blocked(w, s.tid) && s.tid in w.tdl then LiveIn(w.me, w.tdl[s.tid]) else {}
  }

  function AllBring(w: World, list: seq<Dep>): set<Subgoal> {
    set d, u | d in list && u in Brings(w, d.subgoal) :: u
  }

  /** One dependency: its thread is recorded, and if it is blocked its dependencies are passed on. */
  method OneDep(ghost w: World, me: nat, sgf: Subgoal, NewTDL: seq<Dep>, leader0: nat, busy0: bool, newDeps0: bool,
                completing: map<nat, bool>, lastAns: map<nat, nat>, depTDL: seq<Dep>)
    returns (ok: bool, list: seq<Dep>, leader: nat, busy: bool, newDeps: bool, ghost met: set<Subgoal>)
    requires OneEach(NewTDL) && |NewTDL| < MAX_THREAD_DEPS && Reached(w, sgf) && Known(w)
    requires w.me == me && w.completing == completing && w.lastAns == lastAns
    requires sgf.tid in completing && sgf.tid in lastAns && sgf.tid in w.tdl && w.tdl[sgf.tid] == depTDL
    requires LeaderMet(w, leader0, leader0) && BusyMet(w, busy0)
    ensures ok == Fits(NewTDL, Brings(w, sgf))
    ensures ok ==> met == Brings(w, sgf) && |list| < MAX_THREAD_DEPS
    ensures ok ==> Grown(NewTDL, met, list) && AllReached(w, met)
    ensures ok ==> Done(w, list, leader, busy, sgf.tid)
    ensures ok ==> LeaderMet(w, leader0, leader) && BusyMet(w, busy) && (busy0 ==> busy) && (newDeps0 ==> newDeps)
    ensures ok && newDeps && !newDeps0 ==> Uncovered(NewTDL, met)
    ensures ok && !newDeps ==> forall t: nat :: Has(list, t) ==> Has(NewTDL, t) || t == sgf.tid
    ensures ok ==>
            forall t: nat, l: nat {:trigger Knows(list, t, l)} | t != sgf.tid && Has(NewTDL, t)
            && Knows(NewTDL, t, l) :: Knows(list, t, l)
  {
    hide Grown, LiveIn, Covers, LeaderFrom, Inserted, Uncovered, Done, KeepsLast, Reached, LeaderMet, BusyMet,
        AllReached, Fits;
    leader, busy, newDeps, met := leader0, busy0, newDeps0, {};
    var found;
    ok, list, found := CheckInsSubg(NewTDL, sgf);
    if !ok {
      GrownNothing(NewTDL);
      FullCannotFit(NewTDL, {}, NewTDL, sgf, Brings(w, sgf));
      return;
    }
    InsertedGrown(NewTDL, sgf, list);
    InsertedOneEach(NewTDL, sgf, list);
    ghost var list1 := list;
    HasInserted(NewTDL, sgf, list1);
    list := SetLast(list, sgf.tid, if completing[sgf.tid] then lastAns[sgf.tid] else 0);
    ghost var list2 := list;
    Recorded(NewTDL, sgf, list1, list2);
    if completing[sgf.tid] {
      met := {sgf} + LiveIn(me, depTDL);
      assert met == Brings(w, sgf);
      StillNoRoom(NewTDL, {sgf}, list, LiveIn(me, depTDL));
      ok, list, leader, newDeps := PropagateDeps(me, depTDL, list, leader, newDeps);
      if !ok {
        return;
      }
      DepBlocked(w, sgf, NewTDL, list2, list, leader0, leader, busy, depTDL);
    } else {
      busy := true;
      met := {sgf};
      assert met == Brings(w, sgf);
      DepBusy(w, sgf, NewTDL, list2, leader);
      GrownFits(NewTDL, {sgf}, list2);
    }
  }

  lemma HasInserted(list: seq<Dep>, s: Subgoal, list': seq<Dep>)
    requires Inserted(list, s, list')
    ensures Has(list', s.tid)
  {
  }

  /** An entry was inserted and its known answer set. */
  ghost predicate Entered(a: seq<Dep>, sgf: Subgoal, c: seq<Dep>) {
    && Grown(a, {sgf}, c)
    && forall t: nat, l: nat {:trigger Knows(c, t, l)} | t != sgf.tid && Has(a, t) && Knows(a, t, l) :: Knows(c, t, l)
  }

  lemma Recorded(a: seq<Dep>, sgf: Subgoal, b: seq<Dep>, c: seq<Dep>)
    requires Grown(a, {sgf}, b) && KeepsLast(a, b) && Grown(b, {}, c)
    requires forall t: nat, l: nat {:trigger Knows(c, t, l)} | t != sgf.tid && Knows(b, t, l) :: Knows(c, t, l)
    ensures Entered(a, sgf, c) && OneEach(c) && Grown(a, {sgf}, c)
  {
    GrownTrans(a, {sgf}, b, {}, c);
    assert {sgf} + {} == {sgf};
  }

  lemma DepBusy(w: World, sgf: Subgoal, a: seq<Dep>, c: seq<Dep>, leader: nat)
    requires Entered(a, sgf, c) && Reached(w, sgf) && Known(w) && sgf.tid in w.lastAns && sgf.tid in w.tdl
    requires !Blocked(w, sgf.tid) && Knows(c, sgf.tid, 0) && LeaderMet(w, leader, leader)
    ensures Grown(a, {sgf}, c) && AllReached(w, {sgf}) && Done(w, c, leader, true, sgf.tid) && BusyMet(w, true)
    ensures forall t: nat :: Has(c, t) ==> Has(a, t) || t == sgf.tid
    ensures forall t: nat, l: nat {:trigger Knows(c, t, l)} | t != sgf.tid && Has(a, t) && Knows(a, t, l) ::
            Knows(c, t, l)
  {
  }

  lemma DepBlocked(w: World, sgf: Subgoal, a: seq<Dep>, c: seq<Dep>, d: seq<Dep>, leader0: nat, leader: nat, busy: bool,
                   depTDL: seq<Dep>)
    requires Entered(a, sgf, c) && Reached(w, sgf) && sgf.tid in w.lastAns && sgf.tid in w.tdl
             && w.tdl[sgf.tid] == depTDL
    requires Blocked(w, sgf.tid) && Knows(c, sgf.tid, w.lastAns[sgf.tid])
    requires Grown(c, LiveIn(w.me, depTDL), d) && KeepsLast(c, d) && LeaderFrom(w.me, depTDL, leader0, leader)
    ensures Grown(a, {sgf} + LiveIn(w.me, depTDL), d) && AllReached(w, {sgf} + LiveIn(w.me, depTDL))
    ensures Done(w, d, leader, busy, sgf.tid) && LeaderMet(w, leader0, leader)
    ensures Uncovered(c, LiveIn(w.me, depTDL)) ==> Uncovered(a, {sgf} + LiveIn(w.me, depTDL))
    ensures !Uncovered(c, LiveIn(w.me, depTDL)) ==> forall t: nat :: Has(d, t) ==> Has(a, t) || t == sgf.tid
    ensures forall t: nat, l: nat {:trigger Knows(d, t, l)} | t != sgf.tid && Has(a, t) && Knows(a, t, l) ::
            Knows(d, t, l)
  {
    var L := LiveIn(w.me, depTDL);
    GrownTrans(a, {sgf}, c, L, d);
    LiveReached(w, sgf, depTDL);
    DepDone(w, sgf, a, c, d, leader0, leader, busy, depTDL);
    LeaderReached(w, sgf, leader0, leader, depTDL);
    StillUncovered(a, sgf, c, L, d);
    hide Grown, Done, LeaderFrom, Knows, LeaderMet, Uncovered, LiveIn, Reached;
  }

  lemma LiveReached(w: World, sgf: Subgoal, depTDL: seq<Dep>)
    requires Reached(w, sgf) && Blocked(w, sgf.tid) && sgf.tid in w.tdl && w.tdl[sgf.tid] == depTDL
    ensures AllReached(w, {sgf} + LiveIn(w.me, depTDL))
  {
    forall u | u in LiveIn(w.me, depTDL) ensures Reached(w, u) {
      assert IsSubgoalOf(depTDL, u);
      ReachedNext(w, sgf, u);
    }
  }

  lemma DepDone(w: World, sgf: Subgoal, a: seq<Dep>, c: seq<Dep>, d: seq<Dep>, leader0: nat, leader: nat, busy: bool,
                depTDL: seq<Dep>)
    requires Entered(a, sgf, c) && sgf.tid in w.lastAns && sgf.tid in w.tdl && w.tdl[sgf.tid] == depTDL
    requires Blocked(w, sgf.tid) && Knows(c, sgf.tid, w.lastAns[sgf.tid])
    requires Grown(c, LiveIn(w.me, depTDL), d) && KeepsLast(c, d) && LeaderFrom(w.me, depTDL, leader0, leader)
    ensures Done(w, d, leader, busy, sgf.tid)
    ensures forall t: nat, l: nat {:trigger Knows(d, t, l)} | t != sgf.tid && Has(a, t) && Knows(a, t, l) ::
            Knows(d, t, l)
  {
    var L := LiveIn(w.me, depTDL);
    forall e | e in depTDL ensures Settled(w, d, leader, e.subgoal) {
      assert Live(w.me, e.subgoal) ==> e.subgoal in L && Under(L, e.subgoal);
    }
    assert Has(c, sgf.tid) by {
      assert Hosts({sgf}, sgf.tid);
    }
  }

  lemma LeaderReached(w: World, sgf: Subgoal, leader0: nat, leader: nat, depTDL: seq<Dep>)
    requires Reached(w, sgf) && Blocked(w, sgf.tid) && sgf.tid in w.tdl && w.tdl[sgf.tid] == depTDL
    requires LeaderFrom(w.me, depTDL, leader0, leader)
    ensures LeaderMet(w, leader0, leader)
  {
    if leader != leader0 {
      var e :| e in depTDL && Own(w.me, e.subgoal) && e.subgoal.age == leader;
      assert IsSubgoalOf(depTDL, e.subgoal);
      assert OwnMet(w, e.subgoal);
    }
  }

  lemma StillUncovered(a: seq<Dep>, sgf: Subgoal, c: seq<Dep>, L: set<Subgoal>, d: seq<Dep>)
    requires Entered(a, sgf, c) && Grown(c, L, d)
    ensures Uncovered(c, L) ==> Uncovered(a, {sgf} + L)
    ensures !Uncovered(c, L) ==> forall t: nat :: Has(d, t) ==> Has(a, t) || t == sgf.tid
  {
    if Uncovered(c, L) {
      var u :| u in L && !Covers(c, u);
      assert !Covers(a, u);
    }
    forall t: nat | Has(d, t) && !Uncovered(c, L) ensures Has(a, t) || t == sgf.tid {
      if Hosts(L, t) {
        var u :| u in L && u.tid == t;
        assert Covers(c, u);
        assert Has(c, t);
      }
      assert Hosts({sgf}, t) ==> t == sgf.tid;
    }
  }

  // ------------------------------------------------------------------
  // Passes over the list.

  ghost predicate Passing(w: World, TDL: seq<Dep>, start: seq<Dep>, list: seq<Dep>, met: set<Subgoal>,
                          leader0: nat, leader: nat, busy: bool, newDeps: bool, i: nat)
  {
    && Grown(start, met, list) && AllReached(w, met) && LeaderMet(w, leader0, leader) && BusyMet(w, busy)
    && PassedTo(w, TDL, list, leader, busy, i)
    && (newDeps ==> Uncovered(start, met)) && (!newDeps ==> OnlyThreadsOf(list, start, TDL))
  }

  lemma PassStart(w: World, TDL: seq<Dep>, start: seq<Dep>, leader: nat, busy: bool)
    requires OneEach(start) && BusyMet(w, busy)
    ensures Passing(w, TDL, start, start, {}, leader, leader, busy, false, 0)
  {
    GrownNothing(start);
  }

  lemma PassStep(w: World, TDL: seq<Dep>, start: seq<Dep>, a: seq<Dep>, S: set<Subgoal>, leader0: nat, leader: nat,
                 busy: bool, newDeps: bool, i: nat, b: seq<Dep>, T: set<Subgoal>, leader': nat, busy': bool,
                 newDeps': bool)
    requires Passing(w, TDL, start, a, S, leader0, leader, busy, newDeps, i) && i < |TDL|
    requires var sgf := TDL[i].subgoal;
             && Grown(a, T, b) && AllReached(w, T) && sgf in T && Done(w, b, leader', busy', sgf.tid)
             && LeaderMet(w, leader, leader') && BusyMet(w, busy') && (busy ==> busy') && (newDeps ==> newDeps')
             && (newDeps' && !newDeps ==> Uncovered(a, T))
             && (!newDeps' ==> forall t: nat :: Has(b, t) ==> Has(a, t) || t == sgf.tid)
             && forall t: nat, l: nat {:trigger Knows(b, t, l)} | t != sgf.tid && Has(a, t) && Knows(a, t, l) ::
                 Knows(b, t, l)
    ensures Passing(w, TDL, start, b, S + T, leader0, leader', busy', newDeps', i + 1)
  {
    var sgf := TDL[i].subgoal;
    GrownTrans(start, S, a, T, b);
    assert Covers(b, sgf) by {
      assert Under(T, sgf);
    }
    PassedStep(w, TDL, a, leader, busy, i, b, T, leader', busy');
    assert newDeps' ==> Uncovered(start, S + T) by {
      if newDeps {
        var u :| u in S && !Covers(start, u);
        assert u in S + T;
      } else if newDeps' {
        var u :| u in T && !Covers(a, u);
        assert u in S + T && !Covers(start, u);
      }
    }
    if !newDeps' {
      assert TDL[i] in TDL;
      assert Has(TDL, sgf.tid);
    }
  }

  lemma PassedStep(w: World, TDL: seq<Dep>, a: seq<Dep>, leader: nat, busy: bool, i: nat, b: seq<Dep>, T: set<Subgoal>,
                   leader': nat, busy': bool)
    requires PassedTo(w, TDL, a, leader, busy, i) && i < |TDL| && Grown(a, T, b) && leader <= leader'
             && (busy ==> busy')
    requires Done(w, b, leader', busy', TDL[i].subgoal.tid) && Covers(b, TDL[i].subgoal)
    requires forall t: nat, l: nat {:trigger Knows(b, t, l)} | t != TDL[i].subgoal.tid && Has(a, t) && Knows(a, t, l) ::
             Knows(b, t, l)
    ensures PassedTo(w, TDL, b, leader', busy', i + 1)
  {
    forall j: nat | j < i ensures Done(w, b, leader', busy', TDL[j].subgoal.tid) && Covers(b, TDL[j].subgoal) {
      var t := TDL[j].subgoal.tid;
      assert Done(w, a, leader, busy, t) && Covers(a, TDL[j].subgoal);
      if t != TDL[i].subgoal.tid {
        StillDone(w, a, leader, busy, t, T, b, leader', busy');
      }
    }
  }

  /** The result: the oldest reached subgoal of every reached thread, the oldest own subgoal met, and
      whether all are blocked. */
  ghost predicate Fixpoint(w: World, list: seq<Dep>, leader0: nat, leader: nat, busy: bool) {
    && OneEach(list) && ListReached(w, list)
    && (forall u: Subgoal | Reached(w, u) :: Covers(list, u))
    && LeaderMet(w, leader0, leader) && (forall u: Subgoal | OwnMet(w, u) :: u.age <= leader)
    && (busy <==> exists u: Subgoal :: Reached(w, u) && !Blocked(w, u.tid))
    && (forall d | d in list :: d.subgoal.tid in w.lastAns && d.last == if Blocked(w, d.subgoal.tid)
        then w.lastAns[d.subgoal.tid] else 0)
  }

  /** The entry of the thread of u is at least as old. */
  ghost predicate AtLeastAsOld(list: seq<Dep>, u: Subgoal) {
    exists e :: e in list && e.subgoal.tid == u.tid && u.age <= e.subgoal.age
  }

  /** X holds the direct dependencies and what its blocked threads depend on, finished subgoals and me aside. */
  ghost predicate HoldsDeps(w: World, X: iset<Subgoal>)
    requires w.me in w.tdl
  {
    && (forall d | d in w.tdl[w.me] :: d.subgoal in X)
    && forall s: Subgoal, d | s in X && s.tid in w.completing && w.completing[s.tid] && s.tid in w.tdl
          && d in w.tdl[s.tid] && !d.subgoal.completed && d.subgoal.tid != w.me :: d.subgoal in X
  }

  /** The thread of e is blocked and depends on the unfinished subgoal of d. */
  ghost predicate PassesOn(w: World, e: Dep, d: Dep) {
    && e.subgoal.tid in w.completing && w.completing[e.subgoal.tid] && e.subgoal.tid in w.tdl
    && d in w.tdl[e.subgoal.tid] && !d.subgoal.completed
  }

  /** The list and the leader take account of what the listed blocked threads depend on. */
  ghost predicate TakesIn(w: World, list: seq<Dep>, leader: nat) {
    forall e, d | e in list && PassesOn(w, e, d) ::
        if d.subgoal.tid == w.me then d.subgoal.age <= leader else AtLeastAsOld(list, d.subgoal)
  }

  ghost predicate LeaderIsListed(w: World, list: seq<Dep>, leader: nat) {
    exists e, d :: e in list && PassesOn(w, e, d) && d.subgoal.tid == w.me && d.subgoal.age == leader
  }

  /** The same with the tables themselves: the list covers what it must and holds nothing else; the leader is the old
      one or an own subgoal that a listed blocked thread depends on. */
  ghost predicate Collected(w: World, list: seq<Dep>, leader0: nat, leader: nat, busy: bool)
    requires w.me in w.tdl
  {
    && (forall d | d in w.tdl[w.me] :: AtLeastAsOld(list, d.subgoal)) && TakesIn(w, list, leader)
    && (forall X: iset<Subgoal>, e | HoldsDeps(w, X) && e in list :: e.subgoal in X)
    && leader0 <= leader && (leader == leader0 || LeaderIsListed(w, list, leader))
    && (busy <==> exists e :: e in list && !(e.subgoal.tid in w.completing && w.completing[e.subgoal.tid]))
  }

  lemma FixpointMeans(w: World, list: seq<Dep>, leader0: nat, leader: nat, busy: bool)
    requires Fixpoint(w, list, leader0, leader, busy) && w.me in w.tdl
    ensures Collected(w, list, leader0, leader, busy)
  {
    OldestListed(w, list, leader);
    OnlyHeld(w, list);
    LeaderListed(w, list, leader0, leader);
    BusyListed(w, list);
    hide Reached, Covers, AtLeastAsOld, TakesIn, LeaderIsListed, HoldsDeps, OwnMet, OneEach;
  }

  lemma OldestListed(w: World, list: seq<Dep>, leader: nat)
    requires ListReached(w, list) && forall u: Subgoal | Reached(w, u) :: Covers(list, u)
    requires w.me in w.tdl && forall u: Subgoal | OwnMet(w, u) :: u.age <= leader
    ensures (forall d | d in w.tdl[w.me] :: AtLeastAsOld(list, d.subgoal)) && TakesIn(w, list, leader)
  {
    hide Reached;
    forall d | d in w.tdl[w.me] ensures AtLeastAsOld(list, d.subgoal) {
      ReachedStart(w, d);
      assert Covers(list, d.subgoal);
    }
    forall e, d | e in list && PassesOn(w, e, d)
      ensures if d.subgoal.tid == w.me then d.subgoal.age <= leader else AtLeastAsOld(list, d.subgoal)
    {
      assert IsSubgoalOf(w.tdl[e.subgoal.tid], d.subgoal);
      if d.subgoal.tid == w.me {
        assert OwnMet(w, d.subgoal);
      } else {
        ReachedNext(w, e.subgoal, d.subgoal);
        assert Covers(list, d.subgoal);
      }
    }
  }

  lemma BusyListed(w: World, list: seq<Dep>)
    requires ListReached(w, list) && forall u: Subgoal | Reached(w, u) :: Covers(list, u)
    ensures (exists u: Subgoal :: Reached(w, u) && !Blocked(w, u.tid)) <==>
            exists e :: e in list && !(e.subgoal.tid in w.completing && w.completing[e.subgoal.tid])
  {
    hide Reached;
    if u: Subgoal :| Reached(w, u) && !Blocked(w, u.tid) {
      assert Covers(list, u);
    }
    if e :| e in list && !Blocked(w, e.subgoal.tid) {
      assert Reached(w, e.subgoal);
    }
  }

  lemma OnlyHeld(w: World, list: seq<Dep>)
    requires ListReached(w, list) && w.me in w.tdl
    ensures forall X: iset<Subgoal>, e | HoldsDeps(w, X) && e in list :: e.subgoal in X
  {
    forall X: iset<Subgoal>, e | HoldsDeps(w, X) && e in list ensures e.subgoal in X {
      forall s, u | s in X && Passes(w, s, u) ensures u in X {
        var d :| d in w.tdl[s.tid] && d.subgoal == u;
      }
      assert ClosedUnder(w, X) && Within(w.tdl[w.me], X);
    }
  }

  lemma LeaderListed(w: World, list: seq<Dep>, leader0: nat, leader: nat)
    requires LeaderMet(w, leader0, leader) && forall u: Subgoal | Reached(w, u) :: Covers(list, u)
    ensures leader == leader0 || LeaderIsListed(w, list, leader)
  {
    hide Reached;
    if leader != leader0 {
      var u :| OwnMet(w, u) && u.age == leader;
      var s :| Reached(w, s) && Blocked(w, s.tid) && s.tid in w.tdl && IsSubgoalOf(w.tdl[s.tid], u);
      assert Covers(list, s);
      var e :| e in list && e.subgoal.tid == s.tid;
      var d :| d in w.tdl[s.tid] && d.subgoal == u;
      assert PassesOn(w, e, d);
    }
  }

  lemma AllDone(w: World, TDL: seq<Dep>, list: seq<Dep>, leader: nat, busy: bool, t: nat)
    requires PassedTo(w, TDL, list, leader, busy, |TDL|) && Has(TDL, t)
    ensures Done(w, list, leader, busy, t)
  {
    var d :| d in TDL && d.subgoal.tid == t;
    var j :| 0 <= j < |TDL| && TDL[j] == d;
    assert Done(w, list, leader, busy, TDL[j].subgoal.tid);
  }

  /** A pass without new dependencies has reached the fixpoint. */
  lemma PassEnd(w: World, TDL: seq<Dep>, list: seq<Dep>, leader0: nat, leader: nat, busy: bool)
    requires PassedTo(w, TDL, list, leader, busy, |TDL|) && OnlyThreadsOf(list, TDL, TDL)
    requires OneEach(list) && ListReached(w, list) && w.me in w.tdl
    requires forall d | d in w.tdl[w.me] :: Covers(list, d.subgoal)
    requires LeaderMet(w, leader0, leader) && BusyMet(w, busy)
    ensures Fixpoint(w, list, leader0, leader, busy)
  {
    forall t: nat | Has(list, t) ensures Done(w, list, leader, busy, t) {
      AllDone(w, TDL, list, leader, busy, t);
    }
    CoveredClosed(w, list, leader, busy);
    LeaderDominates(w, list, leader, busy);
    BusyIfUnblocked(w, list, leader, busy);
    LastsRight(w, list, leader, busy);
    hide Reached, Covers, OwnMet, Has, Done, PassedTo, OnlyThreadsOf, LeaderMet;
  }

  lemma LeaderDominates(w: World, list: seq<Dep>, leader: nat, busy: bool)
    requires forall t: nat | Has(list, t) :: Done(w, list, leader, busy, t)
    requires forall u: Subgoal | Reached(w, u) :: Covers(list, u)
    ensures forall u: Subgoal | OwnMet(w, u) :: u.age <= leader
  {
    hide Reached;
    forall u: Subgoal | OwnMet(w, u) ensures u.age <= leader {
      var s :| Reached(w, s) && Blocked(w, s.tid) && s.tid in w.tdl && IsSubgoalOf(w.tdl[s.tid], u);
      assert Covers(list, s) && Has(list, s.tid);
      assert Done(w, list, leader, busy, s.tid);
      var d :| d in w.tdl[s.tid] && d.subgoal == u;
      assert Settled(w, list, leader, d.subgoal);
    }
  }

  lemma BusyIfUnblocked(w: World, list: seq<Dep>, leader: nat, busy: bool)
    requires forall t: nat | Has(list, t) :: Done(w, list, leader, busy, t)
    requires forall u: Subgoal | Reached(w, u) :: Covers(list, u)
    ensures (exists u: Subgoal :: Reached(w, u) && !Blocked(w, u.tid)) ==> busy
  {
    hide Reached;
    forall u: Subgoal | Reached(w, u) && !Blocked(w, u.tid) ensures busy {
      assert Covers(list, u) && Has(list, u.tid);
      assert Done(w, list, leader, busy, u.tid);
    }
  }

  lemma LastsRight(w: World, list: seq<Dep>, leader: nat, busy: bool)
    requires forall t: nat | Has(list, t) :: Done(w, list, leader, busy, t)
    ensures forall d | d in list :: d.subgoal.tid in w.lastAns && d.last == if Blocked(w, d.subgoal.tid)
            then w.lastAns[d.subgoal.tid] else 0
  {
    forall d | d in list ensures d.subgoal.tid in w.lastAns
        && d.last == if Blocked(w, d.subgoal.tid) then w.lastAns[d.subgoal.tid] else 0
    {
      assert Has(list, d.subgoal.tid);
      assert Done(w, list, leader, busy, d.subgoal.tid);
    }
  }

  lemma CoveredClosed(w: World, list: seq<Dep>, leader: nat, busy: bool)
    requires forall t: nat | Has(list, t) :: Done(w, list, leader, busy, t)
    requires w.me in w.tdl && forall d | d in w.tdl[w.me] :: Covers(list, d.subgoal)
    ensures forall u: Subgoal | Reached(w, u) :: Covers(list, u)
  {
    var X := iset u: Subgoal | Covers(list, u);
    forall s, u | s in X && Passes(w, s, u) ensures u in X {
      assert Has(list, s.tid);
      assert Done(w, list, leader, busy, s.tid);
      var d :| d in w.tdl[s.tid] && d.subgoal == u;
      assert Settled(w, list, leader, d.subgoal);
    }
    assert ClosedUnder(w, X) && Within(w.tdl[w.me], X);
  }

  // ---- every pass but the last covers more -------------------------

  ghost function Everything(w: World): set<Subgoal> {
    set t, d | t in w.tdl && d in w.tdl[t] :: d.subgoal
  }

  ghost function NotYet(w: World, list: seq<Dep>): set<Subgoal> {
    set u | u in Everything(w) && !Covers(list, u)
  }

  lemma ReachedSomewhere(w: World, u: Subgoal)
    requires Reached(w, u)
    ensures u in Everything(w)
  {
    var X := iset v: Subgoal | v in Everything(w);
    forall s, v | s in X && Passes(w, s, v) ensures v in X {
      var d :| d in w.tdl[s.tid] && d.subgoal == v;
    }
    assert ClosedUnder(w, X) && Within(w.tdl[w.me], X);
  }

  lemma Fewer(w: World, start: seq<Dep>, met: set<Subgoal>, list: seq<Dep>)
    requires Grown(start, met, list) && AllReached(w, met) && Uncovered(start, met)
    ensures |NotYet(w, list)| < |NotYet(w, start)|
  {
    var u :| u in met && !Covers(start, u);
    ReachedSomewhere(w, u);
    assert Under(met, u);
    assert u in NotYet(w, start) && u !in NotYet(w, list);
    assert NotYet(w, list) <= NotYet(w, start) - {u};
    SubsetSize(NotYet(w, list), NotYet(w, start) - {u});
  }

  /** The threads depended on, perhaps through others. */
  ghost function ReachedThreads(w: World): set<nat> {
    set u | u in Everything(w) && Reached(w, u) :: u.tid
  }

  lemma ReachedAreThreads(w: World)
    requires Known(w) && forall d | d in w.tdl[w.me] :: d.subgoal.tid != w.me
    ensures |w.tdl| <= MAX_THREAD_DEPS ==> |ReachedThreads(w)| < MAX_THREAD_DEPS
  {
    forall t | t in ReachedThreads(w) ensures t in w.tdl.Keys - {w.me} {
      var u :| u in Everything(w) && Reached(w, u) && u.tid == t;
      NotMe(w, u);
    }
    SubsetSize(ReachedThreads(w), w.tdl.Keys - {w.me});
    assert |w.tdl.Keys - {w.me}| == |w.tdl| - 1;
  }

  lemma BroughtReached(w: World, TDL: seq<Dep>, u: Subgoal)
    requires ListReached(w, TDL) && u in AllBring(w, TDL)
    ensures Reached(w, u) && u.tid in ReachedThreads(w)
  {
    hide Reached, Everything;
    var d :| d in TDL && u in Brings(w, d.subgoal);
    if u != d.subgoal {
      assert IsSubgoalOf(w.tdl[d.subgoal.tid], u);
      ReachedNext(w, d.subgoal, u);
    }
    ReachedSomewhere(w, u);
  }

  /** What a pass cannot take in are reached threads. */
  lemma TooManyReached(w: World, first: bool, TDL: seq<Dep>, start: seq<Dep>, leader0: nat, leader: nat, busy: bool)
    requires Updating(w, first, TDL, start, leader0, leader, busy) && !Fits(start, AllBring(w, TDL))
    ensures |ReachedThreads(w)| >= MAX_THREAD_DEPS
  {
    hide Reached, Everything, AllBring, Known, LeaderMet, BusyMet, OneEach, Covers;
    forall d | d in start ensures d.subgoal.tid in ReachedThreads(w) {
      assert d in TDL;
      ReachedSomewhere(w, d.subgoal);
    }
    hide Updating;
    assert ThreadsOf(AllBring(w, TDL)) <= ReachedThreads(w) by {
      forall u | u in AllBring(w, TDL) ensures u.tid in ReachedThreads(w) {
        BroughtReached(w, TDL, u);
      }
    }
    hide ReachedThreads;
    SubsetSize(Threads(start) + ThreadsOf(AllBring(w, TDL)), ReachedThreads(w));
  }

  lemma EnoughRoom(w: World, list: seq<Dep>, leader0: nat, leader: nat, busy: bool)
    requires Fixpoint(w, list, leader0, leader, busy) && |list| < MAX_THREAD_DEPS
    requires Known(w) && forall d | d in w.tdl[w.me] :: d.subgoal.tid != w.me
    ensures |ReachedThreads(w)| < MAX_THREAD_DEPS && !Has(list, w.me)
  {
    hide Reached;
    AsManyThreads(list);
    forall t | t in ReachedThreads(w) ensures t in Threads(list) {
      var u :| u in Everything(w) && Reached(w, u) && u.tid == t;
      assert Covers(list, u);
    }
    SubsetSize(ReachedThreads(w), Threads(list));
    forall d | d in list ensures d.subgoal.tid != w.me {
      NotMe(w, d.subgoal);
    }
  }

  lemma BringsNothing(w: World, TDL: seq<Dep>)
    ensures AllBring(w, TDL[..0]) == {}
  {
  }

  lemma BringsMore(w: World, TDL: seq<Dep>, i: nat)
    requires i < |TDL|
    ensures AllBring(w, TDL[..i + 1]) == AllBring(w, TDL[..i]) + Brings(w, TDL[i].subgoal)
    ensures AllBring(w, TDL[..i + 1]) <= AllBring(w, TDL)
    ensures TDL[i].subgoal in Brings(w, TDL[i].subgoal)
  {
    hide Brings;
    assert TDL[..i + 1] == TDL[..i] + [TDL[i]];
    forall u | u in AllBring(w, TDL[..i + 1]) ensures u in AllBring(w, TDL)
        && (u in AllBring(w, TDL[..i]) || u in Brings(w, TDL[i].subgoal))
    {
      var d :| d in TDL[..i + 1] && u in Brings(w, d.subgoal);
      assert d in TDL && (d in TDL[..i] || d == TDL[i]);
    }
    forall u | u in AllBring(w, TDL[..i]) || u in Brings(w, TDL[i].subgoal) ensures u in AllBring(w, TDL[..i + 1]) {
      var d :| d in TDL[..i + 1] && u in Brings(w, d.subgoal);
    }
    assert TDL[i].subgoal in Brings(w, TDL[i].subgoal) by {
      BringsItself(w, TDL[i].subgoal);
    }
  }

  lemma BringsItself(w: World, s: Subgoal)
    ensures s in Brings(w, s)
  {
  }

  lemma PassingGrown(w: World, TDL: seq<Dep>, start: seq<Dep>, list: seq<Dep>, met: set<Subgoal>,
                     leader0: nat, leader: nat, busy: bool, newDeps: bool, i: nat)
    requires Passing(w, TDL, start, list, met, leader0, leader, busy, newDeps, i)
    ensures Grown(start, met, list)
  {
  }

  /** The threads that share tables. */
  class ThreadTable {
    var completing: map<nat, bool>
    var lastAns: map<nat, nat>
    var ccLeader: map<nat, nat>
    var tdl: map<nat, seq<Dep>>

    ghost function AsWorld(me: nat): World
      reads this
    {
      World(me, completing, lastAns, tdl)
    }

    /** One pass over the present list, which adds to NewTDL. */
    method OnePass(me: nat, TDL: seq<Dep>, NewTDL: seq<Dep>, leader0: nat, busy0: bool, ghost w: World)
      returns (ok: bool, list: seq<Dep>, leader: nat, busy: bool, newDeps: bool, ghost met: set<Subgoal>)
      requires w.me == me && w.completing == completing && w.lastAns == lastAns && Known(w) && ListReached(w, TDL)
      requires forall t | t in w.tdl && t != me :: t in tdl && w.tdl[t] == tdl[t]
      requires forall d | d in TDL ::
               d.subgoal.tid != me && d.subgoal.tid in w.tdl && d.subgoal.tid in completing && d.subgoal.tid in lastAns
      requires OneEach(NewTDL) && |NewTDL| < MAX_THREAD_DEPS && BusyMet(w, busy0)
      ensures ok == Fits(NewTDL, AllBring(w, TDL))
      ensures ok ==> met == AllBring(w, TDL) && OneEach(list) && |list| < MAX_THREAD_DEPS
      ensures ok ==> Passing(w, TDL, NewTDL, list, met, leader0, leader, busy, newDeps, |TDL|)
    {
      hide Grown, AllReached, LeaderMet, BusyMet, PassedTo, Uncovered, OnlyThreadsOf, Reached, Passing, Done, Fits,
          AllBring, Brings;
      ok, list, leader, busy, newDeps, met := true, NewTDL, leader0, busy0, false, {};
      PassStart(w, TDL, NewTDL, leader0, busy0);
      BringsNothing(w, TDL);
      var i := 0;
      while i < |TDL|
        invariant ok && i <= |TDL| && OneEach(list) && |list| < MAX_THREAD_DEPS && BusyMet(w, busy)
        invariant met == AllBring(w, TDL[..i])
        invariant Passing(w, TDL, NewTDL, list, met, leader0, leader, busy, newDeps, i)
      {
        var sgf := TDL[i].subgoal;
        assert TDL[i] in TDL;
        LeaderSame(w, leader);
        PassingGrown(w, TDL, NewTDL, list, met, leader0, leader, busy, newDeps, i);
        BringsMore(w, TDL, i);
        StillNoRoom(NewTDL, met, list, Brings(w, sgf));
        ghost var a, leader1, busy1, newDeps1, T := list, leader, busy, newDeps, {};
        ok, list, leader, busy, newDeps,
            T := OneDep(w, me, sgf, list, leader, busy, newDeps, completing, lastAns, tdl[sgf.tid]);
        if !ok {
          if Fits(NewTDL, AllBring(w, TDL)) {
            FitsLess(NewTDL, AllBring(w, TDL[..i + 1]), AllBring(w, TDL));
          }
          return;
        }
        PassStep(w, TDL, NewTDL, a, met, leader0, leader1, busy1, newDeps1, i, list, T, leader, busy, newDeps);
        GrownOneEach(a, T, list);
        met := met + T;
        i := i + 1;
      }
      assert TDL[..i] == TDL;
      PassingGrown(w, TDL, NewTDL, list, met, leader0, leader, busy, newDeps, i);
      GrownFits(NewTDL, met, list);
    }

    /** Main result: updates the dependencies of thread me to the fixpoint, and aborts (ok is false) exactly if more
        threads are depended on than a list has room for. */
    method UpdateDeps(me: nat, leader0: nat) returns (ok: bool, busy: bool, leader: nat)
      requires Known(AsWorld(me)) && forall d | d in tdl[me] :: d.subgoal.tid != me
      modifies this`tdl
      ensures ok ==> tdl.Keys == old(tdl).Keys && (forall t | t in tdl && t != me :: tdl[t] == old(tdl)[t])
      ensures ok ==> Fixpoint(old(AsWorld(me)), tdl[me], leader0, leader, busy) && !Has(tdl[me], me)
      ensures ok ==> Collected(old(AsWorld(me)), tdl[me], leader0, leader, busy)
      ensures ok == (|ReachedThreads(old(AsWorld(me)))| < MAX_THREAD_DEPS)
      ensures |old(tdl)| <= MAX_THREAD_DEPS ==> ok
    {
      hide Grown, AllReached, LeaderMet, BusyMet, PassedTo, Uncovered, OnlyThreadsOf, Reached, Passing, Done, Fixpoint,
          Covers, Collected;
      hide Fits, AllBring, ReachedThreads, Updating, Has, Threads;
      ghost var w := AsWorld(me);
      ghost var first := true;
      var NewTDL, newDeps := [], true;
      ok, busy, leader := true, false, leader0;
      UpdateStart(w, leader0);
      ReachedAreThreads(w);
      while newDeps
        invariant ok && |NewTDL| < MAX_THREAD_DEPS
        invariant me in tdl && tdl.Keys == w.tdl.Keys && forall t | t in tdl && t != me :: tdl[t] == w.tdl[t]
        invariant Updating(w, first, tdl[me], NewTDL, leader0, leader, busy)
        invariant !newDeps ==> Fixpoint(w, tdl[me], leader0, leader, busy) && |tdl[me]| < MAX_THREAD_DEPS
        decreases if newDeps then 1 + |NotYet(w, NewTDL)| else 0
      {
        ghost var start, met := NewTDL, {};
        ghost var leader1, busy1 := leader, busy;
        UpdatingFacts(w, first, tdl[me], NewTDL, leader0, leader, busy);
        ok, NewTDL, leader, busy, newDeps, met := OnePass(me, tdl[me], NewTDL, leader, busy, w);
        if !ok {
          TooManyReached(w, first, tdl[me], start, leader0, leader1, busy1);
          return;
        }
        UpdateStep(w, first, tdl[me], start, NewTDL, met, leader0, leader1, leader, busy, newDeps);
        tdl := tdl[me := NewTDL];
        first := false;
      }
      EnoughRoom(w, tdl[me], leader0, leader, busy);
      FixpointMeans(w, tdl[me], leader0, leader, busy);
    }

    /** Whether the threads that thread me depends on depend on each other and on no other thread than me. */
    method CheckForSCC(me: nat) returns (scc: bool)
      requires me in tdl && forall d | d in tdl[me] :: d.subgoal.tid in tdl && d.subgoal.tid in ccLeader
      ensures scc == SameThreads(tdl, ccLeader, me)
      ensures scc ==> forall d | d in tdl[me] :: d.subgoal.age <= ccLeader[d.subgoal.tid]
      ensures scc <==> forall d | d in tdl[me] ::
                         d.subgoal.age <= ccLeader[d.subgoal.tid] && SameLists(tdl, me, d.subgoal.tid)
    {
      SccExactly(tdl, ccLeader, me);
      var i := 0;
      while i < |tdl[me]|
        invariant i <= |tdl[me]| && forall j: nat | j < i :: AgreesWith(tdl, ccLeader, me, tdl[me][j].subgoal)
      {
        assert tdl[me][i] in tdl[me];
        var sgf := tdl[me][i].subgoal;
        if ccLeader[sgf.tid] < sgf.age {
          return false;
        }
        var k, found := 0, true;
        while k < |tdl[sgf.tid]|
          invariant k <= |tdl[sgf.tid]| && forall j: nat | j < k ::
                    tdl[sgf.tid][j].subgoal.tid == me || Has(tdl[me], tdl[sgf.tid][j].subgoal.tid)
        {
          var n;
          n, found := FindTid(tdl[me], tdl[sgf.tid][k].subgoal.tid);
          if tdl[sgf.tid][k].subgoal.tid != me && !found {
            assert tdl[sgf.tid][k] in tdl[sgf.tid];
            return false;
          }
          k := k + 1;
        }
        k := 0;
        while k < |tdl[me]|
          invariant k <= |tdl[me]| && forall j: nat | j < k ::
                    tdl[me][j].subgoal.tid == sgf.tid || Has(tdl[sgf.tid], tdl[me][j].subgoal.tid)
        {
          var n;
          n, found := FindTid(tdl[sgf.tid], tdl[me][k].subgoal.tid);
          if tdl[me][k].subgoal.tid != sgf.tid && !found {
            assert tdl[me][k] in tdl[me];
            return false;
          }
          k := k + 1;
        }
        i := i + 1;
      }
      assert forall d | d in tdl[me] :: AgreesWith(tdl, ccLeader, me, d.subgoal);
      scc := true;
    }
  }

  /** The thread of s has reached s's SCC leader, depends only on me and my dependencies, and on all of those. */
  ghost predicate AgreesWith(tdl: map<nat, seq<Dep>>, ccLeader: map<nat, nat>, me: nat, s: Subgoal)
    requires me in tdl
  {
    && s.tid in tdl && s.tid in ccLeader && s.age <= ccLeader[s.tid]
    && (forall d | d in tdl[s.tid] :: d.subgoal.tid == me || Has(tdl[me], d.subgoal.tid))
    && (forall d | d in tdl[me] :: d.subgoal.tid == s.tid || Has(tdl[s.tid], d.subgoal.tid))
  }

  /** Every thread that t depends on is me or one that me depends on, and every one that me depends on is t or one that
      t depends on. */
  ghost predicate SameLists(tdl: map<nat, seq<Dep>>, me: nat, t: nat)
    requires me in tdl && t in tdl
  {
    && (forall d | d in tdl[t] ::
          d.subgoal.tid == me || exists e :: e in tdl[me] && e.subgoal.tid == d.subgoal.tid)
    && (forall d | d in tdl[me] ::
          d.subgoal.tid == t || exists e :: e in tdl[t] && e.subgoal.tid == d.subgoal.tid)
  }

  /** What the check decides: the leader of every listed thread is at least as old as the subgoal depended on, and the
      lists name the same threads, these two aside. */
  lemma SccExactly(tdl: map<nat, seq<Dep>>, ccLeader: map<nat, nat>, me: nat)
    requires me in tdl && forall d | d in tdl[me] :: d.subgoal.tid in tdl && d.subgoal.tid in ccLeader
    ensures SameThreads(tdl, ccLeader, me) <==>
            forall d | d in tdl[me] ::
              d.subgoal.age <= ccLeader[d.subgoal.tid] && SameLists(tdl, me, d.subgoal.tid)
  {
    forall d | d in tdl[me]
      ensures AgreesWith(tdl, ccLeader, me, d.subgoal) <==>
              d.subgoal.age <= ccLeader[d.subgoal.tid] && SameLists(tdl, me, d.subgoal.tid)
    {
    }
  }

  /** A leader that is younger than the subgoal depended on stops the check, an older one does not. */
  lemma LeaderDecides(leader: nat)
    ensures var tdl: map<nat,
            seq<Dep>> := map[0 := [Dep(Subgoal(7, 1, 3, false), 0)], 1 := [Dep(Subgoal(5, 0, 2, false), 0)]];
            SameThreads(tdl, map[1 := leader], 0) <==> leader >= 3
  {
    var tdl: map<nat, seq<Dep>> := map[0 := [Dep(Subgoal(7, 1, 3, false), 0)], 1 := [Dep(Subgoal(5, 0, 2, false), 0)]];
    var a, b := Dep(Subgoal(7, 1, 3, false), 0), Dep(Subgoal(5, 0, 2, false), 0);
    assert tdl[0] == [a] && tdl[1] == [b] && a in tdl[0] && b in tdl[1];
    SccExactly(tdl, map[1 := leader], 0);
  }

  ghost predicate SameThreads(tdl: map<nat, seq<Dep>>, ccLeader: map<nat, nat>, me: nat)
    requires me in tdl
  {
    forall d | d in tdl[me] :: AgreesWith(tdl, ccLeader, me, d.subgoal)
  }

  /** Thread t depends on thread u, perhaps through others. */
  ghost predicate DependsOn(tdl: map<nat, seq<Dep>>, t: nat, u: nat) {
    forall X: iset<nat> | t in X && ClosedThreads(tdl, X) :: u in X
  }

  ghost predicate ClosedThreads(tdl: map<nat, seq<Dep>>, X: iset<nat>) {
    forall t, d | t in X && t in tdl && d in tdl[t] :: d.subgoal.tid in X
  }

  /** If the check succeeds, me and the threads in its list depend on no others, and those in the
      list all name each other. */
  lemma SccClosed(tdl: map<nat, seq<Dep>>, ccLeader: map<nat, nat>, me: nat)
    requires me in tdl && SameThreads(tdl, ccLeader, me)
    ensures forall u: nat | DependsOn(tdl, me, u) :: u == me || Has(tdl[me], u)
    ensures forall t: nat, u: nat | Has(tdl[me], t) && Has(tdl[me], u) && t != u :: t in tdl && Has(tdl[t], u)
  {
    var X := iset u: nat | u == me || Has(tdl[me], u);
    forall t, d | t in X && t in tdl && d in tdl[t] ensures d.subgoal.tid in X {
      if t != me {
        var e :| e in tdl[me] && e.subgoal.tid == t;
        assert AgreesWith(tdl, ccLeader, me, e.subgoal);
      }
    }
    assert ClosedThreads(tdl, X);
    forall t: nat, u: nat | Has(tdl[me], t) && Has(tdl[me], u) && t != u ensures t in tdl && Has(tdl[t], u) {
      var e :| e in tdl[me] && e.subgoal.tid == t;
      assert AgreesWith(tdl, ccLeader, me, e.subgoal);
    }
  }

  lemma DirectlyDepends(tdl: map<nat, seq<Dep>>, t: nat, u: nat)
    requires t in tdl && Has(tdl[t], u)
    ensures DependsOn(tdl, t, u)
    ensures forall v: nat | DependsOn(tdl, u, v) :: DependsOn(tdl, t, v)
  {
  }

  /** When the check succeeds, the listed threads all depend on me exactly if one of them names me. */
  lemma OneComponentIff(tdl: map<nat, seq<Dep>>, ccLeader: map<nat, nat>, me: nat)
    requires me in tdl && SameThreads(tdl, ccLeader, me) && !Has(tdl[me], me)
    ensures (forall t: nat | Has(tdl[me], t) :: DependsOn(tdl, t, me)) <==>
            (tdl[me] == [] || exists t: nat :: Has(tdl[me], t) && t in tdl && Has(tdl[t], me))
  {
    if t: nat :| Has(tdl[me], t) && t in tdl && Has(tdl[t], me) {
      DirectlyDepends(tdl, t, me);
      forall u: nat | Has(tdl[me], u) ensures DependsOn(tdl, u, me) {
        if u != t {
          SccClosed(tdl, ccLeader, me);
          DirectlyDepends(tdl, u, t);
        }
      }
    } else if tdl[me] != [] {
      var X := iset u: nat | Has(tdl[me], u);
      forall t, d | t in X && t in tdl && d in tdl[t] ensures d.subgoal.tid in X {
        var e :| e in tdl[me] && e.subgoal.tid == t;
        assert AgreesWith(tdl, ccLeader, me, e.subgoal);
        assert Has(tdl[t], d.subgoal.tid);
      }
      assert ClosedThreads(tdl, X);
      assert Has(tdl[me], tdl[me][0].subgoal.tid);
    }
  }

  function OneWayDeps(): map<nat, seq<Dep>> {
    map[0 := [Dep(Subgoal(7, 1, 3, false), 0), Dep(Subgoal(8, 2, 3, false), 0)],
        1 := [Dep(Subgoal(8, 2, 3, false), 0)], 2 := [Dep(Subgoal(7, 1, 3, false), 0)]]
  }

  /** The check does not ask that the listed threads depend on me: it succeeds for thread 0, which depends on the
      threads 1 and 2 that depend on each other only. */
  lemma SccOneWay()
    ensures SameThreads(OneWayDeps(), map[1 := 3, 2 := 3], 0) && !Has(OneWayDeps()[0], 0)
    ensures DependsOn(OneWayDeps(), 0, 1) && !DependsOn(OneWayDeps(), 1, 0)
  {
    var tdl := OneWayDeps();
    var a, b := Dep(Subgoal(7, 1, 3, false), 0), Dep(Subgoal(8, 2, 3, false), 0);
    assert tdl[0] == [a, b] && tdl[1] == [b] && tdl[2] == [a];
    assert a in tdl[0] && b in tdl[0] && b in tdl[1] && a in tdl[2];
    assert AgreesWith(tdl, map[1 := 3, 2 := 3], 0, a.subgoal) && AgreesWith(tdl, map[1 := 3, 2 := 3], 0, b.subgoal);
    DirectlyDepends(tdl, 0, 1);
    var X: iset<nat> := iset{1, 2};
    assert ClosedThreads(tdl, X) && 0 !in X;
  }

  /** Between passes: the list only holds reached subgoals; after the first one it covers the direct dependencies. */
  ghost predicate Updating(w: World, first: bool, TDL: seq<Dep>, NewTDL: seq<Dep>, leader0: nat, leader: nat,
                           busy: bool)
  {
    && Known(w) && (forall d | d in w.tdl[w.me] :: d.subgoal.tid != w.me)
    && OneEach(NewTDL) && ListReached(w, TDL) && LeaderMet(w, leader0, leader) && BusyMet(w, busy)
    && (forall d | d in TDL :: d.subgoal.tid != w.me && d.subgoal in Everything(w))
    && if first then TDL == w.tdl[w.me] && NewTDL == []
       else TDL == NewTDL && forall d | d in w.tdl[w.me] :: Covers(NewTDL, d.subgoal)
  }

  lemma UpdateStart(w: World, leader: nat)
    requires Known(w) && forall d | d in w.tdl[w.me] :: d.subgoal.tid != w.me
    ensures Updating(w, true, w.tdl[w.me], [], leader, leader, false)
  {
    forall d | d in w.tdl[w.me] ensures Reached(w, d.subgoal) {
      ReachedStart(w, d);
    }
  }

  lemma UpdatingFacts(w: World, first: bool, TDL: seq<Dep>, NewTDL: seq<Dep>, leader0: nat, leader: nat, busy: bool)
    requires Updating(w, first, TDL, NewTDL, leader0, leader, busy)
    ensures forall d | d in TDL ::
            d.subgoal.tid != w.me && d.subgoal.tid in w.tdl && d.subgoal.tid in w.completing
            && d.subgoal.tid in w.lastAns
    ensures Known(w) && ListReached(w, TDL) && OneEach(NewTDL) && BusyMet(w, busy)
  {
    forall d | d in TDL ensures d.subgoal.tid in w.tdl && d.subgoal.tid in w.completing && d.subgoal.tid in w.lastAns {
      var t, e :| t in w.tdl && e in w.tdl[t] && e.subgoal == d.subgoal;
    }
  }

  lemma NotMe(w: World, u: Subgoal)
    requires Reached(w, u) && forall d | d in w.tdl[w.me] :: d.subgoal.tid != w.me
    ensures u.tid != w.me
  {
    var X := iset v: Subgoal | v.tid != w.me;
    assert ClosedUnder(w, X) && Within(w.tdl[w.me], X);
  }

  lemma UpdateStep(w: World, first: bool, TDL: seq<Dep>, start: seq<Dep>, list: seq<Dep>, met: set<Subgoal>,
                   leader0: nat, leader1: nat, leader: nat, busy: bool, newDeps: bool)
    requires Updating(w, first, TDL, start, leader0, leader1, false)
             || Updating(w, first, TDL, start, leader0, leader1, true)
    requires Passing(w, TDL, start, list, met, leader1, leader, busy, newDeps, |TDL|)
    ensures Updating(w, false, list, list, leader0, leader, busy)
    ensures newDeps ==> |NotYet(w, list)| < |NotYet(w, start)|
    ensures !newDeps ==> Fixpoint(w, list, leader0, leader, busy)
  {
    hide Reached;
    forall d | d in list ensures Reached(w, d.subgoal) {
      if d.subgoal !in met {
        assert IsSubgoalOf(start, d.subgoal);
        var e :| e in start && e.subgoal == d.subgoal;
        assert e in TDL;
      }
    }
    forall d | d in list ensures d.subgoal.tid != w.me && d.subgoal in Everything(w) {
      NotMe(w, d.subgoal);
      ReachedSomewhere(w, d.subgoal);
    }
    forall d | d in w.tdl[w.me] ensures Covers(list, d.subgoal) {
      if first {
        var j :| 0 <= j < |TDL| && TDL[j] == d;
        assert Covers(list, TDL[j].subgoal);
      } else {
        assert Covers(start, d.subgoal);
      }
    }
    if newDeps {
      Fewer(w, start, met, list);
    } else {
      assert OnlyThreadsOf(list, TDL, TDL);
      PassEnd(w, TDL, list, leader0, leader, busy);
    }
  }


  lemma LeaderSame(w: World, leader: nat)
    ensures LeaderMet(w, leader, leader)
  {
  }

  lemma GrownOneEach(a: seq<Dep>, S: set<Subgoal>, b: seq<Dep>)
    requires Grown(a, S, b)
    ensures OneEach(b)
  {
  }
}
