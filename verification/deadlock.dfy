/** Threads that wait for each other's tables: every thread waits for at most one other. */
module WaitsFor {
  import opened Sequences

  /** The thread each waiting thread waits for. */
  type Waits = map<nat, nat>

  /** Where n steps along the waits lead from t. */
  function Steps(w: Waits, t: nat, n: nat): Option<nat>
    decreases n
  {
    if n == 0 then Some(t) else if t in w then Steps(w, w[t], n - 1) else None
  }

  ghost predicate Leads(w: Waits, t: nat, u: nat) {
    exists n: nat :: Steps(w, t, n) == Some(u)
  }

  ghost predicate Acyclic(w: Waits) {
    forall t: nat, n: nat {:trigger Steps(w, t, n)} | n > 0 :: Steps(w, t, n) != Some(t)
  }

  lemma {:induction false} StepsAdd(w: Waits, t: nat, m: nat, n: nat, u: nat)
    requires Steps(w, t, m) == Some(u)
    ensures Steps(w, t, m + n) == Steps(w, u, n)
    decreases m
  {
    if m > 0 {
      StepsAdd(w, w[t], m - 1, n, u);
    }
  }

  lemma {:induction false} StepsMore(w: Waits, w': Waits, t: nat, n: nat)
    requires forall x | x in w :: x in w' && w'[x] == w[x]
    requires Steps(w, t, n).Some?
    ensures Steps(w', t, n) == Steps(w, t, n)
    decreases n
  {
    if n > 0 {
      StepsMore(w, w', w[t], n - 1);
    }
  }

  lemma FewerAcyclic(w: Waits, w': Waits)
    requires Acyclic(w) && forall x | x in w' :: x in w && w[x] == w'[x]
    ensures Acyclic(w')
  {
    forall t: nat, n: nat | n > 0 ensures Steps(w', t, n) != Some(t) {
      if Steps(w', t, n).Some? {
        StepsMore(w', w, t, n);
      }
    }
  }

  /** A walk that meets t in the changed waits meets t in the old ones. */
  lemma {:induction false} FirstMeeting(w: Waits, t: nat, u: nat, a: nat, n: nat) returns (m: nat)
    requires Steps(w[t := u], a, n) == Some(t)
    ensures Steps(w, a, m) == Some(t)
    decreases n
  {
    m := 0;
    if a != t {
      m := FirstMeeting(w, t, u, w[a], n - 1);
      m := m + 1;
    }
  }

  /** And conversely. */
  lemma {:induction false} FirstMeetingNew(w: Waits, t: nat, u: nat, a: nat, n: nat) returns (m: nat)
    requires Steps(w, a, n) == Some(t)
    ensures Steps(w[t := u], a, m) == Some(t)
    decreases n
  {
    m := 0;
    if a != t {
      m := FirstMeetingNew(w, t, u, w[a], n - 1);
      m := m + 1;
    }
  }

  /** A walk in the changed waits that never meets t is a walk in the old ones. */
  lemma {:induction false} AvoidsOrMeets(w: Waits, t: nat, u: nat, a: nat, n: nat) returns (i: nat)
    ensures i <= n
    ensures i < n ==> Steps(w[t := u], a, i) == Some(t)
    ensures i == n ==> Steps(w[t := u], a, n) == Steps(w, a, n)
    decreases n
  {
    i := 0;
    if n > 0 && a != t && a in w {
      i := AvoidsOrMeets(w, t, u, w[a], n - 1);
      i := i + 1;
    } else if n > 0 && a != t {
      i := n;
    }
  }

  /** The new wait closes a cycle exactly if t is reached from u. */
  lemma ClosesCycle(w: Waits, t: nat, u: nat)
    requires Acyclic(w)
    ensures Acyclic(w[t := u]) <==> !Leads(w, u, t)
  {
    var w' := w[t := u];
    if Leads(w, u, t) {
      var n: nat :| Steps(w, u, n) == Some(t);
      var m := FirstMeetingNew(w, t, u, u, n);
      assert Steps(w', t, m + 1) == Some(t);
    } else {
      forall a: nat, n: nat | n > 0 ensures Steps(w', a, n) != Some(a) {
        NoNewCycle(w, t, u, a, n);
      }
    }
  }

  lemma NoNewCycle(w: Waits, t: nat, u: nat, a: nat, n: nat)
    requires Acyclic(w) && !Leads(w, u, t) && n > 0
    ensures Steps(w[t := u], a, n) != Some(a)
  {
    var w' := w[t := u];
    if Steps(w', a, n) == Some(a) {
      var i := AvoidsOrMeets(w, t, u, a, n);
      assert Steps(w, a, n) != Some(a);
      assert i < n;
      StepsAdd(w', a, i, n - i, t);
      StepsAdd(w', t, n - i, i, a);
      assert Steps(w', u, n - 1) == Some(t);
      var m := FirstMeeting(w, t, u, u, n - 1);
      assert false;
    }
  }

  /** The threads from u up to, but without, leader. */
  ghost function Path(w: Waits, u: nat, leader: nat): set<nat> {
    set x | x in w && Leads(w, u, x) && Leads(w, x, leader) && x != leader
  }

  // ------------------------------------------------------------------
  // The protocol: all threads, one step at a time.

  /** resets holds, for each leader in the middle of reset_other_threads, the suspended threads
      it has yet to redirect. */
  datatype Protocol = Protocol(waits: Waits, resets: map<nat, set<nat>>)

  datatype Event =
    | Wait(thread: nat, on: nat)
    | WaitOver(thread: nat)
    | StartReset(leader: nat, on: nat)
    | Redirect(leader: nat, thread: nat)
    | EndReset(leader: nat)

  /** Neither resetting others nor suspended until it is redirected. */
  ghost predicate Idle(s: Protocol, t: nat) {
    t !in s.resets && forall l | l in s.resets :: t !in s.resets[l]
  }

  ghost predicate Allowed(s: Protocol, e: Event) {
    match e
    case Wait(t, u) => Idle(s, t) && !Leads(s.waits, u, t)
    case WaitOver(t) => Idle(s, t)
    case StartReset(l, u) => Idle(s, l) && Leads(s.waits, u, l) && forall x | x in Path(s.waits, u, l) :: Idle(s, x)
    case Redirect(l, x) => l in s.resets && x in s.resets[l]
    case EndReset(l) => l in s.resets && s.resets[l] == {}
  }

  ghost function Apply(s: Protocol, e: Event): Protocol
    requires Allowed(s, e)
  {
    match e
    case Wait(t, u) => s.(waits := s.waits[t := u])
    case WaitOver(t) => s.(waits := s.waits - {t})
    case StartReset(l, u) => Protocol(s.waits - Path(s.waits, u, l), s.resets[l := Path(s.waits, u, l)])
    case Redirect(l, x) => Protocol(s.waits[x := l], s.resets[l := s.resets[l] - {x}])
    case EndReset(l) => s.(resets := s.resets - {l})
  }

  /** A leader that starts a reset has no outstanding wait. */
  predicate Entering(s: Protocol, e: Event) {
    e.StartReset? ==> e.leader !in s.waits
  }

  ghost predicate Sound(s: Protocol) {
    && Acyclic(s.waits)
    && forall l | l in s.resets :: l !in s.waits && forall x | x in s.resets[l] :: x !in s.resets && x != l
  }

  lemma StepSound(s: Protocol, e: Event)
    requires Sound(s) && Allowed(s, e) && Entering(s, e)
    ensures Sound(Apply(s, e))
  {
    match e
    case Wait(t, u) =>
      ClosesCycle(s.waits, t, u);
    case WaitOver(t) =>
      FewerAcyclic(s.waits, s.waits - {t});
    case StartReset(l, u) =>
      FewerAcyclic(s.waits, s.waits - Path(s.waits, u, l));
    case Redirect(l, x) =>
      assert Steps(s.waits, l, 0) == Some(l);
      RootLeads(s.waits, l, x);
      ClosesCycle(s.waits, x, l);
    case EndReset(l) =>
  }

  lemma RootLeads(w: Waits, l: nat, x: nat)
    requires l !in w && x != l
    ensures !Leads(w, l, x)
  {
    forall n: nat ensures Steps(w, l, n) != Some(x) {
    }
  }

  /** The states along a run. */
  ghost predicate Run(states: seq<Protocol>, events: seq<Event>) {
    && |states| == |events| + 1
    && forall i: nat | i < |events| ::
        Allowed(states[i], events[i]) && Entering(states[i], events[i]) && states[i + 1] == Apply(states[i], events[i])
  }

  /** Main result: however the steps of the threads interleave, the waits never form a cycle. */
  lemma {:induction false} NeverCyclic(states: seq<Protocol>, events: seq<Event>, i: nat)
    requires Run(states, events) && states[0] == Protocol(map[], map[]) && i < |states|
    ensures Acyclic(states[i].waits) && Sound(states[i])
  {
    if i > 0 {
      var j := i - 1;
      NeverCyclic(states, events, j);
      assert states[j + 1] == Apply(states[j], events[j]);
      StepSound(states[j], events[j]);
    }
  }

  ghost predicate Before(w: Waits, v: nat, t: nat) {
    exists n: nat :: n > 0 && Steps(w, v, n) == Some(t)
  }

  lemma BeforeNext(w: Waits, v: nat, t: nat)
    requires t in w && (v == t || Before(w, v, t))
    ensures Before(w, v, w[t])
  {
    assert Steps(w, t, 1) == Steps(w, w[t], 0);
    if v != t {
      var n: nat :| n > 0 && Steps(w, v, n) == Some(t);
      StepsAdd(w, v, n, 1, t);
      assert Steps(w, v, n + 1) == Some(w[t]);
    }
  }

  /** The last thread of the chain from t, which is not waiting. */
  lemma ChainEnd(w: Waits, t: nat, seen: set<nat>) returns (r: nat)
    requires Acyclic(w) && seen <= w.Keys && forall v | v in seen :: Before(w, v, t)
    ensures Leads(w, t, r) && r !in w
    decreases |w.Keys - seen|
  {
    if t !in w {
      r := t;
      assert Steps(w, t, 0) == Some(r);
    } else {
      assert t !in seen;
      forall v | v in seen + {t} ensures Before(w, v, w[t]) {
        BeforeNext(w, v, t);
      }
      assert w.Keys - (seen + {t}) < w.Keys - seen by {
        assert t in w.Keys - seen;
      }
      SubsetSize(w.Keys - (seen + {t}), w.Keys - seen);
      r := ChainEnd(w, w[t], seen + {t});
      var n: nat :| Steps(w, w[t], n) == Some(r);
      assert Steps(w, t, n + 1) == Some(r);
    }
  }

  /** Without that condition there is always a bad interleaving: while a leader that still waits redirects the others,
      the thread at the end of its chain starts to wait for one of them, and the last redirection closes a cycle. */
  lemma WaitingLeaderCycle(s: Protocol, l: nat, u: nat) returns (r: nat)
    requires Sound(s) && s.resets == map[] && l in s.waits && u != l && Leads(s.waits, u, l)
    ensures Allowed(s, StartReset(l, u))
    ensures var s1 := Apply(s, StartReset(l, u));
            && Allowed(s1, Wait(r, u))
            && var s2 := Apply(s1, Wait(r, u));
            && Allowed(s2, Redirect(l, u)) && !Acyclic(Apply(s2, Redirect(l, u)).waits)
  {
    var w, P := s.waits, Path(s.waits, u, l);
    r := ChainEnd(w, l, {});
    assert Steps(w, u, 0) == Some(u);
    var n: nat :| Steps(w, u, n) == Some(l);
    assert u in P;
    var s1 := Apply(s, StartReset(l, u));
    assert r != l && r !in P;
    assert Steps(s1.waits, u, 0) == Some(u);
    RootLeads(s1.waits, u, r);
    var s2 := Apply(s1, Wait(r, u));
    var k: nat :| Steps(w, l, k) == Some(r);
    ChainSpared(w, P, u, l, l, k, 0);
    StepsMore(s1.waits, s2.waits, l, k);
    assert Steps(s2.waits, r, 1) == Steps(s2.waits, u, 0) == Some(u);
    StepsAdd(s2.waits, l, k, 1, r);
    assert Leads(s2.waits, l, u);
    var m: nat :| Steps(s2.waits, l, m) == Some(u);
    var m' := FirstMeetingNew(s2.waits, u, l, l, m);
    assert Steps(s2.waits[u := l], u, m' + 1) == Some(u);
  }

  lemma NotOnPath(w: Waits, u: nat, l: nat, t: nat, j: nat)
    requires Acyclic(w) && Steps(w, l, j) == Some(t)
    ensures t !in Path(w, u, l)
  {
    forall n: nat | Steps(w, t, n) == Some(l) ensures t == l {
      StepsAdd(w, t, n, j, l);
    }
  }

  /** The chain from the leader does not meet the path to it. */
  lemma {:induction false} ChainSpared(w: Waits, P: set<nat>, u: nat, l: nat, t: nat, k: nat, j: nat)
    requires Acyclic(w) && P == Path(w, u, l) && Steps(w, l, j) == Some(t) && Steps(w, t, k).Some?
    ensures Steps(w - P, t, k) == Steps(w, t, k)
    decreases k
  {
    if k > 0 {
      NotOnPath(w, u, l, t, j);
      StepsAdd(w, l, j, 1, t);
      assert Steps(w, t, 1) == Steps(w, w[t], 0);
      ChainSpared(w, P, u, l, w[t], k - 1, j + 1);
    }
  }

  // ------------------------------------------------------------------

  /** The waiting threads, under the mutex. */
  class WaitTable {
    var waitingFor: Waits
    var tmpNext: map<nat, nat>

    /** Whether a wait of t2 for t1 would close a cycle. */
    method WouldDeadlock(t1: nat, t2: nat) returns (deadlock: bool)
      requires Acyclic(waitingFor)
      ensures deadlock == Leads(waitingFor, t1, t2)
      ensures deadlock == !Acyclic(waitingFor[t2 := t1])
    {
      ClosesCycle(waitingFor, t2, t1);
      var t := Some(t1);
      ghost var n, seen: set<nat> := 0, {};
      while t.Some?
        invariant Steps(waitingFor, t1, n) == t
        invariant forall i: nat | i < n :: Steps(waitingFor, t1, i) != Some(t2)
        invariant seen <= waitingFor.Keys
        invariant t.Some? ==> forall v | v in seen :: Before(waitingFor, v, t.value)
        decreases t.Some?, |waitingFor.Keys - seen|
      {
        if t.value == t2 {
          return true;
        }
        StepsAdd(waitingFor, t1, n, 1, t.value);
        if t.value in waitingFor {
          assert t.value !in seen;
          assert Steps(waitingFor, t.value, 1) == Steps(waitingFor, waitingFor[t.value], 0);
          ghost var more := seen + {t.value};
          forall v | v in more ensures Before(waitingFor, v, waitingFor[t.value]) {
            BeforeNext(waitingFor, v, t.value);
          }
          assert waitingFor.Keys - more < waitingFor.Keys - seen by {
            assert t.value in waitingFor.Keys - seen;
          }
          SubsetSize(waitingFor.Keys - more, waitingFor.Keys - seen);
          seen := more;
          t := Some(waitingFor[t.value]);
        } else {
          t := None;
        }
        n := n + 1;
      }
      NeverMet(waitingFor, t1, t2, n);
      deadlock := false;
    }

    lemma NeverMet(w: Waits, t1: nat, t2: nat, n: nat)
      requires Steps(w, t1, n) == None && forall i: nat | i < n :: Steps(w, t1, i) != Some(t2)
      ensures !Leads(w, t1, t2)
    {
      forall i: nat ensures Steps(w, t1, i) != Some(t2) {
        if i >= n {
          NoneStays(w, t1, n, i - n);
        }
      }
    }

    lemma {:induction false} NoneStays(w: Waits, t: nat, n: nat, k: nat)
      requires Steps(w, t, n) == None
      ensures Steps(w, t, n + k) == None
      decreases n
    {
      if n > 0 && t in w {
        NoneStays(w, w[t], n - 1, k);
      }
    }

    /** Thread th, which would not deadlock, waits for the thread that computes its table. */
    method WaitForTable(th: nat, tableTid: nat) returns (deadlock: bool)
      requires Acyclic(waitingFor)
      modifies this`waitingFor
      ensures Acyclic(waitingFor) && deadlock == Leads(old(waitingFor), tableTid, th)
      ensures waitingFor == if deadlock then old(waitingFor) else old(waitingFor)[th := tableTid]
    {
      deadlock := WouldDeadlock(tableTid, th);
      if !deadlock {
        waitingFor := waitingFor[th := tableTid];
      }
    }

    /** The first loop, under the mutex: the threads on the path to th stop waiting; tmpNext keeps the path. */
    method ClearPath(th: nat, ctxt: nat)
      requires Acyclic(waitingFor) && Leads(waitingFor, ctxt, th)
      modifies this`waitingFor, this`tmpNext
      ensures waitingFor == old(waitingFor) - Path(old(waitingFor), ctxt, th)
      ensures forall x | x in Path(old(waitingFor), ctxt, th) :: x in tmpNext && tmpNext[x] == old(waitingFor)[x]
    {
      hide Path, Leads, Walked, Acyclic;
      ghost var w, cleared: set<nat> := waitingFor, {};
      var tmp := ctxt;
      WalkStart(w, ctxt, th);
      while tmp != th
        invariant Walked(w, ctxt, th, tmp, cleared) && waitingFor == w - cleared
        invariant forall v | v in cleared :: v in w && v in tmpNext && tmpNext[v] == w[v]
        decreases |w.Keys - cleared|
      {
        WalkStep(w, ctxt, th, tmp, cleared);
        tmpNext := tmpNext[tmp := waitingFor[tmp]];
        waitingFor := waitingFor - {tmp};
        assert w - cleared - {tmp} == w - (cleared + {tmp});
        cleared := cleared + {tmp};
        tmp := tmpNext[tmp];
      }
      WalkEnd(w, ctxt, th, cleared);
    }

    /** The second loop: every thread on the path now waits for th itself. */
    method RedirectPath(th: nat, ctxt: nat, ghost w: Waits)
      requires Acyclic(w) && Leads(w, ctxt, th) && waitingFor == w - Path(w, ctxt, th)
      requires forall x | x in Path(w, ctxt, th) :: x in tmpNext && tmpNext[x] == w[x]
      modifies this`waitingFor
      ensures Acyclic(waitingFor)
      ensures waitingFor == Redirected(w, Path(w, ctxt, th), Path(w, ctxt, th), th)
    {
      ghost var P, done: set<nat> := Path(w, ctxt, th), {};
      LeaderApart(w, P, ctxt, th);
      NoneRedirected(w, P, th);
      hide Path, Leads, Walked, Acyclic, Redirected, ApartFrom;
      var tmp := ctxt;
      WalkStart(w, ctxt, th);
      while tmp != th
        invariant Walked(w, ctxt, th, tmp, done) && waitingFor == Redirected(w, P, done, th)
        invariant Acyclic(waitingFor) && ApartFrom(waitingFor, P, th)
        decreases |w.Keys - done|
      {
        WalkStep(w, ctxt, th, tmp, done);
        StillApart(waitingFor, P, tmp, th);
        OneRedirected(w, P, done, th, tmp);
        waitingFor := waitingFor[tmp := th];
        done := done + {tmp};
        tmp := tmpNext[tmp];
      }
      WalkEnd(w, ctxt, th, done);
    }

    /** The offending path becomes direct waits for the leader; without other threads in between, no cycle arises. */
    method ResetOtherThreads(th: nat, ctxt: nat)
      requires Acyclic(waitingFor) && Leads(waitingFor, ctxt, th)
      modifies this`waitingFor, this`tmpNext
      ensures Acyclic(waitingFor) && InBetweenWaitFor(old(waitingFor), waitingFor, ctxt, th)
      ensures waitingFor ==
              Redirected(old(waitingFor), Path(old(waitingFor), ctxt, th), Path(old(waitingFor), ctxt, th), th)
    {
      ghost var w := waitingFor;
      ClearPath(th, ctxt);
      RedirectPath(th, ctxt, w);
      AllRedirected(w, ctxt, th);
    }
  }

  /** The path is cleared and the threads in done wait for l. */
  function Redirected(w: Waits, P: set<nat>, done: set<nat>, l: nat): Waits {
    (w - P) + (map x | x in done :: l)
  }

  /** Exactly the waiting threads met on the way from u to l wait for l instead; the others wait as before. */
  ghost predicate InBetweenWaitFor(w: Waits, w': Waits, u: nat, l: nat) {
    forall t: nat {:trigger t in w'} ::
      if t in w && t != l && Leads(w, u, t) && Leads(w, t, l) then t in w' && w'[t] == l
      else (t in w' <==> t in w) && (t in w ==> w'[t] == w[t])
  }

  lemma AllRedirected(w: Waits, u: nat, l: nat)
    ensures InBetweenWaitFor(w, Redirected(w, Path(w, u, l), Path(w, u, l), l), u, l)
  {
  }

  lemma NoneRedirected(w: Waits, P: set<nat>, l: nat)
    ensures Redirected(w, P, {}, l) == w - P
  {
    var none: set<nat> := {};
    assert (map x | x in none :: l) == map[];
  }

  lemma OneRedirected(w: Waits, P: set<nat>, done: set<nat>, l: nat, t: nat)
    ensures Redirected(w, P, done + {t}, l) == Redirected(w, P, done, l)[t := l]
  {
  }

  /** The leader's own chain does not meet P. */
  ghost predicate ApartFrom(w: Waits, P: set<nat>, l: nat) {
    forall x | x in P :: !Leads(w, l, x)
  }

  /** Walking the path from u to l: the threads in done have been met, t comes next. */
  ghost predicate Walked(w: Waits, u: nat, l: nat, t: nat, done: set<nat>) {
    && Acyclic(w) && Leads(w, t, l) && done <= w.Keys
    && Path(w, u, l) == done + Path(w, t, l)
    && forall v | v in done :: Before(w, v, t)
  }

  lemma WalkStart(w: Waits, u: nat, l: nat)
    requires Acyclic(w) && Leads(w, u, l)
    ensures Walked(w, u, l, u, {})
  {
  }

  lemma WalkStep(w: Waits, u: nat, l: nat, t: nat, done: set<nat>)
    requires Walked(w, u, l, t, done) && t != l
    ensures t in w && t !in done && t in Path(w, u, l) && Walked(w, u, l, w[t], done + {t})
    ensures |w.Keys - (done + {t})| < |w.Keys - done|
  {
    PathNext(w, t, l);
    forall v | v in done + {t} ensures Before(w, v, w[t]) {
      BeforeNext(w, v, t);
    }
    assert t !in done;
    assert t in w.Keys - done && w.Keys - (done + {t}) <= w.Keys - done - {t};
    SubsetSize(w.Keys - (done + {t}), w.Keys - done - {t});
  }

  lemma WalkEnd(w: Waits, u: nat, l: nat, done: set<nat>)
    requires Walked(w, u, l, l, done)
    ensures done == Path(w, u, l)
  {
    PathNone(w, l);
  }

  lemma PathNext(w: Waits, t: nat, l: nat)
    requires Acyclic(w) && Leads(w, t, l) && t != l
    ensures t in w && Leads(w, w[t], l) && t in Path(w, t, l)
    ensures Path(w, t, l) == {t} + Path(w, w[t], l) && t !in Path(w, w[t], l)
  {
    var n: nat :| Steps(w, t, n) == Some(l);
    assert Steps(w, w[t], n - 1) == Some(l);
    assert Steps(w, t, 0) == Some(t);
    assert Steps(w, t, 1) == Steps(w, w[t], 0);
    forall x: nat | Leads(w, w[t], x) ensures Leads(w, t, x) {
      var m: nat :| Steps(w, w[t], m) == Some(x);
      assert Steps(w, t, m + 1) == Some(x);
    }
    forall x: nat | Leads(w, t, x) && x != t ensures Leads(w, w[t], x) {
      var m: nat :| Steps(w, t, m) == Some(x);
      assert Steps(w, w[t], m - 1) == Some(x);
    }
    forall m: nat ensures Steps(w, w[t], m) != Some(t) {
      assert Steps(w, t, m + 1) == Steps(w, w[t], m);
    }
  }

  lemma PathNone(w: Waits, l: nat)
    requires Acyclic(w)
    ensures Path(w, l, l) == {}
  {
    forall x | x in w && Leads(w, l, x) && Leads(w, x, l) ensures x == l {
      var m: nat :| Steps(w, l, m) == Some(x);
      NotOnPath(w, l, l, x, m);
    }
  }

  lemma LeaderApart(w: Waits, P: set<nat>, u: nat, l: nat)
    requires Acyclic(w) && P == Path(w, u, l)
    ensures Acyclic(w - P) && ApartFrom(w - P, P, l)
  {
    FewerAcyclic(w, w - P);
    forall x, n: nat | x in P ensures Steps(w - P, l, n) != Some(x) {
      if Steps(w - P, l, n).Some? {
        StepsMore(w - P, w, l, n);
        if Steps(w, l, n) == Some(x) {
          NotOnPath(w, u, l, x, n);
        }
      }
    }
  }

  lemma StillApart(w: Waits, P: set<nat>, y: nat, l: nat)
    requires y in P && Acyclic(w) && ApartFrom(w, P, l)
    ensures Acyclic(w[y := l]) && ApartFrom(w[y := l], P, l)
  {
    ClosesCycle(w, y, l);
    forall x | x in P ensures !Leads(w[y := l], l, x) {
      if Leads(w[y := l], l, x) {
        var n: nat :| Steps(w[y := l], l, n) == Some(x);
        var i := AvoidsOrMeets(w, y, l, l, n);
        if i < n {
          var m := FirstMeeting(w, y, l, l, i);
        }
      }
    }
  }
}
