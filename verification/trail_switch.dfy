/** Resuming a frozen environment: what the trail walk does to the cells, and the reversal of
    parent links on the way. */
module TrailSwitch {
  import opened Sequences
  import opened TrailSpec
  import opened TrailEnv

  /** The cells after untrailing to the common frame c and doing the frames of the mark again. */
  function Resumed(mem: Mem, bottom: nat, e: Env, m: Mark, c: nat): Cells
    requires LinkedTo(mem, e.tr, bottom) && LinkedTo(mem, m.env.tr, bottom) && bottom <= c
  {
    Redone(mem, m.env.tr, c, bottom, Untrailed(mem, e.tr, c, bottom, e.cells))
  }

  lemma MarkFrames(mem: Mem, bottom: nat, m: Mark)
    requires MarkOk(mem, bottom, m)
    ensures FramesIn(mem, m.env.tr, bottom, m.frozen) && Right(mem, m.env.tr, bottom, m.frozen, m.env.cells)
    ensures Conditionals(m.env, m.frozen) == m.frozen && LinkedTo(mem, m.env.tr, bottom)
  {
    assert Conditionals(m.env, m.frozen) == m.frozen;
  }

  /** The frozen cells have their values again, and untrailing leads back to the common frame's cells. */
  lemma ResumedCells(mem: Mem, bottom: nat, e: Env, m: Mark, c: nat)
    requires MarkOk(mem, bottom, m) && Meets(mem, bottom, e.tr, e.cells, m)
    requires bottom <= c && OnChain(mem, e.tr, c) && OnChain(mem, m.env.tr, c)
    ensures LinkedTo(mem, e.tr, bottom) && LinkedTo(mem, m.env.tr, bottom)
    ensures AgreeOn(m.frozen, Resumed(mem, bottom, e, m, c), m.env.cells)
    ensures Untrailed(mem, m.env.tr, c, bottom, Resumed(mem, bottom, e, m, c)) ==
            Untrailed(mem, e.tr, c, bottom, e.cells)
  {
    MarkFrames(mem, bottom, m);
    assert MeetsAt(mem, bottom, e.tr, e.cells, m, c);
    UntrailRedone(mem, m.env.tr, c, bottom, m.frozen, m.env.cells, Untrailed(mem, e.tr, c, bottom, e.cells));
  }

  lemma EnvResumed(mem: Mem, bottom: nat, m: Mark, cells: Cells, F: iset<nat>)
    requires MarkOk(mem, bottom, m) && AgreeOn(m.frozen, cells, m.env.cells) && m.frozen <= F
    ensures EnvOk(mem, bottom, m.env.(cells := cells), F)
  {
    MarkFrames(mem, bottom, m);
    EnvAgree(mem, bottom, m.env, cells, m.frozen);
    EnvMore(mem, bottom, m.env.(cells := cells), m.frozen, F);
  }

  /** Below the common frame nothing has changed. */
  lemma MeetsLow(mem: Mem, bottom: nat, e: Env, m: Mark, c: nat, cells: Cells, n: Mark, d: nat)
    requires Meets(mem, bottom, e.tr, e.cells, n) && LinkedTo(mem, m.env.tr, bottom)
    requires bottom <= d <= c && OnChain(mem, e.tr, c) && OnChain(mem, m.env.tr, c)
    requires Untrailed(mem, m.env.tr, c, bottom, cells) == Untrailed(mem, e.tr, c, bottom, e.cells)
    requires OnChain(mem, m.env.tr, d) && OnChain(mem, n.env.tr, d)
    ensures MeetsAt(mem, bottom, m.env.tr, cells, n, d)
  {
    ChainPart(mem, m.env.tr, c, d);
    ChainTrans(mem, e.tr, c, d);
    UntrailTwice(mem, m.env.tr, c, d, bottom, cells);
    UntrailTwice(mem, e.tr, c, d, bottom, e.cells);
    assert MeetsAt(mem, bottom, e.tr, e.cells, n, d);
  }

  /** Above it, for a mark not made after m: all its frozen cells were restored. */
  lemma MeetsEarlier(mem: Mem, bottom: nat, m: Mark, cells: Cells, n: Mark, d: nat)
    requires Meets(mem, bottom, m.env.tr, m.env.cells, n) && AgreeOn(m.frozen, cells, m.env.cells)
             && n.frozen <= m.frozen
    requires bottom <= d && OnChain(mem, m.env.tr, d) && OnChain(mem, n.env.tr, d)
    ensures MeetsAt(mem, bottom, m.env.tr, cells, n, d)
  {
    assert MeetsAt(mem, bottom, m.env.tr, m.env.cells, n, d);
    AgreeLess(m.frozen, n.frozen, cells, m.env.cells);
    UntrailAgree(mem, m.env.tr, d, bottom, cells, m.env.cells, n.frozen);
  }

  /** Above it, for a mark made after m: cells frozen only later have no frames on the chain of m. */
  lemma MeetsLater(mem: Mem, bottom: nat, e: Env, m: Mark, c: nat, n: Mark, d: nat)
    requires MarkOk(mem, bottom, m) && Meets(mem, bottom, e.tr, e.cells, m) && Meets(mem, bottom, e.tr, e.cells, n)
    requires Meets(mem, bottom, n.env.tr, n.env.cells, m) && m.frozen <= n.frozen
    requires bottom <= c <= d && OnChain(mem, e.tr, c) && OnChain(mem, m.env.tr, c)
    requires OnChain(mem, m.env.tr, d) && OnChain(mem, n.env.tr, d)
    ensures MeetsAt(mem, bottom, m.env.tr, Resumed(mem, bottom, e, m, c), n, d)
  {
    var x, y := Untrailed(mem, e.tr, c, bottom, e.cells), Resumed(mem, bottom, e, m, c);
    var there := Untrailed(mem, n.env.tr, d, bottom, n.env.cells);
    MarkFrames(mem, bottom, m);
    ResumedCells(mem, bottom, e, m, c);
    // cells frozen with m
    UntrailAgree(mem, m.env.tr, d, bottom, y, m.env.cells, m.frozen);
    assert MeetsAt(mem, bottom, n.env.tr, n.env.cells, m, d);
    // the others
    OthersUntouched(mem, m.env.tr, d, bottom, m.frozen, y);
    OthersUntouched(mem, m.env.tr, c, bottom, m.frozen, x);
    ChainPart(mem, m.env.tr, d, c);
    ChainTrans(mem, n.env.tr, d, c);
    assert MeetsAt(mem, bottom, e.tr, e.cells, n, c);
    UntrailTwice(mem, n.env.tr, d, c, bottom, n.env.cells);
    FramesBelow(mem, m.env.tr, d, bottom, m.frozen);
    OthersUntouched(mem, d, c, bottom, m.frozen, there);
    JoinAgree(m.frozen, n.frozen, Untrailed(mem, m.env.tr, d, bottom, y), y, x, Untrailed(mem, d, c, bottom, there),
        there);
  }

  lemma JoinAgree(K: iset<nat>, L: iset<nat>, a: Cells, y: Cells, x: Cells, b: Cells, there: Cells)
    requires AgreeOn(K, a, there) && AgreeOn(Others(K), a, y) && AgreeOn(Others(K), y, x)
    requires AgreeOn(L, x, b) && AgreeOn(Others(K), b, there)
    ensures AgreeOn(L, a, there)
  {
    assert forall p: nat :: p in K || p in Others(K);
  }

  lemma MeetsResumed(mem: Mem, bottom: nat, e: Env, trf: nat, F: iset<nat>, marks: seq<Mark>, j: nat, c: nat, i: nat)
    requires Sound(mem, bottom, e, trf, F, marks) && j < |marks| && i < |marks|
    requires bottom <= c && OnChain(mem, e.tr, c) && OnChain(mem, marks[j].env.tr, c)
    requires LinkedTo(mem, e.tr, bottom) && LinkedTo(mem, marks[j].env.tr, bottom)
    ensures Meets(mem, bottom, marks[j].env.tr, Resumed(mem, bottom, e, marks[j], c), marks[i])
  {
    hide EnvOk, AgreeOn, FrozenBelow;
    var m, n := marks[j], marks[i];
    assert MarkAt(mem, bottom, e, trf, F, m) && MarkAt(mem, bottom, e, trf, F, n);
    assert i < j ==> Pair(mem, bottom, n, m);
    assert j < i ==> Pair(mem, bottom, m, n);
    ResumedCells(mem, bottom, e, m, c);
    MeetsItself(mem, bottom, m);
    forall d: nat | bottom <= d && OnChain(mem, m.env.tr, d) && OnChain(mem, n.env.tr, d)
      ensures MeetsAt(mem, bottom, m.env.tr, Resumed(mem, bottom, e, m, c), n, d)
    {
      if d <= c {
        MeetsLow(mem, bottom, e, m, c, Resumed(mem, bottom, e, m, c), n, d);
      } else if i <= j {
        MeetsEarlier(mem, bottom, m, Resumed(mem, bottom, e, m, c), n, d);
      } else {
        MeetsLater(mem, bottom, e, m, c, n, d);
      }
    }
  }

  lemma MeetsItself(mem: Mem, bottom: nat, m: Mark)
    requires LinkedTo(mem, m.env.tr, bottom)
    ensures Meets(mem, bottom, m.env.tr, m.env.cells, m)
  {
    forall c: nat | bottom <= c && OnChain(mem, m.env.tr, c) ensures MeetsAt(mem, bottom, m.env.tr, m.env.cells, m, c) {
    }
  }

  /** The frozen environment is restored, and everything is kept. */
  lemma SoundResumed(mem: Mem, bottom: nat, e: Env, trf: nat, F: iset<nat>, marks: seq<Mark>, j: nat, c: nat)
    requires Sound(mem, bottom, e, trf, F, marks) && j < |marks|
    requires bottom <= c && OnChain(mem, e.tr, c) && OnChain(mem, marks[j].env.tr, c)
    requires LinkedTo(mem, e.tr, bottom) && LinkedTo(mem, marks[j].env.tr, bottom)
    ensures AgreeOn(marks[j].frozen, Resumed(mem, bottom, e, marks[j], c), marks[j].env.cells)
    ensures Sound(mem, bottom, marks[j].env.(cells := Resumed(mem, bottom, e, marks[j], c)), trf, F, marks)
  {
    hide EnvOk, MarkOk, Meets, AgreeOn, Resumed;
    var m, cells := marks[j], Resumed(mem, bottom, e, marks[j], c);
    assert MarkAt(mem, bottom, e, trf, F, m);
    ResumedCells(mem, bottom, e, m, c);
    EnvResumed(mem, bottom, m, cells, F);
    MarkFrames(mem, bottom, m);
    forall q: nat | bottom <= q <= trf && OnChain(mem, m.env.tr, q)
        ensures LinkedTo(mem, q, bottom) && FramesIn(mem, q, bottom, F)
    {
      FramesOnChain(mem, m.env.tr, bottom, m.frozen, F, q);
    }
    forall i: nat | i < |marks| ensures MarkAt(mem, bottom, m.env.(cells := cells), trf, F, marks[i]) {
      assert MarkAt(mem, bottom, e, trf, F, marks[i]);
      MeetsResumed(mem, bottom, e, trf, F, marks, j, c, i);
    }
  }

  // ------------------------------------------------------------------
  // Reversed links.

  /** From the first frame, parents lead through the path. */
  ghost predicate PathDown(mem: Mem, path: seq<nat>, bottom: nat) {
    && path != [] && LinkedTo(mem, path[0], bottom)
    && forall i: nat | i + 1 < |path| :: StepDown(mem, bottom, path, i)
  }

  ghost predicate StepDown(mem: Mem, bottom: nat, path: seq<nat>, i: nat)
    requires i + 1 < |path|
  {
    bottom < path[i] && FrameAt(mem, path[i]) && path[i + 1] == mem[path[i]].parent && path[i + 1] < path[i]
  }

  /** The frames of the path from the second one up to before the n-th lead to the one above; all
      other words are as in mem0. */
  ghost predicate Reversed(mem0: Mem, mem: Mem, path: seq<nat>, n: nat) {
    && n <= |path|
    && (forall i: nat | 1 <= i < n :: UpLink(mem, path, i))
    && (forall a: nat | a !in path[..n] || a == path[0] :: SameWord(mem0, mem, a))
  }

  ghost predicate UpLink(mem: Mem, path: seq<nat>, i: nat)
    requires 1 <= i < |path|
  {
    path[i] in mem && mem[path[i]] == Parent(path[i - 1])
  }

  ghost predicate SameWord(mem0: Mem, mem: Mem, a: nat) {
    (a in mem <==> a in mem0) && (a in mem ==> mem[a] == mem0[a])
  }

  lemma {:induction false} PathDecreasing(mem: Mem, path: seq<nat>, bottom: nat, i: nat, j: nat)
    requires PathDown(mem, path, bottom) && i < j < |path|
    ensures path[j] < path[i]
    decreases j
  {
    assert StepDown(mem, bottom, path, j - 1);
    if i < j - 1 {
      PathDecreasing(mem, path, bottom, i, j - 1);
    }
  }

  lemma {:induction false} PathLinked(mem: Mem, path: seq<nat>, bottom: nat, i: nat)
    requires PathDown(mem, path, bottom) && i < |path|
    ensures LinkedTo(mem, path[i], bottom) && OnChain(mem, path[0], path[i]) && bottom <= path[i]
  {
    if i > 0 {
      PathLinked(mem, path, bottom, i - 1);
      assert StepDown(mem, bottom, path, i - 1);
      ChainAtLeast(mem, path[i - 1], bottom);
      ChainAtLeast(mem, path[i], bottom);
      ChainTrans(mem, path[0], path[i - 1], path[i]);
    } else {
      ChainAtLeast(mem, path[0], bottom);
    }
  }

  /** Frames of the path and the bottom are parent words. */
  lemma PathParents(mem: Mem, path: seq<nat>, bottom: nat, i: nat)
    requires PathDown(mem, path, bottom) && i < |path| && bottom in mem && mem[bottom].Parent?
    ensures path[i] in mem && mem[path[i]] == Parent(ParentOf(mem, path[i]))
  {
    PathLinked(mem, path, bottom, i);
  }

  /** The words of a frame that is not on the reversed part of the path, and values and variables of
      any frame, are as before. */
  lemma FrameUntouched(mem0: Mem, mem: Mem, path: seq<nat>, bottom: nat, n: nat, t: nat)
    requires PathDown(mem0, path, bottom) && Reversed(mem0, mem, path, n) && bottom in mem0 && mem0[bottom].Parent?
    requires FrameAt(mem0, t)
    ensures SameWord(mem0, mem, t - 1) && SameWord(mem0, mem, t - 2)
    ensures mem0[t - 2].marked ==> SameWord(mem0, mem, t - 3)
    ensures t !in path[..n] || t == path[0] ==> FrameAt(mem, t) && mem[t] == mem0[t]
    ensures t !in path[..n] || t == path[0] ==> forall c: Cells :: Undo(mem, t, c) == Undo(mem0, t, c)
  {
    forall i: nat | i < |path| ensures path[i] in mem0 && mem0[path[i]].Parent? {
      PathParents(mem0, path, bottom, i);
    }
    assert t - 1 !in path[..n] && t - 2 !in path[..n];
    assert mem0[t - 2].marked ==> t - 3 !in path[..n];
  }

  /** One more link is turned around. */
  lemma ReverseOne(mem0: Mem, mem: Mem, path: seq<nat>, bottom: nat)
    requires PathDown(mem0, path, bottom) && Reversed(mem0, mem, path, |path|) && path[|path| - 1] != bottom
    ensures var end := path[|path| - 1];
            var next := ParentOf(mem0, end);
            && PathDown(mem0, path + [next], bottom)
                && Reversed(mem0, mem[next := Parent(end)], path + [next], |path| + 1)
            && next < end && bottom <= next && ParentOf(mem, next) == ParentOf(mem0, next)
                && OnChain(mem0, path[0], next)
  {
    var n := |path|;
    var end := path[n - 1];
    PathLinked(mem0, path, bottom, n - 1);
    var next := mem0[end].parent;
    var path', mem' := path + [next], mem[next := Parent(end)];
    forall i: nat | i + 1 < |path'| ensures StepDown(mem0, bottom, path', i) {
      if i + 1 < n {
        assert StepDown(mem0, bottom, path, i);
      }
    }
    PathLinked(mem0, path', bottom, n);
    forall i: nat | i < n ensures next < path[i] {
      PathDecreasing(mem0, path', bottom, i, n);
    }
    assert next !in path[..n];
    assert SameWord(mem0, mem, next);
    forall i: nat | 1 <= i < n + 1 ensures UpLink(mem', path', i) {
      assert i < n ==> UpLink(mem, path, i);
    }
    forall a: nat | a !in path'[..n + 1] || a == path'[0] ensures SameWord(mem0, mem', a) {
      assert path'[..n + 1] == path[..n] + [next];
      assert SameWord(mem0, mem, a);
    }
  }

  /** The last turned link is turned back. */
  lemma RestoreOne(mem0: Mem, mem: Mem, path: seq<nat>, bottom: nat, n: nat)
    requires PathDown(mem0, path, bottom) && Reversed(mem0, mem, path, n + 1) && n < |path|
    requires bottom in mem0 && mem0[bottom].Parent?
    ensures Reversed(mem0, mem[path[n] := Parent(ParentOf(mem0, path[n]))], path, n)
    ensures n > 0 ==> ParentOf(mem, path[n]) == path[n - 1]
    ensures n == 0 ==> ParentOf(mem, path[n]) == ParentOf(mem0, path[n])
  {
    PathParents(mem0, path, bottom, n);
    var mem' := mem[path[n] := Parent(ParentOf(mem0, path[n]))];
    forall i: nat | i < n ensures path[n] < path[i] {
      PathDecreasing(mem0, path, bottom, i, n);
    }
    forall i: nat | 1 <= i < n ensures UpLink(mem', path, i) {
      assert UpLink(mem, path, i);
    }
    assert path[..n + 1] == path[..n] + [path[n]];
    forall a: nat | a !in path[..n] || a == path[0] ensures SameWord(mem0, mem', a) {
      assert a != path[n] ==> SameWord(mem0, mem, a);
    }
    if n > 0 {
      assert UpLink(mem, path, n);
    } else {
      assert SameWord(mem0, mem, path[0]);
    }
  }

  lemma NothingReversed(mem0: Mem, mem: Mem, path: seq<nat>)
    requires Reversed(mem0, mem, path, 0)
    ensures mem == mem0
  {
    forall a: nat ensures (a in mem <==> a in mem0) && (a in mem ==> mem[a] == mem0[a]) {
      assert SameWord(mem0, mem, a);
    }
  }

  /** Walking down: the old chain is untrailed to start, the path from the target is turned around to its end. */
  ghost predicate Descending(mem0: Mem, bottom: nat, e: Env, mem: Mem, cells: Cells, start: nat, path: seq<nat>) {
    && LinkedTo(mem0, e.tr, bottom) && bottom in mem0 && mem0[bottom] == Parent(bottom)
    && PathDown(mem0, path, bottom) && Reversed(mem0, mem, path, |path|)
    && OnChain(mem0, e.tr, start) && LinkedTo(mem0, start, bottom) && bottom <= start
    && cells == Untrailed(mem0, e.tr, start, bottom, e.cells)
    && forall i: nat | i + 1 < |path| :: start < path[i]
  }

  lemma DescendStart(mem0: Mem, bottom: nat, e: Env, target: nat)
    requires LinkedTo(mem0, e.tr, bottom) && LinkedTo(mem0, target, bottom)
    requires bottom in mem0 && mem0[bottom] == Parent(bottom)
    ensures Descending(mem0, bottom, e, mem0, e.cells, e.tr, [target])
  {
    ChainAtLeast(mem0, e.tr, bottom);
  }

  /** One frame of the old chain is untrailed. */
  lemma DescendUndo(mem0: Mem, bottom: nat, e: Env, mem: Mem, cells: Cells, start: nat, path: seq<nat>)
    requires Descending(mem0, bottom, e, mem, cells, start, path) && start > path[|path| - 1]
    ensures FrameAt(mem, start) && ParentOf(mem, start) < start
    ensures Descending(mem0, bottom, e, mem, Undo(mem, start, cells), ParentOf(mem, start), path)
  {
    var n := |path|;
    PathLinked(mem0, path, bottom, n - 1);
    assert start !in path;
    FrameUntouched(mem0, mem, path, bottom, n, start);
    var next := mem0[start].parent;
    ChainAtLeast(mem0, next, bottom);
    assert OnChain(mem0, start, next);
    ChainTrans(mem0, e.tr, start, next);
    UntrailTwice(mem0, e.tr, start, next, bottom, e.cells);
    assert Untrailed(mem0, start, next, bottom, cells) == Undo(mem0, start, cells);
  }

  /** One link of the path is turned around. */
  lemma DescendReverse(mem0: Mem, bottom: nat, e: Env, mem: Mem, cells: Cells, start: nat, path: seq<nat>)
    requires Descending(mem0, bottom, e, mem, cells, start, path) && start < path[|path| - 1]
    ensures var end := path[|path| - 1];
            var next := ParentOf(mem0, end);
            && next < end && ParentOf(mem, next) == ParentOf(mem0, next)
            && Descending(mem0, bottom, e, mem[next := Parent(end)], cells, start, path + [next])
  {
    ReverseOne(mem0, mem, path, bottom);
  }

  /** Walking up again: the frames up to the k-th of the path are done, and their links are as before. */
  ghost predicate Ascending(mem0: Mem, bottom: nat, e: Env, c: nat, mem: Mem, cells: Cells, path: seq<nat>, k: nat) {
    && LinkedTo(mem0, e.tr, bottom) && bottom in mem0 && mem0[bottom] == Parent(bottom)
    && PathDown(mem0, path, bottom) && k < |path| && Reversed(mem0, mem, path, k)
    && OnChain(mem0, e.tr, c) && OnChain(mem0, path[0], c) && bottom <= c && LinkedTo(mem0, path[k], bottom)
    && cells == Redone(mem0, path[k], c, bottom, Untrailed(mem0, e.tr, c, bottom, e.cells))
  }

  /** At the common frame. */
  lemma AscendStart(mem0: Mem, bottom: nat, e: Env, mem: Mem, cells: Cells, path: seq<nat>)
    requires path != [] && Descending(mem0, bottom, e, mem, cells, path[|path| - 1], path)
    ensures var k := |path| - 1;
            && Ascending(mem0, bottom, e, path[k], mem[path[k] := Parent(ParentOf(mem0, path[k]))], cells, path, k)
            && (k > 0 ==> ParentOf(mem, path[k]) == path[k - 1])
  {
    PathLinked(mem0, path, bottom, |path| - 1);
    RestoreOne(mem0, mem, path, bottom, |path| - 1);
  }

  /** The next frame is done again and its link turned back. */
  lemma AscendOne(mem0: Mem, bottom: nat, e: Env, c: nat, mem: Mem, cells: Cells, path: seq<nat>, k: nat)
    requires Ascending(mem0, bottom, e, c, mem, cells, path, k) && k > 0 && c <= path[k]
    ensures var t := path[k - 1];
            && path[k] < t && t >= 2 && t - 2 in mem && mem[t - 2].Variable? && t - 1 in mem && mem[t - 1].NewValue?
            && Ascending(mem0, bottom, e, c, mem[t := Parent(path[k])], cells[mem[t - 2].addr := mem[t - 1].value],
                path, k - 1)
            && (k > 1 ==> ParentOf(mem, t) == path[k - 2])
  {
    var t := path[k - 1];
    assert StepDown(mem0, bottom, path, k - 1);
    FrameUntouched(mem0, mem, path, bottom, k, t);
    PathLinked(mem0, path, bottom, k - 1);
    RestoreOne(mem0, mem, path, bottom, k - 1);
  }

  /** The cells after untrailing to a common frame c and doing the frames of target again. */
  ghost predicate Arrived(mem: Mem, bottom: nat, e: Env, target: nat, c: nat, cells: Cells) {
    && LinkedTo(mem, e.tr, bottom) && LinkedTo(mem, target, bottom)
    && bottom <= c && OnChain(mem, e.tr, c) && OnChain(mem, target, c)
    && cells == Redone(mem, target, c, bottom, Untrailed(mem, e.tr, c, bottom, e.cells))
  }

  lemma NoWay(mem: Mem, bottom: nat, e: Env)
    requires LinkedTo(mem, e.tr, bottom)
    ensures Arrived(mem, bottom, e, e.tr, e.tr, e.cells)
  {
    ChainAtLeast(mem, e.tr, bottom);
  }

  /** At the target: no word has changed. */
  lemma AscendEnd(mem0: Mem, bottom: nat, e: Env, c: nat, mem: Mem, cells: Cells, path: seq<nat>, k: nat)
    requires Ascending(mem0, bottom, e, c, mem, cells, path, k) && path[k] >= path[0]
    ensures mem == mem0 && Arrived(mem, bottom, e, path[0], c, cells)
  {
    if k > 0 {
      PathDecreasing(mem0, path, bottom, 0, k);
    }
    NothingReversed(mem0, mem, path);
  }
}
