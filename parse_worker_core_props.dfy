/**
 * What the newer `ParseWorker` promises, stated about ParseWorkerCore:
 * how `proc` moves from handler to handler, when it stops, what `stall`
 * and a timeout do, and which child workers `proc_workers_` runs.
 */
module ParseWorkerCoreProps {
  import opened Wrappers
  import opened ParseWorkerCore

  // ---------------------------------------------------------------------
  // The token handler
  // ---------------------------------------------------------------------

  /** The handler after matching each token of `ts` in turn. */
  function MatchAll<T(==)>(h: Handler<T>, ts: seq<T>): Handler<T>
    decreases |ts|
  {
    if ts == [] then h else MatchAll(Match(h, ts[0]).1, ts[1..])
  }

  /** Negating a handler turns every match into a miss and every miss into a match. */
  lemma NegFlips<T>(h: Handler<T>, t: T)
    requires !h.neg
    ensures Match(Neg(h), t).0 <==> !Match(h, t).0
    ensures Match(h, t).0 <==> t in h.tokens
  {
  }

  /**
   * A handler that matches every token of `ts` has counted them all, and
   * is done exactly when the count has reached its tolerance.
   */
  lemma {:induction false} MatchesReachTolerance<T>(h: Handler<T>, ts: seq<T>)
    requires forall i :: 0 <= i < |ts| ==> (ts[i] in h.tokens) != h.neg
    ensures MatchAll(h, ts) == h.(matchCount := h.matchCount + |ts|)
    ensures Done(MatchAll(h, ts)) <==> h.matchCount + |ts| >= h.tolerance
    decreases |ts|
  {
    if ts != [] {
      var h1 := Match(h, ts[0]).1;
      assert h1 == h.(matchCount := h.matchCount + 1);
      assert forall i :: 0 <= i < |ts[1..]| ==> (ts[1..][i] in h1.tokens) != h1.neg by {
        forall i | 0 <= i < |ts[1..]| ensures (ts[1..][i] in h1.tokens) != h1.neg {
          assert ts[1..][i] == ts[i + 1];
        }
      }
      MatchesReachTolerance(h1, ts[1..]);
    }
  }

  /**
   * A handler that misses every token of `ts` has counted them as misses;
   * it times out exactly when a timeout is set and the misses reach it.
   */
  lemma {:induction false} MissesReachTimeout<T>(h: Handler<T>, ts: seq<T>)
    requires forall i :: 0 <= i < |ts| ==> (ts[i] in h.tokens) == h.neg
    ensures MatchAll(h, ts) == h.(nomatchCount := h.nomatchCount + |ts|)
    ensures Time(MatchAll(h, ts)) <==> h.timeout != InfIters && h.nomatchCount + |ts| >= h.timeout
    decreases |ts|
  {
    if ts != [] {
      var h1 := Match(h, ts[0]).1;
      assert h1 == h.(nomatchCount := h.nomatchCount + 1);
      assert forall i :: 0 <= i < |ts[1..]| ==> (ts[1..][i] in h1.tokens) == h1.neg by {
        forall i | 0 <= i < |ts[1..]| ensures (ts[1..][i] in h1.tokens) == h1.neg {
          assert ts[1..][i] == ts[i + 1];
        }
      }
      MissesReachTimeout(h1, ts[1..]);
    }
  }

  /** `handler_at` wraps around: one more round of handlers names the same handler. */
  lemma HandlerAtWraps<T>(w: Worker<T>, i: nat)
    requires |w.handlers| > 0
    ensures HandlerAt(w, i + |w.handlers|) == HandlerAt(w, i)
    ensures i < |w.handlers| ==> HandlerAt(w, i) == w.handlers[i]
  {
    ModAddCount(i, |w.handlers|);
  }

  lemma ModAddCount(i: nat, n: nat)
    requires n > 0
    ensures (i + n) % n == i % n
  {
    assert i == (i / n) * n + i % n;
    assert (i / n + 1) * n == (i / n) * n + n;
    ModUnique(i + n, n, i / n + 1, i % n);
  }

  /** The remainder is the one that division by `n` leaves. */
  lemma ModUnique(a: int, n: int, q: int, r: int)
    requires n > 0 && 0 <= r < n && a == q * n + r
    ensures a % n == r
  {
    var q0, r0 := a / n, a % n;
    var x := q - q0;
    assert x * n == q * n - q0 * n;
    assert x * n == r0 - r;
    if x >= 1 {
      MulAtLeast(x, n);
    } else if x <= -1 {
      MulAtLeast(-x, n);
    }
  }

  lemma MulAtLeast(x: int, n: int)
    requires x >= 1 && n > 0
    ensures x * n >= n
  {
  }

  /** `reset_` zeroes the counters and puts every child back at its first handler with no pass counted. */
  lemma ResetHandlerResetsChildren<T>(h: Handler<T>)
    ensures var r := ResetHandler(h);
      r.matchCount == 0 && r.nomatchCount == 0 && !Done(r) == (r.tolerance > 0) &&
      forall i :: 0 <= i < |r.workers| ==>
        r.workers[i].index == 0 && r.workers[i].itered == 0 && |r.workers[i].handlers| == |h.workers[i].handlers|
  {
  }

  /** `rewind` resets the current handler only, and leaves the worker at the first handler. */
  lemma RewindResetsCurrent<T>(w: Worker<T>)
    requires |w.handlers| > 0
    ensures var r := Rewind(w); var k := w.index % |w.handlers|;
      r.index == 0 && r.itered == w.itered && !Working(r) == (w.workingAt > 0 || Finished(w)) &&
      r.handlers[k] == ResetHandler(w.handlers[k]) &&
      forall p :: 0 <= p < |w.handlers| && p != k ==> r.handlers[p] == w.handlers[p]
  {
  }

  /** A restart finishes the worker exactly when a limit is set and this pass reaches it. */
  lemma RestartFinishes<T>(w: Worker<T>)
    ensures Finished(Restart(w)) <==> w.iters != InfIters && w.itered + 1 >= w.iters
    ensures Restart(w).index == 0 && Restart(w).itered == w.itered + 1
  {
  }

  // ---------------------------------------------------------------------
  // proc
  // ---------------------------------------------------------------------

  /** A finished worker does nothing and does not block. */
  lemma ProcFinished<T>(d: nat, w: Worker<T>, t: T)
    requires Finished(w)
    ensures Proc(d, w, t) == (false, w)
  {
  }

  /** One call of `proc` on a running worker whose index is in range, step by step. */
  lemma ProcSteps<T>(d: nat, w: Worker<T>, t: T)
    requires !Finished(w) && w.index < |w.handlers|
    ensures var (b, h1) := ProcWorkers(d, w.handlers[w.index], t);
      var (m, h2) := Match(h1, t);
      var w2 := w.(handlers := w.handlers[w.index := h2]);
      Proc(d, w, t) ==
        if b then (true, w.(handlers := w.handlers[w.index := h1]))
        else if m then (w.blocker, (if Done(h2) && !w.stalling then Advance(w2) else w2).(stalling := false))
        else if Time(h2) then (false, Restart(w2))
        else (false, w2)
  {
    var (b, h1) := ProcWorkers(d, w.handlers[w.index], t);
    var (m, h2) := Match(h1, t);
    assert w.index % |w.handlers| == w.index;
    assert w.handlers[w.index := h1][w.index := h2] == w.handlers[w.index := h2];
  }

  /** Completing a handler short of the last one: it is reset and the next one is handled. */
  lemma AdvanceSteps<T>(w: Worker<T>)
    requires w.index + 1 < |w.handlers|
    ensures Advance(w) == w.(handlers := w.handlers[w.index := ResetHandler(w.handlers[w.index])], index := w.index + 1)
  {
    assert w.index % |w.handlers| == w.index;
  }

  /** Completing the last handler: one more pass is counted and the first handler is handled. */
  lemma AdvanceWraps<T>(w: Worker<T>)
    requires w.index + 1 == |w.handlers|
    ensures Advance(w).index == 0 && Advance(w).itered == w.itered + 1
  {
    assert w.index % |w.handlers| == w.index;
  }

  /** The handler index stays within the handlers, and each call counts at most one pass. */
  lemma ProcInRange<T>(d: nat, w: Worker<T>, t: T)
    requires w.index < |w.handlers|
    ensures var r := Proc(d, w, t).1;
      r.index < |r.handlers| && w.itered <= r.itered <= w.itered + 1
  {
    if !Finished(w) {
      ProcSteps(d, w, t);
      var (b, h1) := ProcWorkers(d, w.handlers[w.index], t);
      var (m, h2) := Match(h1, t);
      var w2 := w.(handlers := w.handlers[w.index := h2]);
      if w.index + 1 < |w.handlers| {
        AdvanceSteps(w2);
      } else {
        AdvanceWraps(w2);
      }
    }
  }

  /** Blocking children: `proc` answers true and the handler stays where it is. */
  lemma ProcBlocked<T>(d: nat, w: Worker<T>, t: T)
    requires !Finished(w) && w.index < |w.handlers|
    requires ProcWorkers(d, w.handlers[w.index], t).0
    ensures var r := Proc(d, w, t);
      r.0 && r.1 == w.(handlers := w.handlers[w.index := ProcWorkers(d, w.handlers[w.index], t).1])
  {
    ProcSteps(d, w, t);
  }

  /**
   * A match that completes the current handler, with no stall pending:
   * the answer is `blocker_`, the handler is reset and the index moves on; past
   * the last handler one more pass is counted and the worker is back at the
   * first handler.
   */
  lemma ProcCompletes<T>(d: nat, w: Worker<T>, t: T)
    requires !Finished(w) && w.index < |w.handlers| && !w.stalling
    requires var (b, h1) := ProcWorkers(d, w.handlers[w.index], t);
      !b && Match(h1, t).0 && Done(Match(h1, t).1)
    ensures var r := Proc(d, w, t); var h1 := ProcWorkers(d, w.handlers[w.index], t).1;
      r.0 == w.blocker && !r.1.stalling &&
      (w.index + 1 < |w.handlers| ==>
        r.1 == w.(handlers := w.handlers[w.index := ResetHandler(Match(h1, t).1)], index := w.index + 1)) &&
      (w.index + 1 == |w.handlers| ==> r.1.index == 0 && r.1.itered == w.itered + 1)
  {
    ProcSteps(d, w, t);
    var h1 := ProcWorkers(d, w.handlers[w.index], t).1;
    var h2 := Match(h1, t).1;
    var w2 := w.(handlers := w.handlers[w.index := h2]);
    if w.index + 1 < |w.handlers| {
      AdvanceSteps(w2);
      assert w2.handlers[w.index := ResetHandler(h2)] == w.handlers[w.index := ResetHandler(h2)];
    } else {
      AdvanceWraps(w2);
    }
  }

  /**
   * A pending stall holds the worker at its handler for one match: the
   * match is counted, the index does not move, and the stall is used up.
   */
  lemma ProcStalled<T>(d: nat, w: Worker<T>, t: T)
    requires !Finished(w) && w.index < |w.handlers| && w.stalling
    requires var (b, h1) := ProcWorkers(d, w.handlers[w.index], t); !b && Match(h1, t).0
    ensures var r := Proc(d, w, t); var h1 := ProcWorkers(d, w.handlers[w.index], t).1;
      r.0 == w.blocker &&
      r.1 == w.(handlers := w.handlers[w.index := Match(h1, t).1], stalling := false)
  {
    ProcSteps(d, w, t);
  }

  /** A stall set on a running worker is used up by the next match, which does not move the index. */
  lemma StallLastsOneMatch<T>(d: nat, w: Worker<T>, t: T)
    requires !Finished(w) && w.index < |w.handlers|
    requires var (b, h1) := ProcWorkers(d, w.handlers[w.index], t); !b && Match(h1, t).0
    ensures Proc(d, Stall(w), t).1.index == w.index
    ensures !Proc(d, Stall(w), t).1.stalling && !Proc(d, w, t).1.stalling
  {
    ProcStalled(d, Stall(w), t);
    ProcSteps(d, w, t);
  }

  /** A miss after the timeout has run out restarts the worker; any other miss only counts it. */
  lemma ProcMisses<T>(d: nat, w: Worker<T>, t: T)
    requires !Finished(w) && w.index < |w.handlers|
    requires var (b, h1) := ProcWorkers(d, w.handlers[w.index], t); !b && !Match(h1, t).0
    ensures var r := Proc(d, w, t); var h2 := Match(ProcWorkers(d, w.handlers[w.index], t).1, t).1;
      !r.0 &&
      (Time(h2) ==> r.1 == Restart(w.(handlers := w.handlers[w.index := h2]))) &&
      (!Time(h2) ==> r.1 == w.(handlers := w.handlers[w.index := h2]))
  {
    ProcSteps(d, w, t);
  }

  // ---------------------------------------------------------------------
  // proc_workers_
  // ---------------------------------------------------------------------

  /** While the working child keeps working, it is the only child that runs. */
  lemma WorkingChildAlone<T>(d: nat, h: Handler<T>, t: T)
    requires 0 < d && h.working.Some? && h.working.value < |h.workers|
    requires Working(Proc(d - 1, h.workers[h.working.value], t).1)
    ensures var j := h.working.value; var (b, c) := Proc(d - 1, h.workers[j], t);
      ProcWorkers(d, h, t) == (b, h.(workers := h.workers[j := c]))
  {
  }

  /**
   * When the working child stops working, every child rewinds, the pointer
   * is cleared, and the children run in order from the first.
   */
  lemma WorkingChildStops<T>(d: nat, h: Handler<T>, t: T)
    requires 0 < d && h.working.Some? && h.working.value < |h.workers|
    requires !Working(Proc(d - 1, h.workers[h.working.value], t).1)
    ensures var j := h.working.value; var (b, c) := Proc(d - 1, h.workers[j], t);
      ProcWorkers(d, h, t) == ScanFrom(d, h.(workers := RewindAll(h.workers[j := c]), working := None), 0, t, b)
  {
  }

  /** With no working child, the children run in order from the first. */
  lemma NoWorkingChild<T>(d: nat, h: Handler<T>, t: T)
    requires 0 < d && h.working.None?
    ensures ProcWorkers(d, h, t) == ScanFrom(d, h, 0, t, false)
  {
  }

  /** The position of the first child from `i` on that runs into working, or the child count. */
  function FirstWorking<T(==)>(d: nat, ws: seq<Worker<T>>, i: nat, t: T): (m: nat)
    requires 0 < d && i <= |ws|
    ensures i <= m <= |ws|
    ensures forall p :: i <= p < m ==> !Working(Proc(d - 1, ws[p], t).1)
    ensures m < |ws| ==> Working(Proc(d - 1, ws[m], t).1)
    decreases |ws| - i
  {
    if i == |ws| || Working(Proc(d - 1, ws[i], t).1) then i else FirstWorking(d, ws, i + 1, t)
  }

  /** Whether some child in positions `i` to `j` (exclusive) blocks. */
  predicate AnyBlocks<T(==)>(d: nat, ws: seq<Worker<T>>, i: nat, j: nat, t: T)
    requires 0 < d && i <= j <= |ws|
  {
    exists p :: i <= p < j && Proc(d - 1, ws[p], t).0
  }

  /** One turn of the scan loop. */
  lemma ScanStep<T>(d: nat, h: Handler<T>, i: nat, t: T, blocked: bool)
    requires 0 < d && i < |h.workers|
    ensures var (b, c) := Proc(d - 1, h.workers[i], t); var h1 := h.(workers := h.workers[i := c]);
      ScanFrom(d, h, i, t, blocked) ==
        if Working(c) then (b || blocked, h1.(working := Some(i))) else ScanFrom(d, h1, i + 1, t, b || blocked)
  {
  }

  /** The number of children the scan from `i` runs: up to and including the first left working. */
  function Ran<T(==)>(d: nat, ws: seq<Worker<T>>, i: nat, t: T): (n: nat)
    requires 0 < d && i <= |ws|
    ensures i <= n <= |ws|
  {
    var m := FirstWorking(d, ws, i, t);
    if m < |ws| then m + 1 else m
  }

  /** The scan points at the first child from `i` on that is left working, and leaves the pointer alone when there is none. */
  lemma {:induction false} ScanPoints<T>(d: nat, h: Handler<T>, i: nat, t: T, blocked: bool)
    requires 0 < d && i <= |h.workers|
    ensures var r := ScanFrom(d, h, i, t, blocked); var m := FirstWorking(d, h.workers, i, t);
      (m < |h.workers| ==> r.1.working == Some(m)) && (m == |h.workers| ==> r.1.working == h.working)
    decreases |h.workers| - i
  {
    if i < |h.workers| {
      ScanStep(d, h, i, t, blocked);
      var (b, c) := Proc(d - 1, h.workers[i], t);
      if !Working(c) {
        var h1 := h.(workers := h.workers[i := c]);
        ScanPoints(d, h1, i + 1, t, b || blocked);
        FirstWorkingUnchanged(d, h.workers, c, i, t);
      }
    }
  }

  /** The scan runs the children from `i` up to and including the first left working, and only those. */
  lemma {:induction false} ScanRuns<T>(d: nat, h: Handler<T>, i: nat, t: T, blocked: bool)
    requires 0 < d && i <= |h.workers|
    ensures var r := ScanFrom(d, h, i, t, blocked); var ran := Ran(d, h.workers, i, t);
      (forall p :: 0 <= p < |h.workers| && (p < i || ran <= p) ==> r.1.workers[p] == h.workers[p]) &&
      (forall p :: i <= p < ran ==> r.1.workers[p] == Proc(d - 1, h.workers[p], t).1)
    decreases |h.workers| - i
  {
    if i < |h.workers| {
      ScanStep(d, h, i, t, blocked);
      var (b, c) := Proc(d - 1, h.workers[i], t);
      if !Working(c) {
        var h1 := h.(workers := h.workers[i := c]);
        ScanRuns(d, h1, i + 1, t, b || blocked);
        FirstWorkingUnchanged(d, h.workers, c, i, t);
        assert Ran(d, h1.workers, i + 1, t) == Ran(d, h.workers, i, t);
      }
    }
  }

  /** The scan answers true when a child it ran blocked, or when the loop had already blocked. */
  lemma {:induction false} ScanBlocks<T>(d: nat, h: Handler<T>, i: nat, t: T, blocked: bool)
    requires 0 < d && i <= |h.workers|
    ensures ScanFrom(d, h, i, t, blocked).0 <==> blocked || AnyBlocks(d, h.workers, i, Ran(d, h.workers, i, t), t)
    decreases |h.workers| - i
  {
    if i < |h.workers| {
      ScanStep(d, h, i, t, blocked);
      var (b, c) := Proc(d - 1, h.workers[i], t);
      var h1 := h.(workers := h.workers[i := c]);
      if !Working(c) {
        ScanBlocks(d, h1, i + 1, t, b || blocked);
        FirstWorkingUnchanged(d, h.workers, c, i, t);
        var ran := Ran(d, h.workers, i, t);
        assert Ran(d, h1.workers, i + 1, t) == ran;
        AnyBlocksUpdate(d, h.workers, c, i, ran, t);
      } else {
        assert FirstWorking(d, h.workers, i, t) == i;
        AnyBlocksUpdate(d, h.workers, c, i, i + 1, t);
      }
    }
  }

  /** Running the child at `i` does not move where the scan from `i + 1` stops. */
  lemma {:induction false} FirstWorkingUnchanged<T>(d: nat, ws: seq<Worker<T>>, c: Worker<T>, i: nat, t: T)
    requires 0 < d && i < |ws| && !Working(Proc(d - 1, ws[i], t).1)
    ensures FirstWorking(d, ws[i := c], i + 1, t) == FirstWorking(d, ws, i + 1, t)
    ensures FirstWorking(d, ws, i, t) == FirstWorking(d, ws, i + 1, t)
  {
    FirstWorkingFrom(d, ws, c, i, i + 1, t);
  }

  lemma {:induction false} FirstWorkingFrom<T>(d: nat, ws: seq<Worker<T>>, c: Worker<T>, i: nat, j: nat, t: T)
    requires 0 < d && i < j <= |ws|
    ensures FirstWorking(d, ws[i := c], j, t) == FirstWorking(d, ws, j, t)
    decreases |ws| - j
  {
    if j < |ws| {
      assert ws[i := c][j] == ws[j];
      if !Working(Proc(d - 1, ws[j], t).1) {
        FirstWorkingFrom(d, ws, c, i, j + 1, t);
      }
    }
  }

  /** Whether a child from `i + 1` on blocks does not depend on what sits at `i`; with it, child `i` counts too. */
  lemma AnyBlocksUpdate<T>(d: nat, ws: seq<Worker<T>>, c: Worker<T>, i: nat, j: nat, t: T)
    requires 0 < d && i < j <= |ws|
    ensures AnyBlocks(d, ws[i := c], i + 1, j, t) <==> AnyBlocks(d, ws, i + 1, j, t)
    ensures AnyBlocks(d, ws, i, j, t) <==> Proc(d - 1, ws[i], t).0 || AnyBlocks(d, ws, i + 1, j, t)
  {
    if AnyBlocks(d, ws[i := c], i + 1, j, t) {
      var p :| i + 1 <= p < j && Proc(d - 1, ws[i := c][p], t).0;
      assert ws[p] == ws[i := c][p];
    }
    if AnyBlocks(d, ws, i + 1, j, t) {
      var p :| i + 1 <= p < j && Proc(d - 1, ws[p], t).0;
      assert ws[p] == ws[i := c][p];
    }
  }
}
