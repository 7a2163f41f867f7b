/**
 * The newer `ParseWorker` (src/core/parse/core/parse_worker.hpp): a
 * worker holds an ordered list of token handlers and handles one of them
 * at a time; each handler holds the set of tokens it waits for and a list
 * of child workers that process tokens while it waits.
 *
 * The model works on values: `Proc` returns the answer `proc` gives and
 * the worker as `proc` leaves it. The `working_` pointer of a handler is
 * the position of the child it points to. The match routines are not
 * part of this model, so a match runs no routine.
 *
 * `d` bounds how many levels of child workers are processed. It is there
 * for termination only: with `d` at least the depth of the nesting, every
 * level is processed as in the source.
 */
module ParseWorkerCore {
  import opened Wrappers

  /** `INF_ITERS`: a limit or timeout of 0 means none. */
  const InfIters: nat := 0

  datatype Handler<T(==)> = Handler(
    tokens: set<T>, neg: bool, workers: seq<Worker<T>>,
    matchCount: nat, nomatchCount: nat,
    tolerance: nat, timeout: nat,
    working: Option<nat>)

  datatype Worker<T(==)> = Worker(
    handlers: seq<Handler<T>>,
    iters: nat, workingAt: nat, blocker: bool,
    index: nat, itered: nat, stalling: bool)

  // ---------------------------------------------------------------------
  // Construction and configuration
  // ---------------------------------------------------------------------

  /** A handler as its constructors leave it: tolerance 1, no timeout, not negated. */
  function NewHandler<T(==)>(tokens: set<T>, workers: seq<Worker<T>>): (h: Handler<T>)
    ensures h.tokens == tokens && h.workers == workers && !h.neg
    ensures h.matchCount == 0 && h.nomatchCount == 0 && h.working == None
    ensures h.tolerance == 1 && h.timeout == InfIters
  {
    Handler(tokens, false, workers, 0, 0, 1, InfIters, None)
  }

  /** A worker as its constructors leave it: no limit, working from the second handler. */
  function NewWorker<T(==)>(handlers: seq<Handler<T>>): (w: Worker<T>)
    ensures w.handlers == handlers && w.iters == InfIters && w.workingAt == 1
    ensures !w.blocker && w.index == 0 && w.itered == 0 && !w.stalling
  {
    Worker(handlers, InfIters, 1, false, 0, 0, false)
  }

  /** The worker built from child workers alone: one handler waiting for end of file. */
  function WorkersOnly<T(==)>(eof: T, workers: seq<Worker<T>>): (w: Worker<T>)
    ensures w == NewWorker([NewHandler({eof}, workers)])
  {
    NewWorker([NewHandler({eof}, workers)])
  }

  // ---------------------------------------------------------------------
  // The token handler
  // ---------------------------------------------------------------------

  /** `match(t)`: the token is in the set (not in it, when negated); one of the two counters grows. */
  function Match<T(==)>(h: Handler<T>, t: T): (r: (bool, Handler<T>))
    ensures r.0 ==> r.1 == h.(matchCount := h.matchCount + 1)
    ensures !r.0 ==> r.1 == h.(nomatchCount := h.nomatchCount + 1)
  {
    if (if !h.neg then t in h.tokens else t !in h.tokens) then (true, h.(matchCount := h.matchCount + 1))
    else (false, h.(nomatchCount := h.nomatchCount + 1))
  }

  /** `done()`. */
  predicate Done<T(==)>(h: Handler<T>)
  {
    h.matchCount >= h.tolerance
  }

  /** `time()`: never when the timeout is infinite. */
  predicate Time<T(==)>(h: Handler<T>)
  {
    if h.timeout == InfIters then false else h.nomatchCount >= h.timeout
  }

  /** `neg()`. */
  function Neg<T(==)>(h: Handler<T>): (r: Handler<T>)
    ensures r.neg
    ensures r.tokens == h.tokens && r.workers == h.workers && r.matchCount == h.matchCount && r.nomatchCount == h.nomatchCount && r.tolerance == h.tolerance && r.timeout == h.timeout && r.working == h.working
  {
    h.(neg := true)
  }

  /** `tolerance(t)`. */
  function SetTolerance<T(==)>(h: Handler<T>, n: nat): (r: Handler<T>)
    ensures r.tolerance == n && (Done(r) <==> h.matchCount >= n)
    ensures r.tokens == h.tokens && r.neg == h.neg && r.workers == h.workers && r.matchCount == h.matchCount && r.nomatchCount == h.nomatchCount && r.timeout == h.timeout && r.working == h.working
  {
    h.(tolerance := n)
  }

  /** `timeout(t)`. */
  function SetTimeout<T(==)>(h: Handler<T>, n: nat): (r: Handler<T>)
    ensures r.timeout == n && (Time(r) <==> n != InfIters && h.nomatchCount >= n)
    ensures r.tokens == h.tokens && r.neg == h.neg && r.workers == h.workers && r.matchCount == h.matchCount && r.nomatchCount == h.nomatchCount && r.tolerance == h.tolerance && r.working == h.working
  {
    h.(timeout := n)
  }

  /** `inject_token(t)`. */
  function InjectToken<T(==)>(h: Handler<T>, t: T): (r: Handler<T>)
    ensures r.tokens == h.tokens + {t} && (!h.neg ==> Match(r, t).0)
    ensures r.neg == h.neg && r.workers == h.workers && r.matchCount == h.matchCount && r.nomatchCount == h.nomatchCount && r.tolerance == h.tolerance && r.timeout == h.timeout && r.working == h.working
  {
    h.(tokens := h.tokens + {t})
  }

  // ---------------------------------------------------------------------
  // Rewinding and resetting
  // ---------------------------------------------------------------------

  /** The handler `handler_at(i)` names: positions wrap around the handler count. */
  function HandlerAt<T(==)>(w: Worker<T>, i: nat): (h: Handler<T>)
    requires |w.handlers| > 0
    ensures h == w.handlers[i % |w.handlers|]
  {
    w.handlers[i % |w.handlers|]
  }

  /** `rewind()`: the current handler is reset and the worker goes back to the first handler. */
  function Rewind<T(==)>(w: Worker<T>): (r: Worker<T>)
    decreases w, 1
    ensures r.index == 0 && |r.handlers| == |w.handlers|
    ensures r == w.(handlers := r.handlers, index := 0)
  {
    if |w.handlers| == 0 then w.(index := 0)
    else
      var k := w.index % |w.handlers|;
      w.(handlers := w.handlers[k := ResetHandler(w.handlers[k])], index := 0)
  }

  /**
   * `reset()`: the pass count returns to 0 and the worker rewinds.
   * Rewinding does not read the pass count, so it is cleared afterwards.
   */
  function Reset<T(==)>(w: Worker<T>): (r: Worker<T>)
    decreases w, 2
    ensures r.index == 0 && r.itered == 0 && |r.handlers| == |w.handlers|
  {
    Rewind(w).(itered := 0)
  }

  /** `reset_()`: every child worker is reset and both counters return to 0. */
  function ResetHandler<T(==)>(h: Handler<T>): (r: Handler<T>)
    decreases h, 0
    ensures r.matchCount == 0 && r.nomatchCount == 0 && |r.workers| == |h.workers|
    ensures r == h.(workers := r.workers, matchCount := 0, nomatchCount := 0)
  {
    h.(workers := seq(|h.workers|, i requires 0 <= i < |h.workers| => Reset(h.workers[i])),
       matchCount := 0, nomatchCount := 0)
  }

  /** `rewind()` on each of a handler's workers. */
  function RewindAll<T(==)>(ws: seq<Worker<T>>): (r: seq<Worker<T>>)
    ensures |r| == |ws| && forall i :: 0 <= i < |ws| ==> r[i] == Rewind(ws[i])
  {
    seq(|ws|, i requires 0 <= i < |ws| => Rewind(ws[i]))
  }

  /** `restart_()`: one more pass is counted and the worker rewinds. */
  function Restart<T(==)>(w: Worker<T>): (r: Worker<T>)
    ensures r.index == 0 && r.itered == w.itered + 1 && |r.handlers| == |w.handlers|
  {
    Rewind(w.(itered := w.itered + 1))
  }

  // ---------------------------------------------------------------------
  // Worker state
  // ---------------------------------------------------------------------

  /** `finished_()`: a limit is set and that many passes are done. */
  predicate Finished<T(==)>(w: Worker<T>)
  {
    w.iters != InfIters && w.itered >= w.iters
  }

  /** `working_()`: at or after the `working_at` handler and not finished. */
  predicate Working<T(==)>(w: Worker<T>)
  {
    w.index >= w.workingAt && !Finished(w)
  }

  /** `block()`. */
  function Block<T(==)>(w: Worker<T>): (r: Worker<T>)
    ensures r.blocker
    ensures r.handlers == w.handlers && r.iters == w.iters && r.workingAt == w.workingAt && r.index == w.index && r.itered == w.itered && r.stalling == w.stalling
  {
    w.(blocker := true)
  }

  /** `limit(n)`. */
  function Limit<T(==)>(w: Worker<T>, n: nat): (r: Worker<T>)
    ensures r.iters == n && (Finished(r) <==> n != InfIters && w.itered >= n)
    ensures r.handlers == w.handlers && r.workingAt == w.workingAt && r.blocker == w.blocker && r.index == w.index && r.itered == w.itered && r.stalling == w.stalling
  {
    w.(iters := n)
  }

  /** `working_at(i)`. */
  function WorkingAt<T(==)>(w: Worker<T>, i: nat): (r: Worker<T>)
    ensures r.workingAt == i && (Working(r) <==> w.index >= i && !Finished(w))
    ensures r.handlers == w.handlers && r.iters == w.iters && r.blocker == w.blocker && r.index == w.index && r.itered == w.itered && r.stalling == w.stalling
  {
    w.(workingAt := i)
  }

  /** `stall()`. */
  function Stall<T(==)>(w: Worker<T>): (r: Worker<T>)
    ensures r.stalling
    ensures r.handlers == w.handlers && r.iters == w.iters && r.workingAt == w.workingAt && r.blocker == w.blocker && r.index == w.index && r.itered == w.itered
  {
    w.(stalling := true)
  }

  /**
   * A completed handler: it is reset and the next one is handled; past the
   * last one the worker restarts.
   */
  function Advance<T(==)>(w: Worker<T>): (r: Worker<T>)
    requires |w.handlers| > 0
    ensures |r.handlers| == |w.handlers|
  {
    var k := w.index % |w.handlers|;
    var u := w.(handlers := w.handlers[k := ResetHandler(w.handlers[k])], index := w.index + 1);
    if u.index == |u.handlers| then Restart(u) else u
  }

  // ---------------------------------------------------------------------
  // Processing a token
  // ---------------------------------------------------------------------

  /** `proc(t)`: whether the worker blocks, and the worker afterwards. */
  function Proc<T(==)>(d: nat, w: Worker<T>, t: T): (r: (bool, Worker<T>))
    decreases d, 2
    ensures |r.1.handlers| == |w.handlers|
    ensures r.1.iters == w.iters && r.1.workingAt == w.workingAt && r.1.blocker == w.blocker
  {
    if Finished(w) || |w.handlers| == 0 then (false, w)
    else
      var k := w.index % |w.handlers|;
      var (blocked, h1) := ProcWorkers(d, w.handlers[k], t);
      var w1 := w.(handlers := w.handlers[k := h1]);
      if blocked then (true, w1)
      else
        var (m, h2) := Match(h1, t);
        var w2 := w1.(handlers := w1.handlers[k := h2]);
        if m then
          (w.blocker, (if Done(h2) && !w.stalling then Advance(w2) else w2).(stalling := false))
        else if Time(h2) then (false, Restart(w2))
        else (false, w2)
  }

  /**
   * `proc_workers_(t)`: only the working child runs while there is one;
   * when it stops working every child rewinds, and then the children run
   * in order until one of them starts working.
   */
  function ProcWorkers<T(==)>(d: nat, h: Handler<T>, t: T): (r: (bool, Handler<T>))
    decreases d, 1
    ensures |r.1.workers| == |h.workers|
    ensures r.1 == h.(workers := r.1.workers, working := r.1.working)
  {
    if d == 0 then (false, h)
    else
      var (blocked, h1) :=
        if h.working.Some? && h.working.value < |h.workers| then
          var j := h.working.value;
          var (b, c) := Proc(d - 1, h.workers[j], t);
          var ws := h.workers[j := c];
          if Working(c) then (b, h.(workers := ws))
          else (b, h.(workers := RewindAll(ws), working := None))
        else (false, h.(working := None));
      if h1.working.None? then ScanFrom(d, h1, 0, t, blocked) else (blocked, h1)
  }

  /** The loop of `proc_workers_` that runs the children from position `i` on. */
  function ScanFrom<T(==)>(d: nat, h: Handler<T>, i: nat, t: T, blocked: bool): (r: (bool, Handler<T>))
    requires 0 < d && i <= |h.workers|
    decreases d, 0, |h.workers| - i
    ensures |r.1.workers| == |h.workers|
    ensures r.1 == h.(workers := r.1.workers, working := r.1.working)
  {
    if i == |h.workers| then (blocked, h)
    else
      var (b, c) := Proc(d - 1, h.workers[i], t);
      var h1 := h.(workers := h.workers[i := c]);
      if Working(c) then (b || blocked, h1.(working := Some(i)))
      else ScanFrom(d, h1, i + 1, t, b || blocked)
  }


  // ---------------------------------------------------------------------
  // The loops of the source, over the same values
  // ---------------------------------------------------------------------

  /** `reset_`, as the loop over the child workers it is. */
  method RunResetHandler<T(==)>(h: Handler<T>) returns (r: Handler<T>)
    ensures r == ResetHandler(h)
  {
    r := h;
    var i := 0;
    while i < |r.workers|
      invariant 0 <= i <= |r.workers| == |h.workers|
      invariant r == h.(workers := r.workers)
      invariant forall p :: 0 <= p < i ==> r.workers[p] == Reset(h.workers[p])
      invariant forall p :: i <= p < |r.workers| ==> r.workers[p] == h.workers[p]
    {
      r := r.(workers := r.workers[i := Reset(r.workers[i])]);
      i := i + 1;
    }
    r := r.(matchCount := 0, nomatchCount := 0);
  }

  /** `proc(t)`, calling the loops of `proc_workers_` for the current handler. */
  method RunProc<T(==)>(d: nat, w: Worker<T>, t: T) returns (blocked: bool, r: Worker<T>)
    decreases d, 2
    ensures (blocked, r) == Proc(d, w, t)
  {
    if Finished(w) || |w.handlers| == 0 {
      return false, w;
    }
    var k := w.index % |w.handlers|;
    var b, h1 := RunProcWorkers(d, w.handlers[k], t);
    r := w.(handlers := w.handlers[k := h1]);
    if b {
      return true, r;
    }
    var m, h2 := Match(h1, t).0, Match(h1, t).1;
    r := r.(handlers := r.handlers[k := h2]);
    if m {
      var u := r;
      if Done(h2) && !w.stalling {
        var reset := RunResetHandler(h2);
        u := r.(handlers := r.handlers[k := reset], index := r.index + 1);
        assert u == r.(handlers := r.handlers[k := ResetHandler(r.handlers[k])], index := r.index + 1);
        if u.index == |u.handlers| {
          u := Restart(u);
        }
      }
      return w.blocker, u.(stalling := false);
    } else if Time(h2) {
      return false, Restart(r);
    }
    return false, r;
  }

  /**
   * `proc_workers_(t)`: the working child runs alone; when it stops working
   * every child rewinds, and then the children run in order until one is
   * left working.
   */
  method RunProcWorkers<T(==)>(d: nat, h: Handler<T>, t: T) returns (blocked: bool, r: Handler<T>)
    decreases d, 1
    ensures (blocked, r) == ProcWorkers(d, h, t)
  {
    if d == 0 {
      return false, h;
    }
    blocked, r := false, h.(working := None);
    if h.working.Some? && h.working.value < |h.workers| {
      var j := h.working.value;
      var c;
      blocked, c := RunProc(d - 1, h.workers[j], t);
      if Working(c) {
        r := h.(workers := h.workers[j := c]);
      } else {
        var ws := RunRewindAll(h.workers[j := c]);
        r := h.(workers := ws, working := None);
      }
    }
    if r.working.None? {
      blocked, r := RunScan(d, r, t, blocked);
    }
  }

  /** The first loop of `proc_workers_`: every child rewinds. */
  method RunRewindAll<T(==)>(ws: seq<Worker<T>>) returns (r: seq<Worker<T>>)
    ensures r == RewindAll(ws)
  {
    r := ws;
    var i := 0;
    while i < |r|
      invariant 0 <= i <= |r| == |ws|
      invariant forall p :: 0 <= p < i ==> r[p] == Rewind(ws[p])
      invariant forall p :: i <= p < |r| ==> r[p] == ws[p]
    {
      r := r[i := Rewind(r[i])];
      i := i + 1;
    }
  }

  /** The second loop of `proc_workers_`: the children run in order until one is left working. */
  method RunScan<T(==)>(d: nat, h: Handler<T>, t: T, blocked0: bool) returns (blocked: bool, r: Handler<T>)
    requires 0 < d
    decreases d, 0
    ensures (blocked, r) == ScanFrom(d, h, 0, t, blocked0)
  {
    blocked, r := blocked0, h;
    var i := 0;
    while i < |r.workers|
      invariant 0 <= i <= |r.workers| == |h.workers|
      invariant ScanFrom(d, r, i, t, blocked) == ScanFrom(d, h, 0, t, blocked0)
    {
      var b, c := RunProc(d - 1, r.workers[i], t);
      blocked := b || blocked;
      r := r.(workers := r.workers[i := c]);
      if Working(c) {
        r := r.(working := Some(i));
        return;
      }
      i := i + 1;
    }
  }

}
