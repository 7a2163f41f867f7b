/**
 * The older `ParseWorker` (src/core/parse_worker.hpp). Its handlers have
 * no counters: one matching token completes a handler. A worker is done
 * once its index has run past the last handler, which happens only when
 * a limit is set and reached; child workers can be injected into the
 * handlers ahead of the current one.
 *
 * As in ParseWorkerCore, `Proc` works on values, a match runs no routine,
 * and `d` bounds the levels of child workers processed.
 */
module ParseWorkerOld {
  import opened Wrappers

  const InfIters: nat := 0

  /** Sizes of `unsigned int` and `size_t`. */
  const UInt: nat := 0x1_0000_0000
  const SizeT: nat := 0x1_0000_0000_0000_0000

  datatype Handler<T(==)> = Handler(tokens: set<T>, neg: bool, workers: seq<Worker<T>>, working: Option<nat>)

  datatype Worker<T(==)> = Worker(handlers: seq<Handler<T>>, iters: nat, blocker: bool, index: nat, itered: nat)

  /** A handler as its constructors leave it. */
  function NewHandler<T(==)>(tokens: set<T>, workers: seq<Worker<T>>): (h: Handler<T>)
    ensures h.tokens == tokens && h.workers == workers && !h.neg && h.working == None
  {
    Handler(tokens, false, workers, None)
  }

  /** A worker as its constructors leave it: no limit, at the first handler. */
  function NewWorker<T(==)>(handlers: seq<Handler<T>>): (w: Worker<T>)
    ensures w.handlers == handlers && w.iters == InfIters && !w.blocker && w.index == 0 && w.itered == 0
  {
    Worker(handlers, InfIters, false, 0, 0)
  }

  /** The worker built from child workers alone: one handler waiting for end of file. */
  function WorkersOnly<T(==)>(eof: T, workers: seq<Worker<T>>): (w: Worker<T>)
    ensures w == NewWorker([NewHandler({eof}, workers)])
  {
    NewWorker([NewHandler({eof}, workers)])
  }

  /** `match(t)`: the token is in the set, or not in it when negated. Nothing is counted. */
  predicate Match<T(==)>(h: Handler<T>, t: T)
  {
    if !h.neg then t in h.tokens else t !in h.tokens
  }

  /** `neg()`. */
  function Neg<T(==)>(h: Handler<T>): (r: Handler<T>)
    ensures r.neg && r.tokens == h.tokens && r.workers == h.workers && r.working == h.working
  {
    h.(neg := true)
  }

  /** `handler_(i)`: positions wrap around the handler count. */
  function HandlerAt<T(==)>(w: Worker<T>, i: nat): (h: Handler<T>)
    requires |w.handlers| > 0
    ensures h == w.handlers[i % |w.handlers|]
  {
    w.handlers[i % |w.handlers|]
  }

  /** `done_()`: the index has run past the last handler. */
  predicate Done<T(==)>(w: Worker<T>)
  {
    w.index == |w.handlers|
  }

  /** `working_()`: past the first handler and not done. */
  predicate Working<T(==)>(w: Worker<T>)
  {
    w.index != 0 && !Done(w)
  }

  /** `indefinite_()`. */
  predicate Indefinite<T(==)>(w: Worker<T>)
  {
    w.iters == InfIters
  }

  /** `rewind()`: the current handler's workers are reset and the worker goes back to the first handler. */
  function Rewind<T(==)>(w: Worker<T>): (r: Worker<T>)
    decreases w, 1
    ensures r.index == 0 && |r.handlers| == |w.handlers|
    ensures r == w.(handlers := r.handlers, index := 0)
  {
    if |w.handlers| == 0 then w.(index := 0)
    else
      var k := w.index % |w.handlers|;
      w.(handlers := w.handlers[k := ResetWorkers(w.handlers[k])], index := 0)
  }

  /** `reset()`: no pass counted, and rewound. Rewinding does not read the pass count. */
  function Reset<T(==)>(w: Worker<T>): (r: Worker<T>)
    decreases w, 2
    ensures r.index == 0 && r.itered == 0 && |r.handlers| == |w.handlers|
  {
    Rewind(w).(itered := 0)
  }

  /** `reset_workers_()`. */
  function ResetWorkers<T(==)>(h: Handler<T>): (r: Handler<T>)
    decreases h, 0
    ensures |r.workers| == |h.workers| && r == h.(workers := r.workers)
  {
    h.(workers := seq(|h.workers|, i requires 0 <= i < |h.workers| => Reset(h.workers[i])))
  }

  /** `rewind()` on each of a handler's workers. */
  function RewindAll<T(==)>(ws: seq<Worker<T>>): (r: seq<Worker<T>>)
    ensures |r| == |ws| && forall i :: 0 <= i < |ws| ==> r[i] == Rewind(ws[i])
  {
    seq(|ws|, i requires 0 <= i < |ws| => Rewind(ws[i]))
  }

  /** `block()`. */
  function Block<T(==)>(w: Worker<T>): (r: Worker<T>)
    ensures r.blocker
    ensures r.handlers == w.handlers && r.iters == w.iters && r.index == w.index && r.itered == w.itered
  {
    w.(blocker := true)
  }

  /** `limit(n)`. */
  function Limit<T(==)>(w: Worker<T>, n: nat): (r: Worker<T>)
    ensures r.iters == n && (Indefinite(r) <==> n == InfIters)
    ensures r.handlers == w.handlers && r.blocker == w.blocker && r.index == w.index && r.itered == w.itered
  {
    w.(iters := n)
  }

  /**
   * Where `inject_worker(c, offset)` puts the worker: `handler_i_ + 1` is
   * computed as an `unsigned int`, the offset is added as a `size_t`, and
   * the sum wraps around the handler count.
   */
  function InjectPosition<T(==)>(w: Worker<T>, offset: nat): (k: nat)
    requires |w.handlers| > 0 && w.index < UInt && offset < SizeT
    ensures k < |w.handlers|
  {
    ((w.index + 1) % UInt + offset) % SizeT % |w.handlers|
  }

  /** `inject_worker(c, offset)`: `c` is appended to the workers of that handler. */
  function InjectWorker<T(==)>(w: Worker<T>, c: Worker<T>, offset: nat): (r: Worker<T>)
    requires |w.handlers| > 0 && w.index < UInt && offset < SizeT
    ensures |r.handlers| == |w.handlers|
    ensures r.iters == w.iters && r.blocker == w.blocker && r.index == w.index && r.itered == w.itered
    ensures forall j :: 0 <= j < |w.handlers| ==>
      r.handlers[j].workers == w.handlers[j].workers + (if j == InjectPosition(w, offset) then [c] else []) &&
      r.handlers[j].tokens == w.handlers[j].tokens && r.handlers[j].neg == w.handlers[j].neg &&
      r.handlers[j].working == w.handlers[j].working
  {
    var k := InjectPosition(w, offset);
    w.(handlers := w.handlers[k := w.handlers[k].(workers := w.handlers[k].workers + [c])])
  }

  /**
   * A matched handler: its workers are reset and the index moves on. Past
   * the last handler the worker rewinds while there is no limit or the
   * limit is not yet reached, counting the pass only when a limit is set;
   * otherwise it stays done.
   */
  function Advance<T(==)>(w: Worker<T>): (r: Worker<T>)
    requires |w.handlers| > 0
    ensures |r.handlers| == |w.handlers|
  {
    var k := w.index % |w.handlers|;
    var u := w.(handlers := w.handlers[k := ResetWorkers(w.handlers[k])], index := w.index + 1);
    if !Done(u) then u
    else if Indefinite(u) then Rewind(u)
    else if u.itered + 1 < u.iters then Rewind(u.(itered := u.itered + 1))
    else u.(itered := u.itered + 1)
  }

  /** `proc(t)`: whether the worker blocks, and the worker afterwards. */
  function Proc<T(==)>(d: nat, w: Worker<T>, t: T): (r: (bool, Worker<T>))
    decreases d, 2
    ensures |r.1.handlers| == |w.handlers| && r.1.iters == w.iters && r.1.blocker == w.blocker
  {
    if Done(w) || |w.handlers| == 0 then (false, w)
    else
      var k := w.index % |w.handlers|;
      var (blocked, h1) := ProcWorkers(d, w.handlers[k], t);
      var w1 := w.(handlers := w.handlers[k := h1]);
      if blocked then (true, w1)
      else if Match(h1, t) then (w.blocker, Advance(w1))
      else (false, w1)
  }

  /** `proc_workers_(t)`, as in the newer worker. */
  function ProcWorkers<T(==)>(d: nat, h: Handler<T>, t: T): (r: (bool, Handler<T>))
    decreases d, 1
    ensures |r.1.workers| == |h.workers|
    ensures r.1 == h.(workers := r.1.workers, working := r.1.working)
  {
    if d == 0 then (false, h)
    else
      var (blocked, h1) :=
        if h.working.Some? && h.working.value < |h.workers| then
          var j := h.working.value;
          var (b, c) := Proc(d - 1, h.workers[j], t);
          var ws := h.workers[j := c];
          if Working(c) then (b, h.(workers := ws))
          else (b, h.(workers := RewindAll(ws), working := None))
        else (false, h.(working := None));
      if h1.working.None? then ScanFrom(d, h1, 0, t, blocked) else (blocked, h1)
  }

  /** The loop of `proc_workers_` that runs the children from position `i` on. */
  function ScanFrom<T(==)>(d: nat, h: Handler<T>, i: nat, t: T, blocked: bool): (r: (bool, Handler<T>))
    requires 0 < d && i <= |h.workers|
    decreases d, 0, |h.workers| - i
    ensures |r.1.workers| == |h.workers|
    ensures r.1 == h.(workers := r.1.workers, working := r.1.working)
  {
    if i == |h.workers| then (blocked, h)
    else
      var (b, c) := Proc(d - 1, h.workers[i], t);
      var h1 := h.(workers := h.workers[i := c]);
      if Working(c) then (b || blocked, h1.(working := Some(i)))
      else ScanFrom(d, h1, i + 1, t, b || blocked)
  }


  // ---------------------------------------------------------------------
  // The loops of the source, over the same values
  // ---------------------------------------------------------------------

  /** `reset_workers_`, as the loop over the child workers it is. */
  method RunResetWorkers<T(==)>(h: Handler<T>) returns (r: Handler<T>)
    ensures r == ResetWorkers(h)
  {
    r := h;
    var i := 0;
    while i < |r.workers|
      invariant 0 <= i <= |r.workers| == |h.workers|
      invariant r == h.(workers := r.workers)
      invariant forall p :: 0 <= p < i ==> r.workers[p] == Reset(h.workers[p])
      invariant forall p :: i <= p < |r.workers| ==> r.workers[p] == h.workers[p]
    {
      r := r.(workers := r.workers[i := Reset(r.workers[i])]);
      i := i + 1;
    }
  }

  /** `proc(t)`, calling the loops of `proc_workers_` for the current handler. */
  method RunProc<T(==)>(d: nat, w: Worker<T>, t: T) returns (blocked: bool, r: Worker<T>)
    decreases d, 2
    ensures (blocked, r) == Proc(d, w, t)
  {
    if Done(w) || |w.handlers| == 0 {
      return false, w;
    }
    var k := w.index % |w.handlers|;
    var b, h1 := RunProcWorkers(d, w.handlers[k], t);
    r := w.(handlers := w.handlers[k := h1]);
    if b {
      return true, r;
    }
    if Match(h1, t) {
      var reset := RunResetWorkers(h1);
      var u := r.(handlers := r.handlers[k := reset], index := r.index + 1);
      assert u == r.(handlers := r.handlers[k := ResetWorkers(r.handlers[k])], index := r.index + 1);
      if Done(u) {
        if Indefinite(u) {
          u := Rewind(u);
        } else {
          u := u.(itered := u.itered + 1);
          if u.itered < u.iters {
            u := Rewind(u);
          }
        }
      }
      return w.blocker, u;
    }
    return false, r;
  }

  /**
   * `proc_workers_(t)`: the working child runs alone; when it stops working
   * every child rewinds, and then the children run in order until one is
   * left working.
   */
  method RunProcWorkers<T(==)>(d: nat, h: Handler<T>, t: T) returns (blocked: bool, r: Handler<T>)
    decreases d, 1
    ensures (blocked, r) == ProcWorkers(d, h, t)
  {
    if d == 0 {
      return false, h;
    }
    blocked, r := false, h.(working := None);
    if h.working.Some? && h.working.value < |h.workers| {
      var j := h.working.value;
      var c;
      blocked, c := RunProc(d - 1, h.workers[j], t);
      if Working(c) {
        r := h.(workers := h.workers[j := c]);
      } else {
        var ws := RunRewindAll(h.workers[j := c]);
        r := h.(workers := ws, working := None);
      }
    }
    if r.working.None? {
      blocked, r := RunScan(d, r, t, blocked);
    }
  }

  /** The first loop of `proc_workers_`: every child rewinds. */
  method RunRewindAll<T(==)>(ws: seq<Worker<T>>) returns (r: seq<Worker<T>>)
    ensures r == RewindAll(ws)
  {
    r := ws;
    var i := 0;
    while i < |r|
      invariant 0 <= i <= |r| == |ws|
      invariant forall p :: 0 <= p < i ==> r[p] == Rewind(ws[p])
      invariant forall p :: i <= p < |r| ==> r[p] == ws[p]
    {
      r := r[i := Rewind(r[i])];
      i := i + 1;
    }
  }

  /** The second loop of `proc_workers_`: the children run in order until one is left working. */
  method RunScan<T(==)>(d: nat, h: Handler<T>, t: T, blocked0: bool) returns (blocked: bool, r: Handler<T>)
    requires 0 < d
    decreases d, 0
    ensures (blocked, r) == ScanFrom(d, h, 0, t, blocked0)
  {
    blocked, r := blocked0, h;
    var i := 0;
    while i < |r.workers|
      invariant 0 <= i <= |r.workers| == |h.workers|
      invariant ScanFrom(d, r, i, t, blocked) == ScanFrom(d, h, 0, t, blocked0)
    {
      var b, c := RunProc(d - 1, r.workers[i], t);
      blocked := b || blocked;
      r := r.(workers := r.workers[i := c]);
      if Working(c) {
        r := r.(working := Some(i));
        return;
      }
      i := i + 1;
    }
  }

}

/** What the older `ParseWorker` promises, stated about ParseWorkerOld. */
module ParseWorkerOldProps {
  import opened Wrappers
  import opened ParseWorkerOld

  /** Negating a handler turns every match into a miss and every miss into a match. */
  lemma NegFlips<T>(h: Handler<T>, t: T)
    requires !h.neg
    ensures Match(Neg(h), t) <==> !Match(h, t)
    ensures Match(h, t) <==> t in h.tokens
  {
  }

  /** A done worker does nothing and does not block. */
  lemma ProcDone<T>(d: nat, w: Worker<T>, t: T)
    requires Done(w)
    ensures Proc(d, w, t) == (false, w)
  {
  }

  /** One call of `proc` on a worker that is not done, step by step. */
  lemma ProcSteps<T>(d: nat, w: Worker<T>, t: T)
    requires w.index < |w.handlers|
    ensures var (b, h1) := ProcWorkers(d, w.handlers[w.index], t);
      var w1 := w.(handlers := w.handlers[w.index := h1]);
      Proc(d, w, t) ==
        if b then (true, w1) else if Match(h1, t) then (w.blocker, Advance(w1)) else (false, w1)
  {
    assert w.index % |w.handlers| == w.index;
  }

  /** The handler index never runs past the handler count, and each call counts at most one pass. */
  lemma ProcInRange<T>(d: nat, w: Worker<T>, t: T)
    requires w.index <= |w.handlers|
    ensures var r := Proc(d, w, t).1;
      r.index <= |r.handlers| && w.itered <= r.itered <= w.itered + 1
  {
    if w.index < |w.handlers| {
      ProcSteps(d, w, t);
      var h1 := ProcWorkers(d, w.handlers[w.index], t).1;
      AdvanceSteps(w.(handlers := w.handlers[w.index := h1]));
    }
  }

  /** Without a limit a worker is never done. */
  lemma {:induction false} IndefiniteNeverDone<T>(d: nat, w: Worker<T>, t: T)
    requires Indefinite(w) && w.index < |w.handlers|
    ensures Proc(d, w, t).1.index < |w.handlers| && Proc(d, w, t).1.itered == w.itered
  {
    ProcSteps(d, w, t);
    var h1 := ProcWorkers(d, w.handlers[w.index], t).1;
    AdvanceSteps(w.(handlers := w.handlers[w.index := h1]));
  }

  /** A matched handler, spelled out by where the index was. */
  lemma AdvanceSteps<T>(w: Worker<T>)
    requires w.index < |w.handlers|
    ensures var r := Advance(w); var u := w.(handlers := w.handlers[w.index := ResetWorkers(w.handlers[w.index])]);
      (w.index + 1 < |w.handlers| ==> r == u.(index := w.index + 1)) &&
      (w.index + 1 == |w.handlers| && Indefinite(w) ==> r.index == 0 && r.itered == w.itered) &&
      (w.index + 1 == |w.handlers| && !Indefinite(w) && w.itered + 1 < w.iters ==> r.index == 0 && r.itered == w.itered + 1) &&
      (w.index + 1 == |w.handlers| && !Indefinite(w) && w.itered + 1 >= w.iters ==>
        r == u.(index := |w.handlers|, itered := w.itered + 1))
  {
    assert w.index % |w.handlers| == w.index;
  }

  /**
   * A match while the children do not block: the answer is `blocker_`, the
   * handler's workers are reset and the index moves on; past the last
   * handler the worker rewinds unless its limit is reached, in which case
   * it is done.
   */
  lemma ProcMatched<T>(d: nat, w: Worker<T>, t: T)
    requires w.index < |w.handlers|
    requires var (b, h1) := ProcWorkers(d, w.handlers[w.index], t); !b && Match(h1, t)
    ensures var r := Proc(d, w, t); var h1 := ProcWorkers(d, w.handlers[w.index], t).1;
      r.0 == w.blocker &&
      (w.index + 1 < |w.handlers| ==>
        r.1 == w.(handlers := w.handlers[w.index := ResetWorkers(h1)], index := w.index + 1)) &&
      (w.index + 1 == |w.handlers| ==>
        (Indefinite(w) || w.itered + 1 < w.iters <==> r.1.index == 0) &&
        (Done(r.1) <==> !Indefinite(w) && w.itered + 1 >= w.iters) &&
        r.1.itered == (if Indefinite(w) then w.itered else w.itered + 1))
  {
    ProcSteps(d, w, t);
    var h1 := ProcWorkers(d, w.handlers[w.index], t).1;
    var w1 := w.(handlers := w.handlers[w.index := h1]);
    AdvanceSteps(w1);
    assert w1.handlers[w.index := ResetWorkers(h1)] == w.handlers[w.index := ResetWorkers(h1)];
  }

  /** A limit of `n` passes: the last handler of pass `n` leaves the worker done for good. */
  lemma LimitReached<T>(d: nat, w: Worker<T>, t: T, t2: T)
    requires w.index + 1 == |w.handlers| && w.iters == w.itered + 1
    requires var (b, h1) := ProcWorkers(d, w.handlers[w.index], t); !b && Match(h1, t)
    ensures Done(Proc(d, w, t).1) && Proc(d, Proc(d, w, t).1, t2) == (false, Proc(d, w, t).1)
  {
    ProcMatched(d, w, t);
  }

  /** A miss, or blocking children: only the children have moved. */
  lemma ProcUnmatched<T>(d: nat, w: Worker<T>, t: T)
    requires w.index < |w.handlers|
    requires var (b, h1) := ProcWorkers(d, w.handlers[w.index], t); b || !Match(h1, t)
    ensures var (b, h1) := ProcWorkers(d, w.handlers[w.index], t);
      Proc(d, w, t) == (b, w.(handlers := w.handlers[w.index := h1]))
  {
    ProcSteps(d, w, t);
  }

  /** A rewound worker is at its first handler and so is not working. */
  lemma RewoundNotWorking<T>(w: Worker<T>)
    ensures !Working(Rewind(w)) && !Working(Reset(w))
  {
  }

  /**
   * `inject_worker(c, offset)` appends `c` to the handler `offset + 1`
   * places ahead of the current one, counting around the handlers, and
   * changes nothing else.
   */
  lemma InjectAhead<T>(w: Worker<T>, c: Worker<T>, offset: nat)
    requires |w.handlers| > 0 && w.index + 1 < UInt && offset < SizeT - UInt
    ensures var r := InjectWorker(w, c, offset); var k := (w.index + 1 + offset) % |w.handlers|;
      r.handlers[k].workers == w.handlers[k].workers + [c] &&
      r.handlers[k] == w.handlers[k].(workers := r.handlers[k].workers) &&
      (forall p :: 0 <= p < |w.handlers| && p != k ==> r.handlers[p] == w.handlers[p]) &&
      r == w.(handlers := r.handlers)
  {
    ModBelow(w.index + 1, UInt);
    ModBelow(w.index + 1 + offset, SizeT);
  }

  lemma ModBelow(a: nat, n: nat)
    requires a < n
    ensures a % n == a
  {
  }

  /**
   * Past `unsigned int` the position wraps: a worker at the largest index
   * injects into the handler `offset` places from the first.
   */
  lemma InjectWraps<T>(w: Worker<T>, c: Worker<T>, offset: nat)
    requires |w.handlers| > 0 && w.index == UInt - 1 && offset < SizeT - UInt
    ensures InjectPosition(w, offset) == offset % |w.handlers|
  {
  }

  /** While the working child keeps working, it is the only child that runs. */
  lemma WorkingChildAlone<T>(d: nat, h: Handler<T>, t: T)
    requires 0 < d && h.working.Some? && h.working.value < |h.workers|
    requires Working(Proc(d - 1, h.workers[h.working.value], t).1)
    ensures var j := h.working.value; var (b, c) := Proc(d - 1, h.workers[j], t);
      ProcWorkers(d, h, t) == (b, h.(workers := h.workers[j := c]))
  {
  }

  /**
   * When the working child stops working, every child rewinds, the pointer
   * is cleared, and the children run in order from the first.
   */
  lemma WorkingChildStops<T>(d: nat, h: Handler<T>, t: T)
    requires 0 < d && h.working.Some? && h.working.value < |h.workers|
    requires !Working(Proc(d - 1, h.workers[h.working.value], t).1)
    ensures var j := h.working.value; var (b, c) := Proc(d - 1, h.workers[j], t);
      ProcWorkers(d, h, t) == ScanFrom(d, h.(workers := RewindAll(h.workers[j := c]), working := None), 0, t, b)
  {
  }

  /** The first child left working by the scan is pointed at, and no child after it runs. */
  lemma {:induction false} ScanStopsAtWorking<T>(d: nat, h: Handler<T>, i: nat, t: T, blocked: bool)
    requires 0 < d && i <= |h.workers| && h.working.None?
    ensures var r := ScanFrom(d, h, i, t, blocked);
      (forall p :: 0 <= p < i ==> r.1.workers[p] == h.workers[p]) &&
      (r.1.working.Some? ==>
        (i <= r.1.working.value < |h.workers| && Working(r.1.workers[r.1.working.value]) &&
         forall p :: r.1.working.value < p < |h.workers| ==> r.1.workers[p] == h.workers[p]))
    decreases |h.workers| - i
  {
    if i < |h.workers| {
      var (b, c) := Proc(d - 1, h.workers[i], t);
      var h1 := h.(workers := h.workers[i := c]);
      if !Working(c) {
        ScanStopsAtWorking(d, h1, i + 1, t, b || blocked);
      }
    }
  }
}
