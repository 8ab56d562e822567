/** The balanced pool: n workers, the LLRB tree that orders them, and the pool lock. The tree is
    its in-order sequence of worker numbers. */
module BalancedPool {
  import opened Options
  import opened BalancedWorker
  import opened BalancedRuns
  import opened ListScheduling
  import UC = UnlimitedChannel

  /** Where the holder of the pool lock stands inside `RunAsync`: the chosen worker is charged,
      then its task is sent, then the worker moves in the tree. */
  datatype Lock = Free | Charging(worker: nat) | Sent(worker: nat)

  /** `quiet` says that no task has completed yet; `placed` records every accepted task. */
  datatype Pool = Pool(
    workers: seq<Worker>, order: seq<nat>, lock: Lock, ctxDone: bool,
    quiet: bool, placed: seq<Placement>)

  datatype PoolEvent =
    | Submit(eta: nat, maxDelay: int, elapsed: nat)   // RunAsync up to w.eta += teta
    | SendTask                                        // the send on In()
    | Reinsert(pos: nat)                              // DeleteMin, InsertNoReplace, unlock
    | Local(worker: nat, e: Event)                    // a worker, its manager or one of its clients
    | CancelContext

  datatype Reply = Accepted | ErrWorkerNotFound | ErrWillTakeLonger

  function Numbers(n: nat): (s: seq<nat>)
    ensures |s| == n
  {
    seq(n, i requires 0 <= i < n => i)
  }

  function FreshWorkers(n: nat): (s: seq<Worker>)
    ensures |s| == n
  {
    seq(n, i requires 0 <= i < n => Fresh(STAGGER * i))
  }

  function NewPool(n: nat): Pool {
    Pool(FreshWorkers(n), Numbers(n), Free, false, true, [])
  }

  /** The keys of the tree do not decrease from left to right. */
  predicate Sorted(workers: seq<Worker>, order: seq<nat>) {
    forall a, b | 0 <= a < b < |order| ::
      order[a] < |workers| && order[b] < |workers| ==>
        workers[order[a]].eta <= workers[order[b]].eta
  }

  /** What `RunAsync` answers when it holds the lock. */
  function ReplyTo(p: Pool, maxDelay: int, elapsed: nat): Reply {
    if p.order == [] || |p.workers| <= p.order[0] then ErrWorkerNotFound
    else if maxDelay != 0 && EtaWithOngoing(p.workers[p.order[0]], elapsed) > maxDelay
    then ErrWillTakeLonger
    else Accepted
  }

  function AtWorker(p: Pool, i: nat, e: Event): Option<Pool> {
    if |p.workers| <= i then None
    else
      var w := Next(p.workers[i], e);
      if w.None? then None else Some(p.(workers := p.workers[i := w.value]))
  }

  function InsertAt(order: seq<nat>, pos: nat, i: nat): seq<nat>
    requires pos <= |order|
  {
    order[..pos] + [i] + order[pos..]
  }

  function NextPool(p: Pool, e: PoolEvent): Option<Pool> {
    match e
    case Submit(eta, maxDelay, elapsed) =>
      if p.lock != Free then None
      else if ReplyTo(p, maxDelay, elapsed) != Accepted then Some(p)
      else
        var i := p.order[0];
        var q := AtWorker(p, i, Charge(eta));
        if q.None? then None
        else Some(q.value.(lock := Charging(i), placed := p.placed + [Placement(i, eta)]))
    case SendTask =>
      if !p.lock.Charging? then None
      else
        var q := AtWorker(p, p.lock.worker, Enqueue);
        if q.None? then None else Some(q.value.(lock := Sent(p.lock.worker)))
    case Reinsert(pos) =>
      if !p.lock.Sent? || p.order == [] || |p.order| - 1 < pos then None
      else
        // the leftmost node goes, whatever its key is by now
        var rest := p.order[1..];
        var order := InsertAt(rest, pos, p.lock.worker);
        // keys that change during the descent may send it anywhere
        if p.quiet && Sorted(p.workers, rest) && !Sorted(p.workers, order) then None
        else Some(p.(order := order, lock := Free))
    case Local(i, l) =>
      if l.Charge? || l.Enqueue? || (l.Leave? && !p.ctxDone) then None
      else
        var q := AtWorker(p, i, l);
        if q.None? then None else Some(q.value.(quiet := p.quiet && !l.Lower?))
    case CancelContext => Some(p.(ctxDone := true))
  }

  function RunPool(p: Pool, events: seq<PoolEvent>): Option<Pool>
    decreases |events|
  {
    if events == [] then Some(p)
    else
      var next := NextPool(p, events[0]);
      if next.None? then None else RunPool(next.value, events[1..])
  }

  /** A run from state to state. */
  lemma {:induction false} RunPoolPath(events: seq<PoolEvent>, states: seq<Pool>)
    requires |states| == |events| + 1
    requires forall k | 0 <= k < |events| :: NextPool(states[k], events[k]) == Some(states[k + 1])
    ensures RunPool(states[0], events) == Some(states[|events|])
    decreases |events|
  {
    if events != [] { RunPoolPath(events[1..], states[1..]); }
  }

  // ---------------------------------------------------------------------------------------
  // No worker is lost or duplicated
  // ---------------------------------------------------------------------------------------

  ghost predicate Permutes(order: seq<nat>, n: nat) {
    multiset(order) == multiset(Numbers(n))
  }

  ghost predicate LockInv(p: Pool) {
    && (!p.lock.Free? ==> p.order != [] && p.order[0] == p.lock.worker < |p.workers|)
    && forall i | 0 <= i < |p.workers| :: p.workers[i].charged.Some? <==> p.lock == Charging(i)
  }

  ghost predicate OrderInv(p: Pool) {
    Permutes(p.order, |p.workers|) && LockInv(p)
  }

  ghost predicate AllInv(workers: seq<Worker>) {
    forall i | 0 <= i < |workers| :: Inv(workers[i])
  }

  ghost predicate PoolInv(p: Pool) {
    OrderInv(p) && AllInv(p.workers)
  }

  lemma NewPoolInv(n: nat)
    ensures PoolInv(NewPool(n))
  {
    forall i | 0 <= i < n ensures Inv(FreshWorkers(n)[i]) { FreshInv(STAGGER * i); }
  }

  lemma PermutesMeans(order: seq<nat>, n: nat)
    requires Permutes(order, n)
    ensures |order| == n
    ensures forall i: nat :: i in order <==> i < n
  {
    assert |multiset(order)| == |order| && |multiset(Numbers(n))| == n;
    forall i: nat ensures i in order <==> i < n {
      assert i in order <==> i in multiset(order);
      assert i in multiset(Numbers(n)) <==> i in Numbers(n);
      if i < n { assert Numbers(n)[i] == i; }
    }
  }

  lemma ReinsertPermutes(order: seq<nat>, pos: nat)
    requires order != [] && pos <= |order| - 1
    ensures multiset(InsertAt(order[1..], pos, order[0])) == multiset(order)
  {
    var rest := order[1..];
    assert order == [order[0]] + rest;
    assert rest == rest[..pos] + rest[pos..];
  }

  lemma LocalLeavesCharge(w: Worker, e: Event)
    requires Next(w, e).Some?
    ensures Next(w, e).value.charged.Some?
       <==> if e.Charge? then true else if e.Enqueue? then false else w.charged.Some?
    ensures e.Charge? ==> Next(w, e).value.eta == w.eta + e.eta
    ensures !e.Charge? && !e.Lower? ==> Next(w, e).value.eta == w.eta
  {
  }

  lemma AtWorkerInv(p: Pool, i: nat, e: Event)
    requires AllInv(p.workers) && AtWorker(p, i, e).Some?
    ensures AllInv(AtWorker(p, i, e).value.workers)
  {
    NextInv(p.workers[i], e);
  }

  lemma NextAllInv(p: Pool, e: PoolEvent)
    requires AllInv(p.workers) && NextPool(p, e).Some?
    ensures AllInv(NextPool(p, e).value.workers)
  {
    match e
    case Submit(eta, maxDelay, elapsed) =>
      if ReplyTo(p, maxDelay, elapsed) == Accepted { AtWorkerInv(p, p.order[0], Charge(eta)); }
    case SendTask => AtWorkerInv(p, p.lock.worker, Enqueue);
    case Local(i, l) => AtWorkerInv(p, i, l);
    case _ =>
  }

  lemma NextOrderInv(p: Pool, e: PoolEvent)
    requires OrderInv(p) && NextPool(p, e).Some?
    ensures OrderInv(NextPool(p, e).value)
    ensures |NextPool(p, e).value.workers| == |p.workers|
  {
    NextLockInv(p, e);
    if e.Reinsert? { ReinsertPermutes(p.order, e.pos); }
  }

  lemma NextLockInv(p: Pool, e: PoolEvent)
    requires LockInv(p) && NextPool(p, e).Some?
    ensures LockInv(NextPool(p, e).value)
  {
    match e
    case Submit(eta, maxDelay, elapsed) =>
      if ReplyTo(p, maxDelay, elapsed) == Accepted {
        LocalLeavesCharge(p.workers[p.order[0]], Charge(eta));
      }
    case SendTask =>
      LocalLeavesCharge(p.workers[p.lock.worker], Enqueue);
    case Local(i, l) =>
      LocalLeavesCharge(p.workers[i], l);
    case _ =>
  }

  lemma NextPoolInv(p: Pool, e: PoolEvent)
    requires PoolInv(p) && NextPool(p, e).Some?
    ensures PoolInv(NextPool(p, e).value)
    ensures |NextPool(p, e).value.workers| == |p.workers|
  {
    NextOrderInv(p, e);
    NextAllInv(p, e);
  }

  lemma {:induction false} RunPoolInv(p: Pool, events: seq<PoolEvent>)
    requires PoolInv(p) && RunPool(p, events).Some?
    ensures PoolInv(RunPool(p, events).value)
    ensures |RunPool(p, events).value.workers| == |p.workers|
    decreases |events|
  {
    if events != [] {
      NextPoolInv(p, events[0]);
      RunPoolInv(NextPool(p, events[0]).value, events[1..]);
    }
  }

  /** After every sequence of submissions, completions and cancellations the tree still holds each
      of the n workers exactly once, although their keys change while they are in it. */
  lemma NoWorkerLost(n: nat, events: seq<PoolEvent>)
    requires RunPool(NewPool(n), events).Some?
    ensures var p := RunPool(NewPool(n), events).value;
      && |p.workers| == |p.order| == n
      && (forall i | 0 <= i < n :: multiset(p.order)[i] == 1)
      && (p.lock != Free ==> p.order != [] && p.order[0] == p.lock.worker)
  {
    NewPoolInv(n);
    RunPoolInv(NewPool(n), events);
    var p := RunPool(NewPool(n), events).value;
    PermutesMeans(p.order, n);
    forall i | 0 <= i < n ensures multiset(p.order)[i] == 1 { NumberOnce(n, i); }
  }

  lemma NumberOnce(n: nat, i: nat)
    requires i < n
    ensures multiset(Numbers(n))[i] == 1
  {
    var s := Numbers(n);
    assert s == s[..i] + [i] + s[i + 1..];
    assert i !in s[..i] && i !in s[i + 1..];
  }

  // ---------------------------------------------------------------------------------------
  // Each worker of the pool behaves like a worker on its own
  // ---------------------------------------------------------------------------------------

  lemma {:induction false} RunAppend(w: Worker, first: seq<Event>, e: Event)
    requires Run(w, first).Some?
    ensures Run(w, first + [e]) == Next(Run(w, first).value, e)
    decreases |first|
  {
    if first == [] {
      assert first + [e] == [e] && [e][1..] == [];
    } else {
      assert (first + [e])[1..] == first[1..] + [e];
      RunAppend(Next(w, first[0]).value, first[1..], e);
    }
  }

  /** The step that an event is for worker `i`, if it is one. */
  function StepAt(p: Pool, e: PoolEvent, i: nat): seq<Event> {
    match e
    case Submit(eta, maxDelay, elapsed) =>
      if ReplyTo(p, maxDelay, elapsed) == Accepted && p.order[0] == i then [Charge(eta)] else []
    case SendTask => if p.lock == Charging(i) then [Enqueue] else []
    case Local(k, l) => if k == i then [l] else []
    case _ => []
  }

  lemma StepAtWorks(p: Pool, e: PoolEvent, i: nat)
    requires NextPool(p, e).Some? && i < |p.workers|
    ensures |NextPool(p, e).value.workers| == |p.workers|
    ensures Run(p.workers[i], StepAt(p, e, i)) == Some(NextPool(p, e).value.workers[i])
  {
    var s := StepAt(p, e, i);
    if s != [] {
      assert s == [] + s;
      RunAppend(p.workers[i], [], s[0]);
    }
  }

  lemma {:induction false} Projection(p: Pool, events: seq<PoolEvent>, i: nat,
                                      w: Worker, before: seq<Event>) returns (local: seq<Event>)
    requires RunPool(p, events).Some? && i < |p.workers| && Run(w, before) == Some(p.workers[i])
    ensures |RunPool(p, events).value.workers| == |p.workers|
    ensures Run(w, local) == Some(RunPool(p, events).value.workers[i])
    decreases |events|
  {
    local := before;
    if events != [] {
      var s := StepAt(p, events[0], i);
      StepAtWorks(p, events[0], i);
      if s != [] {
        RunAppend(w, before, s[0]);
        RunAppend(p.workers[i], [], s[0]);
        assert [] + [s[0]] == s;
        local := before + s;
      }
      local := Projection(NextPool(p, events[0]).value, events[1..], i, w, local);
    }
  }

  /** Whatever the rest of the pool does, a worker of the pool is in a state that one worker
      reaches on its own. */
  lemma WorkerRunsAlone(n: nat, events: seq<PoolEvent>, i: nat) returns (local: seq<Event>)
    requires RunPool(NewPool(n), events).Some? && i < n
    ensures |RunPool(NewPool(n), events).value.workers| == n
    ensures Run(Fresh(STAGGER * i), local) == Some(RunPool(NewPool(n), events).value.workers[i])
  {
    local := Projection(NewPool(n), events, i, Fresh(STAGGER * i), []);
  }

  /** Events of worker `i` as events of the pool. */
  function Locals(i: nat, events: seq<Event>): (r: seq<PoolEvent>)
    ensures |r| == |events|
  {
    seq(|events|, k requires 0 <= k < |events| => Local(i, events[k]))
  }

  /** Conversely, what one worker does on its own it can do in the pool. */
  lemma {:induction false} LocalsRun(p: Pool, i: nat, events: seq<Event>, w: Worker)
    requires i < |p.workers| && Run(p.workers[i], events) == Some(w)
    requires forall e | e in events :: !e.Charge? && !e.Enqueue? && (e.Leave? ==> p.ctxDone)
    ensures RunPool(p, Locals(i, events))
         == Some(p.(workers := p.workers[i := w], quiet := p.quiet && forall e | e in events :: !e.Lower?))
    decreases |events|
  {
    if events != [] {
      var e, rest := events[0], events[1..];
      var v := Next(p.workers[i], e).value;
      var q := p.(workers := p.workers[i := v], quiet := p.quiet && !e.Lower?);
      assert events == [e] + rest && e in events;
      assert NextPool(p, Local(i, e)) == Some(q);
      assert Locals(i, events)[0] == Local(i, e) && Locals(i, events)[1..] == Locals(i, rest);
      LocalsRun(q, i, rest, w);
      assert q.workers[i := w] == p.workers[i := w];
    } else {
      assert p.workers[i := w] == p.workers;
    }
  }

  /** So what was proved of single workers holds inside the pool, under every interleaving:
      resolution once a worker has returned, and the bounds on the load that `RunAsync` reads. */
  lemma EveryWorkerResolves(n: nat, events: seq<PoolEvent>, i: nat, elapsed: nat)
    requires RunPool(NewPool(n), events).Some? && i < n
    ensures |RunPool(NewPool(n), events).value.workers| == n
    ensures var w := RunPool(NewPool(n), events).value.workers[i];
      && (w.pc == Returned ==> ResolvedOnce(w))
      && w.eta == STAGGER * i + Outstanding(w)
      && STAGGER * i + Backlog(w) <= EtaWithOngoing(w, elapsed) <= w.eta
  {
    var local := WorkerRunsAlone(n, events, i);
    var w := RunPool(NewPool(n), events).value.workers[i];
    FreshInv(STAGGER * i);
    RunInv(Fresh(STAGGER * i), local);
    RunOffset(Fresh(STAGGER * i), local);
    OngoingBounds(STAGGER * i, local, elapsed);
    if w.pc == Returned { ExactlyOnce(STAGGER * i, local); }
  }

  // ---------------------------------------------------------------------------------------
  // Dispatch while no task completes
  // ---------------------------------------------------------------------------------------

  /** The part of the tree that is in place: all of it, or all but the worker being charged. */
  function Settled(p: Pool): seq<nat> {
    if p.lock == Free || p.order == [] then p.order else p.order[1..]
  }

  ghost predicate QuietInv(p: Pool) {
    p.quiet ==>
      && Greedy(p.placed, |p.workers|)
      && (forall i | 0 <= i < |p.workers| :: p.workers[i].eta == Etas(p.placed, |p.workers|)[i])
      && Sorted(p.workers, Settled(p))
  }

  lemma NewPoolQuiet(n: nat)
    ensures QuietInv(NewPool(n))
  {
  }

  lemma HeadOnlyOnce(order: seq<nat>, n: nat)
    requires Permutes(order, n) && order != []
    ensures order[0] < n && order[0] !in order[1..]
  {
    PermutesMeans(order, n);
    assert order[0] in order;
    NumberOnce(n, order[0]);
    assert order == [order[0]] + order[1..];
    assert multiset(order) == multiset{order[0]} + multiset(order[1..]);
  }

  /** In a sorted tree the leftmost worker has the least eta of all. */
  lemma LeftmostIsLeast(p: Pool, k: nat)
    requires Permutes(p.order, |p.workers|) && Sorted(p.workers, p.order)
    requires p.order != [] && k < |p.workers|
    ensures p.order[0] < |p.workers|
    ensures p.workers[p.order[0]].eta <= p.workers[k].eta
  {
    PermutesMeans(p.order, |p.workers|);
    assert p.order[0] in p.order;
    assert k in p.order;
    var a :| 0 <= a < |p.order| && p.order[a] == k;
  }

  lemma GreedySnoc(placed: seq<Placement>, n: nat, p: Placement)
    requires Greedy(placed, n) && p.worker < n
    requires forall i | 0 <= i < n :: Etas(placed, n)[p.worker] <= Etas(placed, n)[i]
    ensures Greedy(placed + [p], n)
  {
    var all := placed + [p];
    forall j | 0 <= j < |all|
      ensures all[j].worker < n
      ensures forall i | 0 <= i < n :: Etas(all[..j], n)[all[j].worker] <= Etas(all[..j], n)[i]
    {
      assert all[..j] == placed[..j];
      if j == |placed| { assert placed[..j] == placed; }
    }
  }

  lemma SubmitQuiet(p: Pool, eta: nat, maxDelay: int, elapsed: nat)
    requires OrderInv(p) && QuietInv(p) && p.quiet
    requires p.lock == Free && ReplyTo(p, maxDelay, elapsed) == Accepted
    requires NextPool(p, Submit(eta, maxDelay, elapsed)).Some?
    ensures QuietInv(NextPool(p, Submit(eta, maxDelay, elapsed)).value)
  {
    var n, i := |p.workers|, p.order[0];
    forall k | 0 <= k < n ensures Etas(p.placed, n)[i] <= Etas(p.placed, n)[k] {
      LeftmostIsLeast(p, k);
    }
    GreedySnoc(p.placed, n, Placement(i, eta));
    LocalLeavesCharge(p.workers[i], Charge(eta));
    HeadOnlyOnce(p.order, n);
    var q := NextPool(p, Submit(eta, maxDelay, elapsed)).value;
    ChargedEtas(p, q, i, eta);
    SortedTail(p.workers, p.order);
    SameEtasSorted(p.workers, q.workers, p.order[1..]);
  }

  lemma SortedTail(workers: seq<Worker>, order: seq<nat>)
    requires Sorted(workers, order) && order != []
    ensures Sorted(workers, order[1..])
  {
  }

  lemma ChargedEtas(p: Pool, q: Pool, i: nat, eta: nat)
    requires i < |p.workers| == |q.workers| && q.placed == p.placed + [Placement(i, eta)]
    requires forall k | 0 <= k < |p.workers| :: p.workers[k].eta == Etas(p.placed, |p.workers|)[k]
    requires q.workers[i].eta == p.workers[i].eta + eta
    requires forall k | 0 <= k < |p.workers| && k != i :: q.workers[k] == p.workers[k]
    ensures forall k | 0 <= k < |p.workers| :: q.workers[k].eta == Etas(q.placed, |p.workers|)[k]
  {
    EtasSnoc(p.placed, Placement(i, eta), |p.workers|);
  }

  lemma SameEtasSorted(v: seq<Worker>, w: seq<Worker>, order: seq<nat>)
    requires Sorted(v, order) && |v| == |w|
    requires forall k | k in order && k < |v| :: v[k].eta == w[k].eta
    ensures Sorted(w, order)
  {
    forall a, b | 0 <= a < b < |order| && order[a] < |w| && order[b] < |w|
      ensures w[order[a]].eta <= w[order[b]].eta
    {
      assert order[a] in order && order[b] in order;
    }
  }

  /** A step that changes no eta, no placement and not the settled part of the tree. */
  lemma SameEtasQuiet(p: Pool, q: Pool)
    requires QuietInv(p) && (q.quiet ==> p.quiet) && q.placed == p.placed
    requires |q.workers| == |p.workers| && Settled(q) == Settled(p)
    requires q.quiet ==> forall k | 0 <= k < |p.workers| :: q.workers[k].eta == p.workers[k].eta
    ensures QuietInv(q)
  {
    if q.quiet { SameEtasSorted(p.workers, q.workers, Settled(p)); }
  }

  lemma NextPoolQuiet(p: Pool, e: PoolEvent)
    requires OrderInv(p) && QuietInv(p) && NextPool(p, e).Some?
    ensures QuietInv(NextPool(p, e).value)
  {
    var q := NextPool(p, e).value;
    match e
    case Submit(eta, maxDelay, elapsed) =>
      if p.quiet && ReplyTo(p, maxDelay, elapsed) == Accepted {
        SubmitQuiet(p, eta, maxDelay, elapsed);
      }
    case SendTask =>
      LocalLeavesCharge(p.workers[p.lock.worker], Enqueue);
      SameEtasQuiet(p, q);
    case Local(i, l) =>
      LocalLeavesCharge(p.workers[i], l);
      SameEtasQuiet(p, q);
    case _ =>
  }

  lemma {:induction false} RunPoolQuiet(p: Pool, events: seq<PoolEvent>)
    requires PoolInv(p) && QuietInv(p) && RunPool(p, events).Some?
    ensures QuietInv(RunPool(p, events).value)
    decreases |events|
  {
    if events != [] {
      NextPoolInv(p, events[0]);
      NextPoolQuiet(p, events[0]);
      RunPoolQuiet(NextPool(p, events[0]).value, events[1..]);
    }
  }

  /** No event of the run completes a task. */
  ghost predicate NoCompletion(events: seq<PoolEvent>) {
    forall e | e in events :: e.Local? ==> !e.e.Lower?
  }

  lemma {:induction false} QuietRuns(p: Pool, events: seq<PoolEvent>)
    requires RunPool(p, events).Some?
    ensures RunPool(p, events).value.quiet <==> p.quiet && NoCompletion(events)
    decreases |events|
  {
    if events != [] {
      assert events == [events[0]] + events[1..];
      QuietRuns(NextPool(p, events[0]).value, events[1..]);
    }
  }

  /** Along every run without completions, whatever else happens in it, each accepted task went
      to a worker of least eta, and every eta is its offset plus the load placed on it. */
  lemma DispatchIsGreedy(n: nat, events: seq<PoolEvent>)
    requires RunPool(NewPool(n), events).Some? && NoCompletion(events)
    ensures var p := RunPool(NewPool(n), events).value;
      && |p.workers| == n
      && Greedy(p.placed, n)
      && (forall i | 0 <= i < n :: p.workers[i].eta == 1000 * i + Load(p.placed, i))
  {
    NewPoolInv(n);
    NewPoolQuiet(n);
    RunPoolInv(NewPool(n), events);
    RunPoolQuiet(NewPool(n), events);
    QuietRuns(NewPool(n), events);
  }

  /** What is left of the running task's ETA. */
  function Remaining(w: Worker, elapsed: nat): nat {
    if w.ongoing.Some? && elapsed < w.ongoing.value then w.ongoing.value - elapsed else 0
  }

  /** In every reachable state `RunAsync` accepts a task exactly when there is a worker and, if a
      maximum delay is given, the work waiting at the leftmost worker fits into it: its offset,
      its backlog and what remains of the running task. */
  lemma DelayIsHonoured(n: nat, events: seq<PoolEvent>, maxDelay: int, elapsed: nat)
    requires RunPool(NewPool(n), events).Some?
    ensures var p := RunPool(NewPool(n), events).value;
      && |p.workers| == |p.order| == n
      && (ReplyTo(p, maxDelay, elapsed) == ErrWorkerNotFound <==> n == 0)
      && (0 < n ==>
            var i := p.order[0];
            && i < n
            && (ReplyTo(p, maxDelay, elapsed) == Accepted <==>
                  maxDelay == 0 ||
                  STAGGER * i + Backlog(p.workers[i]) + Remaining(p.workers[i], elapsed)
                    <= maxDelay))
  {
    NoWorkerLost(n, events);
    if 0 < n {
      LeftmostIsWorker(n, events);
      var p := RunPool(NewPool(n), events).value;
      EveryWorkerResolves(n, events, p.order[0], elapsed);
      LoadInParts(p.workers[p.order[0]], STAGGER * p.order[0], elapsed);
    }
  }

  lemma LeftmostIsWorker(n: nat, events: seq<PoolEvent>)
    requires RunPool(NewPool(n), events).Some? && 0 < n
    ensures |RunPool(NewPool(n), events).value.order| == n
    ensures RunPool(NewPool(n), events).value.order[0] < n
  {
    NewPoolInv(n);
    RunPoolInv(NewPool(n), events);
    var p := RunPool(NewPool(n), events).value;
    PermutesMeans(p.order, n);
    assert p.order[0] in p.order;
  }

  /** What `RunAsync` compares: the offset, the backlog and what remains of the running task. */
  lemma LoadInParts(w: Worker, offset: nat, elapsed: nat)
    requires w.eta == offset + Outstanding(w)
    ensures EtaWithOngoing(w, elapsed) == offset + Backlog(w) + Remaining(w, elapsed)
  {
  }

  /** While no task has completed, a rejection is right about the whole pool: every worker's eta
      exceeds the maximum delay. */
  lemma RejectionSpeaksForAll(n: nat, events: seq<PoolEvent>, maxDelay: int, elapsed: nat, k: nat)
    requires RunPool(NewPool(n), events).Some? && NoCompletion(events) && k < n
    requires var p := RunPool(NewPool(n), events).value;
      p.lock == Free && ReplyTo(p, maxDelay, elapsed) == ErrWillTakeLonger
    ensures |RunPool(NewPool(n), events).value.workers| == n
    ensures maxDelay < RunPool(NewPool(n), events).value.workers[k].eta
  {
    LeastOfAll(n, events, k);
    EveryWorkerResolves(n, events, RunPool(NewPool(n), events).value.order[0], elapsed);
  }

  lemma LeastOfAll(n: nat, events: seq<PoolEvent>, k: nat)
    requires RunPool(NewPool(n), events).Some? && NoCompletion(events) && k < n
    requires RunPool(NewPool(n), events).value.lock == Free
    ensures var p := RunPool(NewPool(n), events).value;
      && |p.workers| == |p.order| == n
      && p.order[0] < n && p.workers[p.order[0]].eta <= p.workers[k].eta
  {
    NewPoolInv(n);
    NewPoolQuiet(n);
    RunPoolInv(NewPool(n), events);
    RunPoolQuiet(NewPool(n), events);
    QuietRuns(NewPool(n), events);
    var p := RunPool(NewPool(n), events).value;
    PermutesMeans(p.order, n);
    LeftmostIsLeast(p, k);
  }

  /** Any two etas then differ by at most the longest task or the initial stagger. */
  lemma DispatchIsEven(n: nat, events: seq<PoolEvent>, i: nat, j: nat)
    requires RunPool(NewPool(n), events).Some? && NoCompletion(events) && i < n && j < n
    ensures var p := RunPool(NewPool(n), events).value;
      && |p.workers| == n
      && p.workers[i].eta - p.workers[j].eta <= Max(Longest(p.placed), STAGGER * (n - 1))
  {
    DispatchIsGreedy(n, events);
    Spread(RunPool(NewPool(n), events).value.placed, n, i, j);
  }

  /** Graham's bound for the pool: `other` is any assignment of the accepted tasks to the n workers
      and `makespan` its largest load. */
  lemma DispatchIsNearOptimal(n: nat, events: seq<PoolEvent>, i: nat,
                              other: seq<Placement>, makespan: nat)
    requires RunPool(NewPool(n), events).Some? && NoCompletion(events) && i < n
    requires SameTasks(RunPool(NewPool(n), events).value.placed, other) && Within(other, n)
    requires forall k | 0 <= k < n :: Load(other, k) <= makespan
    ensures var p := RunPool(NewPool(n), events).value;
      && |p.workers| == n
      && 2 * n * (p.workers[i].eta - STAGGER * i)
           <= 2 * (2 * n - 1) * makespan + STAGGER * (n * (n - 1))
  {
    DispatchIsGreedy(n, events);
    var p := RunPool(NewPool(n), events).value;
    GrahamBound(p.placed, other, n, i, makespan);
    assert p.workers[i].eta - STAGGER * i == Load(p.placed, i);
  }
}
