/** Progress of the whole balanced pool: every schedule of its workers and managers ends, and
    where. */
module PoolProgress {
  import opened Options
  import opened ListScheduling
  import opened BalancedWorker
  import opened BalancedRuns
  import opened BalancedProgress
  import opened BalancedPool
  import opened BalancedObjects
  import UC = UnlimitedChannel

  // ---------------------------------------------------------------------------------------
  // Every schedule ends
  // ---------------------------------------------------------------------------------------

  function Distances(workers: seq<Worker>): (s: seq<int>)
    ensures |s| == |workers|
  {
    seq(|workers|, i requires 0 <= i < |workers| => Distance(workers[i]))
  }

  /** How many steps of workers and managers a run has, and how many tasks it sends. */
  function OwnLocals(events: seq<PoolEvent>): nat {
    if events == [] then 0
    else (if events[0].Local? && Own(events[0].e, true) then 1 else 0) + OwnLocals(events[1..])
  }

  function Sends(events: seq<PoolEvent>): nat {
    if events == [] then 0 else (if events[0].SendTask? then 1 else 0) + Sends(events[1..])
  }

  lemma AtWorkerCounts(p: Pool, i: nat, e: Event)
    requires AllInv(p.workers) && AtWorker(p, i, e).Some?
    ensures var q := AtWorker(p, i, e).value;
      SumOf(Distances(q.workers)) <= SumOf(Distances(p.workers))
        + (if Own(e, true) then -1 else if e.Enqueue? then 5 else 0)
  {
    var q, d := AtWorker(p, i, e).value, Distances(p.workers);
    EveryStepCounts(p.workers[i], e);
    assert Distances(q.workers) == d[i := Distance(q.workers[i])];
    SumOfUpdate(d, i, Distance(q.workers[i]));
  }

  lemma PoolStepCounts(p: Pool, e: PoolEvent)
    requires AllInv(p.workers) && NextPool(p, e).Some?
    ensures SumOf(Distances(NextPool(p, e).value.workers)) <= SumOf(Distances(p.workers))
      + (if e.Local? && Own(e.e, true) then -1 else if e.SendTask? then 5 else 0)
  {
    match e
    case Submit(eta, maxDelay, elapsed) =>
      if ReplyTo(p, maxDelay, elapsed) == Accepted {
        AtWorkerCounts(p, p.order[0], Charge(eta));
      }
    case SendTask => AtWorkerCounts(p, p.lock.worker, Enqueue);
    case Local(i, l) => AtWorkerCounts(p, i, l);
    case _ =>
  }

  lemma {:induction false} PoolStepsAreCounted(p: Pool, events: seq<PoolEvent>)
    requires AllInv(p.workers) && RunPool(p, events).Some?
    ensures OwnLocals(events) + SumOf(Distances(RunPool(p, events).value.workers))
         <= SumOf(Distances(p.workers)) + 5 * Sends(events)
    decreases |events|
  {
    if events != [] {
      PoolStepCounts(p, events[0]);
      NextAllInv(p, events[0]);
      PoolStepsAreCounted(NextPool(p, events[0]).value, events[1..]);
    }
  }

  /** In every schedule the workers and managers together take at most five steps for each task
      sent and six for each worker. */
  lemma EveryPoolScheduleEnds(n: nat, events: seq<PoolEvent>)
    requires RunPool(NewPool(n), events).Some?
    ensures OwnLocals(events) <= 6 * n + 5 * Sends(events)
  {
    NewPoolInv(n);
    PoolStepsAreCounted(NewPool(n), events);
    NewPoolDistance(n);
    DistanceIsNatural(RunPool(NewPool(n), events).value.workers);
  }

  lemma NewPoolDistance(n: nat)
    ensures SumOf(Distances(NewPool(n).workers)) <= 6 * n
  {
    SumOfAtMost(Distances(NewPool(n).workers), 6);
  }

  lemma DistanceIsNatural(workers: seq<Worker>)
    ensures 0 <= SumOf(Distances(workers))
  {
    SumOfAtLeast(Distances(workers), 0);
  }

  // ---------------------------------------------------------------------------------------
  // The pool lock is released
  // ---------------------------------------------------------------------------------------

  /** A sorted sequence of workers has a place for one more. */
  lemma SortedPlace(workers: seq<Worker>, rest: seq<nat>, i: nat) returns (pos: nat)
    requires Sorted(workers, rest) && i < |workers|
    requires forall k | 0 <= k < |rest| :: rest[k] < |workers|
    ensures pos <= |rest| && Sorted(workers, InsertAt(rest, pos, i))
  {
    pos := 0;
    while pos < |rest| && workers[rest[pos]].eta <= workers[i].eta
      invariant pos <= |rest|
      invariant forall k | 0 <= k < pos :: workers[rest[k]].eta <= workers[i].eta
    {
      pos := pos + 1;
    }
  }

  lemma SendIsPossible(p: Pool)
    requires PoolInv(p) && p.lock.Charging?
    ensures NextPool(p, SendTask).Some?
    ensures NextPool(p, SendTask).value.lock == BalancedPool.Sent(p.lock.worker)
  {
    assert Inv(p.workers[p.lock.worker]);
  }

  lemma ReinsertIsPossible(p: Pool) returns (pos: nat)
    requires OrderInv(p) && p.lock.Sent?
    ensures NextPool(p, Reinsert(pos)).Some?
    ensures NextPool(p, Reinsert(pos)).value.lock == BalancedPool.Free
  {
    var rest := p.order[1..];
    pos := 0;
    if Sorted(p.workers, rest) {
      PermutesMeans(p.order, |p.workers|);
      forall k | 0 <= k < |rest| ensures rest[k] < |p.workers| {
        assert p.order[k + 1] in p.order;
      }
      pos := SortedPlace(p.workers, rest, p.lock.worker);
    }
  }

  /** Whoever holds the pool lock can go on, and gives it back after at most two steps of its own:
      nothing that workers, managers or clients do or leave undone is in the way. */
  lemma LockIsReleased(p: Pool) returns (events: seq<PoolEvent>)
    requires PoolInv(p)
    ensures |events| <= 2 && forall e | e in events :: e.SendTask? || e.Reinsert?
    ensures RunPool(p, events).Some? && RunPool(p, events).value.lock == BalancedPool.Free
  {
    match p.lock
    case Free =>
      events := [];
    case Sent(i) =>
      var pos := ReinsertIsPossible(p);
      events := [Reinsert(pos)];
      RunPoolPath(events, [p, NextPool(p, Reinsert(pos)).value]);
    case Charging(i) =>
      SendIsPossible(p);
      var q := NextPool(p, SendTask).value;
      NextOrderInv(p, SendTask);
      var pos := ReinsertIsPossible(q);
      events := [SendTask, Reinsert(pos)];
      RunPoolPath(events, [p, q, NextPool(q, Reinsert(pos)).value]);
  }

  // ---------------------------------------------------------------------------------------
  // A pool that does not shut down
  // ---------------------------------------------------------------------------------------

  lemma {:induction false} RunPoolAppend(p: Pool, first: seq<PoolEvent>, second: seq<PoolEvent>)
    requires RunPool(p, first).Some?
    ensures RunPool(p, first + second) == RunPool(RunPool(p, first).value, second)
    decreases |first|
  {
    if first == [] {
      assert first + second == second;
    } else {
      assert (first + second)[1..] == first[1..] + second;
      RunPoolAppend(NextPool(p, first[0]).value, first[1..], second);
    }
  }

  /** From every reachable state with a task that was sent, not yet taken, and whose client does not
      receive: after cancellation its worker can block. */
  lemma PoolCanBlock(p: Pool, i: nat, t: nat) returns (events: seq<PoolEvent>)
    requires PoolInv(p) && i < |p.workers|
    requires var w := p.workers[i];
      |w.chan.delivered| <= t < |w.chan.accepted| && t !in w.heard
    ensures RunPool(p, events).Some?
    ensures var q := RunPool(p, events).value;
      && q == p.(ctxDone := true, quiet := q.quiet, workers := q.workers)
      && |q.workers| == |p.workers| && Blocked(q.workers[i])
      && q.workers[i].heard == p.workers[i].heard
      && q.workers[i].chan.accepted == p.workers[i].chan.accepted
      && q.workers[i].chan.delivered == p.workers[i].chan.delivered
  {
    var q := p.(ctxDone := true);
    assert Inv(p.workers[i]);
    var own := CanBlock(p.workers[i], t);
    var w := Run(p.workers[i], own).value;
    LocalsRun(q, i, own, w);
    events := [CancelContext] + Locals(i, own);
    assert events[0] == CancelContext && events[1..] == Locals(i, own);
    assert NextPool(p, CancelContext) == Some(q);
  }

  /** Cancelled, with nobody holding the lock, and worker `i` blocked on its very first task. */
  predicate Abandoned(p: Pool, i: nat)
    requires i < |p.workers|
  {
    var w := p.workers[i];
    p.lock == BalancedPool.Free && p.ctxDone && Blocked(w) && w.pc.rest[0].ticket == 0
  }

  /** A worker that was given no task yet. */
  predicate Unused(w: Worker) {
    Open(w) && |w.signals| == 0 && |w.chan.accepted| == 0 && |w.chan.delivered| == 0 && w.heard == {}
  }

  lemma ReachableInv(n: nat, before: seq<PoolEvent>, p: Pool)
    requires RunPool(NewPool(n), before) == Some(p)
    ensures PoolInv(p)
  {
    NewPoolInv(n);
    RunPoolInv(NewPool(n), before);
  }

  /** In every reachable state with the lock free and an unused worker leftmost: one `RunAsync` whose
      caller drops the channel, a cancellation, and that worker is blocked. */
  lemma DroppedFirstTask(n: nat, before: seq<PoolEvent>, p: Pool, eta: nat)
      returns (events: seq<PoolEvent>)
    requires RunPool(NewPool(n), before) == Some(p)
    requires p.lock == BalancedPool.Free && 0 < |p.order|
    requires p.order[0] < |p.workers| && Unused(p.workers[p.order[0]])
    ensures RunPool(p, events).Some? && |RunPool(p, events).value.workers| == |p.workers|
    ensures Abandoned(RunPool(p, events).value, p.order[0])
  {
    ReachableInv(n, before, p);
    var i := p.order[0];
    var first := AcceptTask(p, eta);
    var r := RunPool(p, first).value;
    var second := PoolCanBlock(r, i, 0);
    events := first + second;
    RunPoolAppend(p, first, second);
    RunPoolInv(r, second);
    BlockedIsUnheard(RunPool(r, second).value.workers[i]);
  }

  lemma NewPoolStarts(n: nat)
    requires 0 < n
    ensures var p := NewPool(n);
      && |p.workers| == |p.order| == n && p.lock == BalancedPool.Free
      && p.order[0] == 0 && Unused(p.workers[0])
  {
  }

  /** So in every new pool with a worker. */
  lemma ShutdownCanBlock(n: nat, eta: nat) returns (events: seq<PoolEvent>)
    requires 0 < n
    ensures RunPool(NewPool(n), events).Some?
    ensures |RunPool(NewPool(n), events).value.workers| == n
    ensures Abandoned(RunPool(NewPool(n), events).value, 0)
  {
    NewPoolStarts(n);
    events := DroppedFirstTask(n, [], NewPool(n), eta);
  }

  /** A worker in its loop whose channel takes in. */
  predicate Open(w: Worker) {
    && w.pc == Looping && w.charged.None? && !w.chan.inClosed && w.chan.outCloses == 0
    && (w.chan.phase == UC.Waiting || w.chan.phase == UC.Selecting)
  }

  /** A worker with one more task. */
  function Loaded(w: Worker, teta: nat): Worker {
    var job := Job(|w.signals|, teta);
    w.(eta := w.eta + teta, signals := w.signals + [[]],
       chan := w.chan.(phase := UC.Selecting, storage := w.chan.storage + [job],
                       accepted := w.chan.accepted + [job]))
  }

  lemma LoadOne(w: Worker, teta: nat) returns (v: Worker)
    requires Open(w)
    ensures Next(w, Charge(teta)) == Some(v) && Next(v, Enqueue) == Some(Loaded(w, teta))
  {
    var job := Job(|w.signals|, teta);
    v := w.(eta := w.eta + teta, charged := Some(job), signals := w.signals + [[]]);
  }

  /** An accepted task at an open leftmost worker, from `Submit` to `Reinsert`. */
  lemma AcceptTask(p: Pool, eta: nat) returns (events: seq<PoolEvent>)
    requires PoolInv(p) && p.lock == BalancedPool.Free && 0 < |p.order|
    requires p.order[0] < |p.workers| && Open(p.workers[p.order[0]])
    ensures RunPool(p, events).Some?
    ensures var q, i := RunPool(p, events).value, p.order[0];
      && PoolInv(q) && q.lock == BalancedPool.Free && |q.workers| == |p.workers|
      && q.workers[i] == Loaded(p.workers[i], eta)
  {
    var v, u := ChargeAndSend(p, eta);
    var pos := ReinsertIsPossible(u);
    events := [Submit(eta, 0, 0), SendTask, Reinsert(pos)];
    RunPoolPath(events, [p, v, u, NextPool(u, Reinsert(pos)).value]);
    RunPoolInv(p, events);
  }

  lemma ChargeAndSend(p: Pool, eta: nat) returns (v: Pool, u: Pool)
    requires OrderInv(p) && p.lock == BalancedPool.Free && 0 < |p.order|
    requires p.order[0] < |p.workers| && Open(p.workers[p.order[0]])
    ensures NextPool(p, Submit(eta, 0, 0)) == Some(v) && NextPool(v, SendTask) == Some(u)
    ensures OrderInv(u) && |u.workers| == |p.workers| && u.lock == BalancedPool.Sent(p.order[0])
    ensures u.workers[p.order[0]] == Loaded(p.workers[p.order[0]], eta)
  {
    var i, loaded := p.order[0], Loaded(p.workers[p.order[0]], eta);
    var w := LoadOne(p.workers[i], eta);
    SubmitStep(p, eta, 0, 0, i, w);
    v := Submitted(p, eta, i, w);
    SendStep(v, i, loaded);
    u := v.(workers := v.workers[i := loaded], lock := BalancedPool.Sent(i));
    NextOrderInv(p, Submit(eta, 0, 0));
    NextOrderInv(v, SendTask);
  }

  // ---------------------------------------------------------------------------------------
  // Where it ends
  // ---------------------------------------------------------------------------------------

  /** No worker leaves its loop before the context is cancelled. */
  ghost predicate LoopInv(p: Pool) {
    !p.ctxDone ==> forall i | 0 <= i < |p.workers| :: InLoop(p.workers[i])
  }

  lemma LoopStep(w: Worker, e: Event)
    requires InLoop(w) && Next(w, e).Some? && !e.Leave?
    ensures InLoop(Next(w, e).value)
  {
  }

  lemma NextLoopInv(p: Pool, e: PoolEvent)
    requires LoopInv(p) && NextPool(p, e).Some?
    ensures LoopInv(NextPool(p, e).value)
  {
    var q := NextPool(p, e).value;
    if !q.ctxDone {
      forall i | 0 <= i < |q.workers| ensures InLoop(q.workers[i]) {
        StepAtWorks(p, e, i);
        if q.workers[i] != p.workers[i] {
          match e
          case Submit(eta, _, _) => LoopStep(p.workers[i], Charge(eta));
          case SendTask => LoopStep(p.workers[i], Enqueue);
          case Local(_, l) => LoopStep(p.workers[i], l);
          case _ =>
        }
      }
    }
  }

  lemma {:induction false} RunLoopInv(p: Pool, events: seq<PoolEvent>)
    requires LoopInv(p) && RunPool(p, events).Some?
    ensures LoopInv(RunPool(p, events).value)
    decreases |events|
  {
    if events != [] {
      NextLoopInv(p, events[0]);
      RunLoopInv(NextPool(p, events[0]).value, events[1..]);
    }
  }

  /** Worker `i` and its manager have no step left. */
  ghost predicate Quiet(p: Pool, i: nat) {
    forall e: Event | Own(e, true) :: NextPool(p, Local(i, e)).None?
  }

  /** Every accepted task has run and has its `finished` channel closed, without a value. */
  ghost predicate AllDone(w: Worker) {
    && w.ran == w.chan.accepted
    && forall t | 0 <= t < |w.chan.accepted| :: t < |w.signals| && w.signals[t] == [Closed]
  }

  lemma QuietIsHalted(p: Pool, i: nat)
    requires i < |p.workers|
    ensures Quiet(p, i) <==> Halted(p.workers[i], p.ctxDone)
  {
    if Quiet(p, i) {
      forall e: Event | Own(e, p.ctxDone) ensures Next(p.workers[i], e).None? {
        assert NextPool(p, Local(i, e)).None?;
      }
    }
    if Halted(p.workers[i], p.ctxDone) {
      forall e: Event | Own(e, true) ensures NextPool(p, Local(i, e)).None? {
        if Own(e, p.ctxDone) { assert Next(p.workers[i], e).None?; }
      }
    }
  }

  /** In every reachable state: before cancellation a worker has no step left exactly when all tasks
      it accepted have run and been closed; afterwards, exactly when it has returned or is blocked
      on a client who does not receive. */
  lemma QuietExactly(n: nat, events: seq<PoolEvent>, i: nat)
    requires RunPool(NewPool(n), events).Some? && i < n
    ensures |RunPool(NewPool(n), events).value.workers| == n
    ensures var p := RunPool(NewPool(n), events).value;
      var w := p.workers[i];
      Quiet(p, i) <==> if p.ctxDone then w.pc == Returned || Blocked(w) else AllDone(w)
  {
    NewPoolInv(n);
    RunPoolInv(NewPool(n), events);
    RunLoopInv(NewPool(n), events);
    var p := RunPool(NewPool(n), events).value;
    QuietIsHalted(p, i);
    if p.ctxDone { HaltedExactly(p.workers[i], true); } else { IdleExactly(p.workers[i]); }
  }
}
