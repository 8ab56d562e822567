/** What a rejection by `RunAsync`, which asks the leftmost worker only, says about the others. */
module Rejections {
  import opened Options
  import opened ListScheduling
  import opened BalancedWorker
  import opened BalancedRuns
  import opened BalancedPool
  import opened PoolProgress
  import opened BalancedObjects
  import UC = UnlimitedChannel

  /** How far a worker is into the ETA of its running task. */
  function Progress(w: Worker, elapsed: nat): nat {
    if w.ongoing.None? then 0
    else if w.ongoing.value < elapsed then w.ongoing.value else elapsed
  }

  /** While no task has completed, a rejection is right about every worker that is not further into
      its running task than the leftmost one: `RunAsync` would reject the task there, too. */
  lemma RejectionSpeaksForLessAdvanced(n: nat, events: seq<PoolEvent>, maxDelay: int,
                                       elapsed: nat, k: nat, elapsedThere: nat)
    requires RunPool(NewPool(n), events).Some? && NoCompletion(events) && k < n
    requires var p := RunPool(NewPool(n), events).value;
      && p.lock == Free && ReplyTo(p, maxDelay, elapsed) == ErrWillTakeLonger
      && k < |p.workers|
      && Progress(p.workers[k], elapsedThere) <= Progress(p.workers[p.order[0]], elapsed)
    ensures maxDelay
         < EtaWithOngoing(RunPool(NewPool(n), events).value.workers[k], elapsedThere)
  {
    LeastOfAll(n, events, k);
  }

  /** `RunAsync` would reject the task if it asked this worker. */
  predicate Rejects(w: Worker, maxDelay: int, elapsed: nat) {
    maxDelay != 0 && maxDelay < EtaWithOngoing(w, elapsed)
  }

  lemma LeftmostRejects(p: Pool, maxDelay: int, elapsed: nat)
    requires p.order != [] && p.order[0] < |p.workers|
    ensures ReplyTo(p, maxDelay, elapsed) == ErrWillTakeLonger
      <==> Rejects(p.workers[p.order[0]], maxDelay, elapsed)
  {
  }

  lemma LoadIsNatural(n: nat, events: seq<PoolEvent>, i: nat, elapsed: nat)
    requires RunPool(NewPool(n), events).Some? && i < n
    ensures |RunPool(NewPool(n), events).value.workers| == n
    ensures 0 <= EtaWithOngoing(RunPool(NewPool(n), events).value.workers[i], elapsed)
  {
    var local := WorkerRunsAlone(n, events, i);
    OngoingBounds(STAGGER * i, local, elapsed);
  }

  /** The exact threshold, in every reachable state and whatever has completed: worker `k` rejects
      whatever the leftmost worker rejects if and only if it is further into its running task by no
      more than its eta is larger. Only a load of at most one nanosecond rejects nothing that
      matters, as a maximum delay of zero means none. */
  lemma RejectsAlikeExactly(n: nat, events: seq<PoolEvent>, elapsed: nat, k: nat, elapsedThere: nat)
    requires RunPool(NewPool(n), events).Some? && k < n
    ensures var p := RunPool(NewPool(n), events).value;
      && |p.workers| == |p.order| == n && p.order[0] < n
      && var least, other := p.workers[p.order[0]], p.workers[k];
         (forall maxDelay | Rejects(least, maxDelay, elapsed) ::
            Rejects(other, maxDelay, elapsedThere))
         <==>
         || EtaWithOngoing(least, elapsed) <= 1
         || Progress(other, elapsedThere) - Progress(least, elapsed) <= other.eta - least.eta
  {
    LeftmostIsWorker(n, events);
    var p := RunPool(NewPool(n), events).value;
    LoadIsNatural(n, events, p.order[0], elapsed);
    LoadIsNatural(n, events, k, elapsedThere);
    SameThreshold(p.workers[p.order[0]], elapsed, p.workers[k], elapsedThere);
  }

  lemma SameThreshold(v: Worker, elapsed: nat, w: Worker, elapsedThere: nat)
    requires 0 <= EtaWithOngoing(v, elapsed) && 0 <= EtaWithOngoing(w, elapsedThere)
    ensures (forall maxDelay | Rejects(v, maxDelay, elapsed) :: Rejects(w, maxDelay, elapsedThere))
      <==>
      || EtaWithOngoing(v, elapsed) <= 1
      || Progress(w, elapsedThere) - Progress(v, elapsed) <= w.eta - v.eta
  {
    var load := EtaWithOngoing(v, elapsed);
    if load > 1 && EtaWithOngoing(w, elapsedThere) < load {
      assert Rejects(v, load - 1, elapsed) && !Rejects(w, load - 1, elapsedThere);
    }
  }

  // ---------------------------------------------------------------------------------------
  // A worker that is further may accept what the leftmost one rejects
  // ---------------------------------------------------------------------------------------

  /** An accepted task, from `Submit` to `Reinsert`. */
  function Accepting(teta: nat, pos: nat): seq<PoolEvent> {
    [Submit(teta, 0, 0), SendTask, Reinsert(pos)]
  }

  /** The pool of two after the task: worker `i` is leftmost, and `order` is the new tree. */
  lemma AcceptOne(p: Pool, teta: nat, pos: nat, i: nat, order: seq<nat>)
    requires p.lock == Free && |p.workers| == 2 && |p.order| == 2 && p.order[0] == i < 2
    requires pos <= 1 && order == InsertAt(p.order[1..], pos, i)
    requires Open(p.workers[i])
    requires var all := p.workers[i := Loaded(p.workers[i], teta)]; Sorted(all, order)
    ensures RunPool(p, Accepting(teta, pos)) == Some(Pool(
      p.workers[i := Loaded(p.workers[i], teta)], order, Free, p.ctxDone, p.quiet,
      p.placed + [Placement(i, teta)]))
  {
    var w := p.workers[i];
    var v := LoadOne(w, teta);
    var p1 := Submitted(p, teta, i, v);
    var p2 := p1.(workers := p.workers[i := Loaded(w, teta)], lock := BalancedPool.Sent(i));
    SubmitStep(p, teta, 0, 0, i, v);
    assert p1.workers[i := Loaded(w, teta)] == p2.workers;
    SendStep(p1, i, Loaded(w, teta));
    ReinsertStep(p2, pos, i);
    RunPoolPath(Accepting(teta, pos), [p, p1, p2, p2.(order := order, lock := Free)]);
  }

  /** A worker that has marked its oldest task as running. */
  function Started(w: Worker): Worker
    requires w.chan.storage != []
  {
    var c, job := w.chan, w.chan.storage[0];
    w.(pc := Marked(job), ongoing := Some(job.eta),
       chan := c.(phase := if |c.storage| == 1 then UC.Waiting else UC.Selecting,
                  storage := c.storage[1..], delivered := c.delivered + [job]))
  }

  lemma StartOne(p: Pool, i: nat)
    requires i < |p.workers| && Open(p.workers[i])
    requires p.workers[i].chan.phase == UC.Selecting && p.workers[i].chan.storage != []
    ensures RunPool(p, Locals(i, [Take, Mark]))
         == Some(p.(workers := p.workers[i := Started(p.workers[i])]))
  {
    var w := p.workers[i];
    var v := Next(w, Take).value;
    assert Next(w, Take) == Some(v) && Next(v, Mark) == Some(Started(w));
    RunPath([Take, Mark], [w, v, Started(w)]);
    LocalsRun(p, i, [Take, Mark], Started(w));
  }

  /** Two workers and three accepted tasks, nothing completed. */
  function Duo(a: Worker, b: Worker, order: seq<nat>, placed: seq<Placement>): Pool {
    Pool([a, b], order, Free, false, true, placed)
  }

  const SHORT := Loaded(Fresh(0), 2000)
  const LONG := Loaded(Fresh(1000), 20000)
  const TWO := [Placement(0, 2000), Placement(1, 20000)]
  const THREE := TWO + [Placement(0, 8000)]

  lemma FirstTask()
    ensures RunPool(NewPool(2), Accepting(2000, 1))
         == Some(Duo(SHORT, Fresh(1000), [1, 0], [Placement(0, 2000)]))
  {
    var p := NewPool(2);
    assert p == Duo(Fresh(0), Fresh(1000), [0, 1], []);
    AcceptOne(p, 2000, 1, 0, [1, 0]);
    assert p.workers[0 := SHORT] == [SHORT, Fresh(1000)];
    assert p.placed + [Placement(0, 2000)] == [Placement(0, 2000)];
  }

  lemma SecondTask()
    ensures RunPool(Duo(SHORT, Fresh(1000), [1, 0], [Placement(0, 2000)]), Accepting(20000, 1))
         == Some(Duo(SHORT, LONG, [0, 1], TWO))
  {
    var p := Duo(SHORT, Fresh(1000), [1, 0], [Placement(0, 2000)]);
    AcceptOne(p, 20000, 1, 1, [0, 1]);
    assert p.workers[1 := LONG] == [SHORT, LONG];
    assert p.placed + [Placement(1, 20000)] == TWO;
  }

  lemma ThirdTask()
    ensures RunPool(Duo(SHORT, LONG, [0, 1], TWO), Accepting(8000, 0))
         == Some(Duo(Loaded(SHORT, 8000), LONG, [0, 1], THREE))
  {
    var p := Duo(SHORT, LONG, [0, 1], TWO);
    AcceptOne(p, 8000, 0, 0, [0, 1]);
    assert p.workers[0 := Loaded(SHORT, 8000)] == [Loaded(SHORT, 8000), LONG];
  }

  lemma BothStart()
    ensures RunPool(Duo(Loaded(SHORT, 8000), LONG, [0, 1], THREE),
                    Locals(0, [Take, Mark]) + Locals(1, [Take, Mark]))
         == Some(Duo(Started(Loaded(SHORT, 8000)), Started(LONG), [0, 1], THREE))
  {
    var a := Loaded(SHORT, 8000);
    var p, q := Duo(a, LONG, [0, 1], THREE), Duo(Started(a), LONG, [0, 1], THREE);
    StartOne(p, 0);
    assert p.workers[0 := Started(a)] == q.workers;
    RunPoolAppend(p, Locals(0, [Take, Mark]), Locals(1, [Take, Mark]));
    StartOne(q, 1);
    assert q.workers[1 := Started(LONG)] == [Started(a), Started(LONG)];
  }

  function Crossing(): seq<PoolEvent> {
    Accepting(2000, 1) + (Accepting(20000, 1) + (Accepting(8000, 0)
      + (Locals(0, [Take, Mark]) + Locals(1, [Take, Mark]))))
  }

  lemma CrossingRuns()
    ensures RunPool(NewPool(2), Crossing())
         == Some(Duo(Started(Loaded(SHORT, 8000)), Started(LONG), [0, 1], THREE))
  {
    var starts := Locals(0, [Take, Mark]) + Locals(1, [Take, Mark]);
    FirstTask();
    SecondTask();
    ThirdTask();
    BothStart();
    RunPoolAppend(Duo(SHORT, LONG, [0, 1], TWO), Accepting(8000, 0), starts);
    RunPoolAppend(Duo(SHORT, Fresh(1000), [1, 0], [Placement(0, 2000)]),
                  Accepting(20000, 1), Accepting(8000, 0) + starts);
    RunPoolAppend(NewPool(2), Accepting(2000, 1),
                  Accepting(20000, 1) + (Accepting(8000, 0) + starts));
  }

  /** With two workers: one has a short task that overruns and another one behind it, the other
      worker is well into a long one. A task is rejected, nothing has completed, and at the same
      moment the other worker would have accepted it. */
  lemma RejectionMissesAnother()
    ensures RunPool(NewPool(2), Crossing()).Some? && NoCompletion(Crossing())
    ensures var p := RunPool(NewPool(2), Crossing()).value;
      && p.lock == Free && |p.workers| == 2
      && ReplyTo(p, 6000, 16000) == ErrWillTakeLonger
      && EtaWithOngoing(p.workers[1], 16000) <= 6000
  {
    CrossingRuns();
    QuietRuns(NewPool(2), Crossing());
  }
}
