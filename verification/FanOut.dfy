/** `Fan.Out` and `Fan.In` of fan/fan.go over the bounded pool of pool/pool.go: the submitting
    goroutine, the workers it spawns, the unbuffered task channel, close and cancellation. */
module FanOut {
  import opened Options

  /** What a fan is asked to do: apply `fn` to every item with at most `size` workers, or with one
      worker per task when `size` is 0. */
  datatype Work<!I, O, E> = Work(items: seq<I>, fn: I -> (O, E), size: int)

  /** A worker in its select, or inside the task of an index: before `fn`, after `fn`, after the
      write of the result. */
  datatype WorkerPc<O, E> =
    | Idle
    | Holding(index: nat)
    | Called(index: nat, result: (O, E))
    | HalfWritten(index: nat, result: (O, E))
    | Gone

  /** The goroutine that calls `Out` and then `In`. */
  datatype Caller = Submitting(index: nat) | Sending(index: nat) | Waiting | Back(failed: bool)

  /** `calls` counts the calls of `fn` per index. */
  datatype Fan<O, E> = Fan(
    caller: Caller, count: nat, workers: seq<WorkerPc<O, E>>, cancelled: bool,
    results: seq<Option<O>>, errors: seq<Option<E>>, calls: seq<nat>)

  datatype Event =
    | StartRun                // Pool.Run up to the send: maybe spawn a worker
    | Handoff(worker: nat)    // the rendezvous on p.tasks
    | CallFn(worker: nat) | WriteResult(worker: nat) | WriteError(worker: nat)
    | CloseTasks              // UntilFinished
    | ExitClosed(worker: nat) | ExitCancelled(worker: nat)
    | Finish                  // all workers are gone: In returns nil
    | GiveUp                  // In sees the cancelled context
    | Cancel

  function Start<I, O, E>(job: Work<I, O, E>): Fan<O, E> {
    var n := |job.items|;
    Fan(Submitting(0), 0, [], false, seq(n, _ => None), seq(n, _ => None), seq(n, _ => 0))
  }

  function At<O, E>(f: Fan<O, E>, w: nat): WorkerPc<O, E> {
    if w < |f.workers| then f.workers[w] else Gone
  }

  function Set<O, E>(f: Fan<O, E>, w: nat, pc: WorkerPc<O, E>): Fan<O, E> {
    if w < |f.workers| then f.(workers := f.workers[w := pc]) else f
  }

  function Next<I, O, E>(job: Work<I, O, E>, f: Fan<O, E>, e: Event): Option<Fan<O, E>> {
    match e
    case StartRun =>
      if !f.caller.Submitting? || |job.items| <= f.caller.index then None
      else
        var g := f.(caller := Sending(f.caller.index));
        if f.count < job.size || job.size == 0
        then Some(g.(count := f.count + 1, workers := f.workers + [Idle])) else Some(g)
    case Handoff(w) =>
      if !f.caller.Sending? || At(f, w) != Idle then None
      else Some(Set(f, w, Holding(f.caller.index)).(caller := Submitting(f.caller.index + 1)))
    case CallFn(w) =>
      if !At(f, w).Holding? || |job.items| <= At(f, w).index || |f.calls| <= At(f, w).index
      then None
      else
        var i := At(f, w).index;
        Some(Set(f, w, Called(i, job.fn(job.items[i]))).(calls := f.calls[i := f.calls[i] + 1]))
    case WriteResult(w) =>
      if !At(f, w).Called? || |f.results| <= At(f, w).index then None
      else
        var i, r := At(f, w).index, At(f, w).result;
        Some(Set(f, w, HalfWritten(i, r)).(results := f.results[i := Some(r.0)]))
    case WriteError(w) =>
      if !At(f, w).HalfWritten? || |f.errors| <= At(f, w).index then None
      else
        var i, r := At(f, w).index, At(f, w).result;
        Some(Set(f, w, Idle).(errors := f.errors[i := Some(r.1)]))
    case CloseTasks =>
      if f.caller != Submitting(|job.items|) then None else Some(f.(caller := Waiting))
    case ExitClosed(w) =>
      if At(f, w) != Idle || !(f.caller.Waiting? || f.caller.Back?) then None
      else Some(Set(f, w, Gone))
    case ExitCancelled(w) =>
      if At(f, w) != Idle || !f.cancelled then None else Some(Set(f, w, Gone))
    case Finish =>
      if !f.caller.Waiting? || !AllGone(f) then None else Some(f.(caller := Back(false)))
    case GiveUp =>
      if !f.caller.Waiting? || !f.cancelled then None else Some(f.(caller := Back(true)))
    case Cancel =>
      if f.cancelled then None else Some(f.(cancelled := true))
  }

  predicate AllGone<O, E>(f: Fan<O, E>) {
    forall w | 0 <= w < |f.workers| :: f.workers[w].Gone?
  }

  function Run<I, O, E>(job: Work<I, O, E>, f: Fan<O, E>, events: seq<Event>): Option<Fan<O, E>>
    decreases |events|
  {
    if events == [] then Some(f)
    else
      var next := Next(job, f, events[0]);
      if next.None? then None else Run(job, next.value, events[1..])
  }

  /** A run from state to state. */
  lemma {:induction false} RunPath<I, O, E>(job: Work<I, O, E>, events: seq<Event>,
                                            states: seq<Fan<O, E>>)
    requires |states| == |events| + 1
    requires forall k | 0 <= k < |events| :: Next(job, states[k], events[k]) == Some(states[k + 1])
    ensures Run(job, states[0], events) == Some(states[|events|])
    decreases |events|
  {
    if events != [] { RunPath(job, events[1..], states[1..]); }
  }

  lemma {:induction false} RunAppend<I, O, E>(job: Work<I, O, E>, f: Fan<O, E>, first: seq<Event>,
                                              second: seq<Event>)
    requires Run(job, f, first).Some?
    ensures Run(job, f, first + second) == Run(job, Run(job, f, first).value, second)
    decreases |first|
  {
    if first == [] {
      assert first + second == second;
    } else {
      assert (first + second)[1..] == first[1..] + second;
      RunAppend(job, Next(job, f, first[0]).value, first[1..], second);
    }
  }

  lemma RunMore<I, O, E>(job: Work<I, O, E>, f: Fan<O, E>, first: seq<Event>, g: Fan<O, E>,
                         second: seq<Event>, h: Fan<O, E>)
    requires Run(job, f, first) == Some(g) && Run(job, g, second) == Some(h)
    ensures Run(job, f, first + second) == Some(h)
  {
    RunAppend(job, f, first, second);
  }

  /** A run prolonged by one step. */
  lemma RunSnoc<I, O, E>(job: Work<I, O, E>, f: Fan<O, E>, first: seq<Event>, g: Fan<O, E>, e: Event)
    requires Run(job, f, first) == Some(g) && Next(job, g, e).Some?
    ensures Run(job, f, first + [e]) == Next(job, g, e)
  {
    RunAppend(job, f, first, [e]);
    RunPath(job, [e], [g, Next(job, g, e).value]);
  }

  // ---------------------------------------------------------------------------------------
  // Invariant
  // ---------------------------------------------------------------------------------------

  /** How many tasks have been handed to workers. */
  function HandedOver<I, O, E>(job: Work<I, O, E>, f: Fan<O, E>): nat {
    match f.caller
    case Submitting(i) => i
    case Sending(i) => i
    case _ => |job.items|
  }

  predicate Inside<O, E>(pc: WorkerPc<O, E>) {
    pc.Holding? || pc.Called? || pc.HalfWritten?
  }

  /** What the books say of index `i` while a worker is at `pc` in its task. */
  ghost predicate TaskBooks<I, O, E>(job: Work<I, O, E>, f: Fan<O, E>, pc: WorkerPc<O, E>)
    requires Inside(pc)
    requires |f.results| == |f.errors| == |f.calls| == |job.items|
  {
    && pc.index < HandedOver(job, f) && pc.index < |job.items|
    && f.calls[pc.index] == (if pc.Holding? then 0 else 1)
    && (!pc.Holding? ==> pc.result == job.fn(job.items[pc.index]))
    && f.results[pc.index] == (if pc.HalfWritten? then Some(pc.result.0) else None)
    && f.errors[pc.index] == None
  }

  ghost predicate Untouched<O, E>(f: Fan<O, E>, i: nat)
    requires i < |f.results| == |f.errors| == |f.calls|
  {
    f.calls[i] == 0 && f.results[i] == None && f.errors[i] == None
  }

  /** `fn` was called once on item `i` and both of its results are in place. */
  ghost predicate Mapped<I, O, E>(job: Work<I, O, E>, f: Fan<O, E>, i: nat)
    requires i < |f.results| == |f.errors| == |f.calls| == |job.items|
  {
    && f.calls[i] == 1
    && f.results[i] == Some(job.fn(job.items[i]).0)
    && f.errors[i] == Some(job.fn(job.items[i]).1)
  }

  ghost predicate HeldBy<O, E>(f: Fan<O, E>, i: nat) {
    exists w | 0 <= w < |f.workers| :: Inside(f.workers[w]) && f.workers[w].index == i
  }

  ghost predicate Shape<I, O, E>(job: Work<I, O, E>, f: Fan<O, E>) {
    && |f.results| == |f.errors| == |f.calls| == |job.items|
    && HandedOver(job, f) <= |job.items|
    && (f.caller.Sending? ==> f.caller.index < |job.items|)
    && f.count == |f.workers|
    && (0 < job.size ==> |f.workers| <= job.size)
    && (0 <= job.size && f.caller.Sending? ==> f.workers != [])
    && (!f.cancelled && (f.caller.Submitting? || f.caller.Sending?) ==>
          forall w | 0 <= w < |f.workers| :: !f.workers[w].Gone?)
    && (f.caller == Back(false) ==> AllGone(f))
    && (f.caller == Back(true) ==> f.cancelled)
  }

  ghost predicate TasksInv<I, O, E>(job: Work<I, O, E>, f: Fan<O, E>)
    requires |f.results| == |f.errors| == |f.calls| == |job.items|
  {
    forall w | 0 <= w < |f.workers| && Inside(f.workers[w]) :: TaskBooks(job, f, f.workers[w])
  }

  ghost predicate Distinct<O, E>(f: Fan<O, E>) {
    forall v, w | 0 <= v < w < |f.workers| && Inside(f.workers[v]) && Inside(f.workers[w]) ::
      f.workers[v].index != f.workers[w].index
  }

  ghost predicate Covered<I, O, E>(job: Work<I, O, E>, f: Fan<O, E>)
    requires |f.results| == |f.errors| == |f.calls| == |job.items|
  {
    forall i | 0 <= i < |job.items| ::
      if HandedOver(job, f) <= i then Untouched(f, i) else HeldBy(f, i) || Mapped(job, f, i)
  }

  ghost predicate Inv<I, O, E>(job: Work<I, O, E>, f: Fan<O, E>) {
    Shape(job, f) && TasksInv(job, f) && Distinct(f) && Covered(job, f)
  }

  lemma StartInv<I, O, E>(job: Work<I, O, E>)
    ensures Inv(job, Start(job))
  {
  }

  lemma ShapeKept<I, O, E>(job: Work<I, O, E>, f: Fan<O, E>, e: Event)
    requires Shape(job, f) && Next(job, f, e).Some?
    ensures Shape(job, Next(job, f, e).value)
  {
  }

  /** The worker that an event moves. */
  function Mover(e: Event): Option<nat> {
    match e
    case Handoff(w) => Some(w)
    case CallFn(w) => Some(w)
    case WriteResult(w) => Some(w)
    case WriteError(w) => Some(w)
    case ExitClosed(w) => Some(w)
    case ExitCancelled(w) => Some(w)
    case _ => None
  }

  /** Only the mover changes, and only inside its own task; a spawned worker is idle. */
  lemma OthersStay<I, O, E>(job: Work<I, O, E>, f: Fan<O, E>, e: Event)
    requires Next(job, f, e).Some?
    ensures var g := Next(job, f, e).value;
      && |f.workers| <= |g.workers|
      && (forall w | 0 <= w < |f.workers| && Mover(e) != Some(w) :: g.workers[w] == f.workers[w])
      && (forall w | |f.workers| <= w < |g.workers| :: g.workers[w] == Idle)
      && (Mover(e).Some? ==> Mover(e).value < |f.workers|)
      && (Mover(e).Some? && Inside(f.workers[Mover(e).value])
            && Inside(g.workers[Mover(e).value]) ==>
              g.workers[Mover(e).value].index == f.workers[Mover(e).value].index)
  {
  }

  lemma DistinctKept<I, O, E>(job: Work<I, O, E>, f: Fan<O, E>, e: Event)
    requires Inv(job, f) && Next(job, f, e).Some?
    ensures Distinct(Next(job, f, e).value)
  {
    OthersStay(job, f, e);
    var g := Next(job, f, e).value;
    forall v, w | 0 <= v < w < |g.workers| && Inside(g.workers[v]) && Inside(g.workers[w])
      ensures g.workers[v].index != g.workers[w].index
    {
      if e.Handoff? {
        assert forall u | 0 <= u < |f.workers| && Inside(f.workers[u]) ::
          TaskBooks(job, f, f.workers[u]);
      }
    }
  }

  /** Books of a task that the event does not move. */
  lemma OtherTaskKept<I, O, E>(job: Work<I, O, E>, f: Fan<O, E>, e: Event, w: nat)
    requires Inv(job, f) && Next(job, f, e).Some? && Shape(job, Next(job, f, e).value)
    requires w < |f.workers| && Inside(f.workers[w]) && Mover(e) != Some(w)
    ensures TaskBooks(job, Next(job, f, e).value, f.workers[w])
  {
    OthersStay(job, f, e);
    assert TaskBooks(job, f, f.workers[w]);
  }

  lemma TasksKept<I, O, E>(job: Work<I, O, E>, f: Fan<O, E>, e: Event)
    requires Inv(job, f) && Next(job, f, e).Some?
    ensures Shape(job, Next(job, f, e).value) && TasksInv(job, Next(job, f, e).value)
  {
    ShapeKept(job, f, e);
    OthersStay(job, f, e);
    var g := Next(job, f, e).value;
    forall w | 0 <= w < |g.workers| && Inside(g.workers[w])
      ensures TaskBooks(job, g, g.workers[w])
    {
      if Mover(e) != Some(w) {
        OtherTaskKept(job, f, e, w);
      } else if !e.Handoff? {
        assert TaskBooks(job, f, f.workers[w]);
      } else {
        assert Untouched(f, f.caller.index);
      }
    }
  }

  lemma CoveredKept<I, O, E>(job: Work<I, O, E>, f: Fan<O, E>, e: Event)
    requires Inv(job, f) && Next(job, f, e).Some?
    ensures Shape(job, Next(job, f, e).value) && Covered(job, Next(job, f, e).value)
  {
    ShapeKept(job, f, e);
    OthersStay(job, f, e);
    var g := Next(job, f, e).value;
    forall i | 0 <= i < |job.items|
      ensures if HandedOver(job, g) <= i then Untouched(g, i) else HeldBy(g, i) || Mapped(job, g, i)
    {
      IndexKept(job, f, e, i);
    }
  }

  lemma IndexKept<I, O, E>(job: Work<I, O, E>, f: Fan<O, E>, e: Event, i: nat)
    requires Inv(job, f) && Next(job, f, e).Some? && Shape(job, Next(job, f, e).value)
    requires i < |job.items|
    ensures var g := Next(job, f, e).value;
      if HandedOver(job, g) <= i then Untouched(g, i) else HeldBy(g, i) || Mapped(job, g, i)
  {
    OthersStay(job, f, e);
    var g := Next(job, f, e).value;
    if Mover(e).Some? && Inside(f.workers[Mover(e).value]) {
      assert TaskBooks(job, f, f.workers[Mover(e).value]);
    }
    if i < HandedOver(job, f) {
      if HeldBy(f, i) {
        var w :| 0 <= w < |f.workers| && Inside(f.workers[w]) && f.workers[w].index == i;
        assert g.workers[w] == g.workers[w];
      }
    } else if HandedOver(job, g) <= i {
      assert Untouched(f, i);
    } else {
      assert Inside(g.workers[e.worker]) && g.workers[e.worker].index == i;
    }
  }

  lemma NextInv<I, O, E>(job: Work<I, O, E>, f: Fan<O, E>, e: Event)
    requires Inv(job, f) && Next(job, f, e).Some?
    ensures Inv(job, Next(job, f, e).value)
  {
    TasksKept(job, f, e);
    DistinctKept(job, f, e);
    CoveredKept(job, f, e);
  }

  lemma {:induction false} RunInv<I, O, E>(job: Work<I, O, E>, f: Fan<O, E>, events: seq<Event>)
    requires Inv(job, f) && Run(job, f, events).Some?
    ensures Inv(job, Run(job, f, events).value)
    decreases |events|
  {
    if events != [] {
      NextInv(job, f, events[0]);
      RunInv(job, Next(job, f, events[0]).value, events[1..]);
    }
  }

  // ---------------------------------------------------------------------------------------
  // The fan is a map
  // ---------------------------------------------------------------------------------------

  /** Once `In` is back without an error, nothing is left in the hands of workers. */
  lemma BackMeansMapped<I, O, E>(job: Work<I, O, E>, f: Fan<O, E>)
    requires Inv(job, f) && f.caller == Back(false)
    ensures forall i | 0 <= i < |job.items| :: Mapped(job, f, i)
  {
  }

  /** For every worker count, schedule and cancellation point: if `In` returns no error then `fn`
      was called exactly once per item and every result and error is in its place. */
  lemma FanRefinesMap<I, O, E>(job: Work<I, O, E>, events: seq<Event>)
    requires Run(job, Start(job), events).Some?
    requires Run(job, Start(job), events).value.caller == Back(false)
    ensures var f := Run(job, Start<I, O, E>(job), events).value;
      && |f.results| == |f.errors| == |f.calls| == |job.items|
      && forall i | 0 <= i < |job.items| :: Mapped(job, f, i)
  {
    StartInv(job);
    RunInv(job, Start(job), events);
  }

  /** Whatever `In` returns and whenever it is looked at: no item is computed twice, and a result
      or error that is present is the right one. */
  lemma FanNeverWrong<I, O, E>(job: Work<I, O, E>, events: seq<Event>, i: nat)
    requires Run(job, Start(job), events).Some? && i < |job.items|
    ensures var f := Run(job, Start<I, O, E>(job), events).value;
      && |f.results| == |f.errors| == |f.calls| == |job.items|
      && f.calls[i] <= 1
      && (f.results[i].Some? ==> f.results[i].value == job.fn(job.items[i]).0 && f.calls[i] == 1)
      && (f.errors[i].Some? ==> f.errors[i].value == job.fn(job.items[i]).1 && f.results[i].Some?)
  {
    StartInv(job);
    RunInv(job, Start(job), events);
    var f := Run(job, Start<I, O, E>(job), events).value;
    if HeldBy(f, i) {
      var w :| 0 <= w < |f.workers| && Inside(f.workers[w]) && f.workers[w].index == i;
      assert TaskBooks(job, f, f.workers[w]);
    }
  }

  /** How many workers are inside a task. */
  function Busy<O, E>(workers: seq<WorkerPc<O, E>>): nat {
    if workers == [] then 0
    else (if Inside(workers[0]) then 1 else 0) + Busy(workers[1..])
  }

  lemma {:induction false} BusyAtMost<O, E>(workers: seq<WorkerPc<O, E>>)
    ensures Busy(workers) <= |workers|
  {
    if workers != [] { BusyAtMost(workers[1..]); }
  }

  /** With a positive size, at most that many tasks are ever inside workers. */
  lemma ConcurrencyIsBounded<I, O, E>(job: Work<I, O, E>, events: seq<Event>)
    requires Run(job, Start(job), events).Some? && 0 < job.size
    ensures Busy(Run(job, Start(job), events).value.workers) <= job.size
  {
    StartInv(job);
    RunInv(job, Start(job), events);
    BusyAtMost(Run(job, Start(job), events).value.workers);
  }

  /** How many tasks `Pool.Run` has been called with. */
  function Started<I, O, E>(job: Work<I, O, E>, f: Fan<O, E>): nat {
    match f.caller
    case Submitting(i) => i
    case Sending(i) => i + 1
    case _ => |job.items|
  }

  /** How many workers `k` tasks are worth. */
  function Share(size: int, k: nat): nat {
    if size < 0 then 0 else if size == 0 || k < size then k else size
  }

  lemma NextCrew<I, O, E>(job: Work<I, O, E>, f: Fan<O, E>, e: Event)
    requires Shape(job, f) && |f.workers| == Share(job.size, Started(job, f))
    requires Next(job, f, e).Some?
    ensures var g := Next(job, f, e).value;
            |g.workers| == Share(job.size, Started(job, g))
  {
  }

  lemma {:induction false} RunCrew<I, O, E>(job: Work<I, O, E>, f: Fan<O, E>, events: seq<Event>)
    requires Inv(job, f) && Run(job, f, events).Some?
    requires |f.workers| == Share(job.size, Started(job, f))
    ensures var g := Run(job, f, events).value;
            |g.workers| == Share(job.size, Started(job, g))
    decreases |events|
  {
    if events != [] {
      NextInv(job, f, events[0]);
      NextCrew(job, f, events[0]);
      RunCrew(job, Next(job, f, events[0]).value, events[1..]);
    }
  }

  /** In every reachable state there are exactly as many workers as tasks begun to be submitted, up
      to a positive size; one for each task if the size is zero; none if it is negative. */
  lemma CrewExactly<I, O, E>(job: Work<I, O, E>, events: seq<Event>)
    requires Run(job, Start(job), events).Some?
    ensures var f := Run(job, Start<I, O, E>(job), events).value;
      |f.workers| == if job.size < 0 then 0
                     else if job.size == 0 then Started(job, f)
                     else if Started(job, f) < job.size then Started(job, f) else job.size
  {
    StartInv(job);
    RunCrew(job, Start(job), events);
  }

  /** `k` tasks submitted and each in the hands of its own worker. */
  ghost predicate AllHolding<O, E>(f: Fan<O, E>, k: nat) {
    && f.caller == Submitting(k) && f.count == |f.workers| == k
    && forall w | 0 <= w < k :: f.workers[w] == Holding(w)
  }

  lemma AnotherHolds<I, O, E>(job: Work<I, O, E>, f: Fan<O, E>, k: nat)
    requires AllHolding(f, k) && k < Share(job.size, |job.items|)
    ensures Run(job, f, [StartRun, Handoff(k)]).Some?
    ensures AllHolding(Run(job, f, [StartRun, Handoff(k)]).value, k + 1)
  {
    var g := Next(job, f, StartRun).value;
    var h := Next(job, g, Handoff(k)).value;
    RunPath(job, [StartRun, Handoff(k)], [f, g, h]);
  }

  lemma {:induction false} HoldMany<I, O, E>(job: Work<I, O, E>, k: nat) returns (events: seq<Event>)
    requires k <= Share(job.size, |job.items|)
    ensures Run(job, Start(job), events).Some?
    ensures AllHolding(Run(job, Start(job), events).value, k)
  {
    if k == 0 {
      events := [];
    } else {
      var before := HoldMany(job, k - 1);
      var f := Run(job, Start(job), before).value;
      AnotherHolds(job, f, k - 1);
      RunAppend(job, Start(job), before, [StartRun, Handoff(k - 1)]);
      events := before + [StartRun, Handoff(k - 1)];
    }
  }

  lemma {:induction false} BusyAll<O, E>(workers: seq<WorkerPc<O, E>>)
    requires forall w | 0 <= w < |workers| :: Inside(workers[w])
    ensures Busy(workers) == |workers|
  {
    if workers != [] { BusyAll(workers[1..]); }
  }

  /** The bound is reached: a run in which as many tasks are inside workers at once as there are
      items, or as the size allows. */
  lemma FullConcurrency<I, O, E>(job: Work<I, O, E>) returns (events: seq<Event>)
    ensures Run(job, Start(job), events).Some?
    ensures Busy(Run(job, Start(job), events).value.workers)
         == if job.size < 0 then 0
            else if job.size == 0 || |job.items| < job.size then |job.items| else job.size
  {
    events := HoldMany(job, Share(job.size, |job.items|));
    BusyAll(Run(job, Start(job), events).value.workers);
  }

  /** `In` does not wait for the workers once the context is cancelled, and an idle worker does not
      wait for the channel to be closed. */
  lemma CancellationIsSeen<I, O, E>(job: Work<I, O, E>, f: Fan<O, E>, w: nat)
    requires f.cancelled
    ensures f.caller == Waiting ==> Next(job, f, GiveUp) == Some(f.(caller := Back(true)))
    ensures w < |f.workers| && f.workers[w] == Idle ==>
      Next(job, f, ExitCancelled(w)) == Some(f.(workers := f.workers[w := Gone]))
  {
  }

  /** What `In` returns in every run: an error only if the context was cancelled, nil only if every
      worker has gone. */
  lemma ErrorMeansCancelled<I, O, E>(job: Work<I, O, E>, events: seq<Event>)
    requires Run(job, Start(job), events).Some?
    ensures var f := Run(job, Start<I, O, E>(job), events).value;
      && (f.caller == Back(true) ==> f.cancelled && Cancel in events)
      && (f.caller == Back(false) ==> AllGone(f))
  {
    StartInv(job);
    RunInv(job, Start(job), events);
    RunCancelled(job, Start(job), events);
  }

  lemma {:induction false} RunCancelled<I, O, E>(job: Work<I, O, E>, f: Fan<O, E>, events: seq<Event>)
    requires Run(job, f, events).Some?
    ensures Run(job, f, events).value.cancelled <==> f.cancelled || Cancel in events
    decreases |events|
  {
    if events != [] {
      RunCancelled(job, Next(job, f, events[0]).value, events[1..]);
      assert events == [events[0]] + events[1..];
    }
  }

  // ---------------------------------------------------------------------------------------
  // Progress
  // ---------------------------------------------------------------------------------------

  function Weight<O, E>(pc: WorkerPc<O, E>): nat {
    match pc
    case Gone => 0
    case Idle => 1
    case HalfWritten(_, _) => 2
    case Called(_, _) => 3
    case Holding(_) => 4
  }

  function Weights<O, E>(workers: seq<WorkerPc<O, E>>): nat {
    if workers == [] then 0 else Weight(workers[0]) + Weights(workers[1..])
  }

  function Measure<I, O, E>(job: Work<I, O, E>, f: Fan<O, E>): int {
    (match f.caller
     case Submitting(i) => 8 * (|job.items| - i) + 3
     case Sending(i) => 8 * (|job.items| - i) + 1
     case Waiting => 2
     case Back(_) => 1)
    + Weights(f.workers) + (if f.cancelled then 0 else 1)
  }

  lemma {:induction false} WeightsUpdate<O, E>(workers: seq<WorkerPc<O, E>>, w: nat,
                                               pc: WorkerPc<O, E>)
    requires w < |workers|
    ensures Weights(workers[w := pc]) == Weights(workers) - Weight(workers[w]) + Weight(pc)
  {
    if w == 0 {
      assert workers[0 := pc][1..] == workers[1..];
    } else {
      assert workers[w := pc][1..] == workers[1..][w - 1 := pc];
      WeightsUpdate(workers[1..], w - 1, pc);
    }
  }

  lemma {:induction false} WeightsSnoc<O, E>(workers: seq<WorkerPc<O, E>>, pc: WorkerPc<O, E>)
    ensures Weights(workers + [pc]) == Weights(workers) + Weight(pc)
  {
    if workers == [] {
      assert workers + [pc] == [pc];
    } else {
      assert (workers + [pc])[1..] == workers[1..] + [pc];
      WeightsSnoc(workers[1..], pc);
    }
  }

  /** Every step, cancellation included, brings the measure down; so every schedule ends. */
  lemma EveryStepCounts<I, O, E>(job: Work<I, O, E>, f: Fan<O, E>, e: Event)
    requires Inv(job, f) && Next(job, f, e).Some?
    ensures 0 <= Measure(job, Next(job, f, e).value) < Measure(job, f)
  {
    var g := Next(job, f, e).value;
    NextInv(job, f, e);
    if Mover(e).Some? {
      OthersStay(job, f, e);
      var w := Mover(e).value;
      assert g.workers == f.workers[w := g.workers[w]];
      WeightsUpdate(f.workers, w, g.workers[w]);
    } else if e.StartRun? {
      WeightsSnoc(f.workers, Idle);
    }
  }

  lemma {:induction false} StepsAreCounted<I, O, E>(job: Work<I, O, E>, f: Fan<O, E>,
                                                    events: seq<Event>)
    requires Inv(job, f) && Run(job, f, events).Some?
    ensures |events| <= Measure(job, f) - Measure(job, Run(job, f, events).value)
    decreases |events|
  {
    if events != [] {
      EveryStepCounts(job, f, events[0]);
      NextInv(job, f, events[0]);
      StepsAreCounted(job, Next(job, f, events[0]).value, events[1..]);
    }
  }

  /** No schedule is longer than a bound that depends on the number of items alone. */
  lemma EveryRunEnds<I, O, E>(job: Work<I, O, E>, events: seq<Event>)
    requires Run(job, Start(job), events).Some?
    ensures |events| <= 8 * |job.items| + 4
  {
    StartInv(job);
    StepsAreCounted(job, Start(job), events);
    RunInv(job, Start(job), events);
    assert 0 <= Measure(job, Run(job, Start(job), events).value);
  }

  ghost predicate Stuck<I, O, E>(job: Work<I, O, E>, f: Fan<O, E>) {
    forall e: Event | e != Cancel :: Next(job, f, e).None?
  }

  /** A step that is possible unless the state is stuck. */
  function Progress<I, O, E>(job: Work<I, O, E>, f: Fan<O, E>, w: nat): Event {
    if f.caller.Submitting? then
      if f.caller.index < |job.items| then StartRun else CloseTasks
    else
      match At(f, w)
      case Idle => if f.caller.Sending? then Handoff(w) else ExitClosed(w)
      case Holding(_) => CallFn(w)
      case Called(_, _) => WriteResult(w)
      case HalfWritten(_, _) => WriteError(w)
      case Gone => Finish
  }

  /** A reachable state is stuck exactly when `In` is back and all workers have gone, or when the
      submitter wants to hand a task over and all workers have gone. */
  lemma StuckExactly<I, O, E>(job: Work<I, O, E>, f: Fan<O, E>)
    requires Inv(job, f)
    ensures Stuck(job, f) <==> AllGone(f) && (f.caller.Back? || f.caller.Sending?)
  {
    if !(AllGone(f) && (f.caller.Back? || f.caller.Sending?)) {
      var w: nat := 0;
      if !AllGone(f) {
        w :| 0 <= w < |f.workers| && !f.workers[w].Gone?;
      }
      if Inside(At(f, w)) { assert TaskBooks(job, f, f.workers[w]); }
      assert Next(job, f, Progress(job, f, w)).Some?;
    }
  }

  /** Without cancellation and with a size of at least zero nothing is ever stuck before `In` has
      returned nil with every worker gone. */
  lemma NoDeadlock<I, O, E>(job: Work<I, O, E>, events: seq<Event>)
    requires Run(job, Start(job), events).Some? && 0 <= job.size
    requires !Run(job, Start(job), events).value.cancelled
    ensures var f := Run(job, Start<I, O, E>(job), events).value;
            Stuck(job, f) <==> f.caller == Back(false)
  {
    StartInv(job);
    RunInv(job, Start(job), events);
    var f := Run(job, Start<I, O, E>(job), events).value;
    StuckExactly(job, f);
    if f.caller.Sending? { assert !f.workers[0].Gone?; }
  }

  /** Both conditions matter, for every fan with something to do. A negative size spawns nobody; and
      for any other size, a context cancelled while the first task is on its way can send the only
      worker home. Either way `Out` never returns. */
  lemma DeadlocksOtherwise<I, O, E>(job: Work<I, O, E>) returns (events: seq<Event>)
    requires job.items != []
    ensures
      && Run(job, Start(job), events).Some?
      && Stuck(job, Run(job, Start(job), events).value)
      && Run(job, Start(job), events).value.caller.Sending?
      && (Run(job, Start(job), events).value.cancelled <==> 0 <= job.size)
  {
    var f := Start(job);
    StartInv(job);
    NextInv(job, f, StartRun);
    var f1 := Next(job, f, StartRun).value;
    if job.size < 0 {
      events := [StartRun];
      RunPath(job, events, [f, f1]);
      StuckExactly(job, f1);
    } else {
      events := [StartRun, Cancel, ExitCancelled(0)];
      var f2 := Next(job, f1, Cancel).value;
      NextInv(job, f1, Cancel);
      var f3 := Next(job, f2, ExitCancelled(0)).value;
      NextInv(job, f2, ExitCancelled(0));
      RunPath(job, events, [f, f1, f2, f3]);
      StuckExactly(job, f3);
    }
  }

  // ---------------------------------------------------------------------------------------
  // The object
  // ---------------------------------------------------------------------------------------

  /** A fan at work. Workers write their own index of the two shared slices in place. */
  class FanObject<!I, O, E> {
    const job: Work<I, O, E>
    const results: array<Option<O>>
    const errors: array<Option<E>>
    var caller: Caller
    var count: nat
    var workers: seq<WorkerPc<O, E>>
    var cancelled: bool
    ghost var calls: seq<nat>

    ghost function View(): Fan<O, E>
      reads this, results, errors
    {
      Fan(caller, count, workers, cancelled, results[..], errors[..], calls)
    }

    ghost predicate Valid()
      reads this, results, errors
    {
      results as object != errors as object && Inv(job, View())
    }

    /** `Out`, up to its loop. */
    constructor (job: Work<I, O, E>)
      ensures this.job == job && View() == Start(job) && Valid()
      ensures fresh(results) && fresh(errors)
    {
      this.job := job;
      var n := |job.items|;
      results := new Option<O>[n](_ => None);
      errors := new Option<E>[n](_ => None);
      caller, count, workers, cancelled := Submitting(0), 0, [], false;
      calls := seq(n, _ => 0);
      new;
      StartInv(job);
    }

    /** `Pool.Run`, up to the send. */
    method StartRun()
      requires Valid() && Next(job, View(), Event.StartRun).Some?
      modifies this`count, this`workers, this`caller
      ensures Some(View()) == Next(job, old(View()), Event.StartRun) && Valid()
      ensures caller == Sending(old(caller).index) && |old(workers)| <= |workers|
      ensures forall w | 0 <= w < |workers| ::
        workers[w] == if w < |old(workers)| then old(workers)[w] else Idle
      ensures 0 <= job.size ==> 0 < |workers|
    {
      NextInv(job, View(), Event.StartRun);
      if count < job.size || job.size == 0 {
        count := count + 1;
        workers := workers + [Idle];
      }
      caller := Sending(caller.index);
    }

    /** Worker `w` takes the task that is being sent. */
    method Handoff(w: nat)
      requires Valid() && Next(job, View(), Event.Handoff(w)).Some?
      modifies this`workers, this`caller
      ensures Some(View()) == Next(job, old(View()), Event.Handoff(w)) && Valid()
      ensures w < |old(workers)| && workers == old(workers)[w := Holding(old(caller).index)]
      ensures caller == Submitting(old(caller).index + 1)
    {
      NextInv(job, View(), Event.Handoff(w));
      workers := workers[w := Holding(caller.index)];
      caller := Submitting(caller.index + 1);
    }

    method CallFn(w: nat)
      requires Valid() && w < |workers| && workers[w].Holding?
      modifies this`workers, this`calls
      ensures Some(View()) == Next(job, old(View()), Event.CallFn(w)) && Valid()
      ensures |workers| == |old(workers)| && workers == old(workers)[w := workers[w]]
      ensures workers[w].Called? && workers[w].index == old(workers[w].index)
    {
      assert TaskBooks(job, View(), workers[w]);
      NextInv(job, View(), Event.CallFn(w));
      var index := workers[w].index;
      var result := job.fn(job.items[index]);
      workers := workers[w := Called(index, result)];
      calls := calls[index := calls[index] + 1];
    }

    method WriteResult(w: nat)
      requires Valid() && w < |workers| && workers[w].Called?
      modifies this`workers, results
      ensures Some(View()) == Next(job, old(View()), Event.WriteResult(w)) && Valid()
      ensures |workers| == |old(workers)| && workers == old(workers)[w := workers[w]]
      ensures workers[w].HalfWritten? && workers[w].index == old(workers[w].index)
    {
      assert TaskBooks(job, View(), workers[w]);
      NextInv(job, View(), Event.WriteResult(w));
      var index, result := workers[w].index, workers[w].result;
      results[index] := Some(result.0);
      workers := workers[w := HalfWritten(index, result)];
    }

    method WriteError(w: nat)
      requires Valid() && w < |workers| && workers[w].HalfWritten?
      modifies this`workers, errors
      ensures Some(View()) == Next(job, old(View()), Event.WriteError(w)) && Valid()
      ensures workers == old(workers)[w := Idle]
      ensures Mapped(job, View(), old(workers[w].index))
    {
      assert TaskBooks(job, View(), workers[w]);
      NextInv(job, View(), Event.WriteError(w));
      var index, result := workers[w].index, workers[w].result;
      errors[index] := Some(result.1);
      workers := workers[w := Idle];
    }

    /** The task of `Out`: call `fn`, then write both slices at the task's own index. */
    method RunTask(w: nat)
      requires Valid() && w < |workers| && workers[w].Holding?
      modifies this`workers, this`calls, results, errors
      ensures Some(View()) == Run(job, old(View()), Task(w))
      ensures workers == old(workers)[w := Idle]
      ensures Valid() && Mapped(job, View(), old(workers[w].index))
    {
      ghost var f := View();
      CallFn(w);
      ghost var g := View();
      WriteResult(w);
      ghost var h := View();
      WriteError(w);
      RunPath(job, Task(w), [f, g, h, View()]);
    }

    /** The first half of `UntilFinished`: `close(p.tasks)`. */
    method CloseTasks()
      requires Valid() && caller == Submitting(|job.items|)
      modifies this`caller
      ensures Some(View()) == Next(job, old(View()), Event.CloseTasks) && Valid()
      ensures caller == Waiting
    {
      NextInv(job, View(), Event.CloseTasks);
      caller := Waiting;
    }

    /** An idle worker receives nil from the closed channel. */
    method ExitClosed(w: nat)
      requires Valid() && w < |workers| && workers[w] == Idle && caller == Waiting
      modifies this`workers
      ensures Some(View()) == Next(job, old(View()), Event.ExitClosed(w)) && Valid()
      ensures workers == old(workers)[w := Gone]
    {
      NextInv(job, View(), Event.ExitClosed(w));
      workers := workers[w := Gone];
    }

    /** `UntilFinished` returns nil. */
    method Finish()
      requires Valid() && caller == Waiting && AllGone(View())
      modifies this`caller
      ensures Some(View()) == Next(job, old(View()), Event.Finish) && Valid()
      ensures caller == Back(false)
    {
      NextInv(job, View(), Event.Finish);
      caller := Back(false);
    }

    ghost predicate AllIdle()
      reads this
    {
      !cancelled && forall w | 0 <= w < |workers| :: workers[w] == Idle
    }

    /** One turn of the loop of `Out`, with a worker that is done before the next turn. */
    method Turn()
      requires Valid() && AllIdle() && 0 <= job.size
      requires caller.Submitting? && caller.index < |job.items|
      modifies this, results, errors
      ensures Valid() && AllIdle() && caller == Submitting(old(caller).index + 1)
      ensures 0 < |workers| && Run(job, old(View()), TurnOf(|workers| - 1)) == Some(View())
    {
      ghost var f := View();
      Submit();
      var w := |workers| - 1;
      RunTask(w);
      RunAppend(job, f, [Event.StartRun, Event.Handoff(w)], Task(w));
    }

    /** `Pool.Run`, with the newest worker taking the task. */
    method Submit()
      requires Valid() && AllIdle() && 0 <= job.size
      requires caller.Submitting? && caller.index < |job.items|
      modifies this`count, this`workers, this`caller
      ensures Valid() && caller == Submitting(old(caller).index + 1) && 0 < |workers|
      ensures workers[|workers| - 1].Holding?
      ensures forall w | 0 <= w < |workers| - 1 :: workers[w] == Idle
      ensures Run(job, old(View()), [Event.StartRun, Event.Handoff(|workers| - 1)]) == Some(View())
    {
      ghost var f := View();
      StartRun();
      ghost var g := View();
      var w := |workers| - 1;
      Handoff(w);
      RunPath(job, [Event.StartRun, Event.Handoff(w)], [f, g, View()]);
    }

    /** `Out`, under the schedule in which each task is done before the next is submitted. */
    method Out() returns (ghost trace: seq<Event>)
      requires Valid() && View() == Start(job) && (job.items == [] || 0 <= job.size)
      modifies this, results, errors
      ensures Valid() && AllIdle() && caller == Submitting(|job.items|)
      ensures Run(job, Start(job), trace) == Some(View())
    {
      trace := [];
      for index := 0 to |job.items|
        invariant Valid() && AllIdle() && caller == Submitting(index)
        invariant Run(job, Start(job), trace) == Some(View())
      {
        ghost var f := View();
        Turn();
        RunMore(job, Start(job), trace, f, TurnOf(|workers| - 1), View());
        trace := trace + TurnOf(|workers| - 1);
      }
    }

    /** `In`: close, wait until the workers have gone, return. */
    method In(ghost before: seq<Event>) returns (ghost trace: seq<Event>)
      requires Valid() && AllIdle() && caller == Submitting(|job.items|)
      requires Run(job, Start(job), before) == Some(View())
      modifies this
      ensures Valid() && caller == Back(false)
      ensures Run(job, Start(job), trace) == Some(View())
    {
      RunSnoc(job, Start(job), before, View(), Event.CloseTasks);
      trace := before + [Event.CloseTasks];
      CloseTasks();
      for w := 0 to |workers|
        invariant Valid() && caller == Waiting && |workers| == |old(workers)|
        invariant forall k | 0 <= k < |workers| :: workers[k] == if k < w then Gone else Idle
        invariant Run(job, Start(job), trace) == Some(View())
      {
        RunSnoc(job, Start(job), trace, View(), Event.ExitClosed(w));
        trace := trace + [Event.ExitClosed(w)];
        ExitClosed(w);
      }
      RunSnoc(job, Start(job), trace, View(), Event.Finish);
      trace := trace + [Event.Finish];
      Finish();
    }
  }

  /** The steps of a worker inside one task. */
  function Task(w: nat): seq<Event> {
    [CallFn(w), WriteResult(w), WriteError(w)]
  }

  /** One turn of `Out` with worker `w`. */
  function TurnOf(w: nat): seq<Event> {
    [StartRun, Handoff(w)] + Task(w)
  }

  /** A fan from beginning to end, for every size that does not block it, without a
      cancellation: the
      results and errors are those of a plain map. */
  method MapAll<I, O, E>(job: Work<I, O, E>) returns (outs: seq<O>, errs: seq<E>)
    requires job.items == [] || 0 <= job.size
    ensures |outs| == |errs| == |job.items|
    ensures forall i | 0 <= i < |job.items| :: (outs[i], errs[i]) == job.fn(job.items[i])
  {
    var f := new FanObject(job);
    ghost var submitted := f.Out();
    ghost var trace := f.In(submitted);
    BackMeansMapped(job, f.View());
    outs, errs := [], [];
    for i := 0 to |job.items|
      invariant |outs| == |errs| == i
      invariant forall k | 0 <= k < i :: (outs[k], errs[k]) == job.fn(job.items[k])
    {
      assert Mapped(job, f.View(), i);
      outs := outs + [f.results[i].value];
      errs := errs + [f.errors[i].value];
    }
  }
}
