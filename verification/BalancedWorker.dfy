/** One worker of pool/balanced/pool.go together with its channel manager, the submitter that
    holds the pool lock and the clients that wait for answers: every lock section, rendezvous and
    close is one step. */
module BalancedWorker {
  import opened Options
  import UC = UnlimitedChannel

  /** A `taskWrapper`. Tickets number the tasks charged to one worker. */
  datatype Job = Job(ticket: nat, eta: nat)

  /** What has happened on a `finished` channel: a value was received, or it was closed. */
  datatype Signal = Unprocessed | Closed

  /** Where the worker goroutine stands. `Draining(rest, told)` walks the finalised tasks; `told`
      says that the first of them has received `ErrUnprocessed` but is not closed yet. */
  datatype Pc =
    | Looping
    | Took(job: Job)
    | Marked(job: Job)
    | Did(job: Job)
    | Lowered(job: Job)
    | Leaving
    | Finalizing
    | Draining(rest: seq<Job>, told: bool)
    | Returned

  /** `charged` is a task whose ETA is already added but which is not yet sent on `In()`.
      `ongoing` is the ETA of the task marked as running. `heard` holds the tickets on whose
      `finished` channel somebody receives. `ran` and `signals` are history. */
  datatype Worker = Worker(
    offset: nat, eta: int, ongoing: Option<nat>, chan: UC.Chan<Job>,
    charged: Option<Job>, pc: Pc, ran: seq<Job>, signals: seq<seq<Signal>>, heard: set<nat>)

  datatype Event =
    | Charge(eta: nat)    // addTask, under the worker lock
    | Enqueue             // addTask, the send on In()
    | Take | TakeNil      // the worker receives from Out(): a task, or nil once it is closed
    | Mark | Do | Lower | CloseDone   // handleTw, section by section
    | Leave               // the worker sees the cancelled context
    | CallFinalize | Collect | Tell | CloseTold | Return
    | ManagerStop         // the manager sees that Finalize has cancelled it
    | Await(ticket: nat)  // a client starts to receive from the finished channel it was given

  function Fresh(offset: nat): Worker {
    Worker(offset, offset, None, UC.Empty(), None, Looping, [], [], {})
  }

  function Signalled(w: Worker, job: Job, s: Signal): Worker {
    if job.ticket < |w.signals|
    then w.(signals := w.signals[job.ticket := w.signals[job.ticket] + [s]]) else w
  }

  /** The state after a rendezvous with the manager, if the manager can take part. */
  function WithChan(w: Worker, e: UC.Event<Job>): Option<Worker> {
    var c := UC.Next(w.chan, e);
    if c.None? then None else Some(w.(chan := c.value))
  }

  function Next(w: Worker, e: Event): Option<Worker> {
    match e
    case Charge(eta) =>
      if w.charged.Some? then None
      else Some(w.(eta := w.eta + eta, charged := Some(Job(|w.signals|, eta)),
                   signals := w.signals + [[]]))
    case Enqueue =>
      if w.charged.None? then None
      else
        var v := WithChan(w, UC.Send(w.charged.value));
        if v.None? then None else Some(v.value.(charged := None))
    case Take =>
      if w.pc != Looping || w.chan.storage == [] then None
      else
        var v := WithChan(w, UC.Receive);
        if v.None? then None else Some(v.value.(pc := Took(w.chan.storage[0])))
    case TakeNil =>
      if w.pc != Looping || w.chan.outCloses == 0 then None else Some(w)
    case Mark =>
      if !w.pc.Took? then None
      else Some(w.(pc := Marked(w.pc.job), ongoing := Some(w.pc.job.eta)))
    case Do =>
      if !w.pc.Marked? then None
      else Some(w.(pc := Did(w.pc.job), ran := w.ran + [w.pc.job]))
    case Lower =>
      if !w.pc.Did? then None
      else Some(w.(pc := Lowered(w.pc.job), eta := w.eta - w.pc.job.eta, ongoing := None))
    case CloseDone =>
      if !w.pc.Lowered? then None
      else Some(Signalled(w, w.pc.job, Closed).(pc := Looping))
    case Leave =>
      if w.pc != Looping then None else Some(w.(pc := Leaving))
    case CallFinalize =>
      if w.pc != Leaving then None
      else Some(w.(pc := Finalizing, chan := w.chan.(cancelled := true)))
    case Collect =>
      if w.pc != Finalizing || w.chan.phase != UC.Drained then None
      else Some(w.(pc := Draining(w.chan.storage, false)))
    case Tell =>
      // the channel has no buffer: without a receiver the send blocks
      if !w.pc.Draining? || w.pc.told || w.pc.rest == [] || w.pc.rest[0].ticket !in w.heard
      then None
      else Some(Signalled(w, w.pc.rest[0], Unprocessed).(pc := Draining(w.pc.rest, true)))
    case CloseTold =>
      if !w.pc.Draining? || !w.pc.told || w.pc.rest == [] then None
      else Some(Signalled(w, w.pc.rest[0], Closed).(pc := Draining(w.pc.rest[1..], false)))
    case Return =>
      if w.pc != Draining([], false) then None else Some(w.(pc := Returned))
    case ManagerStop => WithChan(w, UC.Stop)
    case Await(ticket) =>
      // the channel is handed out after the send on In()
      if |w.signals| <= ticket || (w.charged.Some? && w.charged.value.ticket == ticket) then None
      else Some(w.(heard := w.heard + {ticket}))
  }

  function Run(w: Worker, events: seq<Event>): Option<Worker>
    decreases |events|
  {
    if events == [] then Some(w)
    else
      var next := Next(w, events[0]);
      if next.None? then None else Run(next.value, events[1..])
  }

  /** A run from state to state. */
  lemma {:induction false} RunPath(events: seq<Event>, states: seq<Worker>)
    requires |states| == |events| + 1
    requires forall k | 0 <= k < |events| :: Next(states[k], events[k]) == Some(states[k + 1])
    ensures Run(states[0], events) == Some(states[|events|])
    decreases |events|
  {
    if events != [] { RunPath(events[1..], states[1..]); }
  }

  /** The worker's load as `RunAsync` reads it when a task has been running for `elapsed`. */
  function EtaWithOngoing(w: Worker, elapsed: nat): int {
    if w.ongoing.None? then w.eta
    else w.eta - (if w.ongoing.value < elapsed then w.ongoing.value else elapsed)
  }

  // ---------------------------------------------------------------------------------------
  // Invariant
  // ---------------------------------------------------------------------------------------

  function Sum(jobs: seq<Job>): nat {
    if jobs == [] then 0 else jobs[0].eta + Sum(jobs[1..])
  }

  lemma {:induction false} SumAppend(s: seq<Job>, t: seq<Job>)
    ensures Sum(s + t) == Sum(s) + Sum(t)
  {
    if s == [] {
      assert s + t == t;
    } else {
      assert (s + t)[1..] == s[1..] + t;
      SumAppend(s[1..], t);
    }
  }

  function Held(charged: Option<Job>): seq<Job> {
    if charged.Some? then [charged.value] else []
  }

  /** Taken from the channel, not run yet. */
  function ToRun(pc: Pc): seq<Job> {
    if pc.Took? || pc.Marked? then [pc.job] else []
  }

  /** Taken from the channel, ETA still counted. */
  function InHand(pc: Pc): seq<Job> {
    if pc.Took? || pc.Marked? || pc.Did? then [pc.job] else []
  }

  /** Every task ever charged to the worker, in order. */
  function Issued(w: Worker): seq<Job> {
    w.chan.accepted + w.chan.discarded + Held(w.charged)
  }

  /** The tasks added and not completed: sent but not taken, thrown away, charged but not sent,
      taken but not lowered. */
  function Outstanding(w: Worker): nat {
    Sum(w.chan.storage) + Sum(w.chan.discarded) + Sum(Held(w.charged)) + Sum(InHand(w.pc))
  }

  /** How many tasks have their `finished` channel closed after running. */
  function ClosedCount(w: Worker): int {
    |w.ran| - (if w.pc.Did? || w.pc.Lowered? then 1 else 0)
  }

  /** What the `finished` channel of ticket `t` has seen. */
  function Expected(w: Worker, t: nat): seq<Signal> {
    if t < ClosedCount(w) then [Closed]
    else if t < |w.chan.delivered| || |w.chan.accepted| <= t then []
    else if w.pc == Returned then [Unprocessed, Closed]
    else if w.pc.Draining? then
      var first := |w.chan.accepted| - |w.pc.rest|;
      if t < first then [Unprocessed, Closed]
      else if t == first && w.pc.told then [Unprocessed] else []
    else []
  }

  /** The control state agrees with the channel and with what has run. */
  ghost predicate Control(w: Worker) {
    && (w.chan.cancelled <==> w.pc == Finalizing || w.pc.Draining? || w.pc == Returned)
    && (w.pc.Draining? || w.pc == Returned ==> w.chan.phase == UC.Drained)
    && (w.pc.Draining? ==> Remaining(w))
    && (w.pc.Did? || w.pc.Lowered? ==> w.ran != [] && w.ran[|w.ran| - 1] == w.pc.job)
    && w.ongoing == (if w.pc.Marked? || w.pc.Did? then Some(w.pc.job.eta) else None)
  }

  /** What is left to drain is a suffix of the finalised storage. */
  ghost predicate Remaining(w: Worker)
    requires w.pc.Draining?
  {
    && |w.pc.rest| <= |w.chan.storage|
    && w.pc.rest == w.chan.storage[|w.chan.storage| - |w.pc.rest|..]
    && (w.pc.told ==> w.pc.rest != [])
  }

  /** Every task is somewhere, in the order it was charged. */
  ghost predicate Books(w: Worker) {
    && UC.Inv(w.chan) && !w.chan.inClosed
    && w.chan.delivered == w.ran + ToRun(w.pc)
    && |w.signals| == |Issued(w)|
    && (forall t | 0 <= t < |Issued(w)| :: Issued(w)[t].ticket == t)
  }

  ghost predicate Signals(w: Worker) {
    forall t | 0 <= t < |w.signals| :: w.signals[t] == Expected(w, t)
  }

  /** Nobody is sent `ErrUnprocessed` who does not receive. */
  ghost predicate Received(w: Worker) {
    forall t | 0 <= t < |w.signals| && Unprocessed in w.signals[t] :: t in w.heard
  }

  ghost predicate Account(w: Worker) {
    w.eta == w.offset + Outstanding(w)
  }

  ghost predicate Inv(w: Worker) {
    Books(w) && Control(w) && Signals(w) && Received(w) && Account(w)
  }

  lemma FreshInv(offset: nat)
    ensures Inv(Fresh(offset))
  {
  }

  /** The steps that leave the channel alone. */
  predicate ChannelIdle(e: Event) {
    e in {TakeNil, Mark, Do, Lower, CloseDone, Leave, Collect, Tell, CloseTold, Return} || e.Await?
  }

  lemma BooksKeptByWorker(w: Worker, e: Event)
    requires Books(w) && Next(w, e).Some? && ChannelIdle(e)
    ensures Books(Next(w, e).value)
  {
    ChannelLeftAlone(w, e);
    BooksStay(w, Next(w, e).value);
  }

  lemma ChannelLeftAlone(w: Worker, e: Event)
    requires Next(w, e).Some? && ChannelIdle(e)
    ensures var v := Next(w, e).value;
      && v.chan == w.chan && v.charged == w.charged && |v.signals| == |w.signals|
      && v.ran + ToRun(v.pc) == w.ran + ToRun(w.pc)
  {
    if e.Do? { assert w.ran + [w.pc.job] + [] == w.ran + [w.pc.job]; }
  }

  lemma BooksStay(w: Worker, v: Worker)
    requires Books(w) && UC.Inv(v.chan) && !v.chan.inClosed
    requires v.chan.delivered == v.ran + ToRun(v.pc)
    requires Issued(v) == Issued(w) && |v.signals| == |w.signals|
    ensures Books(v)
  {
  }

  lemma BooksKeptByChannel(w: Worker, e: Event)
    requires Books(w) && Next(w, e).Some? && !ChannelIdle(e)
    ensures Books(Next(w, e).value)
  {
    var v := Next(w, e).value;
    match e
    case Charge(eta) =>
      BooksKeptByCharge(w, eta);
    case Enqueue =>
      UC.NextInv(w.chan, UC.Send(w.charged.value));
      assert Issued(v) == Issued(w);
      BooksStay(w, v);
    case Take =>
      UC.NextInv(w.chan, UC.Receive);
      assert v.chan.delivered == w.ran + [] + [w.chan.storage[0]];
      BooksStay(w, v);
    case CallFinalize =>
      UC.NextInv(w.chan, UC.Cancel);
      BooksStay(w, v);
    case ManagerStop =>
      UC.NextInv(w.chan, UC.Stop);
      BooksStay(w, v);
  }

  lemma BooksKeptByCharge(w: Worker, eta: nat)
    requires Books(w) && Next(w, Charge(eta)).Some?
    ensures Books(Next(w, Charge(eta)).value)
  {
    var v := Next(w, Charge(eta)).value;
    assert Issued(v) == Issued(w) + [v.charged.value];
  }

  lemma ControlKeptByWorker(w: Worker, e: Event)
    requires Control(w) && Next(w, e).Some? && ChannelIdle(e)
    ensures Control(Next(w, e).value)
  {
    ChannelLeftAlone(w, e);
    if e in {Collect, Tell, CloseTold, Return} {
      ControlKeptByDraining(w, e);
    }
  }

  lemma ControlKeptByDraining(w: Worker, e: Event)
    requires Control(w) && Next(w, e).Some? && e in {Collect, Tell, CloseTold, Return}
    ensures Control(Next(w, e).value)
  {
    var v := Next(w, e).value;
    if e.CloseTold? {
      assert v.pc.rest == w.chan.storage[|w.chan.storage| - |v.pc.rest|..];
    }
  }

  lemma ControlKeptByChannel(w: Worker, e: Event)
    requires Books(w) && Control(w) && Next(w, e).Some? && !ChannelIdle(e)
    ensures Control(Next(w, e).value)
  {
  }

  lemma AccountKeptByWorker(w: Worker, e: Event)
    requires Account(w) && Next(w, e).Some? && ChannelIdle(e)
    ensures Account(Next(w, e).value)
  {
    ChannelLeftAlone(w, e);
    if e.Lower? {
      assert Sum([w.pc.job]) == w.pc.job.eta;
    } else {
      assert InHand(Next(w, e).value.pc) == InHand(w.pc);
    }
  }

  lemma AccountKeptByCharge(w: Worker, eta: nat)
    requires Account(w) && Next(w, Charge(eta)).Some?
    ensures Account(Next(w, Charge(eta)).value)
  {
    assert Sum([Job(|w.signals|, eta)]) == eta;
  }

  lemma AccountKeptByChannel(w: Worker, e: Event)
    requires Account(w) && Next(w, e).Some? && !ChannelIdle(e)
    ensures Account(Next(w, e).value)
  {
    match e
    case Charge(eta) =>
      AccountKeptByCharge(w, eta);
    case Enqueue =>
      SumAppend(w.chan.storage, [w.charged.value]);
      SumAppend(w.chan.discarded, [w.charged.value]);
    case Take =>
      assert Sum([w.chan.storage[0]]) == w.chan.storage[0].eta;
    case _ =>
  }

  lemma Tickets(w: Worker)
    requires Books(w) && Control(w)
    ensures w.pc.Did? || w.pc.Lowered? ==> w.pc.job.ticket == |w.ran| - 1 < |w.signals|
    ensures w.pc.Draining? && w.pc.rest != [] ==>
      w.pc.rest[0].ticket == |w.chan.accepted| - |w.pc.rest| < |w.signals|
  {
    if w.pc.Did? || w.pc.Lowered? {
      assert Issued(w)[|w.ran| - 1] == w.pc.job;
    }
    if w.pc.Draining? && w.pc.rest != [] {
      assert Issued(w)[|w.chan.accepted| - |w.pc.rest|] == w.pc.rest[0];
    }
  }

  lemma SignalsKeptByWorker(w: Worker, e: Event)
    requires Books(w) && Control(w) && Signals(w) && Next(w, e).Some? && ChannelIdle(e)
    ensures Signals(Next(w, e).value)
  {
    if e in {CloseDone, Tell, CloseTold} {
      SignalsKeptBySignal(w, e);
    } else {
      forall t | 0 <= t < |w.signals| ensures Expected(Next(w, e).value, t) == Expected(w, t) {
        ExpectedKeptByWorker(w, e, t);
      }
    }
  }

  lemma ExpectedKeptByWorker(w: Worker, e: Event, t: nat)
    requires UC.Inv(w.chan) && Control(w) && Next(w, e).Some? && ChannelIdle(e)
    requires e !in {CloseDone, Tell, CloseTold}
    ensures Expected(Next(w, e).value, t) == Expected(w, t)
  {
  }

  lemma SignalsKeptBySignal(w: Worker, e: Event)
    requires Books(w) && Control(w) && Signals(w) && Next(w, e).Some?
    requires e in {CloseDone, Tell, CloseTold}
    ensures Signals(Next(w, e).value)
  {
    Tickets(w);
    var v := Next(w, e).value;
    var job := if e.CloseDone? then w.pc.job else w.pc.rest[0];
    forall t | 0 <= t < |v.signals| ensures v.signals[t] == Expected(v, t) {
      assert w.signals[t] == Expected(w, t);
      if t != job.ticket { assert Expected(v, t) == Expected(w, t); }
    }
  }

  lemma SignalsKeptByChannel(w: Worker, e: Event)
    requires Books(w) && Control(w) && Signals(w) && Next(w, e).Some? && !ChannelIdle(e)
    ensures Signals(Next(w, e).value)
  {
    forall t | 0 <= t < |w.signals| ensures Expected(Next(w, e).value, t) == Expected(w, t) {
      ExpectedKeptByChannel(w, e, t);
    }
    if e.Charge? { assert |w.chan.accepted| <= |Issued(w)| == |w.signals|; }
  }

  lemma ExpectedKeptByChannel(w: Worker, e: Event, t: nat)
    requires UC.Inv(w.chan) && Control(w) && Next(w, e).Some? && !ChannelIdle(e)
    ensures Expected(Next(w, e).value, t) == Expected(w, t)
  {
  }

  lemma ReceivedKept(w: Worker, e: Event)
    requires Books(w) && Control(w) && Received(w) && Next(w, e).Some?
    ensures Received(Next(w, e).value)
  {
    Tickets(w);
    if e.Tell? {
      var v := Next(w, e).value;
      assert v.pc.rest[0].ticket in v.heard;
    }
  }

  lemma NextInv(w: Worker, e: Event)
    requires Inv(w) && Next(w, e).Some?
    ensures Inv(Next(w, e).value)
  {
    ReceivedKept(w, e);
    if ChannelIdle(e) {
      BooksKeptByWorker(w, e);
      ControlKeptByWorker(w, e);
      AccountKeptByWorker(w, e);
      SignalsKeptByWorker(w, e);
    } else {
      BooksKeptByChannel(w, e);
      ControlKeptByChannel(w, e);
      AccountKeptByChannel(w, e);
      SignalsKeptByChannel(w, e);
    }
  }
}
