/** What holds of one worker of the balanced pool over whole runs: exactly-once resolution and
    load accounting. */
module BalancedRuns {
  import opened Options
  import opened BalancedWorker
  import UC = UnlimitedChannel

  lemma {:induction false} RunInv(w: Worker, events: seq<Event>)
    requires Inv(w) && Run(w, events).Some?
    ensures Inv(Run(w, events).value)
    decreases |events|
  {
    if events != [] {
      NextInv(w, events[0]);
      RunInv(Next(w, events[0]).value, events[1..]);
    }
  }

  // ---------------------------------------------------------------------------------------
  // Exactly-once resolution
  // ---------------------------------------------------------------------------------------

  lemma TicketsInOrder(w: Worker)
    requires Books(w)
    ensures forall t | 0 <= t < |w.chan.accepted| :: w.chan.accepted[t].ticket == t
    ensures forall t | 0 <= t < |w.ran| :: w.ran[t] == w.chan.accepted[t]
  {
    forall t | 0 <= t < |w.chan.accepted| ensures w.chan.accepted[t].ticket == t {
      assert Issued(w)[t] == w.chan.accepted[t];
    }
  }

  /** The tasks accepted before finalisation are a prefix that ran, once each and in acceptance
      order, each `finished` channel closed without a value; and a suffix that never ran, each
      having received `ErrUnprocessed` once before its close. Later tasks are never answered. */
  ghost predicate ResolvedOnce(w: Worker) {
    && w.chan.accepted == w.ran + w.chan.storage
    && |w.ran| <= |w.chan.accepted| <= |w.signals|
    && (forall t | 0 <= t < |w.chan.accepted| :: w.chan.accepted[t].ticket == t)
    && (forall t | 0 <= t < |w.ran| :: w.signals[t] == [Closed])
    && (forall t | |w.ran| <= t < |w.chan.accepted| :: w.signals[t] == [Unprocessed, Closed])
    && (forall t | |w.chan.accepted| <= t < |w.signals| :: w.signals[t] == [])
  }

  /** In every interleaving, once `worker.run` has returned, every task is resolved once. */
  lemma ExactlyOnce(offset: nat, events: seq<Event>)
    requires Run(Fresh(offset), events).Some? && Run(Fresh(offset), events).value.pc == Returned
    ensures ResolvedOnce(Run(Fresh(offset), events).value)
  {
    FreshInv(offset);
    RunInv(Fresh(offset), events);
    ReturnedResolves(Run(Fresh(offset), events).value);
  }

  lemma ReturnedResolves(w: Worker)
    requires Books(w) && Control(w) && Signals(w) && w.pc == Returned
    ensures ResolvedOnce(w)
  {
    TicketsInOrder(w);
    assert |Issued(w)| >= |w.chan.accepted|;
    assert forall t | 0 <= t < |w.signals| :: w.signals[t] == Expected(w, t);
  }

  /** What `Run` returns to the caller that waits on the `finished` channel of a ticket. */
  datatype Answer = Pending | ReturnsNil | ReturnsErrUnprocessed

  function AnswerOf(w: Worker, ticket: nat): Answer {
    if |w.signals| <= ticket || w.signals[ticket] == [] then Pending
    else if w.signals[ticket][0] == Closed then ReturnsNil else ReturnsErrUnprocessed
  }

  /** The tickets of the tasks that have run, in order. */
  function TicketsRan(w: Worker): seq<nat> {
    seq(|w.ran|, i requires 0 <= i < |w.ran| => w.ran[i].ticket)
  }

  /** In every reachable state: `Run` returns nil only for a task that has run, and returns
      `ErrUnprocessed` only for one that has not; no task has run twice. */
  lemma AnswersAreTrue(offset: nat, events: seq<Event>, ticket: nat)
    requires Run(Fresh(offset), events).Some?
    ensures var w := Run(Fresh(offset), events).value;
      && (AnswerOf(w, ticket) == ReturnsNil ==> ticket in TicketsRan(w))
      && (AnswerOf(w, ticket) == ReturnsErrUnprocessed ==>
            ticket !in TicketsRan(w) && ticket < |w.chan.accepted|)
      && (forall i, j | 0 <= i < j < |w.ran| :: w.ran[i].ticket != w.ran[j].ticket)
  {
    FreshInv(offset);
    RunInv(Fresh(offset), events);
    var w := Run(Fresh(offset), events).value;
    TicketsInOrder(w);
    if AnswerOf(w, ticket) == ReturnsNil {
      assert w.signals[ticket] == Expected(w, ticket);
      assert TicketsRan(w)[ticket] == ticket;
    }
    if AnswerOf(w, ticket) == ReturnsErrUnprocessed {
      assert w.signals[ticket] == Expected(w, ticket);
    }
  }

  /** A task that has run and whose `finished` channel is not closed yet. */
  predicate Closing(w: Worker, ticket: nat) {
    (w.pc.Did? || w.pc.Lowered?) && w.pc.job.ticket == ticket
  }

  /** A task that was left at finalisation and has been told so. */
  predicate Told(w: Worker, ticket: nat) {
    && |w.chan.delivered| <= ticket < |w.chan.accepted|
    && (w.pc == Returned ||
        (w.pc.Draining? &&
         (ticket < |w.chan.accepted| - |w.pc.rest| ||
          (ticket == |w.chan.accepted| - |w.pc.rest| && w.pc.told))))
  }

  lemma AnswersFromSignals(w: Worker, ticket: nat)
    requires Books(w) && Control(w) && Signals(w)
    ensures AnswerOf(w, ticket) == ReturnsNil <==> ticket in TicketsRan(w) && !Closing(w, ticket)
    ensures AnswerOf(w, ticket) == ReturnsErrUnprocessed <==> Told(w, ticket)
  {
    TicketsInOrder(w);
    Tickets(w);
    assert |w.chan.accepted| <= |Issued(w)| == |w.signals|;
    if ticket < |w.signals| { assert w.signals[ticket] == Expected(w, ticket); }
    if ticket < |w.ran| { assert TicketsRan(w)[ticket] == ticket; }
    if ticket in TicketsRan(w) {
      var i :| 0 <= i < |w.ran| && TicketsRan(w)[i] == ticket;
      assert w.ran[i].ticket == i;
    }
  }

  /** Exactly when `Run` has its answer, in every reachable state: nil once the task has run and its
      channel is closed, `ErrUnprocessed` once it was left and told so. */
  lemma AnswersExactly(offset: nat, events: seq<Event>, ticket: nat)
    requires Run(Fresh(offset), events).Some?
    ensures var w := Run(Fresh(offset), events).value;
      && (AnswerOf(w, ticket) == ReturnsNil <==> ticket in TicketsRan(w) && !Closing(w, ticket))
      && (AnswerOf(w, ticket) == ReturnsErrUnprocessed <==> Told(w, ticket))
  {
    FreshInv(offset);
    RunInv(Fresh(offset), events);
    AnswersFromSignals(Run(Fresh(offset), events).value, ticket);
  }

  /** Once `worker.run` has returned, every task accepted before finalisation has its answer: nil for
      those that ran, `ErrUnprocessed` for the rest. Later ones never get one. */
  lemma EveryoneIsAnswered(offset: nat, events: seq<Event>, ticket: nat)
    requires Run(Fresh(offset), events).Some? && Run(Fresh(offset), events).value.pc == Returned
    ensures var w := Run(Fresh(offset), events).value;
      AnswerOf(w, ticket) == if ticket < |w.ran| then ReturnsNil
                             else if ticket < |w.chan.accepted| then ReturnsErrUnprocessed
                             else Pending
  {
    FreshInv(offset);
    RunInv(Fresh(offset), events);
    ReturnedResolves(Run(Fresh(offset), events).value);
  }

  lemma StepIsFinal(w: Worker, e: Event, ticket: nat)
    requires Inv(w) && Next(w, e).Some?
    ensures var v := Next(w, e).value;
      && (AnswerOf(w, ticket) != Pending ==> AnswerOf(v, ticket) == AnswerOf(w, ticket))
      && w.ran <= v.ran
  {
    HistoryGrows(w, e);
    var v := Next(w, e).value;
    if ticket < |w.signals| { assert w.signals[ticket] <= v.signals[ticket]; }
  }

  lemma HistoryGrows(w: Worker, e: Event)
    requires Next(w, e).Some?
    ensures var v := Next(w, e).value;
      && w.ran <= v.ran && |w.signals| <= |v.signals|
      && (forall t | 0 <= t < |w.signals| :: w.signals[t] <= v.signals[t])
  {
  }

  /** An answer never changes: no later step makes an unprocessed task run, or a finished one
      unprocessed. */
  lemma {:induction false} AnswersAreFinal(w: Worker, events: seq<Event>, ticket: nat)
    requires Inv(w) && Run(w, events).Some?
    ensures AnswerOf(w, ticket) != Pending ==>
      AnswerOf(Run(w, events).value, ticket) == AnswerOf(w, ticket)
    ensures w.ran <= Run(w, events).value.ran
    decreases |events|
  {
    if events != [] {
      StepIsFinal(w, events[0], ticket);
      NextInv(w, events[0]);
      AnswersAreFinal(Next(w, events[0]).value, events[1..], ticket);
    }
  }

  // ---------------------------------------------------------------------------------------
  // Load accounting
  // ---------------------------------------------------------------------------------------

  function EtasOf(jobs: seq<Job>): seq<nat> {
    seq(|jobs|, i requires 0 <= i < |jobs| => jobs[i].eta)
  }

  /** The ETAs charged to the worker in a run, in order. */
  function ChargedEtas(events: seq<Event>): seq<nat> {
    if events == [] then []
    else (if events[0].Charge? then [events[0].eta] else []) + ChargedEtas(events[1..])
  }

  /** The tasks whose ETA has been taken off again. */
  function Completed(w: Worker): seq<Job>
    requires w.pc.Did? ==> w.ran != []
  {
    if w.pc.Did? then w.ran[..|w.ran| - 1] else w.ran
  }

  lemma ListsIssue(a: seq<Job>, b: seq<Job>, c: seq<Job>, item: Job)
    ensures EtasOf(a + b + c + [item]) == EtasOf(a + b + c) + [item.eta]
  {
  }

  lemma StepIssues(w: Worker, e: Event)
    requires Books(w) && Next(w, e).Some?
    ensures EtasOf(Issued(Next(w, e).value))
         == EtasOf(Issued(w)) + (if e.Charge? then [e.eta] else [])
  {
    var v := Next(w, e).value;
    if e.Charge? {
      ListsIssue(w.chan.accepted, w.chan.discarded, [], v.charged.value);
      assert Issued(w) == w.chan.accepted + w.chan.discarded + [];
      assert Issued(v) == Issued(w) + [v.charged.value];
    } else {
      assert Issued(v) == Issued(w);
    }
  }

  lemma {:induction false} RunIssues(w: Worker, events: seq<Event>)
    requires Inv(w) && Run(w, events).Some?
    ensures EtasOf(Issued(Run(w, events).value)) == EtasOf(Issued(w)) + ChargedEtas(events)
    decreases |events|
  {
    if events != [] {
      var e := events[0];
      var v := Next(w, e).value;
      var now := if e.Charge? then [e.eta] else [];
      calc {
        EtasOf(Issued(Run(w, events).value));
        { NextInv(w, e); RunIssues(v, events[1..]); }
        EtasOf(Issued(v)) + ChargedEtas(events[1..]);
        { StepIssues(w, e); }
        (EtasOf(Issued(w)) + now) + ChargedEtas(events[1..]);
        EtasOf(Issued(w)) + (now + ChargedEtas(events[1..]));
      }
    }
  }

  lemma OutstandingIsTheRest(w: Worker)
    requires Books(w) && Control(w)
    ensures Sum(Issued(w)) == Sum(Completed(w)) + Outstanding(w)
  {
    var c := w.chan;
    SumAppend(c.accepted + c.discarded, Held(w.charged));
    SumAppend(c.accepted, c.discarded);
    SumAppend(c.delivered, c.storage);
    SumAppend(w.ran, ToRun(w.pc));
    if w.pc.Did? {
      assert w.ran == Completed(w) + InHand(w.pc);
      SumAppend(Completed(w), InHand(w.pc));
      assert ToRun(w.pc) == [];
    }
  }

  /** In every interleaving a worker's `eta` is its offset plus the ETAs of the tasks added, in
      the order they were added, minus those of the tasks completed. */
  lemma LoadAccounting(offset: nat, events: seq<Event>)
    requires Run(Fresh(offset), events).Some?
    ensures var w := Run(Fresh(offset), events).value;
      && EtasOf(Issued(w)) == ChargedEtas(events)
      && (w.pc.Did? ==> w.ran != [])
      && Completed(w) <= w.ran <= Issued(w)
      && w.eta == offset + Sum(Issued(w)) - Sum(Completed(w))
  {
    FreshInv(offset);
    RunInv(Fresh(offset), events);
    RunIssues(Fresh(offset), events);
    RunOffset(Fresh(offset), events);
    OutstandingIsTheRest(Run(Fresh(offset), events).value);
  }

  lemma {:induction false} RunOffset(w: Worker, events: seq<Event>)
    requires Run(w, events).Some?
    ensures Run(w, events).value.offset == w.offset
    decreases |events|
  {
    if events != [] { RunOffset(Next(w, events[0]).value, events[1..]); }
  }

  /** The ETAs of the tasks that wait: thrown away, stored, charged, or taken and not begun. */
  function Waiting(w: Worker): nat {
    Sum(w.chan.storage) + Sum(w.chan.discarded) + Sum(Held(w.charged))
      + (if w.pc.Took? then w.pc.job.eta else 0)
  }

  /** In every reachable state the load that `RunAsync` compares is the offset, the waiting tasks, and
      of the task being run what its ETA leaves after the time it has been running. */
  lemma LoadIsWaitingAndRest(offset: nat, events: seq<Event>, elapsed: nat)
    requires Run(Fresh(offset), events).Some?
    ensures var w := Run(Fresh(offset), events).value;
      EtaWithOngoing(w, elapsed) == offset + Waiting(w)
        + (if (w.pc.Marked? || w.pc.Did?) && elapsed < w.pc.job.eta
           then w.pc.job.eta - elapsed else 0)
  {
    FreshInv(offset);
    RunInv(Fresh(offset), events);
    RunOffset(Fresh(offset), events);
    var w := Run(Fresh(offset), events).value;
    if w.pc.Took? || w.pc.Marked? || w.pc.Did? { assert Sum([w.pc.job]) == w.pc.job.eta; }
  }

  /** The ETAs of the outstanding tasks other than the one marked as running. */
  function Backlog(w: Worker): int {
    Outstanding(w) - (if w.ongoing.Some? then w.ongoing.value else 0)
  }

  /** What `RunAsync` compares with the maximum delay lies between the backlog and `eta`, however
      long the running task has been running; and a task that overruns counts for nothing. */
  lemma OngoingBounds(offset: nat, events: seq<Event>, elapsed: nat)
    requires Run(Fresh(offset), events).Some?
    ensures var w := Run(Fresh(offset), events).value;
      && 0 <= Backlog(w)
      && offset + Backlog(w) <= EtaWithOngoing(w, elapsed) <= w.eta
      && (w.ongoing.Some? && w.ongoing.value <= elapsed ==>
            EtaWithOngoing(w, elapsed) == offset + Backlog(w))
  {
    FreshInv(offset);
    RunInv(Fresh(offset), events);
    RunOffset(Fresh(offset), events);
    var w := Run(Fresh(offset), events).value;
    if w.ongoing.Some? { assert Sum([w.pc.job]) == w.pc.job.eta; }
  }
}
