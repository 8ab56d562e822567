/** Progress of one worker of the balanced pool: every schedule of its own steps ends, and where.
    `run` sends `ErrUnprocessed` on channels without a buffer, so whether it returns depends on who
    receives. */
module BalancedProgress {
  import opened Options
  import opened BalancedWorker
  import opened BalancedRuns
  import UC = UnlimitedChannel

  /** The steps of `worker.run` and of its manager; the others are those of the submitter and of
      clients. Leaving the loop takes a cancelled context. */
  predicate Own(e: Event, ctxDone: bool) {
    !e.Charge? && !e.Enqueue? && !e.Await? && (e.Leave? ==> ctxDone)
  }

  // ---------------------------------------------------------------------------------------
  // Every schedule ends
  // ---------------------------------------------------------------------------------------

  /** How many own steps can still follow: five for a stored task, four for one in hand. */
  function Distance(w: Worker): nat {
    var stored := 5 * |w.chan.storage|;
    match w.pc
    case Took(_) => stored + 10
    case Marked(_) => stored + 9
    case Did(_) => stored + 8
    case Lowered(_) => stored + 7
    case Looping => stored + 6
    case Leaving => stored + 5
    case Finalizing => stored + (if w.chan.phase == UC.Drained then 3 else 4)
    case Draining(rest, told) => 2 * |rest| + (if told then 0 else 1)
    case Returned => 0
  }

  /** Every own step brings the distance down; a task that is enqueued adds five, and nothing else
      adds anything. */
  lemma EveryStepCounts(w: Worker, e: Event)
    requires UC.Inv(w.chan) && !w.chan.inClosed && Control(w) && Next(w, e).Some?
    ensures Own(e, true) ==> Distance(Next(w, e).value) < Distance(w)
    ensures !Own(e, true) ==>
      Distance(Next(w, e).value) <= Distance(w) + (if e.Enqueue? then 5 else 0)
  {
  }

  function OwnSteps(events: seq<Event>): nat {
    if events == [] then 0 else (if Own(events[0], true) then 1 else 0) + OwnSteps(events[1..])
  }

  function Enqueues(events: seq<Event>): nat {
    if events == [] then 0 else (if events[0].Enqueue? then 1 else 0) + Enqueues(events[1..])
  }

  lemma {:induction false} StepsAreCounted(w: Worker, events: seq<Event>)
    requires Inv(w) && Run(w, events).Some?
    ensures OwnSteps(events) + Distance(Run(w, events).value)
         <= Distance(w) + 5 * Enqueues(events)
    decreases |events|
  {
    if events != [] {
      EveryStepCounts(w, events[0]);
      NextInv(w, events[0]);
      StepsAreCounted(Next(w, events[0]).value, events[1..]);
    }
  }

  /** No schedule has more own steps than five for each task enqueued, and six to come home. */
  lemma EveryScheduleEnds(offset: nat, events: seq<Event>)
    requires Run(Fresh(offset), events).Some?
    ensures OwnSteps(events) <= 6 + 5 * Enqueues(events)
  {
    FreshInv(offset);
    StepsAreCounted(Fresh(offset), events);
  }

  // ---------------------------------------------------------------------------------------
  // Where it ends
  // ---------------------------------------------------------------------------------------

  ghost predicate Halted(w: Worker, ctxDone: bool) {
    forall e: Event | Own(e, ctxDone) :: Next(w, e).None?
  }

  /** `run` wants to send `ErrUnprocessed` to a client who does not receive. */
  predicate Blocked(w: Worker) {
    w.pc.Draining? && !w.pc.told && w.pc.rest != [] && w.pc.rest[0].ticket !in w.heard
  }

  /** A step that is possible unless the worker has halted. */
  function StepHome(w: Worker, ctxDone: bool): Event {
    match w.pc
    case Looping => if ctxDone then Leave else Take
    case Took(_) => Mark
    case Marked(_) => Do
    case Did(_) => Lower
    case Lowered(_) => CloseDone
    case Leaving => CallFinalize
    case Finalizing => if w.chan.phase == UC.Drained then Collect else ManagerStop
    case Draining(rest, told) => if rest == [] then Return else if told then CloseTold else Tell
    case Returned => Return
  }

  predicate AtRest(w: Worker, ctxDone: bool) {
    w.pc == Returned || Blocked(w) || (!ctxDone && w.pc == Looping && w.chan.storage == [])
  }

  lemma StepHomeWorks(w: Worker, ctxDone: bool)
    requires Control(w) && UC.Inv(w.chan) && !w.chan.inClosed && !AtRest(w, ctxDone)
    ensures Own(StepHome(w, ctxDone), ctxDone)
    ensures Next(w, StepHome(w, ctxDone)).Some?
  {
  }

  lemma NoStepAtRest(w: Worker, ctxDone: bool, e: Event)
    requires Control(w) && UC.Inv(w.chan) && !w.chan.inClosed && AtRest(w, ctxDone)
    requires Own(e, ctxDone)
    ensures Next(w, e).None?
  {
  }

  /** A worker and its manager have no step left exactly when `run` has returned, or is blocked on
      a client who does not receive, or waits for tasks and its context is not cancelled. */
  lemma HaltedExactly(w: Worker, ctxDone: bool)
    requires Inv(w)
    ensures Halted(w, ctxDone) <==> AtRest(w, ctxDone)
  {
    if AtRest(w, ctxDone) {
      forall e: Event | Own(e, ctxDone) ensures Next(w, e).None? { NoStepAtRest(w, ctxDone, e); }
    } else {
      StepHomeWorks(w, ctxDone);
    }
  }

  /** Still in the loop of `run`. */
  predicate InLoop(w: Worker) {
    w.pc.Looping? || w.pc.Took? || w.pc.Marked? || w.pc.Did? || w.pc.Lowered?
  }

  /** Before cancellation: no step is left exactly when every accepted task has run and has its
      `finished` channel closed. */
  lemma IdleExactly(w: Worker)
    requires Inv(w) && InLoop(w)
    ensures Halted(w, false) <==>
      && w.ran == w.chan.accepted
      && forall t | 0 <= t < |w.chan.accepted| :: t < |w.signals| && w.signals[t] == [Closed]
  {
    HaltedExactly(w, false);
    assert |w.chan.accepted| <= |Issued(w)| == |w.signals|;
    if w.ran == w.chan.accepted {
      assert |w.chan.accepted| == |w.ran| + |ToRun(w.pc)| + |w.chan.storage|;
      if w.pc.Did? || w.pc.Lowered? {
        assert w.signals[|w.ran| - 1] == Expected(w, |w.ran| - 1) == [];
      }
    }
    if AtRest(w, false) {
      assert w.chan.accepted == w.ran + [] + [];
      forall t | 0 <= t < |w.ran| ensures w.signals[t] == [Closed] {
        assert w.signals[t] == Expected(w, t);
      }
    }
  }

  // ---------------------------------------------------------------------------------------
  // Whether `run` returns
  // ---------------------------------------------------------------------------------------

  /** Somebody receives on the `finished` channel of every accepted task that was not taken. */
  predicate LeftHeard(w: Worker) {
    forall t | |w.chan.delivered| <= t < |w.chan.accepted| :: t in w.heard
  }

  lemma ReturnedIsHeard(w: Worker)
    requires Inv(w) && w.pc == Returned
    ensures LeftHeard(w)
  {
    forall t | |w.chan.delivered| <= t < |w.chan.accepted| ensures t in w.heard {
      assert |w.chan.accepted| <= |Issued(w)| == |w.signals|;
      assert w.signals[t] == Expected(w, t) == [Unprocessed, Closed];
    }
  }

  lemma BlockedIsUnheard(w: Worker)
    requires Inv(w) && Blocked(w)
    ensures |w.chan.delivered| <= w.pc.rest[0].ticket < |w.chan.accepted| && !LeftHeard(w)
  {
    Tickets(w);
  }

  /** From finalisation on the tasks left and, unless further clients come, those who receive are
      fixed. */
  lemma {:induction false} FixedOnceDrained(w: Worker, events: seq<Event>)
    requires Inv(w) && w.chan.phase == UC.Drained && Run(w, events).Some?
    requires forall e | e in events :: !e.Await?
    ensures var v := Run(w, events).value;
      && v.chan.phase == UC.Drained && v.heard == w.heard
      && v.chan.accepted == w.chan.accepted && v.chan.delivered == w.chan.delivered
    decreases |events|
  {
    if events != [] {
      assert events[0] in events && forall e | e in events[1..] :: e in events;
      DrainedStep(w, events[0]);
      NextInv(w, events[0]);
      FixedOnceDrained(Next(w, events[0]).value, events[1..]);
    }
  }

  lemma DrainedStep(w: Worker, e: Event)
    requires w.chan.phase == UC.Drained && Next(w, e).Some? && !e.Await?
    ensures var v := Next(w, e).value;
      && v.chan.phase == UC.Drained && v.heard == w.heard
      && v.chan.accepted == w.chan.accepted && v.chan.delivered == w.chan.delivered
  {
  }

  /** After finalisation `run` returns under every schedule if somebody receives for each task that
      was left, and under no schedule otherwise. */
  lemma ReturnsExactly(w: Worker, events: seq<Event>)
    requires Inv(w) && w.chan.phase == UC.Drained && Run(w, events).Some?
    requires forall e | e in events :: !e.Await?
    ensures LeftHeard(w) && Halted(Run(w, events).value, true) ==>
      Run(w, events).value.pc == Returned
    ensures !LeftHeard(w) ==> Run(w, events).value.pc != Returned
  {
    var v := Run(w, events).value;
    RunInv(w, events);
    FixedOnceDrained(w, events);
    HaltedExactly(v, true);
    if v.pc == Returned {
      ReturnedIsHeard(v);
    } else if Halted(v, true) {
      BlockedIsUnheard(v);
    }
  }

  /** Along every run: where a cancelled worker has no step left, `run` has returned exactly if
      somebody receives for each task that was left. */
  lemma HaltedReturnsExactly(offset: nat, events: seq<Event>)
    requires Run(Fresh(offset), events).Some? && Halted(Run(Fresh(offset), events).value, true)
    ensures var v := Run(Fresh(offset), events).value;
      v.pc == Returned <==> LeftHeard(v)
  {
    FreshInv(offset);
    RunInv(Fresh(offset), events);
    var v := Run(Fresh(offset), events).value;
    HaltedExactly(v, true);
    if v.pc == Returned { ReturnedIsHeard(v); } else { BlockedIsUnheard(v); }
  }

  /** Once blocked, `run` stays where it is and answers nobody, whatever else happens, until the
      client of the first task in line receives. */
  lemma {:induction false} BlockedStays(w: Worker, events: seq<Event>)
    requires Inv(w) && Blocked(w) && Run(w, events).Some?
    requires Await(w.pc.rest[0].ticket) !in events
    ensures var v := Run(w, events).value;
      && Blocked(v) && v.pc == w.pc && v.ran == w.ran
      && |w.signals| <= |v.signals|
      && (forall t | 0 <= t < |w.signals| :: v.signals[t] == w.signals[t])
      && (forall t | |w.signals| <= t < |v.signals| :: v.signals[t] == [])
    decreases |events|
  {
    if events != [] {
      assert events[0] in events && forall e | e in events[1..] :: e in events;
      BlockedStep(w, events[0]);
      NextInv(w, events[0]);
      BlockedStays(Next(w, events[0]).value, events[1..]);
    }
  }

  lemma BlockedStep(w: Worker, e: Event)
    requires Inv(w) && Blocked(w) && Next(w, e).Some? && e != Await(w.pc.rest[0].ticket)
    ensures var v := Next(w, e).value;
      && Blocked(v) && v.pc == w.pc && v.ran == w.ran
      && (v.signals == w.signals || v.signals == w.signals + [[]])
  {
    if Own(e, true) { NoStepAtRest(w, true, e); }
  }

  lemma StepHomeKeeps(w: Worker)
    requires Next(w, StepHome(w, true)).Some?
    ensures var v := Next(w, StepHome(w, true)).value;
      && v.heard == w.heard
      && v.chan.accepted == w.chan.accepted && v.chan.delivered == w.chan.delivered
  {
  }

  /** From every reachable state with a task that was accepted, is not taken yet, and whose client
      does not receive: once the context is cancelled, the worker can block for good. */
  lemma {:induction false} CanBlock(w: Worker, t: nat) returns (events: seq<Event>)
    requires Inv(w) && |w.chan.delivered| <= t < |w.chan.accepted| && t !in w.heard
    ensures forall e | e in events :: Own(e, true)
    ensures Run(w, events).Some? && Blocked(Run(w, events).value)
    ensures var v := Run(w, events).value;
      && v.heard == w.heard
      && v.chan.accepted == w.chan.accepted && v.chan.delivered == w.chan.delivered
    decreases Distance(w)
  {
    if Blocked(w) {
      events := [];
    } else {
      if w.pc == Returned { ReturnedIsHeard(w); }
      var e := StepHome(w, true);
      StepHomeWorks(w, true);
      StepHomeKeeps(w);
      EveryStepCounts(w, e);
      NextInv(w, e);
      var more := CanBlock(Next(w, e).value, t);
      events := [e] + more;
      assert events[1..] == more;
    }
  }

  /** From every reachable state, with a cancelled context, some schedule lets `run` return: it has
      only own steps and, for tasks that were left and are unheard, clients who start to receive. */
  lemma {:induction false} CanReturn(w: Worker) returns (events: seq<Event>)
    requires Inv(w)
    ensures Run(w, events).Some? && Run(w, events).value.pc == Returned
    ensures forall e | e in events && !Own(e, true) ::
      e.Await? && |w.chan.delivered| <= e.ticket < |w.chan.accepted| && e.ticket !in w.heard
    decreases Distance(w), if Blocked(w) then 1 else 0
  {
    if w.pc == Returned {
      events := [];
    } else {
      var e := StepHome(w, true);
      if Blocked(w) {
        BlockedIsUnheard(w);
        e := Await(w.pc.rest[0].ticket);
        AwaitWorks(w);
      } else {
        StepHomeWorks(w, true);
        StepHomeKeeps(w);
        EveryStepCounts(w, e);
      }
      NextInv(w, e);
      var more := CanReturn(Next(w, e).value);
      events := [e] + more;
      assert events[1..] == more;
    }
  }

  lemma AwaitWorks(w: Worker)
    requires Inv(w) && Blocked(w)
    ensures var e := Await(w.pc.rest[0].ticket);
      Next(w, e) == Some(w.(heard := w.heard + {w.pc.rest[0].ticket}))
  {
    Tickets(w);
    if w.charged.Some? {
      assert Issued(w)[|Issued(w)| - 1] == w.charged.value;
    }
  }
}
