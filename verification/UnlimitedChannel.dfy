/** The manager goroutine of safe/channel.go, as a machine whose steps are the rendezvous it takes
    part in: senders on `in`, receivers on `out`, and the cancelled context. */
module UnlimitedChannel {
  import opened Options

  /** Where the manager blocks. `Waiting` is the select of an empty storage, `Selecting` the one
      that offers `storage[0]`, `Drained` the endless receive after finalisation. */
  datatype Phase = Waiting | Selecting | Drained | Crashed

  /** The last three fields record history: what `in` delivered to the manager before it was
      finalised, what `out` handed over, and what was thrown away afterwards. */
  datatype Chan<T> = Chan(
    phase: Phase, storage: seq<T>, cancelled: bool, inClosed: bool, outCloses: nat,
    accepted: seq<T>, delivered: seq<T>, discarded: seq<T>)

  datatype Event<T> =
    | Send(item: T)       // a sender meets the manager on `in`
    | Receive             // a receiver meets the manager on `out`
    | Cancel              // the first half of Finalize
    | Stop                // the manager sees the cancelled context
    | CloseIn             // somebody closes `in`
    | SeeClosed           // the manager receives from the closed `in`
    | OfferOnClosed       // the manager picks the send on a closed `out`

  function Empty<T>(): Chan<T> {
    Chan(Waiting, [], false, false, 0, [], [], [])
  }

  /** `close(c.out)`: a second close panics. */
  function CloseOut<T>(c: Chan<T>, next: Phase): Chan<T> {
    if c.outCloses > 0 then c.(phase := Crashed)
    else c.(outCloses := c.outCloses + 1, phase := next)
  }

  /** The state after `e`, or `None` when `e` cannot happen. */
  function Next<T>(c: Chan<T>, e: Event<T>): Option<Chan<T>> {
    match e
    case Send(item) =>
      if c.inClosed || c.phase == Crashed then None
      else if c.phase == Drained then Some(c.(discarded := c.discarded + [item]))
      else Some(c.(phase := Selecting, storage := c.storage + [item],
                   accepted := c.accepted + [item]))
    case Receive =>
      if c.phase != Selecting || c.storage == [] || c.outCloses > 0 then None
      else Some(c.(phase := if |c.storage| == 1 then Waiting else Selecting,
                   storage := c.storage[1..], delivered := c.delivered + [c.storage[0]]))
    case Cancel => Some(c.(cancelled := true))
    case Stop =>
      if !c.cancelled || (c.phase != Waiting && c.phase != Selecting) then None
      else Some(CloseOut(c, Drained))
    case CloseIn =>
      if c.inClosed then None else Some(c.(inClosed := true))
    case SeeClosed =>
      if !c.inClosed || c.phase == Crashed then None
      else if c.phase == Drained then Some(c)
      // with nothing stored, the next select evaluates storage[0]
      else Some(CloseOut(c, if c.phase == Waiting then Crashed else Selecting))
    case OfferOnClosed =>
      if c.phase == Selecting && c.outCloses > 0 then Some(c.(phase := Crashed)) else None
  }

  function Run<T>(c: Chan<T>, events: seq<Event<T>>): Option<Chan<T>>
    decreases |events|
  {
    if events == [] then Some(c)
    else
      var next := Next(c, events[0]);
      if next.None? then None else Run(next.value, events[1..])
  }

  /** A run from state to state. */
  lemma {:induction false} RunPath<T>(events: seq<Event<T>>, states: seq<Chan<T>>)
    requires |states| == |events| + 1
    requires forall k | 0 <= k < |events| :: Next(states[k], events[k]) == Some(states[k + 1])
    ensures Run(states[0], events) == Some(states[|events|])
    decreases |events|
  {
    if events != [] { RunPath(events[1..], states[1..]); }
  }

  /** The items sent in a run, in order. */
  function Sent<T>(events: seq<Event<T>>): seq<T> {
    if events == [] then []
    else (if events[0].Send? then [events[0].item] else []) + Sent(events[1..])
  }

  ghost predicate Inv<T>(c: Chan<T>) {
    && c.accepted == c.delivered + c.storage
    && (c.phase == Waiting ==> c.storage == [] && c.outCloses == 0)
    && (c.phase == Selecting ==> c.storage != [])
    && (c.phase != Drained ==> c.discarded == [])
    && c.outCloses <= 1
    && (!c.inClosed ==> c.phase != Crashed && (c.outCloses == 1 <==> c.phase == Drained))
    && (c.phase == Drained ==> c.cancelled)
  }

  lemma NextInv<T>(c: Chan<T>, e: Event<T>)
    requires Inv(c) && Next(c, e).Some?
    ensures Inv(Next(c, e).value)
  {
  }

  /** Both drained, and only the discarded items may differ. */
  ghost predicate SameBooks<T>(c: Chan<T>, d: Chan<T>) {
    && c.phase == d.phase == Drained && c.storage == d.storage
    && c.accepted == d.accepted && c.delivered == d.delivered && c.outCloses == d.outCloses
  }

  /** The history only grows by the event, and nothing moves once the manager has drained. */
  lemma NextHistory<T>(c: Chan<T>, e: Event<T>)
    requires Inv(c) && Next(c, e).Some?
    ensures var d := Next(c, e).value;
      && d.accepted + d.discarded == c.accepted + c.discarded
                                     + (if e.Send? then [e.item] else [])
      && c.delivered <= d.delivered
      && (c.phase == Drained ==>
            SameBooks(c, d) && d.discarded == c.discarded + (if e.Send? then [e.item] else []))
  {
  }

  lemma {:induction false} RunInv<T>(c: Chan<T>, events: seq<Event<T>>)
    requires Inv(c) && Run(c, events).Some?
    ensures Inv(Run(c, events).value)
    decreases |events|
  {
    if events != [] {
      NextInv(c, events[0]);
      RunInv(Next(c, events[0]).value, events[1..]);
    }
  }

  lemma {:induction false} RunHistory<T>(c: Chan<T>, events: seq<Event<T>>)
    requires Inv(c) && Run(c, events).Some?
    ensures var d := Run(c, events).value;
      && d.accepted + d.discarded == c.accepted + c.discarded + Sent(events)
      && c.delivered <= d.delivered
    decreases |events|
  {
    if events != [] {
      NextInv(c, events[0]);
      NextHistory(c, events[0]);
      RunHistory(Next(c, events[0]).value, events[1..]);
    }
  }

  lemma {:induction false} RunDrained<T>(c: Chan<T>, events: seq<Event<T>>)
    requires Inv(c) && c.phase == Drained && Run(c, events).Some?
    ensures SameBooks(c, Run(c, events).value)
    ensures Run(c, events).value.discarded == c.discarded + Sent(events)
    decreases |events|
  {
    if events != [] {
      var d, rest := Next(c, events[0]).value, Sent(events[1..]);
      var now := if events[0].Send? then [events[0].item] else [];
      NextInv(c, events[0]);
      NextHistory(c, events[0]);
      RunDrained(d, events[1..]);
      assert (c.discarded + now) + rest == c.discarded + (now + rest);
    }
  }

  /** Order is conserved in every run: what was sent is what was handed over, then what is stored,
      then what came after finalisation. In particular receivers see a prefix of the sent items. */
  lemma ConservesOrder<T>(events: seq<Event<T>>)
    requires Run(Empty(), events).Some?
    ensures var c := Run(Empty(), events).value;
      && Sent(events) == c.delivered + c.storage + c.discarded
      && (c.discarded != [] ==> c.phase == Drained)
      && c.outCloses <= 1
  {
    RunInv(Empty(), events);
    RunHistory(Empty(), events);
  }

  /** `Finalize` returns the accepted items that were not handed over. Whatever happens later,
      sends included, any further call returns the same. */
  lemma FinalizeReturnsRest<T>(before: seq<Event<T>>, after: seq<Event<T>>)
    requires Run(Empty(), before).Some? && Run(Empty(), before).value.phase == Drained
    requires Run(Run(Empty(), before).value, after).Some?
    ensures var c := Run(Empty<T>(), before).value;
      var d := Run(c, after).value;
      && d.phase == Drained && d.storage == c.storage
      && c.accepted == c.delivered + c.storage
      && d.delivered == c.delivered
      && d.discarded == c.discarded + Sent(after)
  {
    RunInv(Empty(), before);
    RunDrained(Run(Empty<T>(), before).value, after);
  }

  /** While nobody closes `in`, the manager never panics, a send can be taken in every reachable
      state, and a cancelled manager can drain. */
  lemma NeverStuck<T>(events: seq<Event<T>>, item: T)
    requires Run(Empty(), events).Some? && !Run(Empty(), events).value.inClosed
    ensures var c := Run(Empty<T>(), events).value;
      && c.phase != Crashed
      && (c.phase == Selecting ==> c.storage != [])
      && Next(c, Send(item)).Some?
      && (c.cancelled && c.phase != Drained ==>
            Next(c, Stop).Some? && Next(c, Stop).value.phase == Drained)
  {
    RunInv(Empty(), events);
  }

  /** Once `in` is closed before finalisation, the manager can be driven into a panic. */
  lemma ClosingInCrashes<T>(events: seq<Event<T>>) returns (more: seq<Event<T>>)
    requires Run(Empty(), events).Some?
    requires var c := Run(Empty<T>(), events).value; c.inClosed && c.phase != Drained
    ensures Run(Run(Empty<T>(), events).value, more).Some?
    ensures Run(Run(Empty<T>(), events).value, more).value.phase == Crashed
    ensures |more| <= 2
  {
    RunInv(Empty(), events);
    var c := Run(Empty<T>(), events).value;
    if c.phase == Crashed {
      more := [];
    } else {
      var d := Next(c, SeeClosed).value;
      if d.phase == Crashed {
        more := [SeeClosed];
        RunPath(more, [c, d]);
      } else {
        more := [SeeClosed, SeeClosed];
        RunPath(more, [c, d, Next(d, SeeClosed).value]);
      }
    }
  }

  /** The manager has closed `out` without being finalised, or has panicked already. */
  predicate Doomed<T>(c: Chan<T>) {
    c.phase == Crashed || (c.phase == Selecting && c.outCloses == 1 && c.inClosed)
  }

  lemma {:induction false} StaysDoomed<T>(c: Chan<T>, events: seq<Event<T>>)
    requires Doomed(c) && Run(c, events).Some?
    ensures Doomed(Run(c, events).value)
    decreases |events|
  {
    if events != [] { StaysDoomed(Next(c, events[0]).value, events[1..]); }
  }

  /** The panic is unavoidable exactly once the manager has seen the closed `in`: until then, even
      if `in` is closed, finalising in time drains it; from then on every step the manager takes
      is a panic. */
  lemma PanicIsUnavoidableExactly<T>(events: seq<Event<T>>)
    requires Run(Empty(), events).Some? && Run(Empty<T>(), events).value.phase != Drained
    ensures var c := Run(Empty<T>(), events).value;
      && (Doomed(c) <==> forall more | Run(c, more).Some? :: Run(c, more).value.phase != Drained)
      && (Doomed(c) ==> forall e | e in {Stop, SeeClosed, OfferOnClosed} && Next(c, e).Some? ::
            Next(c, e).value.phase == Crashed)
      && (Doomed(c) <==> c.phase == Crashed || c.outCloses == 1)
  {
    RunInv(Empty(), events);
    var c := Run(Empty<T>(), events).value;
    if Doomed(c) {
      forall more | Run(c, more).Some? ensures Run(c, more).value.phase != Drained {
        StaysDoomed(c, more);
      }
    } else {
      var d := Next(c, Cancel).value;
      var drained := Next(d, Stop).value;
      RunPath([Cancel, Stop], [c, d, drained]);
      assert Run(c, [Cancel, Stop]).value.phase == Drained;
    }
  }

  // ---------------------------------------------------------------------------------------
  // The object
  // ---------------------------------------------------------------------------------------

  class Channel<T> {
    var phase: Phase
    var storage: seq<T>
    var cancelled: bool
    var outClosed: bool
    ghost var accepted: seq<T>
    ghost var delivered: seq<T>
    ghost var discarded: seq<T>

    /** The state of the machine, for a channel whose `in` nobody closes. */
    ghost function View(): Chan<T>
      reads this
    {
      Chan(phase, storage, cancelled, false, if outClosed then 1 else 0,
           accepted, delivered, discarded)
    }

    constructor ()
      ensures View() == Empty()
    {
      phase, storage, cancelled, outClosed := Waiting, [], false, false;
      accepted, delivered, discarded := [], [], [];
    }

    /** One receive of the manager from `in`, wherever the manager blocks. */
    method TakeIn(item: T)
      requires Inv(View())
      modifies this
      ensures Some(View()) == Next(old(View()), Send(item))
    {
      if phase == Drained {
        discarded := discarded + [item];
      } else {
        storage := storage + [item];
        accepted := accepted + [item];
        phase := Selecting;
      }
    }

    /** One send of the manager on `out`. */
    method GiveOut() returns (item: T)
      requires Inv(View()) && phase == Selecting
      modifies this
      ensures Some(View()) == Next(old(View()), Receive)
      ensures item == old(storage)[0]
    {
      item := storage[0];
      storage := storage[1..];
      delivered := delivered + [item];
      phase := if |storage| == 0 then Waiting else Selecting;
    }

    /** `Finalize`, up to the point where the manager has answered. */
    method Finalize() returns (rest: seq<T>)
      requires Inv(View())
      modifies this
      ensures Some(View()) == Run(old(View()),
                                  if old(phase) == Drained then [Cancel] else [Cancel, Stop])
      ensures old(phase) != Drained ==>
        Some(View()) == Next(Next(old(View()), Cancel).value, Stop)
      ensures Inv(View()) && phase == Drained
      ensures rest == storage == accepted[|delivered|..] && accepted == old(accepted)
    {
      cancelled := true;
      if phase != Drained {
        outClosed := true;
        phase := Drained;
      }
      rest := storage;
      ghost var c := Next(old(View()), Cancel).value;
      if old(phase) == Drained {
        RunPath([Cancel], [old(View()), c]);
      } else {
        RunPath([Cancel, Stop], [old(View()), c, View()]);
      }
    }
  }
}
