/** The objects of pool/balanced/pool.go, with their fields updated in place. Each method is a
    stretch of steps of the machine that no other goroutine interrupts. */
module BalancedObjects {
  import opened Options
  import opened ListScheduling
  import opened BalancedWorker
  import opened BalancedRuns
  import opened BalancedProgress
  import opened BalancedPool
  import UC = UnlimitedChannel

  class WorkerObject {
    const offset: nat
    const tasks: UC.Channel<Job>
    var eta: int
    var ongoing: Option<nat>
    ghost var charged: Option<Job>
    ghost var pc: Pc
    ghost var ran: seq<Job>
    var signals: seq<seq<Signal>>   // the finished channels handed out
    var heard: set<nat>             // those on which somebody receives

    ghost function View(): Worker
      reads this, tasks
    {
      Worker(offset, eta, ongoing, tasks.View(), charged, pc, ran, signals, heard)
    }

    constructor (offset: nat)
      ensures View() == Fresh(offset) && fresh(tasks)
    {
      this.offset := offset;
      tasks := new UC.Channel<Job>();
      eta, ongoing := offset, None;
      charged, pc, ran, signals, heard := None, Looping, [], [], {};
    }

    method EtaWithOnGoing(elapsed: nat) returns (r: int)
      ensures r == EtaWithOngoing(View(), elapsed)
    {
      r := eta;
      if ongoing.Some? {
        r := r - (if ongoing.value < elapsed then ongoing.value else elapsed);
      }
    }

    /** `addTask`: charge, then send. */
    method AddTask(teta: nat) returns (ticket: nat)
      requires Inv(View()) && charged.None?
      modifies this, tasks
      ensures ticket == |old(signals)|
      ensures Next(old(View()), Charge(teta)).Some?
      ensures Some(View()) == Next(Next(old(View()), Charge(teta)).value, Enqueue)
    {
      ChargeThenSend(View(), teta);
      ticket := |signals|;
      eta := eta + teta;
      tasks.TakeIn(Job(ticket, teta));
      signals := signals + [[]];
    }

    /** The receive from `Out()`. */
    method TakeTask() returns (tw: Job)
      requires Inv(View()) && pc == Looping && tasks.storage != []
      modifies this, tasks
      ensures Some(View()) == Next(old(View()), Take) && Inv(View())
      ensures pc == Took(tw) && tw == old(tasks.storage)[0]
    {
      NextInv(View(), Take);
      tw := tasks.GiveOut();
      pc := Took(tw);
    }

    /** `handleTw` for a task just taken: mark, run, lower, close. */
    method HandleTw(tw: Job)
      requires Inv(View()) && pc == Took(tw)
      modifies this
      ensures Some(View()) == Run(old(View()), [Mark, Do, Lower, CloseDone])
      ensures eta == old(eta) - tw.eta && ongoing.None? && Inv(View())
    {
      ghost var v := View();
      MarkOngoing(tw);
      ghost var v1 := View();
      DoTask(tw);
      ghost var v2 := View();
      LowerEta(tw);
      ghost var v3 := View();
      CloseFinished(tw);
      RunPath([Mark, Do, Lower, CloseDone], [v, v1, v2, v3, View()]);
    }

    method MarkOngoing(tw: Job)
      requires Inv(View()) && pc == Took(tw)
      modifies this
      ensures Next(old(View()), Mark) == Some(View()) && Inv(View())
      ensures pc == Marked(tw) && eta == old(eta)
    {
      NextInv(View(), Mark);
      ongoing := Some(tw.eta);
      pc := Marked(tw);
    }

    method DoTask(tw: Job)
      requires Inv(View()) && pc == Marked(tw)
      modifies this
      ensures Next(old(View()), Do) == Some(View()) && Inv(View())
      ensures pc == Did(tw) && eta == old(eta)
    {
      NextInv(View(), Do);
      ran := ran + [tw];
      pc := Did(tw);
    }

    method LowerEta(tw: Job)
      requires Inv(View()) && pc == Did(tw)
      modifies this
      ensures Next(old(View()), Lower) == Some(View()) && Inv(View())
      ensures pc == Lowered(tw) && eta == old(eta) - tw.eta && ongoing.None?
    {
      NextInv(View(), Lower);
      eta := eta - tw.eta;
      ongoing := None;
      pc := Lowered(tw);
    }

    method CloseFinished(tw: Job)
      requires Inv(View()) && pc == Lowered(tw)
      modifies this
      ensures Next(old(View()), CloseDone) == Some(View()) && Inv(View())
      ensures eta == old(eta) && ongoing == old(ongoing)
    {
      Tickets(View());
      NextInv(View(), CloseDone);
      signals := signals[tw.ticket := signals[tw.ticket] + [Closed]];
      pc := Looping;
    }

    /** After the loop: finalise, then answer the tasks that were left, one after the other, until
        the send to a client who does not receive blocks. */
    method Finish() returns (blocked: bool)
      requires Inv(View()) && pc == Leaving
      modifies this, tasks
      ensures Inv(View()) && ran == old(ran) && eta == old(eta) && heard == old(heard)
      ensures blocked <==> !LeftHeard(old(View()))
      ensures if blocked then Blocked(View()) else pc == Returned && ResolvedOnce(View())
      ensures tasks.storage == old(tasks.storage) && |signals| == |old(signals)|
    {
      var tws := Collect();
      blocked := AnswerAll(tws);
      if blocked {
        BlockedIsUnheard(View());
      } else {
        LeaveRun();
      }
    }

    method LeaveRun()
      requires Inv(View()) && pc == Draining([], false)
      modifies this`pc
      ensures Inv(View()) && pc == Returned && Some(View()) == Next(old(View()), Return)
      ensures ResolvedOnce(View()) && LeftHeard(View())
    {
      NextInv(View(), Return);
      pc := Returned;
      ReturnedResolves(View());
      ReturnedIsHeard(View());
    }

    method AnswerAll(tws: seq<Job>) returns (blocked: bool)
      requires Inv(View()) && pc == Draining(tws, false)
      modifies this
      ensures Inv(View()) && ran == old(ran) && eta == old(eta) && heard == old(heard)
      ensures if blocked then Blocked(View()) else pc == Draining([], false)
      ensures |signals| == |old(signals)|
    {
      for k := 0 to |tws|
        invariant Inv(View()) && pc == Draining(tws[k..], false) && heard == old(heard)
        invariant ran == old(ran) && eta == old(eta) && |signals| == |old(signals)|
      {
        if tws[k].ticket !in heard { return true; }
        assert tws[k..][1..] == tws[k + 1..];
        Answer(tws[k]);
      }
      assert tws[|tws|..] == [];
      blocked := false;
    }

    method Collect() returns (tws: seq<Job>)
      requires Inv(View()) && pc == Leaving
      modifies this, tasks
      ensures Run(old(View()), [CallFinalize, ManagerStop, Event.Collect]) == Some(View())
      ensures Inv(View()) && pc == Draining(tws, false) && tws == tasks.storage
      ensures ran == old(ran) && eta == old(eta) && signals == old(signals) && heard == old(heard)
      ensures tasks.View() == Finalised(old(View()).chan)
    {
      CollectSteps(View());
      tws := tasks.Finalize();
      pc := Draining(tws, false);
    }

    /** `ErrUnprocessed` to a client who receives, then the close. */
    method Answer(tw: Job)
      requires Inv(View()) && pc.Draining? && !pc.told && pc.rest != [] && tw == pc.rest[0]
      requires tw.ticket in heard
      modifies this
      ensures Inv(View()) && tw.ticket < |old(signals)|
      ensures pc == Draining(old(pc).rest[1..], false)
      ensures View() == old(View()).(pc := pc, signals :=
        old(signals)[tw.ticket := old(signals)[tw.ticket] + [Unprocessed] + [Closed]])
    {
      Tickets(View());
      ghost var v := View();
      NextInv(v, Tell);
      signals := signals[tw.ticket := signals[tw.ticket] + [Unprocessed]];
      pc := Draining(pc.rest, true);
      ghost var v1 := View();
      assert Next(v, Tell) == Some(v1);
      Tickets(v1);
      NextInv(v1, CloseTold);
      signals := signals[tw.ticket := signals[tw.ticket] + [Closed]];
      pc := Draining(pc.rest[1..], false);
      assert Next(v1, CloseTold) == Some(View());
    }
  }

  /** The state after charging and sending. */
  lemma ChargeThenSend(v: Worker, teta: nat)
    requires Inv(v) && v.charged.None?
    ensures Next(v, Charge(teta)).Some?
    ensures UC.Next(v.chan, UC.Send(Job(|v.signals|, teta))).Some?
    ensures Next(Next(v, Charge(teta)).value, Enqueue)
         == Some(v.(eta := v.eta + teta, signals := v.signals + [[]],
                    chan := UC.Next(v.chan, UC.Send(Job(|v.signals|, teta))).value))
  {
    assert UC.Inv(v.chan) && !v.chan.inClosed;
  }

  lemma CollectSteps(v: Worker)
    requires Inv(v) && v.pc == Leaving
    ensures v.chan.phase != UC.Drained
    ensures UC.Next(UC.Next(v.chan, UC.Cancel).value, UC.Stop) == Some(Finalised(v.chan))
    ensures var w := v.(pc := Draining(v.chan.storage, false), chan := Finalised(v.chan));
      Run(v, [CallFinalize, ManagerStop, Event.Collect]) == Some(w) && Inv(w)
  {
    CollectPath(v);
    RunInv(v, [CallFinalize, ManagerStop, Event.Collect]);
  }

  lemma CollectPath(v: Worker)
    requires UC.Inv(v.chan) && !v.chan.inClosed && !v.chan.cancelled && v.pc == Leaving
    ensures v.chan.phase != UC.Drained
    ensures UC.Next(UC.Next(v.chan, UC.Cancel).value, UC.Stop) == Some(Finalised(v.chan))
    ensures var w := v.(pc := Draining(v.chan.storage, false), chan := Finalised(v.chan));
      Run(v, [CallFinalize, ManagerStop, Event.Collect]) == Some(w)
  {
    var v1 := v.(pc := Finalizing, chan := v.chan.(cancelled := true));
    var v2 := v1.(chan := Finalised(v.chan));
    var v3 := v2.(pc := Draining(v.chan.storage, false));
    assert Next(v, CallFinalize) == Some(v1);
    assert Next(v1, ManagerStop) == Some(v2);
    assert Next(v2, Event.Collect) == Some(v3);
    RunPath([CallFinalize, ManagerStop, Event.Collect], [v, v1, v2, v3]);
  }

  ghost function Finalised(c: UC.Chan<Job>): UC.Chan<Job> {
    c.(cancelled := true, outCloses := c.outCloses + 1, phase := UC.Drained)
  }

  // ---------------------------------------------------------------------------------------
  // The pool
  // ---------------------------------------------------------------------------------------

  /** The first position whose key is above `key`: where a binary search tree puts an item that
      may repeat a key. */
  method InsertPosition(keys: seq<int>, key: int) returns (pos: nat)
    ensures pos <= |keys|
    ensures Ascending(keys) ==> Ascending(keys[..pos] + [key] + keys[pos..])
    ensures forall k | 0 <= k < pos :: keys[k] <= key
    ensures pos < |keys| ==> key < keys[pos]
  {
    pos := 0;
    while pos < |keys| && keys[pos] <= key
      invariant pos <= |keys|
      invariant forall k | 0 <= k < pos :: keys[k] <= key
    {
      pos := pos + 1;
    }
  }

  method Keys(workers: seq<WorkerObject>) returns (keys: seq<int>)
    ensures |keys| == |workers|
    ensures forall k | 0 <= k < |keys| :: keys[k] == workers[k].eta
  {
    keys := [];
    for k := 0 to |workers|
      invariant |keys| == k
      invariant forall j | 0 <= j < k :: keys[j] == workers[j].eta
    {
      keys := keys + [workers[k].eta];
    }
  }

  ghost predicate Ascending(keys: seq<int>) {
    forall a, b | 0 <= a < b < |keys| :: keys[a] <= keys[b]
  }

  class PoolObject {
    /** The tree, in order. */
    var tree: seq<WorkerObject>
    /** The workers by number, and the numbers of the tree's workers. */
    ghost var all: seq<WorkerObject>
    ghost var order: seq<nat>
    ghost var quiet: bool
    ghost var placed: seq<Placement>

    /** The task channels of the workers. */
    ghost function Channels(): set<UC.Channel<Job>>
      reads this
    {
      set w | w in all :: w.tasks
    }

    ghost predicate Linked()
      reads this
    {
      && (forall i, j | 0 <= i < j < |all| :: all[i] != all[j] && all[i].tasks != all[j].tasks)
      && |tree| == |order|
      && (forall k | 0 <= k < |order| :: order[k] < |all| && tree[k] == all[order[k]])
    }

    ghost function View(): Pool
      reads this, all, Channels()
    {
      Pool(seq(|all|, i requires 0 <= i < |all| reads this, all, Channels() => all[i].View()),
           order, Free, false, quiet, placed)
    }

    ghost predicate Valid()
      reads this, all, Channels()
    {
      Linked() && PoolInv(View()) && QuietInv(View())
    }

    /** `New` has made `i` workers. */
    ghost predicate Building(i: nat)
      reads this, all, Channels()
    {
      && Linked() && tree == all && |all| == i
      && order == Numbers(i) && quiet && placed == []
      && forall k | 0 <= k < i :: all[k].View() == Fresh(STAGGER * k)
    }

    constructor ()
      ensures Building(0) && fresh(all)
    {
      tree, all, order, quiet, placed := [], [], [], true, [];
    }

    /** The body of the loop in `New`: the offsets differ, so `ReplaceOrInsert` never replaces. */
    method AddWorker(i: nat)
      requires Building(i)
      modifies this
      ensures Building(i + 1) && fresh(all[i]) && fresh(all[i].tasks) && all[..i] == old(all)
    {
      var w := new WorkerObject(STAGGER * i);
      assert Building(i) && w !in all;
      assert forall k | 0 <= k < i :: all[k].View().eta == STAGGER * k < w.eta;
      var tree' := ReplaceOrInsert(tree, w);
      assert tree' == tree + [w];
      Enter(tree', w, i);
    }

    method Enter(tree': seq<WorkerObject>, w: WorkerObject, i: nat)
      requires Building(i) && tree' == tree + [w]
      requires forall k | 0 <= k < i :: all[k] != w && all[k].tasks != w.tasks
      requires w.View() == Fresh(STAGGER * i)
      modifies this
      ensures Building(i + 1) && all == old(all) + [w]
    {
      tree, all, order := tree', all + [w], order + [i];
    }

    /** `addTask` on the leftmost worker; no other worker changes. */
    method Charge(teta: nat)
      requires Valid() && tree != []
      modifies tree[0], tree[0].tasks
      ensures order[0] < |all| && Linked()
      ensures var v := Next(old(View()).workers[order[0]], BalancedWorker.Charge(teta));
              v.Some? && Next(v.value, Enqueue) == Some(tree[0].View())
      ensures View() == old(View()).(workers :=
                          old(View()).workers[order[0] := tree[0].View()])
    {
      assert tree[0].View() == View().workers[order[0]];
      var ticket := tree[0].AddTask(teta);
    }

    /** Where the leftmost worker belongs among the others. */
    method Place() returns (ghost keys: seq<int>, at: nat)
      requires Linked() && tree != []
      ensures KeysOf(View().workers, order[1..], keys) && at <= |keys| == |tree| - 1
      ensures Ascending(keys) ==> Ascending(keys[..at] + [tree[0].eta] + keys[at..])
    {
      var found := Keys(tree[1..]);
      at := InsertPosition(found, tree[0].eta);
      keys := found;
    }

    /** `DeleteMin` and `InsertNoReplace`. */
    method Move(teta: nat, at: nat)
      requires Linked() && tree != [] && at <= |tree| - 1
      modifies this
      ensures Linked() && all == old(all)
      ensures View() == old(View().(order := InsertAt(order[1..], at, order[0]),
                                    placed := placed + [Placement(order[0], teta)]))
    {
      var w, rest := tree[0], tree[1..];
      tree := rest[..at] + [w] + rest[at..];
      placed := placed + [Placement(order[0], teta)];
      order := InsertAt(order[1..], at, order[0]);
    }

    /** Lines 285 to 287: charge and send, then move the worker. */
    method Dispatch(teta: nat, ghost maxDelay: int, ghost elapsed: nat) returns (ghost pos: nat)
      requires Valid() && tree != [] && ReplyTo(View(), maxDelay, elapsed) == Accepted
      modifies this, all, Channels()
      ensures Valid() && all == old(all)
      ensures RunPool(old(View()), [Submit(teta, maxDelay, elapsed), SendTask, Reinsert(pos)])
           == Some(View())
    {
      ghost var before := View();
      Charge(teta);
      ghost var charged := View();
      ghost var keys;
      keys, pos := Replace(teta);
      DispatchSteps(before, charged, teta, maxDelay, elapsed, keys, pos, View());
    }

    /** Where the leftmost worker belongs, and there it goes. */
    method Replace(teta: nat) returns (ghost keys: seq<int>, ghost pos: nat)
      requires Linked() && tree != []
      modifies this
      ensures Linked() && all == old(all) && pos <= |keys|
      ensures KeysOf(old(View()).workers, old(order)[1..], keys) && |keys| == |old(order)| - 1
      ensures Ascending(keys) ==>
        Ascending(keys[..pos] + [old(View()).workers[old(order)[0]].eta] + keys[pos..])
      ensures View() == old(View()).(order := InsertAt(old(order)[1..], pos, old(order)[0]),
                                     placed := old(placed) + [Placement(old(order)[0], teta)])
    {
      var at;
      keys, at := Place();
      Move(teta, at);
      pos := at;
    }

    /** The whole of `RunAsync`, under the pool lock. `elapsed` is how long the task running on
        the leftmost worker has been running. */
    method RunAsync(teta: nat, maxDelay: int, elapsed: nat) returns (reply: Reply, ghost pos: nat)
      requires Valid()
      modifies this, all, Channels()
      ensures Valid() && all == old(all)
      ensures reply == ReplyTo(old(View()), maxDelay, elapsed)
      ensures reply != Accepted ==> View() == old(View())
      ensures reply == Accepted ==>
        RunPool(old(View()), [Submit(teta, maxDelay, elapsed), SendTask, Reinsert(pos)])
          == Some(View())
    {
      pos := 0;
      if |tree| == 0 { return ErrWorkerNotFound, pos; }
      assert tree[0].View() == View().workers[order[0]];
      if maxDelay != 0 {
        var delay := tree[0].EtaWithOnGoing(elapsed);
        if delay > maxDelay { return ErrWillTakeLonger, pos; }
      }
      pos := Dispatch(teta, maxDelay, elapsed);
      reply := Accepted;
    }

    /** A worker in the tree receives its oldest task. */
    method Take(worker: WorkerObject, ghost i: nat) returns (tw: Job)
      requires Valid() && i < |all| && worker == all[i]
      requires worker.pc == Looping && worker.tasks.storage != []
      modifies worker, worker.tasks
      ensures Valid() && worker.pc == Took(tw) && tw == old(worker.tasks.storage)[0]
      ensures NextPool(old(View()), Local(i, BalancedWorker.Take)) == Some(View())
    {
      ghost var p := View();
      WorkerView(i);
      tw := worker.TakeTask();
      ghost var w := worker.View();
      assert View() == p.(workers := p.workers[i := w]);
      Kept(p, Local(i, BalancedWorker.Take), View());
    }

    /** It runs the task. Its key changes where it stands: the tree keeps its order, and is no
        longer known to be sorted. */
    method Complete(worker: WorkerObject, ghost i: nat, tw: Job)
      requires Valid() && i < |all| && worker == all[i] && worker.pc == Took(tw)
      modifies this, worker
      ensures Valid() && all == old(all) && tree == old(tree)
      ensures RunPool(old(View()), Locals(i, [Mark, Do, Lower, CloseDone])) == Some(View())
    {
      ghost var p := View();
      WorkerView(i);
      worker.HandleTw(tw);
      quiet := false;
      ghost var w := worker.View();
      assert View() == p.(workers := p.workers[i := w], quiet := false);
      CompleteSteps(p, i, w, View());
    }

    lemma WorkerView(i: nat)
      requires Valid() && i < |all|
      ensures View().workers[i] == all[i].View() && Inv(all[i].View())
    {
    }

    lemma NewIsValid(n: nat)
      requires Building(n)
      ensures View() == NewPool(n) && Valid()
    {
      NewPoolInv(n);
      NewPoolQuiet(n);
      assert View().workers == FreshWorkers(n);
    }
  }

  lemma CompleteSteps(p: Pool, i: nat, w: Worker, q: Pool)
    requires PoolInv(p) && QuietInv(p) && i < |p.workers|
    requires Run(p.workers[i], [Mark, Do, Lower, CloseDone]) == Some(w)
    requires q == p.(workers := p.workers[i := w], quiet := false)
    ensures RunPool(p, Locals(i, [Mark, Do, Lower, CloseDone])) == Some(q)
    ensures PoolInv(q) && QuietInv(q)
  {
    var events := [Mark, Do, Lower, CloseDone];
    assert Lower == events[2] && Lower in events;
    LocalsRun(p, i, events, w);
    RunPoolInv(p, Locals(i, events));
    RunPoolQuiet(p, Locals(i, events));
  }

  lemma SubmitStep(p: Pool, teta: nat, maxDelay: int, elapsed: nat, i: nat, v: Worker)
    requires p.lock == Free && ReplyTo(p, maxDelay, elapsed) == Accepted && p.order[0] == i
    requires Next(p.workers[i], Charge(teta)) == Some(v)
    ensures NextPool(p, Submit(teta, maxDelay, elapsed)) == Some(Submitted(p, teta, i, v))
  {
  }

  function Submitted(p: Pool, teta: nat, i: nat, v: Worker): Pool
    requires i < |p.workers|
  {
    p.(workers := p.workers[i := v], lock := Charging(i),
       placed := p.placed + [Placement(i, teta)])
  }

  lemma SendStep(p: Pool, i: nat, w: Worker)
    requires p.lock == Charging(i) && i < |p.workers| && Next(p.workers[i], Enqueue) == Some(w)
    ensures NextPool(p, SendTask) == Some(p.(workers := p.workers[i := w], lock := Sent(i)))
  {
  }

  lemma ReinsertStep(p: Pool, pos: nat, i: nat)
    requires p.lock == Sent(i) && p.order != [] && pos <= |p.order| - 1
    requires Sorted(p.workers, p.order[1..]) ==>
      Sorted(p.workers, InsertAt(p.order[1..], pos, i))
    ensures NextPool(p, Reinsert(pos))
         == Some(p.(order := InsertAt(p.order[1..], pos, i), lock := Free))
  {
  }

  /** Charging, sending and reinserting, one after the other, from `p` to `q`. */
  lemma DispatchSteps(p: Pool, charged: Pool, teta: nat, maxDelay: int, elapsed: nat,
                      keys: seq<int>, pos: nat, q: Pool)
    requires PoolInv(p) && QuietInv(p) && p.lock == Free
    requires ReplyTo(p, maxDelay, elapsed) == Accepted
    requires var i := p.order[0];
      && |charged.workers| == |p.workers|
      && charged == p.(workers := p.workers[i := charged.workers[i]])
      && var v := Next(p.workers[i], Charge(teta));
         v.Some? && Next(v.value, Enqueue) == Some(charged.workers[i])
    requires KeysOf(charged.workers, p.order[1..], keys) && pos <= |keys|
    requires Ascending(keys) ==>
      Ascending(keys[..pos] + [charged.workers[p.order[0]].eta] + keys[pos..])
    requires q == charged.(order := InsertAt(p.order[1..], pos, p.order[0]),
                           placed := p.placed + [Placement(p.order[0], teta)])
    ensures RunPool(p, [Submit(teta, maxDelay, elapsed), SendTask, Reinsert(pos)]) == Some(q)
    ensures PoolInv(q) && QuietInv(q)
  {
    var i := p.order[0];
    DispatchPath(p, teta, maxDelay, elapsed, i, charged.workers[i], keys, pos, q);
    RunPoolInv(p, [Submit(teta, maxDelay, elapsed), SendTask, Reinsert(pos)]);
    RunPoolQuiet(p, [Submit(teta, maxDelay, elapsed), SendTask, Reinsert(pos)]);
  }

  lemma DispatchPath(p: Pool, teta: nat, maxDelay: int, elapsed: nat, i: nat, w: Worker,
                     keys: seq<int>, pos: nat, q: Pool)
    requires p.lock == Free
    requires ReplyTo(p, maxDelay, elapsed) == Accepted && i == p.order[0]
    requires var v := Next(p.workers[i], Charge(teta));
             v.Some? && Next(v.value, Enqueue) == Some(w)
    requires KeysOf(q.workers, p.order[1..], keys) && pos <= |keys|
    requires Ascending(keys) ==> Ascending(keys[..pos] + [w.eta] + keys[pos..])
    requires q == p.(workers := p.workers[i := w], order := InsertAt(p.order[1..], pos, i),
                     placed := p.placed + [Placement(i, teta)])
    ensures RunPool(p, [Submit(teta, maxDelay, elapsed), SendTask, Reinsert(pos)]) == Some(q)
  {
    var v := Next(p.workers[i], Charge(teta)).value;
    var p1 := Submitted(p, teta, i, v);
    var p2 := p1.(workers := p.workers[i := w], lock := Sent(i));
    SubmitStep(p, teta, maxDelay, elapsed, i, v);
    assert p1.workers[i := w] == p.workers[i := w];
    SendStep(p1, i, w);
    ReinsertLast(p, p2, i, w, keys, pos, q);
    RunPoolPath([Submit(teta, maxDelay, elapsed), SendTask, Reinsert(pos)], [p, p1, p2, q]);
  }

  lemma ReinsertLast(p: Pool, p2: Pool, i: nat, w: Worker, keys: seq<int>, pos: nat, q: Pool)
    requires p.order != [] && i == p.order[0]
    requires i < |p.workers| && p2.lock == Sent(i) && p2.order == p.order
    requires p2.workers == p.workers[i := w]
    requires KeysOf(q.workers, p.order[1..], keys) && pos <= |keys|
    requires Ascending(keys) ==> Ascending(keys[..pos] + [w.eta] + keys[pos..])
    requires q == p2.(order := InsertAt(p.order[1..], pos, i), lock := Free)
    ensures NextPool(p2, Reinsert(pos)) == Some(q)
  {
    KeysTell(q.workers, p.order[1..], keys, pos, i, w.eta);
    ReinsertStep(p2, pos, i);
  }

  lemma Kept(p: Pool, e: PoolEvent, q: Pool)
    requires PoolInv(p) && QuietInv(p) && NextPool(p, e) == Some(q)
    ensures PoolInv(q) && QuietInv(q)
  {
    NextPoolInv(p, e);
    NextPoolQuiet(p, e);
  }

  /** The keys of all but the leftmost worker. */
  ghost predicate KeysOf(workers: seq<Worker>, rest: seq<nat>, keys: seq<int>) {
    && |keys| == |rest|
    && forall k | 0 <= k < |rest| ::
         rest[k] < |workers| && keys[k] == workers[rest[k]].eta
  }

  lemma KeysTell(workers: seq<Worker>, rest: seq<nat>, keys: seq<int>, pos: nat, i: nat, key: int)
    requires KeysOf(workers, rest, keys) && pos <= |rest|
    requires i < |workers| && workers[i].eta == key
    requires Ascending(keys) ==> Ascending(keys[..pos] + [key] + keys[pos..])
    ensures Sorted(workers, rest) ==> Sorted(workers, InsertAt(rest, pos, i))
  {
    if Sorted(workers, rest) {
      assert Ascending(keys);
      var order, all := InsertAt(rest, pos, i), keys[..pos] + [key] + keys[pos..];
      assert forall k | 0 <= k < |order| :: workers[order[k]].eta == all[k];
    }
  }

  method New(workerCount: int) returns (p: PoolObject)
    ensures fresh(p) && fresh(p.all) && p.Valid()
    ensures p.View() == NewPool(if workerCount < 0 then 0 else workerCount)
  {
    p := new PoolObject();
    var i := 0;
    while i < workerCount
      invariant 0 <= i && (i <= workerCount || i == 0)
      invariant fresh(p) && p.Building(i) && fresh(p.all)
    {
      p.AddWorker(i);
      i := i + 1;
    }
    p.NewIsValid(i);
  }

  /** The tree operation of that name: an item with an equal key is dropped. */
  method ReplaceOrInsert(tree: seq<WorkerObject>, w: WorkerObject) returns (r: seq<WorkerObject>)
    ensures exists pos | 0 <= pos <= |tree| ::
      && (forall k | 0 <= k < pos :: tree[k].eta < w.eta)
      && (pos < |tree| ==> w.eta <= tree[pos].eta)
      && r == (if pos < |tree| && tree[pos].eta == w.eta then tree[pos := w]
               else tree[..pos] + [w] + tree[pos..])
  {
    var pos := 0;
    while pos < |tree| && tree[pos].eta < w.eta
      invariant pos <= |tree|
      invariant forall k | 0 <= k < pos :: tree[k].eta < w.eta
    {
      pos := pos + 1;
    }
    if pos < |tree| && tree[pos].eta == w.eta {
      r := tree[pos := w];
    } else {
      r := tree[..pos] + [w] + tree[pos..];
    }
  }
}
