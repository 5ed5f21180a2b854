/**
 Shutdown of the telemetry writer: when the last batch is delivered, and why the worker
 always leaves.
 */
module TelemetryShutdown {
  import opened Arithmetic
  import opened Wrappers
  import opened Subsequences
  import opened TelemetryMachine
  import opened TelemetrySafety

  // ---------------------------------------------------------------------------
  // Runs
  // ---------------------------------------------------------------------------

  predicate NoWrites(run: seq<Action>) {
    forall i :: 0 <= i < |run| ==> !run[i].WriteStart?
  }

  predicate IsWorkerAction(a: Action) {
    a.GetItem? || a.GetTimeout? || a.CheckStop? || a.Attempt?
  }

  function WorkerActions(run: seq<Action>): nat {
    if run == [] then 0 else (if IsWorkerAction(run[0]) then 1 else 0) + WorkerActions(run[1..])
  }

  /** All accepted events have been written or counted as dropped. */
  ghost predicate Delivered(s: State) {
    multiset(s.accepted) == multiset(s.written) + multiset(s.lost)
  }

  lemma DeliveredIff(c: Config, s: State)
    requires Inv(c, s)
    ensures Delivered(s) <==> Pending(s) == []
    ensures Delivered(s) <==> s.eventsWritten + s.eventsDropped == |s.accepted|
  {
    BalancedIff(s);
    assert |multiset(s.accepted)| == |multiset(s.written)| + |multiset(s.lost)| + |multiset(Pending(s))|;
    if Pending(s) != [] {
      assert Pending(s)[0] in multiset(Pending(s));
    }
  }

  /** Delivery without a drop means the client received exactly the accepted events, in order. */
  lemma DeliveredWithoutDrops(c: Config, s: State)
    requires Inv(c, s) && Delivered(s) && s.eventsDropped == 0
    ensures s.written == s.accepted
  {
    DeliveredIff(c, s);
    BalancedIff(s);
    assert s.written + [] == s.written;
    SubseqLength(s.written, s.accepted);
  }

  // ---------------------------------------------------------------------------
  // After the final flush
  // ---------------------------------------------------------------------------

  /** The state `stop` is in when its flush has returned: it is about to send the sentinel. */
  ghost predicate AfterFinalFlush(s: State) {
    s.stopper.Signalling? && s.holder.Free? && InCurrent(s.current) == []
  }

  /** The worker will not read the queue again: it has left, or it has seen the queue empty and
      will find the stop flag set. */
  predicate LastReadDone(w: Worker) {
    w.SawEmpty? || w.Exited?
  }

  ghost predicate NoBatches(queue: seq<Item>) {
    forall i :: 0 <= i < |queue| ==> queue[i].Sentinel?
  }

  /** What stays true after the final flush while nobody writes. */
  ghost predicate Closing(c: Config, s: State) {
    && Shaped(c, s)
    && s.holder.Free? && InCurrent(s.current) == []
    && (s.stopper.Signalling? || s.stopper.Joining? || s.stopper.Closed?)
    && (forall i :: 0 <= i < |s.queue| && s.queue[i].Sentinel? ==> i == |s.queue| - 1)
  }

  lemma FinalFlushCloses(c: Config, s: State)
    requires Shaped(c, s) && AfterFinalFlush(s)
    ensures Closing(c, s)
  {
  }

  lemma ClosingStep(c: Config, s: State, a: Action)
    requires c.Valid() && Closing(c, s) && Enabled(c, s, a) && !a.WriteStart?
    ensures Closing(c, Next(c, s, a))
  {
    OtherStepShaped(c, s, a);
    var n := Next(c, s, a);
    match a
    case GetItem => assert forall i :: 0 <= i < |n.queue| ==> n.queue[i] == s.queue[i + 1];
    case PutSentinel => assert forall i :: 0 <= i < |s.queue| ==> n.queue[i] == s.queue[i];
    case _ => assert n.queue == s.queue;
  }

  /** Once the last read is done the worker stays away from the queue, and the read that was
      last left no batch behind. */
  lemma LastReadStep(c: Config, s: State, a: Action)
    requires c.Valid() && Closing(c, s) && Enabled(c, s, a) && !a.WriteStart?
    ensures LastReadDone(s.worker) ==> LastReadDone(Next(c, s, a).worker)
    ensures LastReadDone(s.worker) ==> QueueEvents(Next(c, s, a).queue) == QueueEvents(s.queue)
    ensures LastReadDone(Next(c, s, a).worker) && !LastReadDone(s.worker) ==> NoBatches(Next(c, s, a).queue)
  {
    var n := Next(c, s, a);
    match a
    case GetItem => LastItemTaken(c, s);
    case PutSentinel => SentinelCarriesNothing(s.queue, n.queue);
    case _ => assert n.queue == s.queue;
  }

  lemma LastItemTaken(c: Config, s: State)
    requires Closing(c, s) && s.worker.Idle? && s.queue != []
    ensures LastReadDone(TakeItem(s).worker) ==> NoBatches(TakeItem(s).queue)
  {
    if s.queue[0].Sentinel? {
      assert |s.queue| == 1;
    }
  }

  lemma SentinelCarriesNothing(queue: seq<Item>, next: seq<Item>)
    requires next == queue + [Sentinel]
    ensures QueueEvents(next) == QueueEvents(queue)
  {
    QueuePut(queue, Sentinel);
  }

  lemma {:induction false} NoBatchesNoEvents(queue: seq<Item>)
    requires NoBatches(queue)
    ensures QueueEvents(queue) == []
    decreases |queue|
  {
    if queue != [] {
      NoBatchesNoEvents(queue[..|queue| - 1]);
    }
  }

  /** Either the worker still had to read the queue, and then it leaves it without a batch,
      or its last read was over, and then the queued events stay where they are. */
  lemma {:induction false} ClosingRun(c: Config, s: State, run: seq<Action>)
    requires c.Valid() && Closing(c, s) && IsRun(c, s, run) && NoWrites(run)
    requires LastReadDone(End(c, s, run).worker)
    ensures Closing(c, End(c, s, run))
    ensures QueueEvents(End(c, s, run).queue) == if LastReadDone(s.worker) then QueueEvents(s.queue) else []
    decreases |run|
  {
    if run != [] {
      var t := Next(c, s, run[0]);
      assert !run[0].WriteStart?;
      assert NoWrites(run[1..]);
      ClosingStep(c, s, run[0]);
      LastReadStep(c, s, run[0]);
      ClosingRun(c, t, run[1..]);
      if LastReadDone(t.worker) && !LastReadDone(s.worker) {
        NoBatchesNoEvents(t.queue);
      }
    }
  }

  lemma ClosingDelivers(c: Config, s: State, after: seq<Action>)
    requires c.Valid() && Inv(c, s) && AfterFinalFlush(s)
    requires IsRun(c, s, after) && NoWrites(after) && End(c, s, after).worker.Exited?
    ensures var t := End(c, s, after);
            && (Delivered(t) <==> !LastReadDone(s.worker) || QueueEvents(s.queue) == [])
            && (Delivered(t) <==> t.eventsWritten + t.eventsDropped == |t.accepted|)
            && (Delivered(t) && t.eventsDropped == 0 ==> t.written == t.accepted)
  {
    var t := End(c, s, after);
    RunInv(c, s, after);
    FinalFlushCloses(c, s);
    ClosingRun(c, s, after);
    ExitedPending(c, t);
    DeliveredIff(c, t);
    if Delivered(t) && t.eventsDropped == 0 {
      DeliveredWithoutDrops(c, t);
    }
  }

  lemma ExitedPending(c: Config, t: State)
    requires Closing(c, t) && t.worker.Exited?
    ensures Pending(t) == QueueEvents(t.queue)
  {
  }

  /** Shutdown delivers everything exactly when the worker's last queue read comes after the
      final flush, or the final flush left nothing in the queue.

      `before` is any run, with any writes, up to the return of the final flush of `stop`;
      `after` is any continuation without a new `write` in which the worker leaves. */
  lemma ShutdownDelivers(c: Config, before: seq<Action>, after: seq<Action>)
    requires c.Valid() && IsRun(c, Init(), before) && AfterFinalFlush(End(c, Init(), before))
    requires IsRun(c, End(c, Init(), before), after) && NoWrites(after)
    requires End(c, End(c, Init(), before), after).worker.Exited?
    ensures var s := End(c, Init(), before);
            var t := End(c, s, after);
            && (Delivered(t) <==> !LastReadDone(s.worker) || QueueEvents(s.queue) == [])
            && (Delivered(t) <==> t.eventsWritten + t.eventsDropped == |t.accepted|)
            && (Delivered(t) && t.eventsDropped == 0 ==> t.written == t.accepted)
  {
    InitInv(c);
    RunInv(c, Init(), before);
    ClosingDelivers(c, End(c, Init(), before), after);
  }

  /** The losing interleaving is real: one event written, the worker sees the empty queue,
      `stop` flushes the event into the queue, the worker finds the stop flag and leaves. */
  lemma LastBatchCanStayQueued(c: Config, e: Event)
    requires c.Valid() && c.batchSize >= 2
    ensures var run := [GetTimeout, WriteStart(e), SetStop, StopFlush, LockStep, CheckStop];
            && IsRun(c, Init(), run)
            && End(c, Init(), run).worker.Exited?
            && !Delivered(End(c, Init(), run))
  {
    var b := Batch(e.task, [e]);
    var s1 := Init().(worker := SawEmpty);
    var s2 := s1.(accepted := s1.accepted + [e], current := Some(b));
    var s3 := s2.(stopper := Flushing);
    var s4 := s3.(holder := Putting(b, EndStop), current := Some(Batch(e.task, [])));
    var s5 := s4.(holder := Free, queue := [Work(b)], stopper := Signalling);
    var s6 := s5.(worker := Exited);
    assert Next(c, Init(), GetTimeout) == s1;
    FirstWrite(c, s1, e);
    assert Next(c, s2, SetStop) == s3;
    assert Next(c, s3, StopFlush) == s4;
    assert Next(c, s4, LockStep) == s5;
    assert Next(c, s5, CheckStop) == s6;
    RunOne(c, s5, CheckStop, []);
    RunOne(c, s4, LockStep, [CheckStop]);
    RunOne(c, s3, StopFlush, [LockStep, CheckStop]);
    RunOne(c, s2, SetStop, [StopFlush, LockStep, CheckStop]);
    RunOne(c, s1, WriteStart(e), [SetStop, StopFlush, LockStep, CheckStop]);
    RunOne(c, Init(), GetTimeout, [WriteStart(e), SetStop, StopFlush, LockStep, CheckStop]);
    assert e in multiset(s6.accepted);
  }

  lemma FirstWrite(c: Config, s: State, e: Event)
    requires c.batchSize >= 2 && s.current.None? && s.holder.Free?
    ensures Next(c, s, WriteStart(e)) == s.(accepted := s.accepted + [e], current := Some(Batch(e.task, [e])))
  {
    assert [] + [e] == [e];
  }

  lemma RunOne(c: Config, s: State, a: Action, rest: seq<Action>)
    requires Enabled(c, s, a) && IsRun(c, Next(c, s, a), rest)
    ensures IsRun(c, s, [a] + rest)
    ensures End(c, s, [a] + rest) == End(c, Next(c, s, a), rest)
  {
    assert ([a] + rest)[1..] == rest;
  }

  // ---------------------------------------------------------------------------
  // The worker leaves
  // ---------------------------------------------------------------------------

  /** The worker actions one queue entry can cost: a get and every attempt. */
  function EntryCost(c: Config): nat {
    c.maxRetries + 2
  }

  function WorkerLeft(c: Config, w: Worker): nat {
    match w
    case Idle => 2
    case SawEmpty => 1
    case Sending(_, k) => (if k <= c.maxRetries then c.maxRetries + 1 - k else 1) + 2
    case Exited => 0
  }

  /** Entries that are queued or can still be queued when nobody starts a write. */
  function Entries(s: State): nat {
    |s.queue|
    + (if HasEvents(s.current) then 1 else 0)
    + (if s.holder.Free? then 0 else 1)
    + (if !s.holder.Free? && s.holder.after.Append? then 1 else 0)
    + (if s.stopper.Flushing? || s.stopper.Signalling? then 1 else 0)
  }

  /** A bound on the worker actions still to come once the stop flag is set. */
  function WorkLeft(c: Config, s: State): nat {
    EntryCost(c) * Entries(s) + WorkerLeft(c, s.worker)
  }

  lemma FinishEntries(c: Config, s: State, after: After)
    requires c.Valid() && !s.holder.Free? && s.holder.after == after && !HasEvents(s.current) && s.stopper != NotCalled
    requires after.EndStop? ==> s.stopper.Flushing?
    ensures Entries(Finish(c, s, after)) <= Entries(s) - 1
  {
  }

  lemma LockStepEntries(c: Config, s: State)
    requires c.Valid() && Shaped(c, s) && s.Stopped() && !s.holder.Free?
    ensures Entries(HolderStep(c, s)) <= Entries(s)
  {
    var b, after := s.holder.batch, s.holder.after;
    FinishEntries(c, s.(queue := s.queue + [Work(b)]), after);
    FinishEntries(c, Drop(s, b), after);
  }

  lemma EntriesNeverGrow(c: Config, s: State, a: Action)
    requires c.Valid() && Shaped(c, s) && s.Stopped() && Enabled(c, s, a) && !a.WriteStart?
    ensures Entries(Next(c, s, a)) <= Entries(s)
    ensures a.GetItem? ==> Entries(Next(c, s, a)) == Entries(s) - 1
  {
    if a.LockStep? {
      LockStepEntries(c, s);
    }
  }

  lemma WorkerLeftStep(c: Config, s: State, a: Action)
    requires c.Valid() && Shaped(c, s) && s.Stopped() && Enabled(c, s, a) && !a.WriteStart?
    ensures Next(c, s, a).Stopped()
    ensures WorkerLeft(c, Next(c, s, a).worker) + (if IsWorkerAction(a) then 1 else 0)
            <= WorkerLeft(c, s.worker) + (if a.GetItem? then EntryCost(c) else 0)
  {
    assert !IsWorkerAction(a) ==> Next(c, s, a).worker == s.worker;
  }

  lemma WorkArithmetic(cost: nat, before: nat, after: nat, left: nat, now: nat, gets: nat, action: nat)
    requires after + gets <= before && gets <= 1 && now + action <= left + gets * cost
    ensures cost * after + now + action <= cost * before + left
  {
    MulMonotone(after + gets, before, cost);
    assert (after + gets) * cost == cost * after + gets * cost;
  }

  /** Every worker action uses up some of the bound and no other action adds to it. */
  lemma WorkLeftStep(c: Config, s: State, a: Action)
    requires c.Valid() && Shaped(c, s) && s.Stopped() && Enabled(c, s, a) && !a.WriteStart?
    ensures Next(c, s, a).Stopped()
    ensures WorkLeft(c, Next(c, s, a)) + (if IsWorkerAction(a) then 1 else 0) <= WorkLeft(c, s)
  {
    var n := Next(c, s, a);
    EntriesNeverGrow(c, s, a);
    WorkerLeftStep(c, s, a);
    WorkArithmetic(EntryCost(c), Entries(s), Entries(n), WorkerLeft(c, s.worker), WorkerLeft(c, n.worker),
                   if a.GetItem? then 1 else 0, if IsWorkerAction(a) then 1 else 0);
  }

  lemma {:induction false} WorkLeftRun(c: Config, s: State, run: seq<Action>)
    requires c.Valid() && Shaped(c, s) && s.Stopped() && IsRun(c, s, run) && NoWrites(run)
    ensures WorkLeft(c, End(c, s, run)) + WorkerActions(run) <= WorkLeft(c, s)
    decreases |run|
  {
    if run != [] {
      var t := Next(c, s, run[0]);
      assert !run[0].WriteStart?;
      assert NoWrites(run[1..]);
      StepShaped(c, s, run[0]);
      WorkLeftStep(c, s, run[0]);
      WorkLeftRun(c, t, run[1..]);
    }
  }

  lemma NoWorkLeft(c: Config, s: State)
    requires WorkLeft(c, s) == 0
    ensures s.worker.Exited?
  {
  }

  /** Once `stop` has begun and writes have ceased, the worker takes at most `WorkLeft` more
      actions, a number fixed by the queue length and the attempts left; having taken that
      many it has left.  The sentinel plays no part: it may have been evicted or never sent. */
  lemma WorkerHalts(c: Config, before: seq<Action>, after: seq<Action>)
    requires c.Valid() && IsRun(c, Init(), before) && End(c, Init(), before).Stopped()
    requires IsRun(c, End(c, Init(), before), after) && NoWrites(after)
    ensures var s := End(c, Init(), before);
            && WorkerActions(after) <= WorkLeft(c, s)
            && (WorkerActions(after) == WorkLeft(c, s) ==> End(c, s, after).worker.Exited?)
  {
    var s := End(c, Init(), before);
    InitInv(c);
    RunInv(c, Init(), before);
    WorkLeftRun(c, s, after);
    if WorkerActions(after) == WorkLeft(c, s) {
      NoWorkLeft(c, End(c, s, after));
    }
  }

  /** The worker is never blocked: until it has left, one of its actions is enabled. */
  lemma WorkerNeverBlocked(c: Config, s: State)
    ensures s.worker.Exited? <==> forall a :: IsWorkerAction(a) ==> !Enabled(c, s, a)
  {
    if !s.worker.Exited? {
      var a := if s.worker.Idle? then (if s.queue == [] then GetTimeout else GetItem)
               else if s.worker.SawEmpty? then CheckStop else Attempt(true);
      assert IsWorkerAction(a) && Enabled(c, s, a);
    }
  }

  // ---------------------------------------------------------------------------
  // Callers never block
  // ---------------------------------------------------------------------------

  function HolderLeft(h: Holder): nat {
    match h
    case Free => 0
    case Putting(_, after) => 3 + (if after.Append? then 3 else 0)
    case Evicting(_, after) => 2 + (if after.Append? then 3 else 0)
    case Reputting(_, after) => 1 + (if after.Append? then 3 else 0)
  }

  /** The lock is held for at most six queue operations, whatever the other threads do: each
      operation brings the holder closer to releasing it and no other step interferes. */
  lemma HolderReleases(c: Config, s: State, a: Action)
    requires !s.holder.Free? && Enabled(c, s, a)
    ensures Enabled(c, s, LockStep) && HolderLeft(s.holder) <= 6
    ensures a.LockStep? ==> HolderLeft(Next(c, s, a).holder) < HolderLeft(s.holder)
    ensures !a.LockStep? ==> Next(c, s, a).holder == s.holder
  {
  }
}
