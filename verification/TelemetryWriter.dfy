/**
 The telemetry writer as the object it is: fields that `write`, the flush, the worker and
 `stop` update in place.  Each method is the code between two points where another thread
 can run, or all of it when no other thread does; its contract says that it takes the
 steps of the machine in TelemetryMachine, which adds the interleavings.
 */
module TelemetryWriter {
  import opened Sequences
  import opened Wrappers
  import opened TelemetryMachine
  import opened TelemetryShutdown

  /** The lock holder carries on, undisturbed, until it releases the lock. */
  function Settle(c: Config, s: State): State
    decreases HolderLeft(s.holder)
  {
    if s.holder.Free? then s else Settle(c, HolderStep(c, s))
  }

  function LockSteps(n: nat): (run: seq<Action>)
    ensures |run| == n && forall i :: 0 <= i < n ==> run[i] == LockStep
  {
    seq(n, _ => LockStep)
  }

  /** Settling is a run of queue operations of the lock holder. */
  lemma {:induction false} SettleIsRun(c: Config, s: State) returns (n: nat)
    ensures n <= 6
    ensures IsRun(c, s, LockSteps(n)) && End(c, s, LockSteps(n)) == Settle(c, s)
    ensures Settle(c, s).holder.Free? && n <= HolderLeft(s.holder)
    decreases HolderLeft(s.holder)
  {
    if s.holder.Free? {
      n := 0;
    } else {
      var m := SettleIsRun(c, HolderStep(c, s));
      n := m + 1;
      RunOne(c, s, LockStep, LockSteps(m));
      assert [LockStep] + LockSteps(m) == LockSteps(n);
    }
  }

  /** A whole flush, undisturbed. */
  function Flushed(c: Config, s: State): State {
    if HasEvents(s.current) then Settle(c, TakeBatch(s, Release)) else s
  }

  /** The backpressure policies: a batch that finds room is queued; on a full queue it takes the
      place of the oldest entry, whose events are lost, or is lost itself. */
  function Offered(c: Config, s: State, b: Batch): State
    requires c.Valid()
  {
    if |s.queue| < c.maxQueue then
      s.(queue := s.queue + [Work(b)])
    else if c.dropOldest then
      var oldest := if s.queue[0].Work? then s.queue[0].batch.events else [];
      s.(queue := s.queue[1..] + [Work(b)], lost := s.lost + oldest, eventsDropped := s.eventsDropped + |oldest|)
    else
      s.(lost := s.lost + b.events, eventsDropped := s.eventsDropped + |b.events|)
  }

  /** A batch leaves as the policy says, and an empty one takes its place. */
  function FlushSpec(c: Config, s: State): State
    requires c.Valid()
  {
    if s.current == None || s.current.value.events == [] then s
    else Offered(c, s, s.current.value).(current := Some(Batch(s.current.value.task, [])))
  }

  /** Events become the open batch, which is flushed when it is full. */
  function BatchSpec(c: Config, s: State, b: Batch): State
    requires c.Valid()
  {
    var t := s.(current := Some(b));
    if |b.events| < c.batchSize then t else FlushSpec(c, t)
  }

  /** A write: the event joins the open batch, unless that is full or of another task; then the
      open batch is flushed first and the event starts the next one. */
  function WriteSpec(c: Config, s: State, e: Event): State
    requires c.Valid()
  {
    var t := s.(accepted := s.accepted + [e]);
    if s.current.Some? && s.current.value.task == e.task && |s.current.value.events| < c.batchSize then
      BatchSpec(c, t, Batch(e.task, s.current.value.events + [e]))
    else
      BatchSpec(c, FlushSpec(c, t), Batch(e.task, [e]))
  }

  lemma SettleFree(c: Config, s: State)
    requires s.holder.Free?
    ensures Settle(c, s) == s
  {
  }

  /** What becomes of the holder's batch does not depend on what the holder does next. */
  lemma {:induction false} SettleThenFinish(c: Config, s: State, after: After)
    requires !s.holder.Free? && s.holder.after == Release
    ensures Settle(c, s.(holder := WithAfter(s.holder, after))) == Settle(c, Finish(c, Settle(c, s), after))
    decreases HolderLeft(s.holder)
  {
    var t := s.(holder := WithAfter(s.holder, after));
    var s1, t1 := HolderStep(c, s), HolderStep(c, t);
    if s1.holder.Free? {
      SettleFree(c, s1);
      FinishIgnoresHolder(c, s1, after);
      assert t1 == Finish(c, s1, after);
    } else {
      assert t1 == s1.(holder := WithAfter(s1.holder, after));
      SettleThenFinish(c, s1, after);
    }
  }

  function WithAfter(h: Holder, after: After): Holder
    requires !h.Free?
  {
    match h
    case Putting(b, _) => Putting(b, after)
    case Evicting(b, _) => Evicting(b, after)
    case Reputting(b, _) => Reputting(b, after)
  }

  lemma FinishIgnoresHolder(c: Config, s: State, after: After)
    ensures forall h :: Finish(c, s.(holder := h), after) == Finish(c, s, after)
  {
  }

  /** A flush does not look at the stop flag. */
  lemma {:induction false} SettleStopper(c: Config, s: State, stopper: Stopper)
    requires !s.holder.Free? ==> s.holder.after == Release
    ensures Settle(c, s.(stopper := stopper)) == Settle(c, s).(stopper := stopper)
    decreases HolderLeft(s.holder)
  {
    if !s.holder.Free? {
      SettleStopper(c, HolderStep(c, s), stopper);
    }
  }

  // ---------------------------------------------------------------------------
  // What an undisturbed flush, write and stop do
  // ---------------------------------------------------------------------------

  /** The holder's batch goes where the policy says. */
  lemma SettleOffers(c: Config, s: State, b: Batch)
    requires c.Valid() && |s.queue| <= c.maxQueue && s.holder == Putting(b, Release)
    ensures Settle(c, s) == Offered(c, s, b).(holder := Free)
  {
    var s1 := HolderStep(c, s);
    if !s1.holder.Free? {
      var s2 := HolderStep(c, s1);
      var s3 := HolderStep(c, s2);
      SettleFree(c, s3);
      assert Settle(c, s2) == s3;
    } else {
      SettleFree(c, s1);
    }
  }

  lemma FlushedIsSpec(c: Config, s: State)
    requires c.Valid() && |s.queue| <= c.maxQueue && s.holder.Free?
    ensures Flushed(c, s) == FlushSpec(c, s)
    ensures |FlushSpec(c, s).queue| <= c.maxQueue
  {
    if HasEvents(s.current) {
      SettleOffers(c, TakeBatch(s, Release), s.current.value);
    }
  }

  /** The second half of a write, settled. */
  lemma AppendSettles(c: Config, s: State, b: Batch, e: Event)
    requires c.Valid() && |s.queue| <= c.maxQueue && s.holder.Free? && b.task == e.task
    ensures Settle(c, AppendTo(c, s, b, e)) == BatchSpec(c, s, Batch(e.task, b.events + [e]))
  {
    var u := s.(current := Some(Batch(e.task, b.events + [e])));
    FlushedIsSpec(c, u);
    if |b.events| + 1 < c.batchSize {
      SettleFree(c, u);
    }
  }

  lemma WriteSettles(c: Config, s: State, e: Event)
    requires c.Valid() && |s.queue| <= c.maxQueue && s.holder.Free?
    ensures Settle(c, StartWrite(c, s, e)) == WriteSpec(c, s, e)
  {
    var t := s.(accepted := s.accepted + [e]);
    var open := Batch(e.task, []);
    assert open.events + [e] == [e];
    if t.current.None? || t.current.value.task != e.task || |t.current.value.events| >= c.batchSize {
      FlushedIsSpec(c, t);
      if HasEvents(t.current) {
        var h := TakeBatch(t, Release);
        SettleThenFinish(c, h, Append(e));
        assert TakeBatch(t, Append(e)) == h.(holder := WithAfter(h.holder, Append(e)));
      }
      AppendSettles(c, FlushSpec(c, t), open, e);
    } else {
      AppendSettles(c, t, t.current.value, e);
    }
  }

  /** From a free lock, however many queue operations lead to the next free lock: they are those
      that settle. */
  lemma {:induction false} LockStepsSettle(c: Config, s: State, n: nat)
    requires IsRun(c, s, LockSteps(n)) && End(c, s, LockSteps(n)).holder.Free?
    ensures End(c, s, LockSteps(n)) == Settle(c, s)
    decreases n
  {
    if n > 0 {
      assert LockSteps(n)[0] == LockStep && LockSteps(n)[1..] == LockSteps(n - 1);
      LockStepsSettle(c, HolderStep(c, s), n - 1);
    }
  }

  /** A flush nobody disturbs.  With room nothing is lost.  On a full queue, one policy gives up the
      oldest entry and queues the batch behind the others; the other gives up the batch. */
  lemma UndisturbedFlush(c: Config, s: State, n: nat)
    requires c.Valid() && |s.queue| <= c.maxQueue && s.holder.Free?
    requires IsRun(c, s, [TimerFlush] + LockSteps(n)) && End(c, s, [TimerFlush] + LockSteps(n)).holder.Free?
    ensures var t := End(c, s, [TimerFlush] + LockSteps(n));
            if s.current == None || s.current.value.events == [] then
              t == s
            else
              var b := s.current.value;
              && t.current == Some(Batch(b.task, []))
              && (|s.queue| < c.maxQueue ==>
                    t.queue == s.queue + [Work(b)] && t.lost == s.lost)
              && (|s.queue| == c.maxQueue && c.dropOldest ==>
                    && t.queue == s.queue[1..] + [Work(b)]
                    && t.lost == s.lost + if s.queue[0].Work? then s.queue[0].batch.events else [])
              && (|s.queue| == c.maxQueue && !c.dropOldest ==>
                    t.queue == s.queue && t.lost == s.lost + b.events)
              && t.eventsDropped - s.eventsDropped == |t.lost| - |s.lost|
              && t == s.(current := t.current, queue := t.queue, lost := t.lost, eventsDropped := t.eventsDropped)
  {
    var run := [TimerFlush] + LockSteps(n);
    assert run[0] == TimerFlush && run[1..] == LockSteps(n);
    var t := Next(c, s, TimerFlush);
    LockStepsSettle(c, t, n);
    FlushedIsSpec(c, s);
    SettleFree(c, s);
  }

  lemma FlushWithRoom(c: Config, s: State)
    requires c.Valid() && |s.queue| < c.maxQueue
    ensures var b := s.current;
            FlushSpec(c, s) == if b == None || b.value.events == [] then s
                               else s.(queue := s.queue + [Work(b.value)], current := Some(Batch(b.value.task, [])))
  {
  }

  lemma WriteWithRoom(c: Config, s: State, e: Event, leaves: seq<Item>, queue: seq<Item>, grown: Batch)
    requires c.Valid()
    requires var joins := s.current.Some? && s.current.value.task == e.task && |s.current.value.events| < c.batchSize;
             && leaves == (if joins || s.current.None? || s.current.value.events == [] then [] else [Work(s.current.value)])
             && grown == Batch(e.task, (if joins then s.current.value.events else []) + [e])
    requires queue == s.queue + leaves && |queue| < c.maxQueue
    ensures WriteSpec(c, s, e) ==
            if |grown.events| < c.batchSize then
              s.(accepted := s.accepted + [e], queue := queue, current := Some(grown))
            else
              s.(accepted := s.accepted + [e], queue := queue + [Work(grown)], current := Some(Batch(e.task, [])))
  {
    assert [] + [e] == [e];
    var t := s.(accepted := s.accepted + [e]);
    if leaves == [] {
      assert queue == s.queue;
    }
    FlushWithRoom(c, t);
    FlushWithRoom(c, t.(queue := queue, current := Some(grown)));
  }

  /** What becomes of a batch in hand if nobody disturbs its holder from here on, whatever the others
      did before.  Once the holder has found the queue full, it gives the batch up if the worker
      has emptied the queue by the time it looks for the oldest entry. */
  lemma HeldBatch(c: Config, s: State, b: Batch, n: nat)
    requires c.Valid() && |s.queue| <= c.maxQueue
    requires s.holder in {Putting(b, Release), Evicting(b, Release), Reputting(b, Release)}
    requires IsRun(c, s, LockSteps(n)) && End(c, s, LockSteps(n)).holder.Free?
    ensures var t := End(c, s, LockSteps(n));
            && (s.holder.Putting? && |s.queue| < c.maxQueue ==> t.queue == s.queue + [Work(b)] && t.lost == s.lost)
            && (s.holder.Evicting? && s.queue == [] ==> t.queue == [] && t.lost == s.lost + b.events)
            && (s.holder.Evicting? && s.queue != [] ==>
                  && t.queue == s.queue[1..] + [Work(b)]
                  && t.lost == s.lost + if s.queue[0].Work? then s.queue[0].batch.events else [])
            && (s.holder.Reputting? && |s.queue| < c.maxQueue ==> t.queue == s.queue + [Work(b)] && t.lost == s.lost)
            && (s.holder.Reputting? && |s.queue| == c.maxQueue ==> t.queue == s.queue && t.lost == s.lost + b.events)
  {
    LockStepsSettle(c, s, n);
    var s1 := HolderStep(c, s);
    if s.holder.Putting? {
      SettleOffers(c, s, b);
    } else if s1.holder.Free? {
      SettleFree(c, s1);
    } else {
      SettleFree(c, HolderStep(c, s1));
    }
  }

  /** A write nobody disturbs, when the queue has room: the event joins the open batch if that is of
      its task and not full, and otherwise the open batch is queued and the event starts the next
      one; a batch it fills is queued at once.  Nothing is lost. */
  lemma UndisturbedWrite(c: Config, s: State, e: Event, n: nat)
    requires c.Valid() && |s.queue| <= c.maxQueue && s.holder.Free?
    requires IsRun(c, s, [WriteStart(e)] + LockSteps(n)) && End(c, s, [WriteStart(e)] + LockSteps(n)).holder.Free?
    ensures End(c, s, [WriteStart(e)] + LockSteps(n)) == WriteSpec(c, s, e)
    ensures var t := End(c, s, [WriteStart(e)] + LockSteps(n));
            var held := if s.current.Some? then s.current.value.events else [];
            var joins := s.current.Some? && s.current.value.task == e.task && |held| < c.batchSize;
            var leaves := if joins || held == [] then [] else [Work(s.current.value)];
            var grown := Batch(e.task, (if joins then held else []) + [e]);
            |s.queue| + |leaves| < c.maxQueue ==>
              t == if |grown.events| < c.batchSize then
                     s.(accepted := s.accepted + [e], queue := s.queue + leaves, current := Some(grown))
                   else
                     s.(accepted := s.accepted + [e], queue := s.queue + leaves + [Work(grown)],
                        current := Some(Batch(e.task, [])))
  {
    var run := [WriteStart(e)] + LockSteps(n);
    assert run[0] == WriteStart(e) && run[1..] == LockSteps(n);
    LockStepsSettle(c, Next(c, s, WriteStart(e)), n);
    WriteSettles(c, s, e);
    var held := if s.current.Some? then s.current.value.events else [];
    var joins := s.current.Some? && s.current.value.task == e.task && |held| < c.batchSize;
    var leaves := if joins || held == [] then [] else [Work(s.current.value)];
    if |s.queue| + |leaves| < c.maxQueue {
      WriteWithRoom(c, s, e, leaves, s.queue + leaves, Batch(e.task, (if joins then held else []) + [e]));
    }
  }

  /** The state `stop` leaves behind when nobody interferes. */
  function StopSpec(c: Config, s: State): State
    requires c.Valid()
  {
    var t := FlushSpec(c, s).(stopper := Closed);
    if |t.queue| < c.maxQueue then t.(queue := t.queue + [Sentinel]) else t
  }

  /** The flush inside `stop` ends where a plain flush does, with the sentinel next. */
  lemma SettleEndStop(c: Config, s: State)
    requires s.holder.Free? && HasEvents(s.current)
    ensures Settle(c, TakeBatch(s.(stopper := Flushing), EndStop)) == Flushed(c, s).(stopper := Signalling)
  {
    var t := TakeBatch(s.(stopper := Flushing), Release);
    SettleStopper(c, TakeBatch(s, Release), Flushing);
    SettleThenFinish(c, t, EndStop);
    var n := SettleIsRun(c, t);
    SettleFree(c, Finish(c, Settle(c, t), EndStop));
  }

  lemma StopFlushIsRun(c: Config, s: State) returns (run: seq<Action>)
    requires s.stopper.NotCalled? && s.holder.Free?
    ensures IsRun(c, s, run) && End(c, s, run) == Flushed(c, s).(stopper := Signalling)
    ensures Flushed(c, s).holder.Free?
    ensures forall i :: 0 <= i < |run| ==> run[i].SetStop? || run[i].StopFlush? || run[i].LockStep?
  {
    var f := s.(stopper := Flushing);
    var m := Next(c, f, StopFlush);
    var steps := [];
    if HasEvents(s.current) {
      SettleEndStop(c, s);
      var n := SettleIsRun(c, m);
      var k := SettleIsRun(c, TakeBatch(s, Release));
      steps := LockSteps(n);
    }
    RunOne(c, f, StopFlush, steps);
    RunOne(c, s, SetStop, [StopFlush] + steps);
    run := [SetStop] + ([StopFlush] + steps);
  }

  /** An undisturbed `stop` is a run: raise the flag, flush under the lock, queue the sentinel
      or give up on a full queue, close the client. */
  lemma StopIsRun(c: Config, s: State) returns (run: seq<Action>)
    requires c.Valid() && |s.queue| <= c.maxQueue
    requires s.stopper.NotCalled? && s.holder.Free?
    ensures IsRun(c, s, run) && End(c, s, run) == StopSpec(c, s)
    ensures NoWrites(run) && WorkerActions(run) == 0
  {
    FlushedIsSpec(c, s);
    var flush := StopFlushIsRun(c, s);
    var g := End(c, s, flush);
    var last := if |g.queue| < c.maxQueue then PutSentinel else GiveUp;
    var j := Next(c, g, last);
    RunOne(c, j, CloseClient, []);
    RunOne(c, g, last, [CloseClient]);
    RunConcat(c, s, flush, [last] + [CloseClient]);
    run := flush + ([last] + [CloseClient]);
    NoWorkerActions(run);
  }

  lemma {:induction false} NoWorkerActions(run: seq<Action>)
    requires forall i :: 0 <= i < |run| ==> !IsWorkerAction(run[i])
    ensures WorkerActions(run) == 0
    decreases |run|
  {
    if run != [] {
      NoWorkerActions(run[1..]);
    }
  }

  /** The worker tries its batch until an attempt succeeds or none is left. */
  function Sent(c: Config, s: State, client: nat -> bool): State
    decreases WorkerLeft(c, s.worker)
  {
    if !s.worker.Sending? then s else Sent(c, TryBatch(c, s, client(s.worker.attempt)), client)
  }

  /** The worker empties the queue of a stopped writer, undisturbed; client(i, k) is the
      outcome of attempt k for the i-th batch. */
  function Drained(c: Config, s: State, client: (nat, nat) -> bool, i: nat): State
    decreases |s.queue|
  {
    if s.queue == [] || s.queue[0].Sentinel? then
      s.(queue := if s.queue == [] then [] else s.queue[1..], worker := Exited)
    else
      SentQueue(c, TakeItem(s), (k: nat) => client(i, k));
      Drained(c, Sent(c, TakeItem(s), (k: nat) => client(i, k)), client, i + 1)
  }

  lemma {:induction false} SentQueue(c: Config, s: State, client: nat -> bool)
    ensures Sent(c, s, client).queue == s.queue && Sent(c, s, client).stopper == s.stopper
    ensures !Sent(c, s, client).worker.Sending?
    ensures s.worker.Idle? || s.worker.Sending? ==> Sent(c, s, client).worker.Idle?
    decreases WorkerLeft(c, s.worker)
  {
    if s.worker.Sending? {
      SentQueue(c, TryBatch(c, s, client(s.worker.attempt)), client);
    }
  }

  /** The batch ends in exactly one of two places: it is written when one of the attempts left
      succeeds, and dropped and counted as one failure when none does. */
  lemma {:induction false} SentOutcome(c: Config, s: State, client: nat -> bool)
    requires s.worker.Sending? && s.worker.attempt <= c.maxRetries
    ensures var b := s.worker.batch;
            Sent(c, s, client) ==
            if exists k: nat :: s.worker.attempt <= k <= c.maxRetries && client(k) then
              s.(worker := Idle, eventsWritten := s.eventsWritten + |b.events|, written := s.written + b.events)
            else
              s.(worker := Idle, eventsDropped := s.eventsDropped + |b.events|, lost := s.lost + b.events,
                 writeFailures := s.writeFailures + 1)
    decreases c.maxRetries - s.worker.attempt
  {
    var k := s.worker.attempt;
    if !client(k) && k < c.maxRetries {
      SentOutcome(c, TryBatch(c, s, false), client);
    }
  }

  /** Sending is a run of attempts. */
  lemma {:induction false} SentIsRun(c: Config, s: State, client: nat -> bool) returns (run: seq<Action>)
    ensures IsRun(c, s, run) && End(c, s, run) == Sent(c, s, client)
    ensures forall i :: 0 <= i < |run| ==> run[i].Attempt?
    decreases WorkerLeft(c, s.worker)
  {
    if !s.worker.Sending? {
      run := [];
    } else {
      var a := Attempt(client(s.worker.attempt));
      var rest := SentIsRun(c, Next(c, s, a), client);
      run := [a] + rest;
      RunOne(c, s, a, rest);
    }
  }

  /** The first step of a run, as far as runs are concerned. */
  lemma RunFirst(c: Config, s: State, a: Action, rest: seq<Action>, run: seq<Action>) returns (n: State)
    requires run == [a] + rest && IsRun(c, s, run)
    ensures IsRun(c, n, rest) && End(c, s, run) == End(c, n, rest)
    ensures forall more :: IsRun(c, n, more) ==> IsRun(c, s, [a] + more) && End(c, s, [a] + more) == End(c, n, more)
  {
    n := Next(c, s, a);
    assert run[1..] == rest;
    forall more | IsRun(c, n, more)
      ensures IsRun(c, s, [a] + more) && End(c, s, [a] + more) == End(c, n, more)
    {
      RunOne(c, s, a, more);
    }
  }

  lemma {:induction false} RunConcat(c: Config, s: State, first: seq<Action>, second: seq<Action>)
    requires IsRun(c, s, first) && IsRun(c, End(c, s, first), second)
    ensures IsRun(c, s, first + second) && End(c, s, first + second) == End(c, End(c, s, first), second)
    decreases |first|
  {
    if first == [] {
      assert first + second == second;
    } else {
      var a, rest := first[0], first[1..];
      assert first == [a] + rest;
      Associate([a], rest, second);
      var n := RunFirst(c, s, a, rest, first);
      RunConcat(c, n, rest, second);
    }
  }

  /** Draining a stopped writer is a run of worker actions that ends with the worker gone. */
  lemma {:induction false} DrainedIsRun(c: Config, s: State, client: (nat, nat) -> bool, i: nat) returns (run: seq<Action>)
    requires s.Stopped() && s.worker.Idle?
    ensures IsRun(c, s, run) && End(c, s, run) == Drained(c, s, client, i)
    ensures forall j :: 0 <= j < |run| ==> IsWorkerAction(run[j])
    ensures Drained(c, s, client, i).worker.Exited?
    decreases |s.queue|
  {
    if s.queue == [] {
      run := [GetTimeout, CheckStop];
      RunOne(c, s.(worker := SawEmpty), CheckStop, []);
      RunOne(c, s, GetTimeout, [CheckStop]);
    } else if s.queue[0].Sentinel? {
      run := [GetItem];
      RunOne(c, s, GetItem, []);
    } else {
      var t := TakeItem(s);
      var one: nat -> bool := (k: nat) => client(i, k);
      var sending := SentIsRun(c, t, one);
      SentQueue(c, t, one);
      var rest := DrainedIsRun(c, Sent(c, t, one), client, i + 1);
      RunConcat(c, t, sending, rest);
      run := [GetItem] + (sending + rest);
      RunOne(c, s, GetItem, sending + rest);
    }
  }

  class AsyncWriter {
    const config: Config
    var queue: seq<Item>
    var current: Option<Batch>
    var stopSet: bool
    var eventsWritten: nat
    var eventsDropped: nat
    var writeFailures: nat
    ghost var worker: Worker
    ghost var stopper: Stopper
    ghost var accepted: seq<Event>
    ghost var written: seq<Event>
    ghost var lost: seq<Event>

    ghost predicate Valid()
      reads this
    {
      config.Valid() && |queue| <= config.maxQueue && (stopSet <==> !stopper.NotCalled?)
    }

    /** The machine state this object is in while nobody holds the lock. */
    ghost function View(): State
      reads this
    {
      State(queue, current, Free, worker, stopper, eventsWritten, eventsDropped, writeFailures, accepted, written, lost)
    }

    constructor (config: Config)
      requires config.Valid()
      ensures Valid() && this.config == config && View() == Init()
    {
      this.config := config;
      queue, current, stopSet := [], None, false;
      eventsWritten, eventsDropped, writeFailures := 0, 0, 0;
      worker, stopper := Idle, NotCalled;
      accepted, written, lost := [], [], [];
    }

    method CountDropped(b: Batch)
      modifies this`eventsDropped, this`lost
      ensures View() == Drop(old(View()), b)
    {
      eventsDropped := eventsDropped + |b.events|;
      lost := lost + b.events;
    }

    /** With room the batch is queued; on a full queue the oldest entry goes, or the batch does. */
    method FlushCurrentBatch()
      requires Valid()
      modifies this`queue, this`current, this`eventsDropped, this`lost
      ensures Valid()
      ensures View() == FlushSpec(config, old(View())) == Flushed(config, old(View()))
      ensures old(current) == None || old(current).value.events == [] ==> View() == old(View())
      ensures old(current).Some? && old(current).value.events != [] ==>
                var b := old(current).value;
                && current == Some(Batch(b.task, []))
                && (old(|queue|) < config.maxQueue ==>
                      queue == old(queue) + [Work(b)] && lost == old(lost))
                && (old(|queue|) == config.maxQueue && config.dropOldest ==>
                      && queue == old(queue)[1..] + [Work(b)]
                      && lost == old(lost) + if old(queue)[0].Work? then old(queue)[0].batch.events else [])
                && (old(|queue|) == config.maxQueue && !config.dropOldest ==>
                      queue == old(queue) && lost == old(lost) + b.events)
                && eventsDropped - old(eventsDropped) == |lost| - old(|lost|)
    {
      FlushedIsSpec(config, View());
      if current.Some? && current.value.events != [] {
        var batch := current.value;
        current := Some(Batch(batch.task, []));
        if |queue| < config.maxQueue {
          queue := queue + [Work(batch)];
        } else if config.dropOldest {
          if queue == [] {
            // Only another thread can have emptied the queue: HolderStep has that case.
            assert false;
          } else {
            var oldest := queue[0];
            queue := queue[1..];
            if oldest.Work? {
              CountDropped(oldest.batch);
            }
            if |queue| < config.maxQueue {
              queue := queue + [Work(batch)];
            } else {
              // Likewise, only another thread can have filled it again.
              assert false;
            }
          }
        } else {
          CountDropped(batch);
        }
      }
    }

    /** What `write` does first when the event cannot join the open batch. */
    method OpenBatch(task: string)
      requires Valid()
      modifies this`queue, this`current, this`eventsDropped, this`lost
      ensures Valid()
      ensures View() == FlushSpec(config, old(View())).(current := Some(Batch(task, [])))
    {
      FlushCurrentBatch();
      current := Some(Batch(task, []));
    }

    /** The second half of `write`: the event joins the open batch, which is flushed when full. */
    method AppendEvent(event: Event)
      requires Valid() && current.Some? && current.value.task == event.task
      modifies this`queue, this`current, this`eventsDropped, this`lost
      ensures Valid()
      ensures View() == BatchSpec(config, old(View()), Batch(event.task, old(current).value.events + [event]))
    {
      current := Some(Batch(current.value.task, current.value.events + [event]));
      if |current.value.events| >= config.batchSize {
        FlushCurrentBatch();
      }
    }

    method Write(task: string, payload: string)
      requires Valid()
      modifies this`queue, this`current, this`eventsDropped, this`lost, this`accepted
      ensures Valid()
      ensures View() == WriteSpec(config, old(View()), Event(task, payload))
      ensures View() == Settle(config, Next(config, old(View()), WriteStart(Event(task, payload))))
      ensures accepted == old(accepted) + [Event(task, payload)]
    {
      var event := Event(task, payload);
      WriteSettles(config, View(), event);
      accepted := accepted + [event];
      if current.None? || current.value.task != task || |current.value.events| >= config.batchSize {
        OpenBatch(task);
        assert [] + [event] == [event];
      }
      AppendEvent(event);
    }

    method WriteBatchWithRetries(batch: Batch, client: nat -> bool)
      requires worker == Sending(batch, 0) || (batch.events == [] && worker.Idle?)
      modifies this`eventsWritten, this`eventsDropped, this`writeFailures, this`worker, this`written, this`lost
      ensures View() == Sent(config, old(View()), client) || batch.events == []
      ensures batch.events == [] ==> unchanged(this)
    {
      if batch.events == [] {
        return;
      }
      ghost var goal := Sent(config, View(), client);
      var attempt := 0;
      while attempt <= config.maxRetries
        invariant 0 <= attempt <= config.maxRetries
        invariant worker == Sending(batch, attempt)
        invariant Sent(config, View(), client) == goal
        decreases config.maxRetries - attempt
      {
        ghost var s := View();
        if client(attempt) {
          eventsWritten := eventsWritten + |batch.events|;
          written := written + batch.events;
          worker := Idle;
          assert View() == TryBatch(config, s, true);
          return;
        }
        if attempt == config.maxRetries {
          eventsDropped := eventsDropped + |batch.events|;
          lost := lost + batch.events;
          writeFailures := writeFailures + 1;
          worker := Idle;
          assert View() == TryBatch(config, s, false);
          return;
        }
        attempt := attempt + 1;
        worker := Sending(batch, attempt);
        assert View() == TryBatch(config, s, false);
      }
    }

    /** The worker of a stopped writer, with nobody else running. */
    method WorkerLoop(client: (nat, nat) -> bool)
      requires Valid() && stopSet && worker.Idle?
      modifies this`queue, this`eventsWritten, this`eventsDropped, this`writeFailures, this`worker, this`written, this`lost
      ensures Valid()
      ensures View() == Drained(config, old(View()), client, 0)
    {
      ghost var goal := Drained(config, View(), client, 0);
      var i := 0;
      while true
        invariant 0 <= i
        invariant worker.Idle? && stopSet && Valid()
        invariant stopper == old(stopper)
        invariant Drained(config, View(), client, i) == goal
        decreases |queue|
      {
        ghost var s := View();
        if queue == [] {
          if stopSet {
            worker := Exited;
            break;
          }
        } else {
          var item := queue[0];
          queue := queue[1..];
          if item.Sentinel? {
            worker := Exited;
            break;
          }
          var one: nat -> bool := (k: nat) => client(i, k);
          if item.batch.events != [] {
            worker := Sending(item.batch, 0);
          }
          assert View() == TakeItem(s);
          SentQueue(config, TakeItem(s), one);
          WriteBatchWithRetries(item.batch, one);
          i := i + 1;
        }
      }
    }

    /** `stop`, with nobody else running: raise the flag, flush, send the sentinel unless the
        queue stays full until the deadline.  A second call changes nothing. */
    method Stop()
      requires Valid()
      modifies this`queue, this`current, this`stopSet, this`eventsDropped, this`stopper, this`lost
      ensures Valid() && stopSet
      ensures old(stopSet) ==> View() == old(View())
      ensures !old(stopSet) ==> View() == StopSpec(config, old(View()))
      ensures !old(stopSet) ==>
                var flushed := FlushSpec(config, old(View()));
                && stopper == Closed
                && queue == flushed.queue + if |flushed.queue| < config.maxQueue then [Sentinel] else []
    {
      if stopSet {
        return;
      }
      stopSet := true;
      stopper := Flushing;
      FlushCurrentBatch();
      if |queue| < config.maxQueue {
        queue := queue + [Sentinel];
      }
      stopper := Closed;
    }
  }
}
