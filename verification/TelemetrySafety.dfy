/**
 What every step of the telemetry writer keeps: no event is invented, duplicated,
 forgotten or overtaken, under both backpressure policies.
 */
module TelemetrySafety {
  import opened Arithmetic
  import opened Sequences
  import opened Wrappers
  import opened Subsequences
  import opened TelemetryMachine

  // ---------------------------------------------------------------------------
  // Where the events are
  // ---------------------------------------------------------------------------

  /** The events in the queue, oldest first. */
  function QueueEvents(queue: seq<Item>): seq<Event>
    decreases |queue|
  {
    if queue == [] then []
    else
      var front := QueueEvents(queue[..|queue| - 1]);
      match queue[|queue| - 1]
      case Work(b) => front + b.events
      case Sentinel => front
  }

  function InFlight(w: Worker): seq<Event> {
    if w.Sending? then w.batch.events else []
  }

  function InHand(h: Holder): seq<Event> {
    if h.Free? then [] else h.batch.events
  }

  /** The event of a `write` that is still flushing the previous batch. */
  function Waiting(h: Holder): seq<Event> {
    if !h.Free? && h.after.Append? then [h.after.event] else []
  }

  function InCurrent(current: Option<Batch>): seq<Event> {
    if current.Some? then current.value.events else []
  }

  /** Everything accepted and not yet written or dropped, in the order it will be sent. */
  function Pending(s: State): seq<Event> {
    InFlight(s.worker) + QueueEvents(s.queue) + InHand(s.holder) + InCurrent(s.current) + Waiting(s.holder)
  }

  // ---------------------------------------------------------------------------
  // Invariants
  // ---------------------------------------------------------------------------

  /** Conservation, as multisets of events: each accepted event is in exactly one place. */
  ghost predicate Conserved(s: State) {
    multiset(s.accepted) == multiset(s.written) + multiset(s.lost) + multiset(Pending(s))
  }

  /** Order: what was or will be sent is what `write` accepted, with some events missing. */
  ghost predicate Ordered(s: State) {
    IsSubseq(s.written + Pending(s), s.accepted)
  }

  /** The counters say how many events the histories hold. */
  ghost predicate Counted(s: State) {
    s.eventsWritten == |s.written| && s.eventsDropped == |s.lost|
  }

  /** A batch holds events of its own task only. */
  ghost predicate OneTask(b: Batch) {
    forall e :: e in b.events ==> e.task == b.task
  }

  /** A batch on its way out: at least one event, no more than the batch size. */
  ghost predicate Outgoing(c: Config, b: Batch) {
    OneTask(b) && 1 <= |b.events| <= c.batchSize
  }

  ghost predicate Shaped(c: Config, s: State) {
    && |s.queue| <= c.maxQueue
    && (forall i :: 0 <= i < |s.queue| && s.queue[i].Work? ==> Outgoing(c, s.queue[i].batch))
    && (s.worker.Sending? ==> Outgoing(c, s.worker.batch) && s.worker.attempt <= c.maxRetries)
    && (!s.holder.Free? ==> Outgoing(c, s.holder.batch) && InCurrent(s.current) == [])
    && (!s.holder.Free? && s.holder.after.EndStop? ==> s.stopper.Flushing?)
    && (s.current.Some? ==> OneTask(s.current.value) && |s.current.value.events| < c.batchSize)
    && (Sentinel in s.queue ==> s.stopper.Joining? || s.stopper.Closed?)
  }

  // ---------------------------------------------------------------------------
  // Queue lemmas
  // ---------------------------------------------------------------------------

  lemma QueuePut(queue: seq<Item>, x: Item)
    ensures QueueEvents(queue + [x]) == QueueEvents(queue) + (if x.Work? then x.batch.events else [])
  {
    assert (queue + [x])[..|queue|] == queue;
  }

  lemma SplitEnds<T>(s: seq<T>, front: seq<T>, middle: seq<T>, last: T)
    requires |s| >= 2 && front == s[..|s| - 1] && middle == front[1..] && last == s[|s| - 1]
    ensures s == front + [last] && s[1..] == middle + [last] && s[0] == front[0]
  {
  }

  lemma {:induction false} QueueGet(queue: seq<Item>)
    requires queue != []
    ensures QueueEvents(queue) == (if queue[0].Work? then queue[0].batch.events else []) + QueueEvents(queue[1..])
    decreases |queue|
  {
    var front, last := queue[..|queue| - 1], queue[|queue| - 1];
    if front != [] {
      QueueGet(front);
      var middle := front[1..];
      SplitEnds(queue, front, middle, last);
      QueuePut(front, last);
      QueuePut(middle, last);
      Associate(if front[0].Work? then front[0].batch.events else [], QueueEvents(middle),
                if last.Work? then last.batch.events else []);
    }
  }

  // ---------------------------------------------------------------------------
  // The flow: everything written or pending, in order
  // ---------------------------------------------------------------------------

  /** What has left the lock holder's hands. */
  function Sent(s: State): seq<Event> {
    s.written + InFlight(s.worker) + QueueEvents(s.queue)
  }

  function Flow(s: State): seq<Event> {
    Sent(s) + InHand(s.holder) + InCurrent(s.current) + Waiting(s.holder)
  }

  lemma FlowIsWrittenThenPending(s: State)
    ensures Flow(s) == s.written + Pending(s)
    ensures multiset(Flow(s)) == multiset(s.written) + multiset(Pending(s))
  {
    assert Flow(s) == s.written + Pending(s);
  }

  /** The books balance: the flow and the losses make up what was accepted, and the flow
      keeps its order. */
  ghost predicate Books(accepted: seq<Event>, flow: seq<Event>, lost: seq<Event>) {
    multiset(accepted) == multiset(flow) + multiset(lost) && IsSubseq(flow, accepted)
  }

  ghost predicate Balanced(s: State) {
    Books(s.accepted, Flow(s), s.lost)
  }

  ghost predicate Inv(c: Config, s: State) {
    Balanced(s) && Counted(s) && Shaped(c, s)
  }

  lemma BalancedIff(s: State)
    ensures Balanced(s) <==> Conserved(s) && Ordered(s)
  {
    FlowIsWrittenThenPending(s);
  }

  /** The three things a step can do to the books: move, accept at the end, lose a stretch. */
  lemma BalancedMove(s: State, n: State)
    requires Balanced(s) && Flow(n) == Flow(s) && n.accepted == s.accepted && n.lost == s.lost
    ensures Balanced(n)
  {
  }

  lemma BalancedAccept(s: State, n: State, e: Event)
    requires Balanced(s) && Flow(n) == Flow(s) + [e] && n.accepted == s.accepted + [e] && n.lost == s.lost
    ensures Balanced(n)
  {
    SubseqAppend(Flow(s), s.accepted, e);
  }

  lemma BalancedLose(s: State, n: State, a: seq<Event>, b: seq<Event>, d: seq<Event>)
    requires Balanced(s) && Flow(s) == a + b + d && Flow(n) == a + d
    requires n.accepted == s.accepted && n.lost == s.lost + b
    ensures Balanced(n)
  {
    SubseqDelete(a, b, d, s.accepted);
  }

  // ---------------------------------------------------------------------------
  // One action at a time
  // ---------------------------------------------------------------------------

  /** Taking the current batch moves it from the current place to the holder's hands. */
  lemma TakeBatchFlow(s: State, after: After)
    requires s.holder.Free? && HasEvents(s.current)
    ensures Flow(TakeBatch(s, after)) == Flow(s) + (if after.Append? then [after.event] else [])
  {
  }

  /** The second half of `write` puts one event at the end of the flow. */
  lemma AppendToFlow(c: Config, s: State, b: Batch, e: Event)
    requires InCurrent(s.current) == b.events
    ensures Flow(AppendTo(c, s, b, e)) == Sent(s) + b.events + [e]
  {
    var next := s.(current := Some(Batch(b.task, b.events + [e])), holder := Free);
    assert Flow(next) == Sent(s) + b.events + [e];
    if |b.events| + 1 >= c.batchSize {
      TakeBatchFlow(next, Release);
    }
  }

  lemma AppendToShaped(c: Config, s: State, b: Batch, e: Event)
    requires c.Valid() && Shaped(c, s)
    requires OneTask(b) && e.task == b.task && |b.events| < c.batchSize
    ensures Shaped(c, AppendTo(c, s, b, e))
  {
    var next := Batch(b.task, b.events + [e]);
    assert OneTask(next);
  }

  lemma StartWriteFlow(c: Config, s: State, e: Event)
    requires s.holder.Free?
    ensures Flow(StartWrite(c, s, e)) == Flow(s) + [e]
  {
    var t := s.(accepted := s.accepted + [e]);
    if t.current.None? || t.current.value.task != e.task || |t.current.value.events| >= c.batchSize {
      if HasEvents(t.current) {
        TakeBatchFlow(t, Append(e));
      } else {
        AppendToFlow(c, t, Batch(e.task, []), e);
      }
    } else {
      AppendToFlow(c, t, t.current.value, e);
    }
  }

  lemma StartWriteShaped(c: Config, s: State, e: Event)
    requires c.Valid() && s.holder.Free? && Shaped(c, s)
    ensures Shaped(c, StartWrite(c, s, e))
  {
    var t := s.(accepted := s.accepted + [e]);
    if t.current.None? || t.current.value.task != e.task {
      if !HasEvents(t.current) {
        AppendToShaped(c, t, Batch(e.task, []), e);
      }
    } else {
      AppendToShaped(c, t, t.current.value, e);
    }
  }

  /** Returning from a flush: the batch is gone from the holder, a waiting event joins the end. */
  lemma FinishFlow(c: Config, s: State, after: After)
    requires InCurrent(s.current) == []
    ensures Flow(Finish(c, s, after)) == Sent(s) + (if after.Append? then [after.event] else [])
  {
    match after
    case Append(e) => AppendToFlow(c, s, Batch(e.task, []), e);
    case _ =>
  }

  lemma FinishShaped(c: Config, s: State, after: After)
    requires c.Valid() && Shaped(c, s)
    requires after.EndStop? ==> s.stopper.Flushing?
    ensures Shaped(c, Finish(c, s, after))
  {
    match after
    case Append(e) => AppendToShaped(c, s, Batch(e.task, []), e);
    case _ =>
  }

  lemma SentPut(s: State, b: Batch)
    ensures Sent(s.(queue := s.queue + [Work(b)])) == Sent(s) + b.events
  {
    var gone := s.written + InFlight(s.worker);
    QueuePut(s.queue, Work(b));
    assert gone + (QueueEvents(s.queue) + b.events) == gone + QueueEvents(s.queue) + b.events;
  }

  /** While a batch is in hand nothing is in the current place. */
  lemma HeldFlow(s: State)
    requires !s.holder.Free? && InCurrent(s.current) == []
    ensures Flow(s) == Sent(s) + s.holder.batch.events + Waiting(s.holder)
  {
    assert Sent(s) + s.holder.batch.events + [] == Sent(s) + s.holder.batch.events;
  }

  /** The batch in hand goes to the back of the queue. */
  lemma PutBatchFlow(c: Config, s: State)
    requires !s.holder.Free? && InCurrent(s.current) == []
    ensures Flow(Finish(c, s.(queue := s.queue + [Work(s.holder.batch)]), s.holder.after)) == Flow(s)
  {
    SentPut(s, s.holder.batch);
    HeldFlow(s);
    FinishFlow(c, s.(queue := s.queue + [Work(s.holder.batch)]), s.holder.after);
  }

  /** The batch in hand is dropped. */
  lemma DropBatchFlow(c: Config, s: State)
    requires !s.holder.Free? && InCurrent(s.current) == []
    ensures Flow(s) == Sent(s) + s.holder.batch.events + Waiting(s.holder)
    ensures Flow(Finish(c, Drop(s, s.holder.batch), s.holder.after)) == Sent(s) + Waiting(s.holder)
  {
    HeldFlow(s);
    FinishFlow(c, Drop(s, s.holder.batch), s.holder.after);
  }

  /** Everything behind the oldest queue entry. */
  function BehindHead(s: State): seq<Event>
    requires s.queue != []
  {
    QueueEvents(s.queue[1..]) + InHand(s.holder) + InCurrent(s.current) + Waiting(s.holder)
  }

  function HeadEvents(s: State): seq<Event>
    requires s.queue != []
  {
    if s.queue[0].Work? then s.queue[0].batch.events else []
  }

  lemma HeadFlow(s: State)
    requires s.queue != []
    ensures Flow(s) == s.written + InFlight(s.worker) + HeadEvents(s) + BehindHead(s)
  {
    QueueGet(s.queue);
    assert Flow(s) == s.written + InFlight(s.worker) + (HeadEvents(s) + QueueEvents(s.queue[1..]))
                      + InHand(s.holder) + InCurrent(s.current) + Waiting(s.holder);
  }

  /** DROP_OLDEST_BATCH takes the oldest entry, which by now may be any batch or the sentinel. */
  lemma EvictFlow(c: Config, s: State)
    requires s.holder.Evicting? && s.queue != []
    ensures Flow(HolderStep(c, s)) == s.written + InFlight(s.worker) + BehindHead(s)
  {
    var n := HolderStep(c, s);
    assert n.queue == s.queue[1..] && InHand(n.holder) == InHand(s.holder) && Waiting(n.holder) == Waiting(s.holder);
    Regroup(s.written + InFlight(s.worker), QueueEvents(s.queue[1..]), InHand(s.holder), InCurrent(s.current), Waiting(s.holder));
  }

  lemma TakeItemFlow(s: State)
    requires s.worker.Idle? && s.queue != []
    ensures Flow(TakeItem(s)) == Flow(s)
  {
    var n := TakeItem(s);
    HeadFlow(s);
    assert s.written + [] == s.written;
    assert n.queue == s.queue[1..] && InFlight(n.worker) == HeadEvents(s) && n.written == s.written;
    assert InHand(n.holder) == InHand(s.holder) && n.current == s.current && Waiting(n.holder) == Waiting(s.holder);
    Regroup(s.written + HeadEvents(s), QueueEvents(s.queue[1..]), InHand(s.holder), InCurrent(s.current), Waiting(s.holder));
  }

  /** Everything behind the batch being sent. */
  function BehindWorker(s: State): seq<Event> {
    QueueEvents(s.queue) + InHand(s.holder) + InCurrent(s.current) + Waiting(s.holder)
  }

  lemma TryBatchFlow(c: Config, s: State, ok: bool)
    requires s.worker.Sending?
    ensures Flow(s) == s.written + s.worker.batch.events + BehindWorker(s)
    ensures Flow(TryBatch(c, s, ok)) ==
            if ok || s.worker.attempt < c.maxRetries then Flow(s) else s.written + BehindWorker(s)
  {
    var n := TryBatch(c, s, ok);
    assert Flow(s) == s.written + s.worker.batch.events + BehindWorker(s);
    assert Flow(n) == n.written + InFlight(n.worker) + BehindWorker(s);
  }

  lemma FinishHistory(c: Config, s: State, after: After)
    ensures Finish(c, s, after).accepted == s.accepted && Finish(c, s, after).lost == s.lost
  {
  }

  lemma PutBatchBalanced(c: Config, s: State)
    requires Balanced(s) && !s.holder.Free? && InCurrent(s.current) == []
    ensures Balanced(Finish(c, s.(queue := s.queue + [Work(s.holder.batch)]), s.holder.after))
  {
    var t := s.(queue := s.queue + [Work(s.holder.batch)]);
    PutBatchFlow(c, s);
    FinishHistory(c, t, s.holder.after);
    BalancedMove(s, Finish(c, t, s.holder.after));
  }

  lemma DropBatchBalanced(c: Config, s: State)
    requires Balanced(s) && !s.holder.Free? && InCurrent(s.current) == []
    ensures Balanced(Finish(c, Drop(s, s.holder.batch), s.holder.after))
  {
    DropBatchFlow(c, s);
    FinishHistory(c, Drop(s, s.holder.batch), s.holder.after);
    BalancedLose(s, Finish(c, Drop(s, s.holder.batch), s.holder.after), Sent(s), s.holder.batch.events, Waiting(s.holder));
  }

  lemma EvictBalanced(c: Config, s: State)
    requires Balanced(s) && s.holder.Evicting? && s.queue != []
    ensures Balanced(HolderStep(c, s))
  {
    HeadFlow(s);
    EvictFlow(c, s);
    assert s.lost + [] == s.lost;
    BalancedLose(s, HolderStep(c, s), s.written + InFlight(s.worker), HeadEvents(s), BehindHead(s));
  }

  lemma HolderStepBalanced(c: Config, s: State)
    requires Balanced(s) && !s.holder.Free? && InCurrent(s.current) == []
    ensures Balanced(HolderStep(c, s))
  {
    if s.holder.Evicting? && s.queue != [] {
      EvictBalanced(c, s);
    } else if !s.holder.Evicting? && |s.queue| < c.maxQueue {
      PutBatchBalanced(c, s);
    } else if s.holder.Putting? && c.dropOldest {
      BalancedMove(s, HolderStep(c, s));
    } else {
      DropBatchBalanced(c, s);
    }
  }

  lemma HolderStepShaped(c: Config, s: State)
    requires c.Valid() && Shaped(c, s) && !s.holder.Free?
    ensures Shaped(c, HolderStep(c, s))
  {
    var b, after := s.holder.batch, s.holder.after;
    if s.holder.Evicting? && s.queue != [] {
    } else if !s.holder.Evicting? && |s.queue| < c.maxQueue {
      FinishShaped(c, s.(queue := s.queue + [Work(b)]), after);
    } else if s.holder.Putting? && c.dropOldest {
    } else {
      FinishShaped(c, Drop(s, b), after);
    }
  }

  lemma StepCounted(c: Config, s: State, a: Action)
    requires Counted(s) && Enabled(c, s, a)
    ensures Counted(Next(c, s, a))
  {
  }

  lemma OtherStepFlow(c: Config, s: State, a: Action)
    requires Enabled(c, s, a)
    requires !a.WriteStart? && !a.LockStep? && !a.GetItem? && !a.Attempt?
    ensures Flow(Next(c, s, a)) == Flow(s)
  {
    if a.TimerFlush? && HasEvents(s.current) {
      TakeBatchFlow(s, Release);
    } else if a.StopFlush? && HasEvents(s.current) {
      TakeBatchFlow(s, EndStop);
    } else if a.PutSentinel? {
      QueuePut(s.queue, Sentinel);
    }
  }

  lemma StartWriteBalanced(c: Config, s: State, e: Event)
    requires s.holder.Free? && Balanced(s)
    ensures Balanced(StartWrite(c, s, e))
  {
    StartWriteFlow(c, s, e);
    BalancedAccept(s, StartWrite(c, s, e), e);
  }

  lemma TryBatchBalanced(c: Config, s: State, ok: bool)
    requires Balanced(s) && s.worker.Sending?
    ensures Balanced(TryBatch(c, s, ok))
  {
    TryBatchFlow(c, s, ok);
    if ok || s.worker.attempt < c.maxRetries {
      BalancedMove(s, TryBatch(c, s, ok));
    } else {
      BalancedLose(s, TryBatch(c, s, ok), s.written, s.worker.batch.events, BehindWorker(s));
    }
  }

  lemma TakeItemBalanced(s: State)
    requires s.worker.Idle? && s.queue != [] && Balanced(s)
    ensures Balanced(TakeItem(s))
  {
    TakeItemFlow(s);
    BalancedMove(s, TakeItem(s));
  }

  lemma OtherStepBalanced(c: Config, s: State, a: Action)
    requires Enabled(c, s, a) && Balanced(s)
    requires !a.WriteStart? && !a.LockStep? && !a.GetItem? && !a.Attempt?
    ensures Balanced(Next(c, s, a))
  {
    OtherStepFlow(c, s, a);
    BalancedMove(s, Next(c, s, a));
  }

  lemma StepBalanced(c: Config, s: State, a: Action)
    requires Balanced(s) && Enabled(c, s, a)
    requires !s.holder.Free? ==> InCurrent(s.current) == []
    ensures Balanced(Next(c, s, a))
  {
    match a
    case WriteStart(e) =>
      StartWriteBalanced(c, s, e);
    case LockStep =>
      HolderStepBalanced(c, s);
    case GetItem =>
      TakeItemBalanced(s);
    case Attempt(ok) =>
      TryBatchBalanced(c, s, ok);
    case _ =>
      OtherStepBalanced(c, s, a);
  }

  lemma OtherStepShaped(c: Config, s: State, a: Action)
    requires c.Valid() && Shaped(c, s) && Enabled(c, s, a)
    requires !a.WriteStart? && !a.LockStep?
    ensures Shaped(c, Next(c, s, a))
  {
  }

  // ---------------------------------------------------------------------------
  // Main results
  // ---------------------------------------------------------------------------

  lemma InitInv(c: Config)
    requires c.Valid()
    ensures Inv(c, Init())
  {
  }

  lemma StepShaped(c: Config, s: State, a: Action)
    requires c.Valid() && Shaped(c, s) && Enabled(c, s, a)
    ensures Shaped(c, Next(c, s, a))
  {
    match a
    case WriteStart(e) => StartWriteShaped(c, s, e);
    case LockStep => HolderStepShaped(c, s);
    case _ => OtherStepShaped(c, s, a);
  }

  /** Every step of every thread keeps the invariant. */
  lemma StepInv(c: Config, s: State, a: Action)
    requires c.Valid() && Inv(c, s) && Enabled(c, s, a)
    ensures Inv(c, Next(c, s, a))
  {
    StepCounted(c, s, a);
    StepShaped(c, s, a);
    StepBalanced(c, s, a);
  }

  lemma {:induction false} RunInv(c: Config, s: State, run: seq<Action>)
    requires c.Valid() && Inv(c, s) && IsRun(c, s, run)
    ensures Inv(c, End(c, s, run))
    decreases |run|
  {
    if run != [] {
      StepInv(c, s, run[0]);
      RunInv(c, Next(c, s, run[0]), run[1..]);
    }
  }

  /** In every reachable state, under both policies and every interleaving: each accepted
      event is in exactly one place, the counters agree with the histories, and what is
      written, then in flight, then queued, then in hand, then current is in the order in
      which `write` accepted it. */
  lemma NothingInventedOrOvertaken(c: Config, run: seq<Action>)
    requires c.Valid() && IsRun(c, Init(), run)
    ensures var s := End(c, Init(), run);
            && multiset(s.accepted) == multiset(s.written) + multiset(s.lost) + multiset(Pending(s))
            && |s.accepted| == s.eventsWritten + s.eventsDropped + |Pending(s)|
            && IsSubseq(s.written + Pending(s), s.accepted)
  {
    var s := End(c, Init(), run);
    InitInv(c);
    RunInv(c, Init(), run);
    BalancedIff(s);
    assert |multiset(s.accepted)| == |multiset(s.written)| + |multiset(s.lost)| + |multiset(Pending(s))|;
  }

  /** Order per task: the written events of a task are a subsequence of its accepted events. */
  lemma OrderPerTask(c: Config, run: seq<Action>, task: string)
    requires c.Valid() && IsRun(c, Init(), run)
    ensures var s := End(c, Init(), run);
            var mine := (e: Event) => e.task == task;
            IsSubseq(Keep(s.written + Pending(s), mine), Keep(s.accepted, mine))
  {
    var s := End(c, Init(), run);
    NothingInventedOrOvertaken(c, run);
    SubseqKeep(s.written + Pending(s), s.accepted, (e: Event) => e.task == task);
  }

  /** Memory stays bounded: the queue never exceeds its size and no batch exceeds its own. */
  lemma MemoryBounded(c: Config, run: seq<Action>)
    requires c.Valid() && IsRun(c, Init(), run)
    ensures var s := End(c, Init(), run);
            |s.queue| <= c.maxQueue && |Pending(s)| <= (c.maxQueue + 2) * c.batchSize + 1
  {
    var s := End(c, Init(), run);
    InitInv(c);
    RunInv(c, Init(), run);
    QueueBound(c, s.queue);
    OutsideQueue(c, s);
    MemoryArithmetic(|s.queue|, c.maxQueue, c.batchSize, |QueueEvents(s.queue)|, |Pending(s)| - |QueueEvents(s.queue)|);
  }

  lemma OutsideQueue(c: Config, s: State)
    requires c.Valid() && Shaped(c, s)
    ensures 0 <= |Pending(s)| - |QueueEvents(s.queue)| <= c.batchSize + c.batchSize + 1
  {
  }

  lemma MemoryArithmetic(q: nat, m: nat, b: nat, queued: nat, rest: nat)
    requires q <= m && queued <= q * b && rest <= b + b + 1
    ensures queued + rest <= (m + 2) * b + 1
  {
    MulMonotone(q, m, b);
    assert (m + 2) * b == m * b + b + b;
  }

  lemma {:induction false} QueueBound(c: Config, queue: seq<Item>)
    requires forall i :: 0 <= i < |queue| && queue[i].Work? ==> Outgoing(c, queue[i].batch)
    ensures |QueueEvents(queue)| <= |queue| * c.batchSize
    decreases |queue|
  {
    if queue != [] {
      QueueBound(c, queue[..|queue| - 1]);
      assert |queue| * c.batchSize == (|queue| - 1) * c.batchSize + c.batchSize;
    }
  }
}
