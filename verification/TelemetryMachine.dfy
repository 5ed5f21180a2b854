/**
 The asynchronous telemetry writer of rfsn_v10/async_writer.py as a step system.

 One step is one atomic action of one thread: a `write` call or a timer flush taking the
 lock, one queue operation of the lock holder, one queue read or client attempt of the
 worker, one sub-step of `stop`.  Threads interleave freely between steps, in particular
 between the get and the put of the DROP_OLDEST_BATCH policy.

 Besides the program's own variables the state records three histories: the events
 accepted by `write`, the events the client took, and the events that were dropped.
 */
module TelemetryMachine {
  import opened Wrappers

  datatype Event = Event(task: string, payload: string)

  datatype Batch = Batch(task: string, events: seq<Event>)

  /** A queue entry: a batch, or the None that tells the worker to leave. */
  datatype Item = Work(batch: Batch) | Sentinel

  datatype Config = Config(batchSize: nat, maxQueue: nat, maxRetries: nat, dropOldest: bool) {
    /** The settings under which the constructor's parameters mean what they say. */
    predicate Valid() {
      batchSize >= 1 && maxQueue >= 1
    }
  }

  /** What the lock holder does once the flush it is in returns. */
  datatype After =
    | Release
    | Append(event: Event)  // `write` goes on to open a new batch for this event
    | EndStop               // `stop` goes on to send the sentinel

  /** Where the lock holder is, between two queue operations. */
  datatype Holder =
    | Free
    | Putting(batch: Batch, after: After)    // about to put_nowait
    | Evicting(batch: Batch, after: After)   // found the queue full, about to get_nowait
    | Reputting(batch: Batch, after: After)  // took the oldest entry, about to put_nowait again

  datatype Worker =
    | Idle                                // about to get
    | SawEmpty                            // the get timed out; about to look at the stop flag
    | Sending(batch: Batch, attempt: nat) // about to make this attempt
    | Exited

  datatype Stopper = NotCalled | Flushing | Signalling | Joining | Closed

  datatype State = State(
    queue: seq<Item>,
    current: Option<Batch>,
    holder: Holder,
    worker: Worker,
    stopper: Stopper,
    eventsWritten: nat,
    eventsDropped: nat,
    writeFailures: nat,
    accepted: seq<Event>,
    written: seq<Event>,
    lost: seq<Event>)
  {
    /** The stop flag. */
    predicate Stopped() {
      !stopper.NotCalled?
    }
  }

  datatype Action =
    | WriteStart(event: Event)
    | TimerFlush
    | LockStep
    | GetItem
    | GetTimeout
    | CheckStop
    | Attempt(ok: bool)
    | SetStop
    | StopFlush
    | PutSentinel
    | GiveUp
    | CloseClient

  function Init(): State {
    State([], None, Free, Idle, NotCalled, 0, 0, 0, [], [], [])
  }

  // ---------------------------------------------------------------------------
  // Steps
  // ---------------------------------------------------------------------------

  /** Counts a batch as dropped. */
  function Drop(s: State, b: Batch): State {
    s.(eventsDropped := s.eventsDropped + |b.events|, lost := s.lost + b.events)
  }

  predicate HasEvents(current: Option<Batch>) {
    current.Some? && current.value.events != []
  }

  /** The start of a flush: the batch leaves for the queue, an empty one takes its place. */
  function TakeBatch(s: State, after: After): State
    requires HasEvents(s.current)
  {
    s.(holder := Putting(s.current.value, after), current := Some(Batch(s.current.value.task, [])))
  }

  /** The second half of `write`: append, and flush when the batch is full. */
  function AppendTo(c: Config, s: State, b: Batch, e: Event): State {
    var next := s.(current := Some(Batch(b.task, b.events + [e])), holder := Free);
    if |b.events| + 1 >= c.batchSize then TakeBatch(next, Release) else next
  }

  /** `write` up to its first queue operation. */
  function StartWrite(c: Config, s: State, e: Event): State {
    var t := s.(accepted := s.accepted + [e]);
    if t.current.None? || t.current.value.task != e.task || |t.current.value.events| >= c.batchSize then
      if HasEvents(t.current) then TakeBatch(t, Append(e)) else AppendTo(c, t, Batch(e.task, []), e)
    else
      AppendTo(c, t, t.current.value, e)
  }

  /** The lock holder returns from a flush. */
  function Finish(c: Config, s: State, after: After): State {
    match after
    case Release => s.(holder := Free)
    case Append(e) => AppendTo(c, s, Batch(e.task, []), e)
    case EndStop => s.(holder := Free, stopper := Signalling)
  }

  /** One queue operation of the lock holder. */
  function HolderStep(c: Config, s: State): State
    requires !s.holder.Free?
  {
    var b, after := s.holder.batch, s.holder.after;
    match s.holder
    case Putting(_, _) =>
      if |s.queue| < c.maxQueue then Finish(c, s.(queue := s.queue + [Work(b)]), after)
      else if c.dropOldest then s.(holder := Evicting(b, after))
      else Finish(c, Drop(s, b), after)
    case Evicting(_, _) =>
      if s.queue == [] then Finish(c, Drop(s, b), after)
      else
        var t := s.(queue := s.queue[1..], holder := Reputting(b, after));
        if s.queue[0].Work? then Drop(t, s.queue[0].batch) else t
    case Reputting(_, _) =>
      if |s.queue| < c.maxQueue then Finish(c, s.(queue := s.queue + [Work(b)]), after)
      else Finish(c, Drop(s, b), after)
  }

  /** The worker takes the oldest entry. */
  function TakeItem(s: State): State
    requires s.queue != []
  {
    var t := s.(queue := s.queue[1..]);
    match s.queue[0]
    case Sentinel => t.(worker := Exited)
    case Work(b) => if b.events == [] then t else t.(worker := Sending(b, 0))
  }

  /** One attempt of the client. */
  function TryBatch(c: Config, s: State, ok: bool): State
    requires s.worker.Sending?
  {
    var Sending(b, k) := s.worker;
    if ok then
      s.(worker := Idle, eventsWritten := s.eventsWritten + |b.events|, written := s.written + b.events)
    else if k >= c.maxRetries then
      Drop(s, b).(worker := Idle, writeFailures := s.writeFailures + 1)
    else
      s.(worker := Sending(b, k + 1))
  }

  predicate Enabled(c: Config, s: State, a: Action) {
    match a
    case WriteStart(_) => s.holder.Free?
    case TimerFlush => s.holder.Free?
    case LockStep => !s.holder.Free?
    case GetItem => s.worker.Idle? && s.queue != []
    case GetTimeout => s.worker.Idle? && s.queue == []
    case CheckStop => s.worker.SawEmpty?
    case Attempt(_) => s.worker.Sending?
    case SetStop => s.stopper.NotCalled?
    case StopFlush => s.stopper.Flushing? && s.holder.Free?
    case PutSentinel => s.stopper.Signalling? && |s.queue| < c.maxQueue
    case GiveUp => s.stopper.Signalling? && |s.queue| >= c.maxQueue
    case CloseClient => s.stopper.Joining?
  }

  function Next(c: Config, s: State, a: Action): State
    requires Enabled(c, s, a)
  {
    match a
    case WriteStart(e) => StartWrite(c, s, e)
    case TimerFlush => if HasEvents(s.current) then TakeBatch(s, Release) else s
    case LockStep => HolderStep(c, s)
    case GetItem => TakeItem(s)
    case GetTimeout => s.(worker := SawEmpty)
    case CheckStop => s.(worker := if s.Stopped() then Exited else Idle)
    case Attempt(ok) => TryBatch(c, s, ok)
    case SetStop => s.(stopper := Flushing)
    case StopFlush => if HasEvents(s.current) then TakeBatch(s, EndStop) else s.(stopper := Signalling)
    case PutSentinel => s.(queue := s.queue + [Sentinel], stopper := Joining)
    case GiveUp => s.(stopper := Joining)
    case CloseClient => s.(stopper := Closed)
  }

  /** A run is a sequence of actions, each enabled when it is taken. */
  ghost predicate IsRun(c: Config, s: State, run: seq<Action>)
    decreases |run|
  {
    run == [] || (Enabled(c, s, run[0]) && IsRun(c, Next(c, s, run[0]), run[1..]))
  }

  function End(c: Config, s: State, run: seq<Action>): State
    requires IsRun(c, s, run)
    decreases |run|
  {
    if run == [] then s else End(c, Next(c, s, run[0]), run[1..])
  }
}
