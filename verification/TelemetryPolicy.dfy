/**
 What the backpressure policies mean for a whole run: when a batch that is in the queue may
 leave it, and when the worker may leave.
 */
module TelemetryPolicy {
  import opened TelemetryMachine
  import opened TelemetrySafety

  // ---------------------------------------------------------------------------
  // The default policy
  // ---------------------------------------------------------------------------

  /** Queue reads of the worker. */
  function Reads(run: seq<Action>): nat {
    if run == [] then 0 else (if run[0] == GetItem then 1 else 0) + Reads(run[1..])
  }

  /** The lock holder is not in the middle of an eviction. */
  predicate Spares(h: Holder) {
    !h.Evicting? && !h.Reputting?
  }

  lemma StepSpares(c: Config, s: State, a: Action)
    requires !c.dropOldest && Spares(s.holder) && Enabled(c, s, a)
    ensures Spares(Next(c, s, a).holder)
    ensures a != GetItem ==> s.queue <= Next(c, s, a).queue
    ensures a == GetItem ==> Next(c, s, a).queue == s.queue[1..]
  {
  }

  lemma {:induction false} RunSpares(c: Config, s: State, run: seq<Action>)
    requires !c.dropOldest && Spares(s.holder) && IsRun(c, s, run)
    ensures Spares(End(c, s, run).holder)
    ensures Reads(run) <= |s.queue| ==> s.queue[Reads(run)..] <= End(c, s, run).queue
    decreases |run|
  {
    if run != [] {
      StepSpares(c, s, run[0]);
      RunSpares(c, Next(c, s, run[0]), run[1..]);
    }
  }

  /** Under the default policy only the worker takes entries out of the queue: after k queue reads,
      all but the first k entries are still there, in front of whatever came since. */
  lemma OnlyTheWorkerTakes(c: Config, before: seq<Action>, after: seq<Action>)
    requires !c.dropOldest && IsRun(c, Init(), before) && IsRun(c, End(c, Init(), before), after)
    ensures var s := End(c, Init(), before);
            Reads(after) <= |s.queue| ==> s.queue[Reads(after)..] <= End(c, s, after).queue
  {
    RunSpares(c, Init(), before);
    RunSpares(c, End(c, Init(), before), after);
  }

  // ---------------------------------------------------------------------------
  // The worker
  // ---------------------------------------------------------------------------

  lemma StepStays(c: Config, s: State, a: Action)
    requires c.Valid() && Shaped(c, s) && Enabled(c, s, a)
    requires s.worker.Exited? ==> s.Stopped()
    ensures Next(c, s, a).worker.Exited? ==> Next(c, s, a).Stopped()
  {
    if a == GetItem && s.queue[0].Sentinel? {
      assert Sentinel in s.queue;
    }
  }

  lemma {:induction false} RunStays(c: Config, s: State, run: seq<Action>)
    requires c.Valid() && Inv(c, s) && IsRun(c, s, run)
    requires s.worker.Exited? ==> s.Stopped()
    ensures End(c, s, run).worker.Exited? ==> End(c, s, run).Stopped()
    decreases |run|
  {
    if run != [] {
      StepInv(c, s, run[0]);
      StepStays(c, s, run[0]);
      RunStays(c, Next(c, s, run[0]), run[1..]);
    }
  }

  /** The worker does not leave before `stop` is called. */
  lemma WorkerStaysUntilStop(c: Config, run: seq<Action>)
    requires c.Valid() && IsRun(c, Init(), run) && End(c, Init(), run).worker.Exited?
    ensures !End(c, Init(), run).stopper.NotCalled?
  {
    InitInv(c);
    RunStays(c, Init(), run);
  }
}
