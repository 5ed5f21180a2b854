/**
 The per-profile sparsity controller of rfsn_v10/adaptive_sparsity.py. Ratios and metrics are
 exact reals.
 */
module Sparsity {
  import opened Arithmetic
  import opened Wrappers

  datatype Config = Config(
    initialTopK: real, minTopK: real, maxTopK: real,
    sparseCosineWarn: real, sparseCosineFail: real, sparseMaeWarn: real,
    quantCosineWarn: real, quantCosineFail: real, quantMaeWarn: real,
    decrease: real, increase: real, stabilizationSteps: int)

  /** What one update reports. */
  datatype Audit = Audit(
    sparseSuccess: bool, fallbackUsed: bool,
    sparseCosine: Option<real>, sparseMae: Option<real>,
    quantCosine: Option<real>, quantMae: Option<real>)

  datatype Reason = Initial | Failure | SparseDegraded | QuantDegraded | Reduced | Hold

  datatype Profile = Profile(topK: real, cleanSteps: int, disableSparse: bool, disableQuantized: bool, reason: Reason)

  datatype Decision = Decision(topK: real, disableSparse: bool, disableQuantized: bool, reason: Reason)

  // ---------------------------------------------------------------------------
  // One update
  // ---------------------------------------------------------------------------

  predicate BadCosine(value: Option<real>, threshold: real) {
    value.Some? && value.value < threshold
  }

  predicate BadMae(value: Option<real>, threshold: real) {
    value.Some? && value.value > threshold
  }

  /** The branch an update takes, with the flag that branch stores. */
  datatype Verdict = Failed | SparseBad(fail: bool) | QuantBad(fail: bool) | Clean

  function Judge(c: Config, a: Audit): Verdict {
    if !a.sparseSuccess || a.fallbackUsed then Failed
    else if BadCosine(a.sparseCosine, c.sparseCosineWarn) || BadMae(a.sparseMae, c.sparseMaeWarn) then
      SparseBad(BadCosine(a.sparseCosine, c.sparseCosineFail))
    else if BadCosine(a.quantCosine, c.quantCosineWarn) || BadMae(a.quantMae, c.quantMaeWarn) then
      QuantBad(BadCosine(a.quantCosine, c.quantCosineFail))
    else Clean
  }

  function Min(a: real, b: real): real { if b < a then b else a }
  function Max(a: real, b: real): real { if b > a then b else a }

  function Fresh(c: Config): Profile {
    Profile(c.initialTopK, 0, false, false, Initial)
  }

  function Raised(c: Config, topK: real): real { Min(c.maxTopK, topK + c.increase) }
  function Lowered(c: Config, topK: real): real { Max(c.minTopK, topK - c.decrease) }

  function Step(c: Config, p: Profile, v: Verdict): Profile {
    match v
    case Failed => p.(topK := Raised(c, p.topK), disableSparse := true, reason := Failure, cleanSteps := 0)
    case SparseBad(fail) =>
      p.(topK := Raised(c, p.topK), disableSparse := fail, reason := SparseDegraded, cleanSteps := 0)
    case QuantBad(fail) => p.(disableQuantized := fail, reason := QuantDegraded, cleanSteps := 0)
    case Clean =>
      if p.cleanSteps + 1 >= c.stabilizationSteps then
        Profile(Lowered(c, p.topK), 0, false, false, Reduced)
      else p.(cleanSteps := p.cleanSteps + 1, reason := Hold)
  }

  // ---------------------------------------------------------------------------
  // A profile from its history
  // ---------------------------------------------------------------------------

  /** The state of a profile after a history of verdicts. */
  function After(c: Config, history: seq<Verdict>): Profile {
    if history == [] then Fresh(c)
    else Step(c, After(c, history[..|history| - 1]), history[|history| - 1])
  }

  /** How many clean updates end the history. */
  function Trailing(history: seq<Verdict>): nat {
    if history == [] || history[|history| - 1] != Clean then 0
    else Trailing(history[..|history| - 1]) + 1
  }

  /** The length of a streak; zero or less acts as one. */
  function Streak(c: Config): (n: nat)
    ensures n >= 1
  {
    if c.stabilizationSteps >= 1 then c.stabilizationSteps else 1
  }

  /** Update i completes a streak: it is clean, and the clean updates that end there, counted
      from the last bad one, are a multiple of the streak length. */
  ghost predicate CompletesStreak(c: Config, history: seq<Verdict>, i: nat)
    requires i < |history|
  {
    history[i] == Clean && Trailing(history[..i + 1]) % Streak(c) == 0
  }

  lemma ModStep(k: nat, n: nat)
    requires n >= 1
    ensures (k + 1) % n == if k % n + 1 == n then 0 else k % n + 1
  {
    var q, r := k / n, k % n;
    assert k == q * n + r;
    if r + 1 == n {
      DivModUnique(k + 1, n, q + 1, 0);
    } else {
      DivModUnique(k + 1, n, q, r + 1);
    }
  }

  /** One update, with k clean updates before it since the last bad one. */
  lemma CounterStep(c: Config, p: Profile, v: Verdict, k: nat, n: nat)
    requires n == Streak(c) && p.cleanSteps == k % n
    ensures Step(c, p, v).cleanSteps == if v == Clean then (k + 1) % n else 0
  {
    ModStep(k, n);
  }

  /** The counter of a profile is the number of trailing clean updates, modulo the streak. */
  lemma {:induction false} CounterIsTrailing(c: Config, history: seq<Verdict>)
    ensures After(c, history).cleanSteps == Trailing(history) % Streak(c)
    decreases |history|
  {
    if history != [] {
      var front := history[..|history| - 1];
      CounterIsTrailing(c, front);
      CounterStep(c, After(c, front), history[|history| - 1], Trailing(front), Streak(c));
    }
  }

  /** How the ratio moves: up after a failure or degraded sparse quality, down when a streak is
      completed, and not otherwise. */
  lemma TopKMoves(c: Config, history: seq<Verdict>, v: Verdict)
    ensures var before, h := After(c, history).topK, history + [v];
            After(c, h).topK ==
            if v == Failed || v.SparseBad? then Raised(c, before)
            else if CompletesStreak(c, h, |history|) then Lowered(c, before)
            else before
  {
    var h := history + [v];
    assert h[..|history|] == history && h[..|history| + 1] == h;
    CounterIsTrailing(c, history);
    ModStep(Trailing(history), Streak(c));
  }

  /** Settings the controller is meant for. */
  ghost predicate Sensible(c: Config) {
    c.minTopK <= c.initialTopK <= c.maxTopK && c.decrease >= 0.0 && c.increase >= 0.0
  }

  /** The ratio never leaves its bounds. */
  lemma {:induction false} TopKInRange(c: Config, history: seq<Verdict>)
    requires Sensible(c)
    ensures c.minTopK <= After(c, history).topK <= c.maxTopK
    decreases |history|
  {
    if history != [] {
      TopKInRange(c, history[..|history| - 1]);
    }
  }

  /** The ratio falls exactly on an update that completes a streak above the minimum, and rises
      exactly on a sparse failure or degradation below the maximum. */
  lemma TopKFallsAndRises(c: Config, history: seq<Verdict>, v: Verdict)
    requires Sensible(c)
    ensures var before, h := After(c, history).topK, history + [v];
            var after := After(c, h).topK;
            && (after < before <==> CompletesStreak(c, h, |history|) && c.decrease > 0.0 && before > c.minTopK)
            && (after > before <==> (v == Failed || v.SparseBad?) && c.increase > 0.0 && before < c.maxTopK)
  {
    TopKMoves(c, history, v);
    TopKInRange(c, history);
    assert (history + [v])[|history|] == v;
  }

  /** A streak is made of clean updates only: the last `Streak` updates are all clean. */
  lemma {:induction false} TrailingIsClean(history: seq<Verdict>, k: nat)
    requires k <= Trailing(history)
    ensures k <= |history| && forall i :: |history| - k <= i < |history| ==> history[i] == Clean
    decreases |history|
  {
    if k > 0 {
      var front := history[..|history| - 1];
      TrailingIsClean(front, k - 1);
      assert forall i :: 0 <= i < |front| ==> history[i] == front[i];
    }
  }

  lemma PositiveMultiple(k: nat, n: nat)
    requires n >= 1 && k >= 1 && k % n == 0
    ensures k >= n
  {
    if k < n {
      DivModUnique(k, n, 0, k);
    }
  }

  lemma FallNeedsCleanStreak(c: Config, history: seq<Verdict>, v: Verdict)
    requires Sensible(c) && After(c, history + [v]).topK < After(c, history).topK
    ensures var h := history + [v];
            |h| >= Streak(c) && forall i :: |h| - Streak(c) <= i < |h| ==> h[i] == Clean
  {
    var h := history + [v];
    TopKFallsAndRises(c, history, v);
    assert h[..|history| + 1] == h && h[|h| - 1] == v;
    PositiveMultiple(Trailing(h), Streak(c));
    TrailingIsClean(h, Streak(c));
  }

  // ---------------------------------------------------------------------------
  // The two flags
  // ---------------------------------------------------------------------------

  /** Of n events, some one switched off and none after it switched on again. */
  ghost predicate Stands(off: int -> bool, on: int -> bool, n: nat) {
    exists i :: 0 <= i < n && off(i) && forall j :: i < j < n ==> !on(j)
  }

  lemma StandsStep(off: int -> bool, on: int -> bool, n: nat)
    requires on(n) ==> !off(n)
    ensures Stands(off, on, n + 1) <==> off(n) || (!on(n) && Stands(off, on, n))
  {
    if Stands(off, on, n + 1) && !off(n) {
      var i :| 0 <= i < n + 1 && off(i) && forall j :: i < j < n + 1 ==> !on(j);
      assert i < n;
    }
    if !on(n) && Stands(off, on, n) {
      var i :| 0 <= i < n && off(i) && forall j :: i < j < n ==> !on(j);
      assert forall j :: i < j < n + 1 ==> !on(j);
    }
  }

  lemma StandsSame(off: int -> bool, on: int -> bool, off2: int -> bool, on2: int -> bool, n: nat)
    requires forall i :: 0 <= i < n ==> off(i) == off2(i) && on(i) == on2(i)
    ensures Stands(off, on, n) == Stands(off2, on2, n)
  {
    if i :| 0 <= i < n && off(i) && forall j :: i < j < n ==> !on(j) {
      assert off2(i) && forall j :: i < j < n ==> !on2(j);
    }
    if i :| 0 <= i < n && off2(i) && forall j :: i < j < n ==> !on2(j) {
      assert off(i) && forall j :: i < j < n ==> !on(j);
    }
  }

  ghost function SparseOff(h: seq<Verdict>): int -> bool {
    i => 0 <= i < |h| && (h[i] == Failed || h[i] == SparseBad(true))
  }

  ghost function SparseOn(c: Config, h: seq<Verdict>): int -> bool {
    i => 0 <= i < |h| && (h[i] == SparseBad(false) || CompletesStreak(c, h, i))
  }

  ghost function QuantizedOff(h: seq<Verdict>): int -> bool {
    i => 0 <= i < |h| && h[i] == QuantBad(true)
  }

  ghost function QuantizedOn(c: Config, h: seq<Verdict>): int -> bool {
    i => 0 <= i < |h| && (h[i] == QuantBad(false) || CompletesStreak(c, h, i))
  }

  lemma FrontStreaks(c: Config, h: seq<Verdict>, front: seq<Verdict>, i: nat)
    requires |h| > 0 && front == h[..|h| - 1] && i < |front|
    ensures CompletesStreak(c, h, i) == CompletesStreak(c, front, i)
  {
    assert front[..i + 1] == h[..i + 1];
  }

  /** What the last update does to the two flags. */
  lemma FlagStep(c: Config, h: seq<Verdict>, front: seq<Verdict>, n: nat)
    requires |h| == n + 1 && front == h[..n]
    ensures After(c, h).disableSparse == (SparseOff(h)(n) || (!SparseOn(c, h)(n) && After(c, front).disableSparse))
    ensures After(c, h).disableQuantized == (QuantizedOff(h)(n) || (!QuantizedOn(c, h)(n) && After(c, front).disableQuantized))
  {
    CounterIsTrailing(c, front);
    ModStep(Trailing(front), Streak(c));
    assert h[..n + 1] == h;
  }

  /** Either kind of attention is disabled exactly when some update disabled it and no later
      one enabled it again; a completed streak enables both. */
  lemma {:induction false} DisabledIff(c: Config, h: seq<Verdict>)
    ensures After(c, h).disableSparse <==> Stands(SparseOff(h), SparseOn(c, h), |h|)
    ensures After(c, h).disableQuantized <==> Stands(QuantizedOff(h), QuantizedOn(c, h), |h|)
    decreases |h|
  {
    if h != [] {
      var n := |h| - 1;
      var front := h[..n];
      DisabledIff(c, front);
      FlagStep(c, h, front, n);
      StandsStep(SparseOff(h), SparseOn(c, h), n);
      StandsStep(QuantizedOff(h), QuantizedOn(c, h), n);
      forall i | 0 <= i < n
        ensures SparseOff(h)(i) == SparseOff(front)(i) && SparseOn(c, h)(i) == SparseOn(c, front)(i)
        ensures QuantizedOff(h)(i) == QuantizedOff(front)(i) && QuantizedOn(c, h)(i) == QuantizedOn(c, front)(i)
      {
        FrontStreaks(c, h, front, i);
      }
      StandsSame(SparseOff(h), SparseOn(c, h), SparseOff(front), SparseOn(c, front), n);
      StandsSame(QuantizedOff(h), QuantizedOn(c, h), QuantizedOff(front), QuantizedOn(c, front), n);
    }
  }

  // ---------------------------------------------------------------------------
  // Many profiles
  // ---------------------------------------------------------------------------

  type Profiles = map<string, Profile>

  /** A call for a profile key: a query for the decision, or an update. */
  datatype Call = Query(key: string) | Update(key: string, audit: Audit)

  /** Looking a profile up creates it. */
  function Touched(c: Config, m: Profiles, key: string): (r: Profiles)
    ensures key in r
  {
    if key in m then m else m[key := Fresh(c)]
  }

  function Updated(c: Config, m: Profiles, key: string, v: Verdict): Profiles {
    var t := Touched(c, m, key);
    t[key := Step(c, t[key], v)]
  }

  function Apply(c: Config, m: Profiles, call: Call): Profiles {
    match call
    case Query(key) => Touched(c, m, key)
    case Update(key, audit) => Updated(c, m, key, Judge(c, audit))
  }

  /** The profiles after a sequence of calls on a new controller. */
  function AfterCalls(c: Config, calls: seq<Call>): Profiles {
    if calls == [] then map[]
    else Apply(c, AfterCalls(c, calls[..|calls| - 1]), calls[|calls| - 1])
  }

  /** The verdicts of one profile's own updates. */
  function HistoryOf(c: Config, calls: seq<Call>, key: string): seq<Verdict> {
    if calls == [] then []
    else
      var last := calls[|calls| - 1];
      var before := HistoryOf(c, calls[..|calls| - 1], key);
      if last.Update? && last.key == key then before + [Judge(c, last.audit)] else before
  }

  lemma AfterSnoc(c: Config, history: seq<Verdict>, v: Verdict)
    ensures After(c, history + [v]) == Step(c, After(c, history), v)
  {
    var h := history + [v];
    assert h[..|h| - 1] == history;
  }

  /** The state a profile has, or will be created with. */
  function StateOf(c: Config, m: Profiles, key: string): Profile {
    if key in m then m[key] else Fresh(c)
  }

  lemma OwnUpdatesOnly(c: Config, m: Profiles, call: Call, key: string)
    ensures StateOf(c, Apply(c, m, call), key) ==
            if call.Update? && call.key == key then Step(c, StateOf(c, m, key), Judge(c, call.audit)) else StateOf(c, m, key)
    ensures key in Apply(c, m, call) <==> key in m || call.key == key
  {
  }

  /** Whatever calls are interleaved, a profile is determined by its own updates alone. */
  lemma {:induction false} ProfilesAreIndependent(c: Config, calls: seq<Call>, key: string)
    ensures StateOf(c, AfterCalls(c, calls), key) == After(c, HistoryOf(c, calls, key))
    decreases |calls|
  {
    if calls != [] {
      var front, last := calls[..|calls| - 1], calls[|calls| - 1];
      ProfilesAreIndependent(c, front, key);
      OwnUpdatesOnly(c, AfterCalls(c, front), last, key);
      if last.Update? {
        AfterSnoc(c, HistoryOf(c, front, key), Judge(c, last.audit));
      }
    }
  }

  /** A profile exists exactly when it has been asked for. */
  lemma {:induction false} ProfilesAreThoseAskedFor(c: Config, calls: seq<Call>, key: string)
    ensures key in AfterCalls(c, calls) <==> exists i :: 0 <= i < |calls| && calls[i].key == key
    decreases |calls|
  {
    if calls != [] {
      var front, last := calls[..|calls| - 1], calls[|calls| - 1];
      ProfilesAreThoseAskedFor(c, front, key);
      OwnUpdatesOnly(c, AfterCalls(c, front), last, key);
      assert forall i :: 0 <= i < |front| ==> calls[i] == front[i];
    }
  }

  /** Over any interleaving of calls, the ratio of a profile stays in its bounds, and the next
      call lowers it exactly when it is an update of that same profile that completes a streak
      of clean updates while the ratio is above the minimum. */
  lemma RatioOverInterleavings(c: Config, calls: seq<Call>, call: Call, key: string)
    requires Sensible(c)
    ensures var before := StateOf(c, AfterCalls(c, calls), key).topK;
            var after := StateOf(c, AfterCalls(c, calls + [call]), key).topK;
            var h := HistoryOf(c, calls + [call], key);
            && c.minTopK <= before <= c.maxTopK
            && (after < before <==>
                call.Update? && call.key == key && CompletesStreak(c, h, |h| - 1) && c.decrease > 0.0 && before > c.minTopK)
  {
    assert (calls + [call])[..|calls|] == calls;
    var history := HistoryOf(c, calls, key);
    ProfilesAreIndependent(c, calls, key);
    ProfilesAreIndependent(c, calls + [call], key);
    TopKInRange(c, history);
    if call.Update? && call.key == key {
      TopKFallsAndRises(c, history, Judge(c, call.audit));
    }
  }

  // ---------------------------------------------------------------------------
  // From metric values to profiles
  // ---------------------------------------------------------------------------

  /** Sparse attention failed outright. */
  ghost predicate IsFailure(a: Audit) {
    !a.sparseSuccess || a.fallbackUsed
  }

  /** What is reported of sparse attention is within its warning thresholds, bounds included. */
  ghost predicate SparseFine(c: Config, a: Audit) {
    && (a.sparseCosine.Some? ==> a.sparseCosine.value >= c.sparseCosineWarn)
    && (a.sparseMae.Some? ==> a.sparseMae.value <= c.sparseMaeWarn)
  }

  ghost predicate QuantFine(c: Config, a: Audit) {
    && (a.quantCosine.Some? ==> a.quantCosine.value >= c.quantCosineWarn)
    && (a.quantMae.Some? ==> a.quantMae.value <= c.quantMaeWarn)
  }

  ghost predicate IsClean(c: Config, a: Audit) {
    !IsFailure(a) && SparseFine(c, a) && QuantFine(c, a)
  }

  /** A reported cosine below the threshold. */
  ghost predicate FallsShort(cosine: Option<real>, threshold: real) {
    cosine.Some? && cosine.value < threshold
  }

  /** What an update makes of its profile, from the values it reports; it counts as clean exactly
      when sparse attention succeeded without fallback, no reported cosine is below its warning
      threshold and no reported error above it. */
  lemma UpdateOnAudit(c: Config, calls: seq<Call>, key: string, a: Audit)
    ensures var q := StateOf(c, AfterCalls(c, calls + [Update(key, a)]), key);
            q.reason == Reduced || q.reason == Hold <==>
              && a.sparseSuccess && !a.fallbackUsed
              && (a.sparseCosine.Some? ==> a.sparseCosine.value >= c.sparseCosineWarn)
              && (a.sparseMae.Some? ==> a.sparseMae.value <= c.sparseMaeWarn)
              && (a.quantCosine.Some? ==> a.quantCosine.value >= c.quantCosineWarn)
              && (a.quantMae.Some? ==> a.quantMae.value <= c.quantMaeWarn)
    ensures var p := StateOf(c, AfterCalls(c, calls), key);
            var q := StateOf(c, AfterCalls(c, calls + [Update(key, a)]), key);
            var up := if p.topK + c.increase < c.maxTopK then p.topK + c.increase else c.maxTopK;
            var down := if p.topK - c.decrease > c.minTopK then p.topK - c.decrease else c.minTopK;
            q ==
            if IsFailure(a) then
              Profile(up, 0, true, p.disableQuantized, Failure)
            else if !SparseFine(c, a) then
              Profile(up, 0, FallsShort(a.sparseCosine, c.sparseCosineFail), p.disableQuantized, SparseDegraded)
            else if !QuantFine(c, a) then
              Profile(p.topK, 0, p.disableSparse, FallsShort(a.quantCosine, c.quantCosineFail), QuantDegraded)
            else if p.cleanSteps + 1 >= c.stabilizationSteps then
              Profile(down, 0, false, false, Reduced)
            else
              Profile(p.topK, p.cleanSteps + 1, p.disableSparse, p.disableQuantized, Hold)
  {
    assert (calls + [Update(key, a)])[..|calls|] == calls;
    OwnUpdatesOnly(c, AfterCalls(c, calls), Update(key, a), key);
  }

  /** A profile that has had no update is as it was created, however often it was asked for. */
  lemma NoUpdateNoChange(c: Config, calls: seq<Call>, key: string)
    requires AuditsOf(calls, key) == []
    ensures StateOf(c, AfterCalls(c, calls), key) == Profile(c.initialTopK, 0, false, false, Initial)
  {
    ProfilesAreIndependent(c, calls, key);
    HistoryIsVerdicts(c, calls, key);
  }

  /** The audits of one profile's own updates. */
  function AuditsOf(calls: seq<Call>, key: string): seq<Audit> {
    if calls == [] then []
    else
      var last := calls[|calls| - 1];
      AuditsOf(calls[..|calls| - 1], key) + if last.Update? && last.key == key then [last.audit] else []
  }

  function Verdicts(c: Config, audits: seq<Audit>): (h: seq<Verdict>)
    ensures |h| == |audits| && forall i :: 0 <= i < |h| ==> h[i] == Judge(c, audits[i])
  {
    seq(|audits|, i requires 0 <= i < |audits| => Judge(c, audits[i]))
  }

  lemma {:induction false} HistoryIsVerdicts(c: Config, calls: seq<Call>, key: string)
    ensures HistoryOf(c, calls, key) == Verdicts(c, AuditsOf(calls, key))
    decreases |calls|
  {
    if calls != [] {
      HistoryIsVerdicts(c, calls[..|calls| - 1], key);
    }
  }

  /** How many clean audits end the sequence. */
  ghost function TrailingClean(c: Config, audits: seq<Audit>): nat {
    if audits == [] || !IsClean(c, audits[|audits| - 1]) then 0
    else TrailingClean(c, audits[..|audits| - 1]) + 1
  }

  lemma {:induction false} TrailingVerdicts(c: Config, audits: seq<Audit>)
    ensures Trailing(Verdicts(c, audits)) == TrailingClean(c, audits)
    decreases |audits|
  {
    if audits != [] {
      TrailingVerdicts(c, audits[..|audits| - 1]);
      assert Verdicts(c, audits)[..|audits| - 1] == Verdicts(c, audits[..|audits| - 1]);
    }
  }

  /** Audit i is clean, and the clean audits that end there are a multiple of the streak length. */
  ghost predicate EndsStreak(c: Config, audits: seq<Audit>, i: nat)
    requires i < |audits|
  {
    IsClean(c, audits[i]) && TrailingClean(c, audits[..i + 1]) % Streak(c) == 0
  }

  lemma StreaksOfVerdicts(c: Config, audits: seq<Audit>, i: nat)
    requires i < |audits|
    ensures EndsStreak(c, audits, i) <==> CompletesStreak(c, Verdicts(c, audits), i)
  {
    TrailingVerdicts(c, audits[..i + 1]);
    assert Verdicts(c, audits)[..i + 1] == Verdicts(c, audits[..i + 1]);
  }

  lemma AuditsSnoc(calls: seq<Call>, call: Call, key: string)
    ensures AuditsOf(calls + [call], key) ==
            AuditsOf(calls, key) + if call.Update? && call.key == key then [call.audit] else []
  {
    assert (calls + [call])[..|calls|] == calls;
  }

  /** How the next audit moves the ratio. */
  lemma RatioStep(c: Config, front: seq<Audit>, a: Audit, all: seq<Audit>)
    requires Sensible(c) && all == front + [a]
    ensures var before, after := After(c, Verdicts(c, front)).topK, After(c, Verdicts(c, all)).topK;
            && (after < before <==> EndsStreak(c, all, |front|) && c.decrease > 0.0 && before > c.minTopK)
            && (after > before <==> (IsFailure(a) || !SparseFine(c, a)) && c.increase > 0.0 && before < c.maxTopK)
  {
    AuditStep(c, all, front, a);
    TopKFallsAndRises(c, Verdicts(c, front), Judge(c, a));
    StreaksOfVerdicts(c, all, |front|);
  }

  lemma StateIsAfterAudits(c: Config, calls: seq<Call>, key: string)
    ensures StateOf(c, AfterCalls(c, calls), key) == After(c, Verdicts(c, AuditsOf(calls, key)))
  {
    ProfilesAreIndependent(c, calls, key);
    HistoryIsVerdicts(c, calls, key);
  }

  /** Over any interleaving of calls, the next call lowers the ratio of a profile exactly when it is
      an update of that profile whose audit ends a streak of clean ones, and raises it exactly when
      it is one that reports a failure or sparse values beyond a warning threshold. */
  lemma RatioOverAudits(c: Config, calls: seq<Call>, call: Call, key: string)
    requires Sensible(c)
    ensures var before := StateOf(c, AfterCalls(c, calls), key).topK;
            var after := StateOf(c, AfterCalls(c, calls + [call]), key).topK;
            var audits := AuditsOf(calls + [call], key);
            var own := call.Update? && call.key == key;
            && (after < before <==>
                own && EndsStreak(c, audits, |audits| - 1) && c.decrease > 0.0 && before > c.minTopK)
            && (after > before <==>
                own && (IsFailure(call.audit) || !SparseFine(c, call.audit)) && c.increase > 0.0 && before < c.maxTopK)
  {
    var front := AuditsOf(calls, key);
    StateIsAfterAudits(c, calls, key);
    StateIsAfterAudits(c, calls + [call], key);
    AuditsSnoc(calls, call, key);
    if call.Update? && call.key == key {
      RatioStep(c, front, call.audit, AuditsOf(calls + [call], key));
    } else {
      assert front + [] == front;
    }
  }

  ghost function SparseGivenUp(c: Config, audits: seq<Audit>): int -> bool {
    i => 0 <= i < |audits| &&
         (IsFailure(audits[i]) || (!SparseFine(c, audits[i]) && FallsShort(audits[i].sparseCosine, c.sparseCosineFail)))
  }

  ghost function SparseAllowed(c: Config, audits: seq<Audit>): int -> bool {
    i => 0 <= i < |audits| &&
         (EndsStreak(c, audits, i) ||
          (!IsFailure(audits[i]) && !SparseFine(c, audits[i]) && !FallsShort(audits[i].sparseCosine, c.sparseCosineFail)))
  }

  ghost predicate QuantIsIssue(c: Config, a: Audit) {
    !IsFailure(a) && SparseFine(c, a) && !QuantFine(c, a)
  }

  ghost function QuantGivenUp(c: Config, audits: seq<Audit>): int -> bool {
    i => 0 <= i < |audits| && QuantIsIssue(c, audits[i]) && FallsShort(audits[i].quantCosine, c.quantCosineFail)
  }

  ghost function QuantAllowed(c: Config, audits: seq<Audit>): int -> bool {
    i => 0 <= i < |audits| &&
         (EndsStreak(c, audits, i) || (QuantIsIssue(c, audits[i]) && !FallsShort(audits[i].quantCosine, c.quantCosineFail)))
  }

  lemma SparseEvents(c: Config, audits: seq<Audit>, h: seq<Verdict>, i: nat)
    requires h == Verdicts(c, audits) && i < |audits|
    ensures SparseOff(h)(i) == SparseGivenUp(c, audits)(i) && SparseOn(c, h)(i) == SparseAllowed(c, audits)(i)
  {
    StreaksOfVerdicts(c, audits, i);
  }

  lemma QuantEvents(c: Config, audits: seq<Audit>, h: seq<Verdict>, i: nat)
    requires h == Verdicts(c, audits) && i < |audits|
    ensures QuantizedOff(h)(i) == QuantGivenUp(c, audits)(i) && QuantizedOn(c, h)(i) == QuantAllowed(c, audits)(i)
  {
    StreaksOfVerdicts(c, audits, i);
  }

  lemma FlagsOfAudits(c: Config, audits: seq<Audit>, h: seq<Verdict>)
    requires h == Verdicts(c, audits)
    ensures Stands(SparseOff(h), SparseOn(c, h), |h|) == Stands(SparseGivenUp(c, audits), SparseAllowed(c, audits), |audits|)
    ensures Stands(QuantizedOff(h), QuantizedOn(c, h), |h|) == Stands(QuantGivenUp(c, audits), QuantAllowed(c, audits), |audits|)
  {
    forall i | 0 <= i < |audits|
      ensures SparseOff(h)(i) == SparseGivenUp(c, audits)(i) && SparseOn(c, h)(i) == SparseAllowed(c, audits)(i)
    {
      SparseEvents(c, audits, h, i);
    }
    forall i | 0 <= i < |audits|
      ensures QuantizedOff(h)(i) == QuantGivenUp(c, audits)(i) && QuantizedOn(c, h)(i) == QuantAllowed(c, audits)(i)
    {
      QuantEvents(c, audits, h, i);
    }
    StandsSame(SparseOff(h), SparseOn(c, h), SparseGivenUp(c, audits), SparseAllowed(c, audits), |audits|);
    StandsSame(QuantizedOff(h), QuantizedOn(c, h), QuantGivenUp(c, audits), QuantAllowed(c, audits), |audits|);
  }

  /** Over any interleaving of calls, sparse attention is disabled for a profile exactly when some
      audit of its own gave it up and no later one allowed it again, and quantised attention
      likewise: what counts is the values reported. */
  lemma DisabledOverAudits(c: Config, calls: seq<Call>, key: string)
    ensures var p, audits := StateOf(c, AfterCalls(c, calls), key), AuditsOf(calls, key);
            && (p.disableSparse <==> Stands(SparseGivenUp(c, audits), SparseAllowed(c, audits), |audits|))
            && (p.disableQuantized <==> Stands(QuantGivenUp(c, audits), QuantAllowed(c, audits), |audits|))
  {
    var audits := AuditsOf(calls, key);
    ProfilesAreIndependent(c, calls, key);
    HistoryIsVerdicts(c, calls, key);
    DisabledIff(c, Verdicts(c, audits));
    FlagsOfAudits(c, audits, Verdicts(c, audits));
  }

  // ---------------------------------------------------------------------------
  // Better values never make the ratio larger
  // ---------------------------------------------------------------------------

  /** b reports nothing worse than a: a cosine no lower, an error no higher, or neither. */
  ghost predicate NoWorse(a: Audit, b: Audit) {
    && (IsFailure(b) ==> IsFailure(a))
    && (b.sparseCosine.None? || (a.sparseCosine.Some? && b.sparseCosine.value >= a.sparseCosine.value))
    && (b.quantCosine.None? || (a.quantCosine.Some? && b.quantCosine.value >= a.quantCosine.value))
    && (b.sparseMae.None? || (a.sparseMae.Some? && b.sparseMae.value <= a.sparseMae.value))
    && (b.quantMae.None? || (a.quantMae.Some? && b.quantMae.value <= a.quantMae.value))
  }

  /** q's ratio is at most p's, by a whole decrease if p is further into a streak. */
  ghost predicate Ahead(c: Config, p: Profile, q: Profile) {
    && c.minTopK <= p.topK <= c.maxTopK
    && q.topK <= if q.cleanSteps >= p.cleanSteps then p.topK else Lowered(c, p.topK)
  }

  /** A profile whose counter is within the streak. */
  ghost predicate InStreak(c: Config, p: Profile) {
    0 <= p.cleanSteps < Streak(c)
  }

  lemma StaysAhead(c: Config, p: Profile, q: Profile, v: Verdict, w: Verdict)
    requires Sensible(c) && Ahead(c, p, q) && InStreak(c, p) && InStreak(c, q)
    requires v == Clean ==> w == Clean
    requires w == Failed || w.SparseBad? ==> v == Failed || v.SparseBad?
    ensures Ahead(c, Step(c, p, v), Step(c, q, w))
  {
  }

  lemma BetterVerdict(c: Config, a: Audit, b: Audit)
    requires NoWorse(a, b)
    ensures Judge(c, a) == Clean ==> Judge(c, b) == Clean
    ensures Judge(c, b) == Failed || Judge(c, b).SparseBad? ==> Judge(c, a) == Failed || Judge(c, a).SparseBad?
  {
  }

  lemma CounterInStreak(c: Config, history: seq<Verdict>)
    ensures InStreak(c, After(c, history))
  {
    CounterIsTrailing(c, history);
  }

  lemma AuditStep(c: Config, audits: seq<Audit>, front: seq<Audit>, last: Audit)
    requires audits == front + [last]
    ensures Verdicts(c, audits) == Verdicts(c, front) + [Judge(c, last)]
    ensures After(c, Verdicts(c, audits)) == Step(c, After(c, Verdicts(c, front)), Judge(c, last))
  {
    assert Verdicts(c, audits) == Verdicts(c, front) + [Judge(c, last)];
    AfterSnoc(c, Verdicts(c, front), Judge(c, last));
  }

  lemma {:induction false} BetterHistory(c: Config, worse: seq<Audit>, better: seq<Audit>)
    requires Sensible(c) && |worse| == |better|
    requires forall i :: 0 <= i < |worse| ==> NoWorse(worse[i], better[i])
    ensures Ahead(c, After(c, Verdicts(c, worse)), After(c, Verdicts(c, better)))
    decreases |worse|
  {
    if worse != [] {
      var n := |worse| - 1;
      var w, b := worse[..n], better[..n];
      BetterHistory(c, w, b);
      BetterStep(c, worse, w, worse[n], better, b, better[n]);
    }
  }

  lemma BetterStep(c: Config, worse: seq<Audit>, w: seq<Audit>, x: Audit, better: seq<Audit>, b: seq<Audit>, y: Audit)
    requires Sensible(c) && worse == w + [x] && better == b + [y] && NoWorse(x, y)
    requires Ahead(c, After(c, Verdicts(c, w)), After(c, Verdicts(c, b)))
    ensures Ahead(c, After(c, Verdicts(c, worse)), After(c, Verdicts(c, better)))
  {
    var p, q := After(c, Verdicts(c, w)), After(c, Verdicts(c, b));
    CounterInStreak(c, Verdicts(c, w));
    CounterInStreak(c, Verdicts(c, b));
    BetterVerdict(c, x, y);
    StaysAhead(c, p, q, Judge(c, x), Judge(c, y));
    AuditStep(c, worse, w, x);
    AuditStep(c, better, b, y);
  }

  /** If every audit of a profile reports no worse values, then the ratio is no larger: good values
      never cost work, however the streaks fall and whatever the bounds cut off. */
  lemma BetterValuesKeepLess(c: Config, calls: seq<Call>, calls2: seq<Call>, key: string)
    requires Sensible(c)
    requires var worse, better := AuditsOf(calls, key), AuditsOf(calls2, key);
             |worse| == |better| && forall i :: 0 <= i < |worse| ==> NoWorse(worse[i], better[i])
    ensures StateOf(c, AfterCalls(c, calls2), key).topK <= StateOf(c, AfterCalls(c, calls), key).topK
  {
    BetterHistory(c, AuditsOf(calls, key), AuditsOf(calls2, key));
    StateIsAfterAudits(c, calls, key);
    StateIsAfterAudits(c, calls2, key);
  }

  // ---------------------------------------------------------------------------
  // Profile keys
  // ---------------------------------------------------------------------------

  function SeqBucket(seqLen: Option<int>): string {
    if seqLen.None? then "unknown"
    else if seqLen.value <= 256 then "s"
    else if seqLen.value <= 1024 then "m"
    else if seqLen.value <= 4096 then "l"
    else "xl"
  }

  /** A missing or empty name stands for a default. */
  function NameOr(name: Option<string>, default: string): string {
    if name.Some? && name.value != "" then name.value else default
  }

  function JoinKey(model: string, layer: string, bucket: string, skill: string): string {
    model + ":" + (layer + ":" + (bucket + ":" + skill))
  }

  function ProfileKey(model: Option<string>, layer: Option<string>, skill: Option<string>, seqLen: Option<int>): string {
    JoinKey(NameOr(model, "default_model"), NameOr(layer, "default_layer"), SeqBucket(seqLen), NameOr(skill, "default_skill"))
  }

  /** b starts with a and a colon. */
  predicate Extends(a: string, b: string) {
    |a| < |b| && b[..|a|] == a && b[|a|] == ':'
  }

  lemma JoinPrefix(a: string, r: string, b: string, t: string)
    requires a + ":" + r == b + ":" + t
    ensures a == b || Extends(a, b) || Extends(b, a)
    ensures a == b ==> r == t
  {
    var u, w := a + ":" + r, b + ":" + t;
    assert u[..|a|] == a && u[|a|] == ':' && u[|a| + 1..] == r;
    assert w[..|b|] == b && w[|b|] == ':' && w[|b| + 1..] == t;
    if |a| < |b| {
      assert b[..|a|] == w[..|a|] && b[|a|] == w[|a|];
    } else if |b| < |a| {
      assert a[..|b|] == u[..|b|] && a[|b|] == u[|b|];
    }
  }

  /** A key spells out its four parts; a name that is missing or empty counts as the default. */
  lemma KeyIs(model: string, layer: string, skill: string, len: int)
    ensures ProfileKey(Some(model), Some(layer), Some(skill), Some(len)) ==
            (if model == "" then "default_model" else model) + ":" +
            ((if layer == "" then "default_layer" else layer) + ":" +
             ((if len <= 256 then "s" else if len <= 1024 then "m" else if len <= 4096 then "l" else "xl") + ":" +
              (if skill == "" then "default_skill" else skill)))
    ensures ProfileKey(None, None, None, None) == ProfileKey(Some("default_model"), Some("default_layer"), Some("default_skill"), None)
  {
  }

  predicate ColonFree(s: string) {
    ':' !in s
  }

  /** Keys tell profiles apart when model and layer names contain no colon. */
  lemma KeyIsInjective(model: string, layer: string, skill: string, len: Option<int>,
                       model2: string, layer2: string, skill2: string, len2: Option<int>)
    requires ColonFree(model) && ColonFree(layer) && ColonFree(model2) && ColonFree(layer2)
    requires JoinKey(model, layer, SeqBucket(len), skill) == JoinKey(model2, layer2, SeqBucket(len2), skill2)
    ensures model == model2 && layer == layer2 && SeqBucket(len) == SeqBucket(len2) && skill == skill2
  {
    var bucket, bucket2 := SeqBucket(len), SeqBucket(len2);
    assert ColonFree(bucket) && ColonFree(bucket2);
    JoinPrefix(model, layer + ":" + (bucket + ":" + skill), model2, layer2 + ":" + (bucket2 + ":" + skill2));
    JoinPrefix(layer, bucket + ":" + skill, layer2, bucket2 + ":" + skill2);
    JoinPrefix(bucket, skill, bucket2, skill2);
  }

  /** Two lengths share a profile exactly when neither is given, or both are and no bucket ends
      between them. */
  lemma LengthsShareIff(model: Option<string>, layer: Option<string>, skill: Option<string>, len: Option<int>, len2: Option<int>)
    ensures ProfileKey(model, layer, skill, len) == ProfileKey(model, layer, skill, len2) <==>
            || (len.None? && len2.None?)
            || (&& len.Some? && len2.Some?
                && (len.value <= 256 <==> len2.value <= 256)
                && (len.value <= 1024 <==> len2.value <= 1024)
                && (len.value <= 4096 <==> len2.value <= 4096))
  {
    var a, b, s := NameOr(model, "default_model"), NameOr(layer, "default_layer"), NameOr(skill, "default_skill");
    if ProfileKey(model, layer, skill, len) == ProfileKey(model, layer, skill, len2) {
      JoinPrefix(a, b + ":" + (SeqBucket(len) + ":" + s), a, b + ":" + (SeqBucket(len2) + ":" + s));
      JoinPrefix(b, SeqBucket(len) + ":" + s, b, SeqBucket(len2) + ":" + s);
      BucketsHaveNoColon(len);
      BucketsHaveNoColon(len2);
      JoinPrefix(SeqBucket(len), s, SeqBucket(len2), s);
    }
  }

  /** Some calls for the two models share a profile. */
  ghost predicate ModelsShareAProfile(model: string, model2: string) {
    exists layer, skill, len, layer2, skill2, len2 ::
      ProfileKey(Some(model), layer, skill, len) == ProfileKey(Some(model2), layer2, skill2, len2)
  }

  /** Two models can share a profile exactly when their names are equal or one name is the
      other continued by a colon. */
  lemma ModelsShareIff(a: string, b: string)
    requires a != "" && b != ""
    ensures ModelsShareAProfile(a, b) <==> a == b || Extends(a, b) || Extends(b, a)
  {
    if ModelsShareAProfile(a, b) {
      var layer, skill, len, layer2, skill2, len2 :|
        ProfileKey(Some(a), layer, skill, len) == ProfileKey(Some(b), layer2, skill2, len2);
      JoinPrefix(a, NameOr(layer, "default_layer") + ":" + (SeqBucket(len) + ":" + NameOr(skill, "default_skill")),
                 b, NameOr(layer2, "default_layer") + ":" + (SeqBucket(len2) + ":" + NameOr(skill2, "default_skill")));
    }
    if Extends(a, b) {
      SharedKey(a, b);
    }
    if Extends(b, a) {
      SharedKey(b, a);
    }
    assert a == b ==> ProfileKey(Some(a), None, None, None) == ProfileKey(Some(b), None, None, None);
  }

  lemma SharedKey(a: string, b: string)
    requires a != "" && Extends(a, b)
    ensures ProfileKey(Some(a), Some(b[|a| + 1..] + ":x"), None, None) == ProfileKey(Some(b), Some("x"), None, None)
  {
    var rest, tail := b[|a| + 1..], "unknown" + ":" + "default_skill";
    assert b == a + ":" + rest;
    assert a + ":" + ((rest + ":x") + ":" + tail) == b + ":" + ("x" + ":" + tail);
  }

  /** Some calls for the two layers of one model share a profile. */
  ghost predicate LayersShareAProfile(model: string, layer: string, layer2: string) {
    exists skill, len, skill2, len2 ::
      ProfileKey(Some(model), Some(layer), skill, len) == ProfileKey(Some(model), Some(layer2), skill2, len2)
  }

  /** b is a, a colon and the bucket of that length, and then nothing or another colon and
      whatever. */
  predicate ExtendsByBucketOf(a: string, b: string, len: Option<int>) {
    Extends(a, b) && (b[|a| + 1..] == SeqBucket(len) || Extends(SeqBucket(len), b[|a| + 1..]))
  }

  ghost predicate ExtendsByBucket(a: string, b: string) {
    exists len :: ExtendsByBucketOf(a, b, len)
  }

  /** Two layers of one model can share a profile exactly when their names are equal or one
      name is the other continued by a colon and a bucket name, alone or before another
      colon. */
  lemma LayersShareIff(model: string, a: string, b: string)
    requires model != "" && a != "" && b != ""
    ensures LayersShareAProfile(model, a, b) <==> a == b || ExtendsByBucket(a, b) || ExtendsByBucket(b, a)
  {
    if LayersShareAProfile(model, a, b) {
      var skill, len, skill2, len2 :|
        ProfileKey(Some(model), Some(a), skill, len) == ProfileKey(Some(model), Some(b), skill2, len2);
      SharedLayers(model, a, NameOr(skill, "default_skill"), len, b, NameOr(skill2, "default_skill"), len2);
    }
    if len :| ExtendsByBucketOf(a, b, len) {
      SharedLayerKey(model, a, b, len);
    }
    if len :| ExtendsByBucketOf(b, a, len) {
      SharedLayerKey(model, b, a, len);
    }
    assert a == b ==> ProfileKey(Some(model), Some(a), None, None) == ProfileKey(Some(model), Some(b), None, None);
  }

  lemma BucketsHaveNoColon(len: Option<int>)
    ensures ColonFree(SeqBucket(len))
  {
  }

  lemma SharedLayers(model: string, a: string, skill: string, len: Option<int>, b: string, skill2: string, len2: Option<int>)
    requires JoinKey(model, a, SeqBucket(len), skill) == JoinKey(model, b, SeqBucket(len2), skill2)
    ensures a == b || ExtendsByBucketOf(a, b, len) || ExtendsByBucketOf(b, a, len2)
  {
    var r, t := SeqBucket(len) + ":" + skill, SeqBucket(len2) + ":" + skill2;
    JoinPrefix(model, a + ":" + r, model, b + ":" + t);
    JoinPrefix(a, r, b, t);
    if Extends(a, b) {
      LongerLayer(a, SeqBucket(len), skill, b, t);
      BucketsHaveNoColon(len);
    } else if Extends(b, a) {
      LongerLayer(b, SeqBucket(len2), skill2, a, r);
      BucketsHaveNoColon(len2);
    }
  }

  /** What follows a in the longer name starts with the bucket that follows a in the key. */
  lemma LongerLayer(a: string, bucket: string, skill: string, b: string, t: string)
    requires Extends(a, b) && a + ":" + (bucket + ":" + skill) == b + ":" + t && ColonFree(bucket)
    ensures b[|a| + 1..] == bucket || Extends(bucket, b[|a| + 1..])
  {
    var rest := b[|a| + 1..];
    assert b == a + ":" + rest;
    assert a + ":" + (rest + ":" + t) == a + ":" + (bucket + ":" + skill);
    JoinPrefix(a, rest + ":" + t, a, bucket + ":" + skill);
    JoinPrefix(rest, t, bucket, skill);
  }

  lemma SharedLayerKey(model: string, a: string, b: string, len: Option<int>)
    requires model != "" && a != "" && ExtendsByBucketOf(a, b, len)
    ensures LayersShareAProfile(model, a, b)
  {
    var end := SeqBucket(None) + ":" + NameOr(None, "default_skill");
    var skill := SkillFor(a, SeqBucket(len), b, end);
    assert ProfileKey(Some(model), Some(a), Some(skill), len) == ProfileKey(Some(model), Some(b), None, None);
  }

  /** A skill that makes up for what the longer layer name has more. */
  lemma SkillFor(a: string, bucket: string, b: string, end: string) returns (skill: string)
    requires Extends(a, b) && (b[|a| + 1..] == bucket || Extends(bucket, b[|a| + 1..])) && end != ""
    ensures skill != "" && a + ":" + (bucket + ":" + skill) == b + ":" + end
  {
    var rest := b[|a| + 1..];
    assert b == a + ":" + rest;
    if rest == bucket {
      skill := end;
    } else {
      var more := rest[|bucket| + 1..];
      assert rest == bucket + ":" + more;
      skill := more + ":" + end;
    }
    assert bucket + ":" + skill == rest + ":" + end;
    assert a + ":" + (rest + ":" + end) == b + ":" + end;
  }

  // ---------------------------------------------------------------------------
  // The controller
  // ---------------------------------------------------------------------------

  function DecisionOf(p: Profile): Decision {
    Decision(p.topK, p.disableSparse, p.disableQuantized, p.reason)
  }

  /** A profile object, updated in place. */
  class ProfileState {
    var topK: real
    var cleanSteps: int
    var disableSparse: bool
    var disableQuantized: bool
    var reason: Reason

    constructor (topK: real)
      ensures Shown() == Profile(topK, 0, false, false, Initial)
    {
      this.topK := topK;
      cleanSteps, disableSparse, disableQuantized, reason := 0, false, false, Initial;
    }

    ghost function Shown(): Profile
      reads this
    {
      Profile(topK, cleanSteps, disableSparse, disableQuantized, reason)
    }

    /** The branches of `update`. */
    method Absorb(c: Config, a: Audit)
      modifies this
      ensures Shown() == Step(c, old(Shown()), Judge(c, a))
    {
      var sparseBad := BadCosine(a.sparseCosine, c.sparseCosineWarn) || BadMae(a.sparseMae, c.sparseMaeWarn);
      var sparseFail := BadCosine(a.sparseCosine, c.sparseCosineFail);
      var quantBad := BadCosine(a.quantCosine, c.quantCosineWarn) || BadMae(a.quantMae, c.quantMaeWarn);
      var quantFail := BadCosine(a.quantCosine, c.quantCosineFail);
      if !a.sparseSuccess || a.fallbackUsed {
        topK := Min(c.maxTopK, topK + c.increase);
        disableSparse := true;
        reason := Failure;
        cleanSteps := 0;
      } else if sparseBad {
        topK := Min(c.maxTopK, topK + c.increase);
        disableSparse := sparseFail;
        reason := SparseDegraded;
        cleanSteps := 0;
      } else if quantBad {
        disableQuantized := quantFail;
        reason := QuantDegraded;
        cleanSteps := 0;
      } else {
        cleanSteps := cleanSteps + 1;
        if cleanSteps >= c.stabilizationSteps {
          topK := Max(c.minTopK, topK - c.decrease);
          disableSparse := false;
          disableQuantized := false;
          reason := Reduced;
          cleanSteps := 0;
        } else {
          reason := Hold;
        }
      }
    }

    method Decide() returns (d: Decision)
      ensures d == DecisionOf(Shown())
      ensures d.topK == topK && d.disableSparse == disableSparse && d.disableQuantized == disableQuantized && d.reason == reason
    {
      return Decision(topK, disableSparse, disableQuantized, reason);
    }
  }

  class AdaptiveSparsityController {
    const config: Config
    var profiles: map<string, ProfileState>

    /** No two keys share a profile object. */
    ghost predicate Valid()
      reads this
    {
      forall k, l :: k in profiles && l in profiles && profiles[k] == profiles[l] ==> k == l
    }

    ghost function View(): Profiles
      reads this, profiles.Values
    {
      map k | k in profiles :: profiles[k].Shown()
    }

    constructor (config: Config)
      ensures Valid() && this.config == config && View() == map[]
    {
      this.config := config;
      profiles := map[];
    }

    method StateFor(key: string) returns (state: ProfileState)
      requires Valid()
      modifies this
      ensures Valid() && View() == Touched(config, old(View()), key)
      ensures key in profiles && profiles[key] == state
      ensures forall k :: k in old(profiles) ==> k in profiles && profiles[k] == old(profiles[k])
      ensures key in old(profiles) || fresh(state)
    {
      if key in profiles {
        return profiles[key];
      }
      state := new ProfileState(config.initialTopK);
      profiles := profiles[key := state];
    }

    method GetDecision(model: Option<string>, layer: Option<string>, skill: Option<string>, seqLen: Option<int>)
      returns (d: Decision)
      requires Valid()
      modifies this
      ensures Valid() && View() == Apply(config, old(View()), Query(ProfileKey(model, layer, skill, seqLen)))
      ensures d == DecisionOf(View()[ProfileKey(model, layer, skill, seqLen)])
    {
      var state := StateFor(ProfileKey(model, layer, skill, seqLen));
      d := state.Decide();
    }

    /** The update of one registered profile object leaves the others alone. */
    method AbsorbInto(key: string, state: ProfileState, a: Audit)
      requires Valid() && key in profiles && profiles[key] == state
      modifies state
      ensures Valid() && View() == old(View())[key := Step(config, old(View())[key], Judge(config, a))]
    {
      assert forall k :: k in profiles && k != key ==> profiles[k] != state;
      state.Absorb(config, a);
    }

    method Update(a: Audit, model: Option<string>, layer: Option<string>, skill: Option<string>, seqLen: Option<int>)
      returns (d: Decision)
      requires Valid()
      modifies this, profiles.Values
      ensures Valid()
      ensures View() == Apply(config, old(View()), Call.Update(ProfileKey(model, layer, skill, seqLen), a))
      ensures d == DecisionOf(View()[ProfileKey(model, layer, skill, seqLen)])
    {
      var key := ProfileKey(model, layer, skill, seqLen);
      var state := StateFor(key);
      AbsorbInto(key, state, a);
      d := state.Decide();
    }
  }
}
