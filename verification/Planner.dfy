/**
 The dependency scheduler of agent_core/planner.py: a plan is a list of steps, each naming the
 ids of the steps it depends on; a step is ready when it is not completed and all it names is.
 */
module Planner {
  import opened Subsequences

  datatype Step = Step(id: string, description: string, dependencies: seq<string>)

  // ---------------------------------------------------------------------------
  // Ready steps and runs
  // ---------------------------------------------------------------------------

  predicate IsReady(s: Step, completed: seq<string>) {
    s.id !in completed && forall d :: d in s.dependencies ==> d in completed
  }

  /** The ready steps, in plan order. */
  function ReadySteps(steps: seq<Step>, completed: seq<string>): seq<Step> {
    if steps == [] then []
    else
      ReadySteps(steps[..|steps| - 1], completed)
      + (if IsReady(steps[|steps| - 1], completed) then [steps[|steps| - 1]] else [])
  }

  function Ids(steps: seq<Step>): (ids: seq<string>)
    ensures |ids| == |steps| && forall i :: 0 <= i < |ids| ==> ids[i] == steps[i].id
  {
    seq(|steps|, i requires 0 <= i < |steps| => steps[i].id)
  }

  /** An execution that starts with nothing completed and only ever executes a ready step. */
  ghost predicate IsRun(steps: seq<Step>, run: seq<Step>) {
    forall i :: 0 <= i < |run| ==> ExecutesReady(steps, run, i)
  }

  ghost predicate ExecutesReady(steps: seq<Step>, run: seq<Step>, i: nat)
    requires i < |run|
  {
    run[i] in ReadySteps(steps, Ids(run[..i]))
  }

  /** A run that no ready step can extend. */
  ghost predicate IsMaximal(steps: seq<Step>, run: seq<Step>) {
    IsRun(steps, run) && ReadySteps(steps, Ids(run)) == []
  }

  ghost predicate UniqueIds(steps: seq<Step>) {
    forall i, j :: 0 <= i < j < |steps| ==> steps[i].id != steps[j].id
  }

  /** Every dependency names an earlier step of the same list. */
  ghost predicate DependsOnEarlier(steps: seq<Step>) {
    forall i :: 0 <= i < |steps| ==> AllIn(steps[i].dependencies, Ids(steps[..i]))
  }

  predicate AllIn(names: seq<string>, ids: seq<string>) {
    forall d :: d in names ==> d in ids
  }

  lemma {:induction false} ReadyMembers(steps: seq<Step>, completed: seq<string>)
    ensures forall s :: s in ReadySteps(steps, completed) <==> s in steps && IsReady(s, completed)
    decreases |steps|
  {
    if steps != [] {
      var front, last := steps[..|steps| - 1], steps[|steps| - 1];
      ReadyMembers(front, completed);
      assert steps == front + [last];
    }
  }

  /** The ready steps are in plan order. */
  lemma {:induction false} ReadyInOrder(steps: seq<Step>, completed: seq<string>)
    ensures IsSubseq(ReadySteps(steps, completed), steps)
    decreases |steps|
  {
    if steps != [] {
      var front, last := steps[..|steps| - 1], steps[|steps| - 1];
      var ready := ReadySteps(front, completed);
      ReadyInOrder(front, completed);
      assert steps == front + [last] && ready + [] == ready;
      if IsReady(last, completed) {
        SubseqAppend(ready, front, last);
      }
    }
  }

  // ---------------------------------------------------------------------------
  // Progress
  // ---------------------------------------------------------------------------

  /** Whatever has been completed, something is ready until every step is. */
  lemma SomethingIsReady(steps: seq<Step>, completed: seq<string>)
    requires DependsOnEarlier(steps)
    ensures ReadySteps(steps, completed) == [] <==> forall i :: 0 <= i < |steps| ==> steps[i].id in completed
  {
    ReadyMembers(steps, completed);
    var ready := ReadySteps(steps, completed);
    assert ready != [] ==> ready[0] in ready;
    if i :| 0 <= i < |steps| && steps[i].id !in completed {
      var k := FirstOpen(steps, completed, i);
      forall d | d in steps[k].dependencies
        ensures d in completed
      {
        var j :| 0 <= j < k && Ids(steps[..k])[j] == d;
        assert steps[j].id == d;
      }
      assert steps[k] in ReadySteps(steps, completed);
    }
  }

  /** The first step that is not completed. */
  lemma {:induction false} FirstOpen(steps: seq<Step>, completed: seq<string>, i: nat) returns (k: nat)
    requires i < |steps| && steps[i].id !in completed
    ensures k <= i && steps[k].id !in completed && forall j :: 0 <= j < k ==> steps[j].id in completed
    decreases i
  {
    if j :| 0 <= j < i && steps[j].id !in completed {
      k := FirstOpen(steps, completed, j);
    } else {
      k := i;
    }
  }

  // ---------------------------------------------------------------------------
  // Every run
  // ---------------------------------------------------------------------------

  lemma ReadyAt(steps: seq<Step>, run: seq<Step>, i: nat)
    requires IsRun(steps, run) && i < |run|
    ensures run[i] in steps && IsReady(run[i], Ids(run[..i]))
  {
    assert ExecutesReady(steps, run, i);
    ReadyMembers(steps, Ids(run[..i]));
  }

  lemma RunInPlan(steps: seq<Step>, run: seq<Step>)
    requires IsRun(steps, run)
    ensures forall x :: x in run ==> x in steps
  {
    forall i | 0 <= i < |run|
      ensures run[i] in steps
    {
      ReadyAt(steps, run, i);
    }
  }

  /** A run executes steps of the plan, each at most once and after all it depends on. */
  lemma RunIsOrdered(steps: seq<Step>, run: seq<Step>)
    requires IsRun(steps, run)
    ensures forall i :: 0 <= i < |run| ==> run[i] in steps
    ensures UniqueIds(run) && DependsOnEarlier(run)
  {
    forall i | 0 <= i < |run|
      ensures run[i] in steps && IsReady(run[i], Ids(run[..i]))
    {
      ReadyAt(steps, run, i);
    }
    forall i, j | 0 <= i < j < |run|
      ensures run[i].id != run[j].id
    {
      assert Ids(run[..j])[i] == run[i].id;
    }
  }

  ghost predicate NoDuplicates(s: seq<Step>) {
    forall i, j :: 0 <= i < j < |s| ==> s[i] != s[j]
  }

  lemma {:induction false} CountOnce(s: seq<Step>, x: Step)
    requires NoDuplicates(s)
    ensures multiset(s)[x] == if x in s then 1 else 0
    decreases |s|
  {
    if s != [] {
      var front, last := s[..|s| - 1], s[|s| - 1];
      CountOnce(front, x);
      assert s == front + [last];
    }
  }

  /** What a run executes is part of the plan, so no run is longer than the plan. */
  lemma RunIsBounded(steps: seq<Step>, run: seq<Step>)
    requires UniqueIds(steps) && IsRun(steps, run)
    ensures multiset(run) <= multiset(steps) && |run| <= |steps|
  {
    RunIsOrdered(steps, run);
    forall x
      ensures multiset(run)[x] <= multiset(steps)[x]
    {
      CountOnce(run, x);
      CountOnce(steps, x);
    }
    assert multiset(steps) == multiset(run) + (multiset(steps) - multiset(run));
  }

  /** Whichever ready steps are chosen, a maximal run executes everything any other run does,
      so all maximal runs execute the same steps. No assumption is made on the dependencies:
      they may name unknown steps or form cycles. */
  lemma {:induction false} MaximalRunsAgree(steps: seq<Step>, full: seq<Step>, run: seq<Step>, i: nat)
    requires UniqueIds(steps) && IsMaximal(steps, full) && IsRun(steps, run) && i <= |run|
    ensures forall k :: 0 <= k < i ==> run[k] in full
    decreases i
  {
    if i > 0 {
      MaximalRunsAgree(steps, full, run, i - 1);
      RunInPlan(steps, full);
      ReadyAt(steps, run, i - 1);
      NextStepInMaximal(steps, full, run[..i - 1], run[i - 1]);
    }
  }

  /** A step that is ready after some steps of a maximal run is in that run. */
  lemma NextStepInMaximal(steps: seq<Step>, full: seq<Step>, done: seq<Step>, s: Step)
    requires UniqueIds(steps) && ReadySteps(steps, Ids(full)) == [] && forall x :: x in full ==> x in steps
    requires s in steps && IsReady(s, Ids(done)) && forall k :: 0 <= k < |done| ==> done[k] in full
    ensures s in full
  {
    ReadyMembers(steps, Ids(full));
    forall d | d in s.dependencies
      ensures d in Ids(full)
    {
      var j :| 0 <= j < |done| && done[j].id == d;
      IdOfMember(full, done[j]);
    }
    assert !IsReady(s, Ids(full));
    var m :| 0 <= m < |full| && full[m].id == s.id;
    assert full[m] in steps;
  }

  lemma IdOfMember(steps: seq<Step>, s: Step)
    requires s in steps
    ensures s.id in Ids(steps)
  {
    var m :| 0 <= m < |steps| && steps[m] == s;
    assert Ids(steps)[m] == s.id;
  }

  /** A plan that can be carried out: some run executes every step. */
  ghost predicate Executable(steps: seq<Step>) {
    exists run :: IsRun(steps, run) && multiset(run) == multiset(steps)
  }

  lemma SameElements(s: seq<Step>, t: seq<Step>)
    requires multiset(s) == multiset(t)
    ensures |s| == |t| && forall x :: x in s <==> x in t
  {
    forall x
      ensures x in s <==> x in t
    {
      assert x in s <==> x in multiset(s);
      assert x in t <==> x in multiset(t);
    }
    assert |multiset(s)| == |s| && |multiset(t)| == |t|;
  }

  lemma UniqueSteps(steps: seq<Step>, t: seq<Step>)
    requires UniqueIds(steps) && NoDuplicates(t) && forall x :: x in t <==> x in steps
    ensures multiset(t) == multiset(steps)
  {
    forall x
      ensures multiset(t)[x] == multiset(steps)[x]
    {
      CountOnce(t, x);
      CountOnce(steps, x);
    }
  }

  /** If a plan can be carried out at all, every maximal run carries it out. */
  lemma ExecutableRunsComplete(steps: seq<Step>, full: seq<Step>)
    requires UniqueIds(steps) && Executable(steps) && IsMaximal(steps, full)
    ensures multiset(full) == multiset(steps) && |full| == |steps|
  {
    var run :| IsRun(steps, run) && multiset(run) == multiset(steps);
    SameElements(run, steps);
    MaximalRunsAgree(steps, full, run, |run|);
    RunIsOrdered(steps, full);
    UniqueSteps(steps, full);
    SameElements(full, steps);
  }

  /** A plan can be carried out exactly when its steps can be arranged so that each depends on
      earlier ones only: no unknown names, no cycles. */
  lemma ExecutableIffArrangeable(steps: seq<Step>)
    requires UniqueIds(steps)
    ensures Executable(steps) <==> exists t :: multiset(t) == multiset(steps) && DependsOnEarlier(t)
  {
    if Executable(steps) {
      var run :| IsRun(steps, run) && multiset(run) == multiset(steps);
      RunIsOrdered(steps, run);
    }
    if t :| multiset(t) == multiset(steps) && DependsOnEarlier(t) {
      ArrangedIsRun(steps, t);
    }
  }

  lemma ArrangedIsRun(steps: seq<Step>, t: seq<Step>)
    requires UniqueIds(steps) && multiset(t) == multiset(steps) && DependsOnEarlier(t)
    ensures IsRun(steps, t)
  {
    SameElements(t, steps);
    forall i | 0 <= i < |t|
      ensures ExecutesReady(steps, t, i)
    {
      ReadyMembers(steps, Ids(t[..i]));
      if j :| 0 <= j < i && Ids(t[..i])[j] == t[i].id {
        OnceOnly(steps, t, j, i);
        assert false;
      }
      assert t[i] in steps;
    }
  }

  lemma OnceOnly(steps: seq<Step>, t: seq<Step>, i: nat, j: nat)
    requires UniqueIds(steps) && multiset(t) == multiset(steps) && i < j < |t|
    ensures t[i].id != t[j].id
  {
    SameElements(t, steps);
    assert t[i] in steps && t[j] in steps;
    if t[i] == t[j] {
      CountTwice(t, i, j);
      CountOnce(steps, t[i]);
    }
  }

  lemma CountTwice(t: seq<Step>, i: nat, j: nat)
    requires i < j < |t| && t[i] == t[j]
    ensures multiset(t)[t[i]] >= 2
  {
    var u, v := t[..j], t[j..];
    assert t == u + v && t[i] == u[i] && t[i] == v[0];
    assert t[i] in multiset(u) && t[i] in multiset(v);
  }

  /** When every dependency names an earlier step, every maximal run executes each step of the
      plan exactly once. */
  lemma EarlierDependenciesComplete(steps: seq<Step>, run: seq<Step>)
    requires UniqueIds(steps) && DependsOnEarlier(steps) && IsMaximal(steps, run)
    ensures multiset(run) == multiset(steps) && |run| == |steps|
    ensures UniqueIds(run) && DependsOnEarlier(run)
  {
    ArrangedIsRun(steps, steps);
    ExecutableRunsComplete(steps, run);
    RunIsOrdered(steps, run);
  }

  // ---------------------------------------------------------------------------
  // Chains
  // ---------------------------------------------------------------------------

  /** Each step depends on the one before it and on nothing else. */
  ghost predicate IsChain(steps: seq<Step>) {
    forall k :: 0 <= k < |steps| ==> IsLink(steps, k)
  }

  predicate IsLink(steps: seq<Step>, k: nat)
    requires k < |steps|
  {
    steps[k].dependencies == if k == 0 then [] else [steps[k - 1].id]
  }

  /** A chain has one execution order: every run is a prefix of the plan. */
  lemma {:induction false} ChainRunsInOrder(steps: seq<Step>, run: seq<Step>, n: nat)
    requires UniqueIds(steps) && IsChain(steps) && IsRun(steps, run) && n <= |run|
    ensures n <= |steps| && run[..n] == steps[..n]
    decreases n
  {
    if n > 0 {
      ChainRunsInOrder(steps, run, n - 1);
      ChainNext(steps, run, n - 1);
    }
  }

  lemma ChainNext(steps: seq<Step>, run: seq<Step>, n: nat)
    requires UniqueIds(steps) && IsChain(steps) && IsRun(steps, run)
    requires n < |run| && n <= |steps| && run[..n] == steps[..n]
    ensures n < |steps| && run[n] == steps[n]
  {
    ReadyAt(steps, run, n);
    OnlyNextIsReady(steps, n, run[n], Ids(run[..n]));
  }

  /** After the first n steps of a chain only the next one is ready. */
  lemma OnlyNextIsReady(steps: seq<Step>, n: nat, s: Step, done: seq<string>)
    requires UniqueIds(steps) && IsChain(steps) && n <= |steps| && done == Ids(steps[..n])
    requires s in steps && IsReady(s, done)
    ensures n < |steps| && s == steps[n]
  {
    var k :| 0 <= k < |steps| && steps[k] == s;
    IdsOfPrefix(steps, n, k, done);
    if k > 0 {
      IdsOfPrefix(steps, n, k - 1, done);
      ChainDependency(steps, k);
    }
  }

  lemma ChainDependency(steps: seq<Step>, k: nat)
    requires IsChain(steps) && 0 < k < |steps|
    ensures steps[k - 1].id in steps[k].dependencies
  {
    assert IsLink(steps, k);
  }

  lemma IdsOfPrefix(steps: seq<Step>, n: nat, j: nat, done: seq<string>)
    requires UniqueIds(steps) && n <= |steps| && j < |steps| && done == Ids(steps[..n])
    ensures steps[j].id in done <==> j < n
  {
    if j < n {
      assert done[j] == steps[j].id;
    }
  }

  /** The only maximal run of a chain is the plan itself, first step to last. */
  lemma ChainHasOneRun(steps: seq<Step>, run: seq<Step>)
    requires UniqueIds(steps) && IsChain(steps)
    ensures IsMaximal(steps, run) <==> run == steps
  {
    ChainDependsOnEarlier(steps);
    if IsMaximal(steps, run) {
      EarlierDependenciesComplete(steps, run);
      ChainRunsInOrder(steps, run, |run|);
      assert run[..|run|] == run && steps[..|run|] == steps;
    }
    ArrangedIsRun(steps, steps);
    forall i | 0 <= i < |steps|
      ensures steps[i].id in Ids(steps)
    {
      IdOfMember(steps, steps[i]);
    }
    SomethingIsReady(steps, Ids(steps));
  }

  /** Adding a step whose dependencies are ids of steps already in the plan keeps them earlier. */
  lemma AddStepOnEarlier(steps: seq<Step>, s: Step)
    requires DependsOnEarlier(steps) && AllIn(s.dependencies, Ids(steps))
    ensures DependsOnEarlier(steps + [s])
  {
    var t := steps + [s];
    forall i | 0 <= i < |t|
      ensures AllIn(t[i].dependencies, Ids(t[..i]))
    {
      assert t[..i] == steps[..i];
      assert i == |steps| ==> t[..i] == steps;
    }
  }

  lemma {:induction false} ChainDependsOnEarlier(steps: seq<Step>)
    requires IsChain(steps)
    ensures DependsOnEarlier(steps)
    decreases |steps|
  {
    if steps != [] {
      var n := |steps| - 1;
      var front, last := steps[..n], steps[n];
      assert IsLink(steps, n);
      forall k | 0 <= k < n
        ensures IsLink(front, k)
      {
        assert IsLink(steps, k);
      }
      ChainDependsOnEarlier(front);
      if n > 0 {
        IdOfMember(front, front[n - 1]);
      }
      AddStepOnEarlier(front, last);
      assert steps == front + [last];
    }
  }

  /** A step that names an unknown step is never executed. */
  lemma UnknownDependencyNeverRuns(steps: seq<Step>, run: seq<Step>, s: Step, d: string)
    requires IsRun(steps, run) && d in s.dependencies && forall t :: t in steps ==> t.id != d
    ensures s !in run
  {
    RunIsOrdered(steps, run);
    forall i | 0 <= i < |run|
      ensures run[i] != s
    {
      assert forall j :: 0 <= j < i ==> run[j] in steps && Ids(run[..i])[j] != d;
    }
  }

  // ---------------------------------------------------------------------------
  // The plan object
  // ---------------------------------------------------------------------------

  class Plan {
    var steps: seq<Step>

    constructor ()
      ensures steps == []
    {
      steps := [];
    }

    /** A step without a description is refused. */
    method AddStep(id: string, description: string, dependencies: seq<string>) returns (ok: bool)
      modifies this
      ensures ok <==> |description| > 0
      ensures ok ==> steps == old(steps) + [Step(id, description, dependencies)]
      ensures !ok ==> steps == old(steps)
    {
      if description == "" {
        return false;
      }
      steps := steps + [Step(id, description, dependencies)];
      return true;
    }

    method GetReadySteps(completed: seq<string>) returns (ready: seq<Step>)
      ensures ready == ReadySteps(steps, completed)
      ensures IsSubseq(ready, steps)
      ensures forall s :: s in ready <==> s in steps && s.id !in completed && forall d :: d in s.dependencies ==> d in completed
    {
      ReadyInOrder(steps, completed);
      ReadyMembers(steps, completed);
      ready := [];
      var i := 0;
      while i < |steps|
        invariant 0 <= i <= |steps|
        invariant ready == ReadySteps(steps[..i], completed)
      {
        assert steps[..i + 1][..i] == steps[..i];
        if steps[i].id !in completed && forall d :: d in steps[i].dependencies ==> d in completed {
          ready := ready + [steps[i]];
        }
        i := i + 1;
      }
      assert steps[..|steps|] == steps;
    }
  }

  /** The steps are a chain with the first n of the ids. */
  ghost predicate IsChainOf(steps: seq<Step>, ids: seq<string>, n: nat) {
    n <= |ids| && Ids(steps) == ids[..n] && IsChain(steps)
  }

  lemma ChainGrows(steps: seq<Step>, now: seq<Step>, ids: seq<string>, n: nat) returns (same: seq<Step>)
    requires IsChainOf(steps, ids, n) && n < |ids| && |now| == n + 1 && now[..n] == steps && now[n].id == ids[n]
    requires now[n].dependencies == if n == 0 then [] else [ids[n - 1]]
    ensures same == now && IsChainOf(now, ids, n + 1)
  {
    same := now;
    assert Ids(now) == Ids(steps) + [ids[n]];
    forall k | 0 <= k < n
      ensures IsLink(now, k)
    {
      assert IsLink(steps, k) && now[k] == steps[k];
    }
    assert n > 0 ==> Ids(steps)[n - 1] == ids[n - 1];
  }

  /** What each step of the repair plan is for: look, install, check, then plan, patch and check
      again, and keep the results. */
  ghost predicate AreRepairSteps(steps: seq<Step>) {
    && |steps| == 9
    && steps[0].description == "extract" && steps[1].description == "detect" && steps[2].description == "install"
    && steps[3].description == "compile" && steps[4].description == "test" && steps[5].description == "plan"
    && steps[6].description == "apply" && steps[7].description == "retest" && steps[8].description == "store"
  }

  /** The nine steps of the repair plan, each depending on the one before.  The descriptions
      are shortened. */
  method AddRepairSteps(plan: Plan, ids: seq<string>)
    requires plan.steps == [] && |ids| == 9
    modifies plan
    ensures IsChainOf(plan.steps, ids, 9)
    ensures AreRepairSteps(plan.steps)
  {
    ghost var s := plan.steps;
    var ok := plan.AddStep(ids[0], "extract", []);
    s := ChainGrows(s, plan.steps, ids, 0);
    ok := plan.AddStep(ids[1], "detect", [plan.steps[0].id]);
    s := ChainGrows(s, plan.steps, ids, 1);
    ok := plan.AddStep(ids[2], "install", [plan.steps[1].id]);
    s := ChainGrows(s, plan.steps, ids, 2);
    ok := plan.AddStep(ids[3], "compile", [plan.steps[2].id]);
    s := ChainGrows(s, plan.steps, ids, 3);
    ok := plan.AddStep(ids[4], "test", [plan.steps[3].id]);
    s := ChainGrows(s, plan.steps, ids, 4);
    ok := plan.AddStep(ids[5], "plan", [plan.steps[4].id]);
    s := ChainGrows(s, plan.steps, ids, 5);
    ok := plan.AddStep(ids[6], "apply", [plan.steps[5].id]);
    s := ChainGrows(s, plan.steps, ids, 6);
    ok := plan.AddStep(ids[7], "retest", [plan.steps[6].id]);
    s := ChainGrows(s, plan.steps, ids, 7);
    ok := plan.AddStep(ids[8], "store", [plan.steps[7].id]);
    s := ChainGrows(s, plan.steps, ids, 8);
  }

  /** The repair plan is a chain, so it has exactly one execution order. */
  method PlanRepoRepairTask(ids: seq<string>) returns (plan: Plan)
    requires |ids| == 9 && forall i, j :: 0 <= i < j < |ids| ==> ids[i] != ids[j]
    ensures fresh(plan) && Ids(plan.steps) == ids && IsChain(plan.steps) && AreRepairSteps(plan.steps)
    ensures forall run :: IsMaximal(plan.steps, run) <==> run == plan.steps
  {
    plan := new Plan();
    AddRepairSteps(plan, ids);
    assert ids[..9] == ids;
    DistinctIds(plan.steps, ids);
    OneExecutionOrder(plan.steps);
  }

  lemma DistinctIds(steps: seq<Step>, ids: seq<string>)
    requires Ids(steps) == ids && forall i, j :: 0 <= i < j < |ids| ==> ids[i] != ids[j]
    ensures UniqueIds(steps)
  {
    assert forall i :: 0 <= i < |steps| ==> steps[i].id == ids[i];
  }

  lemma OneExecutionOrder(steps: seq<Step>)
    requires UniqueIds(steps) && IsChain(steps)
    ensures forall run :: IsMaximal(steps, run) <==> run == steps
  {
    forall run
      ensures IsMaximal(steps, run) <==> run == steps
    {
      ChainHasOneRun(steps, run);
    }
  }
}
