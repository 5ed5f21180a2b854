/**
 The task registry of agent_core/orchestrator.py as a value: tasks in creation order, each with
 its parent and its list of subtasks, and the list of root tasks. The operations are functions
 here; module TaskRegistry holds the object that performs them in place.
 */
module TaskForest {
  import opened Sequences
  import opened Wrappers

  datatype Status = Pending | InProgress | Completed | Failed | Cancelled

  datatype Task = Task(parent: Option<string>, subtasks: seq<string>, status: Status, error: Option<string>)

  /** order lists the keys of tasks as the dictionary does, oldest first. */
  datatype Forest = Forest(tasks: map<string, Task>, order: seq<string>, roots: seq<string>)

  const EMPTY := Forest(map[], [], [])

  /** An absent parent and an empty one are both false in a condition. */
  predicate NamesParent(parent: Option<string>) {
    parent.Some? && parent.value != ""
  }

  predicate Parentless(f: Forest, id: string)
    requires id in f.tasks
  {
    !NamesParent(f.tasks[id].parent)
  }

  // ---------------------------------------------------------------------------
  // Operations
  // ---------------------------------------------------------------------------

  function Insert(f: Forest, id: string, parent: Option<string>): Forest {
    f.(tasks := f.tasks[id := Task(parent, [], Pending, None)], order := f.order + [id])
  }

  function AddChild(f: Forest, parent: string, id: string): Forest
    requires parent in f.tasks
  {
    var p := f.tasks[parent];
    f.(tasks := f.tasks[parent := p.(subtasks := p.subtasks + [id])])
  }

  function Listed(g: Forest, id: string, parent: Option<string>): Forest {
    if !NamesParent(parent) then g.(roots := g.roots + [id])
    else if parent.value in g.tasks then AddChild(g, parent.value, id)
    else g
  }

  function Create(f: Forest, id: string, parent: Option<string>): Forest {
    Listed(Insert(f, id, parent), id, parent)
  }

  /** The status after a transition, or None when the transition is refused. */
  datatype Transition = Start | Complete(success: bool) | Fail(message: string) | Cancel

  function After(s: Status, t: Transition): Option<Status> {
    match t
    case Start => if s == Pending then Some(InProgress) else None
    case Complete(success) => if s != InProgress then None else Some(if success then Completed else Failed)
    case Fail(_) => Some(Failed)
    case Cancel => if s == Completed || s == Failed then None else Some(Cancelled)
  }

  predicate Accepted(f: Forest, id: string, t: Transition) {
    id in f.tasks && After(f.tasks[id].status, t).Some?
  }

  function Move(f: Forest, id: string, t: Transition): Forest {
    if !Accepted(f, id, t) then f
    else
      var task := f.tasks[id];
      var error := if t.Fail? then Some(t.message) else task.error;
      f.(tasks := f.tasks[id := task.(status := After(task.status, t).value, error := error)])
  }

  datatype Operation = CreateTask(id: string, parent: Option<string>) | MoveTask(id: string, transition: Transition) | Reset

  function Apply(f: Forest, op: Operation): Forest {
    match op
    case CreateTask(id, parent) => Create(f, id, parent)
    case MoveTask(id, t) => Move(f, id, t)
    case Reset => EMPTY
  }

  /** A generated id: not empty, not in use, and never named as a parent. */
  ghost predicate Fresh(f: Forest, id: string, parent: Option<string>) {
    && id != "" && id !in f.tasks && parent != Some(id)
    && forall x :: x in f.tasks ==> f.tasks[x].parent != Some(id)
  }

  ghost predicate Possible(f: Forest, op: Operation) {
    op.CreateTask? ==> Fresh(f, op.id, op.parent)
  }

  /** The forests visited by a sequence of operations. */
  ghost predicate IsRun(run: seq<Forest>, ops: seq<Operation>) {
    && |run| == |ops| + 1
    && forall i :: 0 <= i < |ops| ==> Possible(run[i], ops[i]) && run[i + 1] == Apply(run[i], ops[i])
  }

  // ---------------------------------------------------------------------------
  // The forest invariant
  // ---------------------------------------------------------------------------

  ghost predicate NoDuplicates<T(!new)>(s: seq<T>) {
    forall i, j :: 0 <= i < j < |s| ==> s[i] != s[j]
  }

  ghost predicate Ordered(f: Forest) {
    && NoDuplicates(f.order)
    && (forall x :: x in f.order <==> x in f.tasks)
    && "" !in f.tasks
  }

  ghost function Position(f: Forest, id: string): (i: nat)
    requires Ordered(f) && id in f.tasks
    ensures i < |f.order| && f.order[i] == id
  {
    var i :| 0 <= i < |f.order| && f.order[i] == id;
    i
  }

  /** Every listed subtask is a later task that names its lister as parent. */
  ghost predicate ListedAreChildren(f: Forest)
    requires Ordered(f)
  {
    forall p, c :: ListedIsChild(f, p, c)
  }

  ghost predicate ListedIsChild(f: Forest, p: string, c: string)
    requires Ordered(f)
  {
    p in f.tasks && c in f.tasks[p].subtasks ==>
      c in f.tasks && f.tasks[c].parent == Some(p) && Position(f, p) < Position(f, c)
  }

  /** Every task whose parent is registered is listed there. */
  ghost predicate ChildrenAreListed(f: Forest) {
    forall c :: ChildIsListed(f, c)
  }

  ghost predicate ChildIsListed(f: Forest, c: string) {
    c in f.tasks && NamesParent(f.tasks[c].parent) && f.tasks[c].parent.value in f.tasks ==>
      c in f.tasks[f.tasks[c].parent.value].subtasks
  }

  ghost predicate ListedOnce(f: Forest) {
    forall p :: p in f.tasks ==> NoDuplicates(f.tasks[p].subtasks)
  }

  function Filter(s: seq<string>, keep: string -> bool): seq<string> {
    if s == [] then []
    else Filter(s[..|s| - 1], keep) + (if keep(s[|s| - 1]) then [s[|s| - 1]] else [])
  }

  function RootTest(f: Forest): string -> bool {
    x => x in f.tasks && Parentless(f, x)
  }

  /** The roots are the parentless tasks in creation order. */
  ghost predicate RootsInOrder(f: Forest) {
    f.roots == Filter(f.order, RootTest(f))
  }

  /** All that walking down the subtasks needs. */
  ghost predicate Layered(f: Forest) {
    Ordered(f) && ListedAreChildren(f)
  }

  ghost predicate IsForest(f: Forest) {
    Layered(f) && ChildrenAreListed(f) && ListedOnce(f) && RootsInOrder(f)
  }

  lemma PositionUnique(f: Forest, id: string, i: nat)
    requires Ordered(f) && i < |f.order| && f.order[i] == id
    ensures id in f.tasks && Position(f, id) == i
  {
  }

  lemma {:induction false} FilterSame(s: seq<string>, p: string -> bool, q: string -> bool)
    requires forall x :: x in s ==> p(x) == q(x)
    ensures Filter(s, p) == Filter(s, q)
    decreases |s|
  {
    if s != [] {
      var t := s[..|s| - 1];
      assert forall x :: x in t ==> x in s;
      FilterSame(t, p, q);
    }
  }

  lemma {:induction false} FilterMembers(s: seq<string>, p: string -> bool)
    ensures forall x :: x in Filter(s, p) <==> x in s && p(x)
    decreases |s|
  {
    if s != [] {
      var t, last := s[..|s| - 1], s[|s| - 1];
      FilterMembers(t, p);
      assert s == t + [last];
    }
  }

  lemma FilterSnoc(s: seq<string>, x: string, p: string -> bool)
    ensures Filter(s + [x], p) == Filter(s, p) + (if p(x) then [x] else [])
  {
    var t := s + [x];
    assert t[..|t| - 1] == s;
  }

  // ---------------------------------------------------------------------------
  // Every operation keeps it
  // ---------------------------------------------------------------------------

  lemma InsertOrdered(f: Forest, id: string, parent: Option<string>)
    requires Ordered(f) && Fresh(f, id, parent)
    ensures var g := Insert(f, id, parent);
            Ordered(g) && Position(g, id) == |f.order| && forall x :: x in f.tasks ==> x in g.tasks && Position(g, x) == Position(f, x)
  {
    var g := Insert(f, id, parent);
    assert Ordered(g);
    PositionUnique(g, id, |f.order|);
    forall x | x in f.tasks
      ensures Position(g, x) == Position(f, x)
    {
      PositionUnique(g, x, Position(f, x));
    }
  }

  lemma InsertRoots(f: Forest, id: string, parent: Option<string>)
    requires Ordered(f) && RootsInOrder(f) && Fresh(f, id, parent)
    ensures var g := Insert(f, id, parent);
            f.roots + (if NamesParent(parent) then [] else [id]) == Filter(g.order, RootTest(g))
  {
    var g := Insert(f, id, parent);
    FilterSnoc(f.order, id, RootTest(g));
    OldRootsStay(f, id, parent);
    assert RootTest(g)(id) == !NamesParent(parent);
  }

  lemma OldRootsStay(f: Forest, id: string, parent: Option<string>)
    requires Ordered(f) && id !in f.tasks
    ensures Filter(f.order, RootTest(Insert(f, id, parent))) == Filter(f.order, RootTest(f))
  {
    var g := Insert(f, id, parent);
    forall x | x in f.order
      ensures RootTest(f)(x) == RootTest(g)(x)
    {
      assert x in f.tasks && g.tasks[x] == f.tasks[x];
    }
    FilterSame(f.order, RootTest(f), RootTest(g));
  }

  /** A change that touches neither order nor parents keeps positions and roots. */
  lemma SameShape(f: Forest, g: Forest)
    requires Ordered(f) && g.order == f.order && g.tasks.Keys == f.tasks.Keys
    requires forall x :: x in f.tasks ==> g.tasks[x].parent == f.tasks[x].parent
    ensures Ordered(g) && forall x :: x in f.tasks ==> Position(g, x) == Position(f, x)
    ensures Filter(g.order, RootTest(g)) == Filter(f.order, RootTest(f))
  {
    forall x | x in f.tasks
      ensures Position(g, x) == Position(f, x)
    {
      PositionUnique(g, x, Position(f, x));
    }
    FilterSame(f.order, RootTest(f), RootTest(g));
  }

  /** Every task but one whose parent is registered is listed there. */
  ghost predicate OthersAreListed(f: Forest, id: string) {
    forall c :: c != id ==> ChildIsListed(f, c)
  }

  lemma InsertListed(f: Forest, id: string, parent: Option<string>)
    requires Ordered(f) && ListedAreChildren(f) && Fresh(f, id, parent)
    ensures var g := Insert(f, id, parent); Ordered(g) && ListedAreChildren(g)
    ensures forall p :: p in f.tasks ==> id !in f.tasks[p].subtasks
  {
    var g := Insert(f, id, parent);
    InsertOrdered(f, id, parent);
    forall p, c
      ensures ListedIsChild(g, p, c)
    {
      assert ListedIsChild(f, p, c);
    }
    forall p | p in f.tasks
      ensures id !in f.tasks[p].subtasks
    {
      assert ListedIsChild(f, p, id);
    }
  }

  lemma InsertOthersListed(f: Forest, id: string, parent: Option<string>)
    requires ChildrenAreListed(f) && Fresh(f, id, parent)
    ensures OthersAreListed(Insert(f, id, parent), id)
  {
    var g := Insert(f, id, parent);
    forall c | c != id
      ensures ChildIsListed(g, c)
    {
      assert ChildIsListed(f, c);
    }
  }

  lemma InsertKeepsLists(f: Forest, id: string, parent: Option<string>)
    requires IsForest(f) && Fresh(f, id, parent)
    ensures var g := Insert(f, id, parent);
            && Ordered(g) && ListedAreChildren(g) && ListedOnce(g) && OthersAreListed(g, id)
            && forall p :: p in g.tasks ==> id !in g.tasks[p].subtasks
  {
    InsertListed(f, id, parent);
    InsertOthersListed(f, id, parent);
  }

  lemma AddChildListed(g: Forest, p: string, id: string)
    requires Ordered(g) && ListedAreChildren(g)
    requires p in g.tasks && id in g.tasks && g.tasks[id].parent == Some(p) && Position(g, p) < Position(g, id)
    ensures var h := AddChild(g, p, id); Ordered(h) && ListedAreChildren(h)
  {
    var h := AddChild(g, p, id);
    SameShape(g, h);
    forall q, c
      ensures ListedIsChild(h, q, c)
    {
      assert ListedIsChild(g, q, c);
    }
  }

  lemma AddChildCompletes(g: Forest, p: string, id: string)
    requires OthersAreListed(g, id) && p in g.tasks && id in g.tasks && g.tasks[id].parent == Some(p)
    ensures ChildrenAreListed(AddChild(g, p, id))
  {
    var h := AddChild(g, p, id);
    var was, now := g.tasks[p].subtasks, h.tasks[p].subtasks;
    assert now == was + [id] && now[|was|] == id;
    forall c
      ensures ChildIsListed(h, c)
    {
      assert c != id ==> ChildIsListed(g, c);
    }
  }

  lemma AddChildOnce(g: Forest, p: string, id: string)
    requires ListedOnce(g) && p in g.tasks && id !in g.tasks[p].subtasks
    ensures ListedOnce(AddChild(g, p, id))
  {
    var h := AddChild(g, p, id);
    assert forall x :: x in g.tasks && x != p ==> h.tasks[x] == g.tasks[x];
    assert NoDuplicates(h.tasks[p].subtasks);
  }

  /** g differs from f in statuses, error messages and roots at most. */
  ghost predicate SameLists(f: Forest, g: Forest) {
    && g.order == f.order && g.tasks.Keys == f.tasks.Keys
    && forall x :: x in f.tasks ==> g.tasks[x].parent == f.tasks[x].parent && g.tasks[x].subtasks == f.tasks[x].subtasks
  }

  lemma SameListsListed(f: Forest, g: Forest)
    requires Ordered(f) && ListedAreChildren(f) && ListedOnce(f) && SameLists(f, g)
    ensures Ordered(g) && ListedAreChildren(g) && ListedOnce(g)
  {
    SameShape(f, g);
    forall p, c
      ensures ListedIsChild(g, p, c)
    {
      assert ListedIsChild(f, p, c);
    }
  }

  lemma SameListsComplete(f: Forest, g: Forest)
    requires ChildrenAreListed(f) && SameLists(f, g)
    ensures ChildrenAreListed(g)
  {
    forall c
      ensures ChildIsListed(g, c)
    {
      assert ChildIsListed(f, c);
    }
  }

  lemma InsertCompletes(f: Forest, id: string, parent: Option<string>)
    requires OthersAreListed(Insert(f, id, parent), id)
    requires NamesParent(parent) ==> parent.value !in Insert(f, id, parent).tasks
    ensures ChildrenAreListed(Insert(f, id, parent))
  {
    var g := Insert(f, id, parent);
    forall c
      ensures ChildIsListed(g, c)
    {
      assert c != id ==> ChildIsListed(g, c);
    }
  }

  lemma CreateBelow(f: Forest, id: string, p: string)
    requires IsForest(f) && Fresh(f, id, Some(p)) && p != "" && p in f.tasks
    ensures IsForest(Create(f, id, Some(p)))
  {
    var g := Insert(f, id, Some(p));
    InsertOrdered(f, id, Some(p));
    InsertKeepsLists(f, id, Some(p));
    CreateBelowRoots(f, id, p);
    AddChildListed(g, p, id);
    AddChildCompletes(g, p, id);
    AddChildOnce(g, p, id);
  }

  lemma CreateBelowRoots(f: Forest, id: string, p: string)
    requires Ordered(f) && RootsInOrder(f) && Fresh(f, id, Some(p)) && p != "" && p in f.tasks
    ensures RootsInOrder(Create(f, id, Some(p)))
  {
    InsertOrdered(f, id, Some(p));
    InsertRoots(f, id, Some(p));
    SameShape(Insert(f, id, Some(p)), Create(f, id, Some(p)));
  }

  lemma CreateOnTop(f: Forest, id: string, parent: Option<string>)
    requires IsForest(f) && Fresh(f, id, parent) && (NamesParent(parent) ==> parent.value !in f.tasks)
    ensures IsForest(Create(f, id, parent))
  {
    var g, h := Insert(f, id, parent), Create(f, id, parent);
    InsertKeepsLists(f, id, parent);
    InsertCompletes(f, id, parent);
    SameListsListed(g, h);
    SameListsComplete(g, h);
    CreateOnTopRoots(f, id, parent);
  }

  lemma CreateOnTopRoots(f: Forest, id: string, parent: Option<string>)
    requires Ordered(f) && RootsInOrder(f) && Fresh(f, id, parent) && (NamesParent(parent) ==> parent.value !in f.tasks)
    ensures RootsInOrder(Create(f, id, parent))
  {
    InsertOrdered(f, id, parent);
    InsertRoots(f, id, parent);
    SameShape(Insert(f, id, parent), Create(f, id, parent));
  }

  lemma CreateKeepsForest(f: Forest, id: string, parent: Option<string>)
    requires IsForest(f) && Fresh(f, id, parent)
    ensures IsForest(Create(f, id, parent))
  {
    if NamesParent(parent) && parent.value in f.tasks {
      CreateBelow(f, id, parent.value);
    } else {
      CreateOnTop(f, id, parent);
    }
  }

  lemma MoveKeepsForest(f: Forest, id: string, t: Transition)
    requires IsForest(f)
    ensures IsForest(Move(f, id, t))
  {
    var g := Move(f, id, t);
    SameShape(f, g);
    SameListsListed(f, g);
    SameListsComplete(f, g);
  }

  lemma ApplyKeepsForest(f: Forest, op: Operation)
    requires IsForest(f) && Possible(f, op)
    ensures IsForest(Apply(f, op))
  {
    match op
    case CreateTask(id, parent) => CreateKeepsForest(f, id, parent);
    case MoveTask(id, t) => MoveKeepsForest(f, id, t);
    case Reset => EmptyIsForest();
  }

  lemma EmptyIsForest()
    ensures IsForest(EMPTY)
  {
  }

  /** Tasks form a forest in every state reached by the operations from a new orchestrator. */
  lemma {:induction false} ForestInEveryState(run: seq<Forest>, ops: seq<Operation>, i: nat)
    requires IsRun(run, ops) && run[0] == EMPTY && i <= |ops|
    ensures IsForest(run[i])
    decreases i
  {
    if i == 0 {
      EmptyIsForest();
    } else {
      ForestInEveryState(run, ops, i - 1);
      ApplyKeepsForest(run[i - 1], ops[i - 1]);
    }
  }

  /** In every state of every run, the roots are the tasks created without a parent or with an empty
      one, and a task is listed under exactly the task it names. */
  lemma RootsAndSubtasks(run: seq<Forest>, ops: seq<Operation>, i: nat, p: string, x: string)
    requires IsRun(run, ops) && run[0] == EMPTY && i <= |ops|
    ensures var f := run[i];
            && (x in f.roots <==> x in f.tasks && (f.tasks[x].parent == None || f.tasks[x].parent == Some("")))
            && (p in f.tasks && x in f.tasks ==> (x in f.tasks[p].subtasks <==> f.tasks[x].parent == Some(p)))
  {
    var f := run[i];
    ForestInEveryState(run, ops, i);
    FilterMembers(f.order, RootTest(f));
    if p in f.tasks && x in f.tasks {
      assert ListedIsChild(f, p, x) && ChildIsListed(f, x);
    }
  }

  // ---------------------------------------------------------------------------
  // The tree below a task
  // ---------------------------------------------------------------------------

  ghost predicate AllLater(f: Forest, ids: seq<string>, bound: int)
    requires Ordered(f)
  {
    forall k :: 0 <= k < |ids| ==> ids[k] in f.tasks && bound < Position(f, ids[k])
  }

  lemma SubtasksLater(f: Forest, id: string)
    requires Layered(f) && id in f.tasks
    ensures AllLater(f, f.tasks[id].subtasks, Position(f, id))
  {
    var subs := f.tasks[id].subtasks;
    forall k | 0 <= k < |subs|
      ensures subs[k] in f.tasks && Position(f, id) < Position(f, subs[k])
    {
      assert ListedIsChild(f, id, subs[k]);
    }
  }

  /** What `get_task_tree` returns for an id: the task, then the tree of each subtask in turn. */
  ghost function Tree(f: Forest, id: string): seq<string>
    requires Layered(f)
    decreases if id in f.tasks then |f.order| - Position(f, id) else 0, 1, 0
  {
    if id !in f.tasks then []
    else
      SubtasksLater(f, id);
      [id] + Trees(f, f.tasks[id].subtasks, Position(f, id))
  }

  ghost function Trees(f: Forest, ids: seq<string>, bound: int): seq<string>
    requires Layered(f) && bound < |f.order| && AllLater(f, ids, bound)
    decreases |f.order| - bound, 0, |ids|
  {
    if ids == [] then [] else Tree(f, ids[0]) + Trees(f, ids[1..], bound)
  }

  /** How far the tree below a task can still reach. */
  ghost function Height(f: Forest, id: string): nat
    requires Layered(f)
  {
    if id in f.tasks then |f.order| - Position(f, id) else 0
  }

  /** The trees of the subtasks from the i-th on. */
  ghost function RestOfTree(f: Forest, id: string, i: nat): seq<string>
    requires Layered(f) && id in f.tasks && i <= |f.tasks[id].subtasks|
  {
    SubtasksLater(f, id);
    Trees(f, f.tasks[id].subtasks[i..], Position(f, id))
  }

  lemma TreeFromStart(f: Forest, id: string)
    requires Layered(f) && id in f.tasks
    ensures Tree(f, id) == [id] + RestOfTree(f, id, 0)
    ensures RestOfTree(f, id, |f.tasks[id].subtasks|) == []
  {
    SubtasksLater(f, id);
    assert f.tasks[id].subtasks[0..] == f.tasks[id].subtasks;
  }

  lemma TreeNext(f: Forest, id: string, i: nat)
    requires Layered(f) && id in f.tasks && i < |f.tasks[id].subtasks|
    ensures RestOfTree(f, id, i) == Tree(f, f.tasks[id].subtasks[i]) + RestOfTree(f, id, i + 1)
    ensures Height(f, f.tasks[id].subtasks[i]) < Height(f, id)
  {
    SubtasksLater(f, id);
    var rest := f.tasks[id].subtasks[i..];
    assert rest[0] == f.tasks[id].subtasks[i] && rest[1..] == f.tasks[id].subtasks[i + 1..];
  }

  /** x is n generations below a. */
  ghost predicate Below(f: Forest, x: string, a: string, n: nat)
    decreases n
  {
    if n == 0 then x == a
    else x in f.tasks && NamesParent(f.tasks[x].parent) && Below(f, f.tasks[x].parent.value, a, n - 1)
  }

  ghost predicate Descends(f: Forest, x: string, a: string) {
    x in f.tasks && exists n: nat :: Below(f, x, a, n)
  }

  lemma {:induction false} BelowTrans(f: Forest, x: string, b: string, a: string, n: nat, m: nat)
    requires Below(f, x, b, n) && Below(f, b, a, m)
    ensures Below(f, x, a, n + m)
    decreases n
  {
    if n > 0 {
      BelowTrans(f, f.tasks[x].parent.value, b, a, n - 1, m);
    }
  }

  /** Two ancestors of one task are one above the other. */
  lemma {:induction false} BelowLinear(f: Forest, x: string, a: string, b: string, n: nat, m: nat)
    requires Below(f, x, a, n) && Below(f, x, b, m) && n <= m
    ensures Below(f, a, b, m - n)
    decreases n
  {
    if n > 0 {
      BelowLinear(f, f.tasks[x].parent.value, a, b, n - 1, m - 1);
    }
  }

  lemma {:induction false} BelowIsLater(f: Forest, x: string, a: string, n: nat)
    requires IsForest(f) && x in f.tasks && a in f.tasks && Below(f, x, a, n)
    ensures n == 0 || Position(f, a) < Position(f, x)
    decreases n
  {
    if n > 0 {
      var p := f.tasks[x].parent.value;
      if n == 1 {
        assert p == a;
      }
      assert p in f.tasks;
      assert ChildIsListed(f, x) && ListedIsChild(f, p, x);
      BelowIsLater(f, p, a, n - 1);
    }
  }

  /** Everything in a tree descends from its top. */
  lemma {:induction false} TreeDescends(f: Forest, id: string, x: string)
    requires IsForest(f) && x in Tree(f, id)
    ensures id in f.tasks && Descends(f, x, id)
    decreases |f.order| - (if id in f.tasks then Position(f, id) else |f.order|), 1, 0
  {
    if x == id {
      assert Below(f, id, id, 0);
    } else {
      var subs := f.tasks[id].subtasks;
      SubtasksLater(f, id);
      TreesDescend(f, subs, Position(f, id), x);
      var c, n: nat :| c in subs && Below(f, x, c, n);
      assert ListedIsChild(f, id, c);
      assert Below(f, id, id, 0) && Below(f, c, id, 1);
      BelowTrans(f, x, c, id, n, 1);
    }
  }

  lemma {:induction false} TreesDescend(f: Forest, ids: seq<string>, bound: int, x: string)
    requires IsForest(f) && bound < |f.order| && AllLater(f, ids, bound) && x in Trees(f, ids, bound)
    ensures x in f.tasks && exists c, n: nat :: c in ids && Below(f, x, c, n)
    decreases |f.order| - bound, 0, |ids|
  {
    if x in Tree(f, ids[0]) {
      TreeDescends(f, ids[0], x);
      var n: nat :| Below(f, x, ids[0], n);
      assert ids[0] in ids;
    } else {
      TreesDescend(f, ids[1..], bound, x);
    }
  }

  /** A tree holds the trees of its subtasks. */
  lemma {:induction false} TreesHold(f: Forest, ids: seq<string>, bound: int, c: string)
    requires IsForest(f) && bound < |f.order| && AllLater(f, ids, bound) && c in ids
    ensures forall x :: x in Tree(f, c) ==> x in Trees(f, ids, bound)
    decreases |ids|
  {
    if c != ids[0] {
      TreesHold(f, ids[1..], bound, c);
    }
  }

  /** Everything that descends from a task is in its tree. */
  lemma {:induction false} DescendantsInTree(f: Forest, id: string, x: string, n: nat)
    requires IsForest(f) && id in f.tasks && x in f.tasks && Below(f, x, id, n)
    ensures x in Tree(f, id)
    decreases n
  {
    if n > 0 {
      OldestStep(f, id, x, n);
      var c :| c in f.tasks[id].subtasks && c in f.tasks && Below(f, x, c, n - 1);
      DescendantsInTree(f, c, x, n - 1);
      SubtasksLater(f, id);
      TreesHold(f, f.tasks[id].subtasks, Position(f, id), c);
    }
  }

  /** A descendant passes through one of the subtasks. */
  lemma {:induction false} OldestStep(f: Forest, id: string, x: string, n: nat)
    requires IsForest(f) && id in f.tasks && x in f.tasks && n > 0 && Below(f, x, id, n)
    ensures exists c :: c in f.tasks[id].subtasks && c in f.tasks && Below(f, x, c, n - 1)
    decreases n
  {
    var p := f.tasks[x].parent.value;
    assert ChildIsListed(f, x);
    if n == 1 {
      assert p == id;
      assert Below(f, x, x, 0) && x in f.tasks[id].subtasks;
    } else {
      OldestStep(f, id, p, n - 1);
      var c :| c in f.tasks[id].subtasks && c in f.tasks && Below(f, p, c, n - 2);
      assert Below(f, x, c, n - 1);
    }
  }

  /** The tree of a registered task lists exactly the tasks that descend from it. */
  lemma TreeIsDescendants(f: Forest, id: string, x: string)
    requires IsForest(f) && id in f.tasks
    ensures x in Tree(f, id) <==> Descends(f, x, id)
  {
    if x in Tree(f, id) {
      TreeDescends(f, id, x);
    }
    if Descends(f, x, id) {
      var n: nat :| Below(f, x, id, n);
      DescendantsInTree(f, id, x, n);
    }
  }

  lemma NoDuplicatesConcat<T(!new)>(s: seq<T>, t: seq<T>)
    requires NoDuplicates(s) && NoDuplicates(t) && forall x :: x in s ==> x !in t
    ensures NoDuplicates(s + t)
  {
    var u := s + t;
    forall i, j | 0 <= i < j < |u|
      ensures u[i] != u[j]
    {
      if i < |s| && j >= |s| {
        assert u[i] in s && u[j] in t;
      }
    }
  }

  /** No task lies below two different subtasks of one task. */
  lemma SiblingsApart(f: Forest, p: string, c: string, d: string, x: string, n: nat, m: nat)
    requires IsForest(f) && p in f.tasks && c in f.tasks[p].subtasks && d in f.tasks[p].subtasks
    requires Below(f, x, c, n) && Below(f, x, d, m) && n <= m
    ensures c == d
  {
    BelowLinear(f, x, c, d, n, m);
    assert ListedIsChild(f, p, c) && ListedIsChild(f, p, d);
    if m > n {
      assert Below(f, p, d, m - n - 1);
      BelowIsLater(f, p, d, m - n - 1);
      assert false;
    }
  }

  /** A tree lists no task twice. */
  lemma {:induction false} TreeNoDuplicates(f: Forest, id: string)
    requires IsForest(f)
    ensures NoDuplicates(Tree(f, id))
    decreases if id in f.tasks then |f.order| - Position(f, id) else 0, 1, 0
  {
    if id in f.tasks {
      var subs, at := f.tasks[id].subtasks, Position(f, id);
      SubtasksLater(f, id);
      TreesNoDuplicates(f, id, subs, at);
      if id in Trees(f, subs, at) {
        TreesDescend(f, subs, at, id);
        var c, n: nat :| c in subs && Below(f, id, c, n);
        assert ListedIsChild(f, id, c);
        BelowIsLater(f, id, c, n);
        assert false;
      }
      NoDuplicatesConcat([id], Trees(f, subs, at));
    }
  }

  lemma {:induction false} TreesNoDuplicates(f: Forest, p: string, ids: seq<string>, bound: int)
    requires IsForest(f) && bound < |f.order| && AllLater(f, ids, bound)
    requires p in f.tasks && NoDuplicates(ids) && forall c :: c in ids ==> c in f.tasks[p].subtasks
    ensures NoDuplicates(Trees(f, ids, bound))
    decreases |f.order| - bound, 0, |ids|
  {
    if ids != [] {
      var c, rest := ids[0], ids[1..];
      TreeNoDuplicates(f, c);
      TreesNoDuplicates(f, p, rest, bound);
      forall x | x in Tree(f, c)
        ensures x !in Trees(f, rest, bound)
      {
        if x in Trees(f, rest, bound) {
          TreeDescends(f, c, x);
          TreesDescend(f, rest, bound, x);
          var n: nat :| Below(f, x, c, n);
          var d, m: nat :| d in rest && Below(f, x, d, m);
          if n <= m {
            SiblingsApart(f, p, c, d, x, n, m);
          } else {
            SiblingsApart(f, p, d, c, x, m, n);
          }
          assert false;
        }
      }
      NoDuplicatesConcat(Tree(f, c), Trees(f, rest, bound));
    }
  }

  /** Every task lies in the tree of exactly one task whose own parent is not registered. */
  ghost predicate Top(f: Forest, a: string) {
    a in f.tasks && (NamesParent(f.tasks[a].parent) ==> f.tasks[a].parent.value !in f.tasks)
  }

  lemma {:induction false} TopExists(f: Forest, x: string)
    requires IsForest(f) && x in f.tasks
    ensures exists a, n: nat :: Top(f, a) && Below(f, x, a, n)
    decreases Position(f, x)
  {
    if Top(f, x) {
      assert Below(f, x, x, 0);
    } else {
      var p := f.tasks[x].parent.value;
      assert ChildIsListed(f, x) && ListedIsChild(f, p, x);
      TopExists(f, p);
      var a, n: nat :| Top(f, a) && Below(f, p, a, n);
      assert Below(f, x, a, n + 1);
    }
  }

  lemma TopUnique(f: Forest, x: string, a: string, b: string, n: nat, m: nat)
    requires Top(f, a) && Top(f, b) && Below(f, x, a, n) && Below(f, x, b, m) && n <= m
    ensures a == b
  {
    BelowLinear(f, x, a, b, n, m);
  }

  /** The trees of the top tasks partition the registry. */
  lemma OneTree(f: Forest, x: string)
    requires IsForest(f) && x in f.tasks
    ensures exists a :: Top(f, a) && x in Tree(f, a)
    ensures forall a, b :: Top(f, a) && Top(f, b) && x in Tree(f, a) && x in Tree(f, b) ==> a == b
  {
    TopExists(f, x);
    var a, n: nat :| Top(f, a) && Below(f, x, a, n);
    DescendantsInTree(f, a, x, n);
    forall a, b | Top(f, a) && Top(f, b) && x in Tree(f, a) && x in Tree(f, b)
      ensures a == b
    {
      TreeDescends(f, a, x);
      TreeDescends(f, b, x);
      var n: nat :| Below(f, x, a, n);
      var m: nat :| Below(f, x, b, m);
      if n <= m {
        TopUnique(f, x, a, b, n, m);
      } else {
        TopUnique(f, x, b, a, m, n);
      }
    }
  }

  /** x is the task or in the tree of one of its first i subtasks. */
  ghost predicate ComesFirst(f: Forest, id: string, i: nat, x: string)
    requires Layered(f) && id in f.tasks && i <= |f.tasks[id].subtasks|
  {
    x == id || exists j :: 0 <= j < i && x in Tree(f, f.tasks[id].subtasks[j])
  }

  lemma {:induction false} TreeSplits(f: Forest, id: string, i: nat) returns (before: seq<string>)
    requires Layered(f) && id in f.tasks && i <= |f.tasks[id].subtasks|
    ensures Tree(f, id) == before + RestOfTree(f, id, i)
    ensures before != [] && before[0] == id && forall x :: x in before <==> ComesFirst(f, id, i, x)
    decreases i
  {
    if i == 0 {
      TreeFromStart(f, id);
      before := [id];
    } else {
      var front := TreeSplits(f, id, i - 1);
      var sub := Tree(f, f.tasks[id].subtasks[i - 1]);
      TreeNext(f, id, i - 1);
      Associate(front, sub, RestOfTree(f, id, i));
      before := front + sub;
      forall x
        ensures x in before <==> ComesFirst(f, id, i, x)
      {
        assert x in front <==> ComesFirst(f, id, i - 1, x);
      }
    }
  }

  /** The order of a tree: the task, then the whole tree of each subtask, in the order in which the
      subtasks were added. */
  lemma TreeInOrder(f: Forest, id: string, i: nat) returns (before: seq<string>, after: seq<string>)
    requires IsForest(f) && id in f.tasks && i < |f.tasks[id].subtasks|
    ensures Tree(f, id) == before + (Tree(f, f.tasks[id].subtasks[i]) + after)
    ensures before != [] && before[0] == id
    ensures forall x :: x in before <==> x == id || exists j :: 0 <= j < i && x in Tree(f, f.tasks[id].subtasks[j])
  {
    before := TreeSplits(f, id, i);
    TreeNext(f, id, i);
    after := RestOfTree(f, id, i + 1);
    forall x
      ensures x in before <==> x == id || exists j :: 0 <= j < i && x in Tree(f, f.tasks[id].subtasks[j])
    {
      assert x in before <==> ComesFirst(f, id, i, x);
    }
  }

  // ---------------------------------------------------------------------------
  // Saving and loading
  // ---------------------------------------------------------------------------

  datatype Payload = Payload(tasks: map<string, Task>, order: seq<string>, rootIds: seq<string>)

  function Save(f: Forest): Payload {
    Payload(f.tasks, f.order, f.roots)
  }

  function Load(p: Payload): Forest {
    Forest(p.tasks, p.order, Filter(p.order, x => x in p.rootIds))
  }

  /** Loading a saved forest rebuilds it, with its roots in creation order. */
  lemma LoadSave(f: Forest)
    requires IsForest(f)
    ensures Load(Save(f)) == f
  {
    FilterMembers(f.order, RootTest(f));
    FilterSame(f.order, RootTest(f), x => x in f.roots);
  }

  // ---------------------------------------------------------------------------
  // The life cycle
  // ---------------------------------------------------------------------------

  function Rank(s: Status): nat {
    match s
    case Pending => 0
    case InProgress => 1
    case Completed => 2
    case Cancelled => 2
    case Failed => 3
  }

  /** One status is where it was or strictly later. */
  predicate NotEarlier(before: Status, after: Status) {
    before == after || Rank(before) < Rank(after)
  }

  lemma StatusStep(f: Forest, op: Operation, id: string)
    requires id in f.tasks && Possible(f, op) && op != Reset
    ensures var g := Apply(f, op);
            && id in g.tasks && g.tasks[id].parent == f.tasks[id].parent
            && NotEarlier(f.tasks[id].status, g.tasks[id].status)
  {
  }

  /** No task ever returns to an earlier status: while the registry is not reset, a task that
      exists keeps existing, and its status stays or strictly rises in rank. */
  lemma {:induction false} StatusOnlyRises(run: seq<Forest>, ops: seq<Operation>, id: string, i: nat, j: nat)
    requires IsRun(run, ops) && i <= j <= |ops| && id in run[i].tasks
    requires forall k :: i <= k < j ==> ops[k] != Reset
    ensures id in run[j].tasks && run[j].tasks[id].parent == run[i].tasks[id].parent
    ensures NotEarlier(run[i].tasks[id].status, run[j].tasks[id].status)
    decreases j
  {
    if j > i {
      StatusOnlyRises(run, ops, id, i, j - 1);
      StatusStep(run[j - 1], ops[j - 1], id);
    }
  }

  // ---------------------------------------------------------------------------
  // What a status says about the operations so far
  // ---------------------------------------------------------------------------

  /** The transitions asked for on one task, accepted or refused. */
  function Requests(ops: seq<Operation>, id: string): seq<Transition>
    decreases |ops|
  {
    if ops == [] then []
    else
      var last := ops[|ops| - 1];
      Requests(ops[..|ops| - 1], id) + if last.MoveTask? && last.id == id then [last.transition] else []
  }

  /** Nothing was asked for but completions, all of them too early. */
  ghost predicate NotBegun(ts: seq<Transition>) {
    forall i :: 0 <= i < |ts| ==> ts[i].Complete?
  }

  /** Started while pending, and since then only asked to start again. */
  ghost predicate Running(ts: seq<Transition>) {
    exists i :: 0 <= i < |ts| && ts[i] == Start && NotBegun(ts[..i]) && forall j :: i < j < |ts| ==> ts[j] == Start
  }

  /** Completed with success while running, and not failed since. */
  ghost predicate Succeeded(ts: seq<Transition>) {
    exists i :: 0 <= i < |ts| && ts[i] == Complete(true) && Running(ts[..i]) && forall j :: i < j < |ts| ==> !ts[j].Fail?
  }

  /** Failed at some time, or completed without success while running. */
  ghost predicate WentWrong(ts: seq<Transition>) {
    exists i :: 0 <= i < |ts| && (ts[i].Fail? || (ts[i] == Complete(false) && Running(ts[..i])))
  }

  /** Cancelled before it was finished, and not failed since. */
  ghost predicate CalledOff(ts: seq<Transition>) {
    exists i :: 0 <= i < |ts| && ts[i] == Cancel && (NotBegun(ts[..i]) || Running(ts[..i])) && forall j :: i < j < |ts| ==> !ts[j].Fail?
  }

  /** The message is that of the last fail, if there was one. */
  ghost predicate LastMessage(ts: seq<Transition>, error: Option<string>) {
    if error.Some? then
      exists i :: 0 <= i < |ts| && ts[i] == Fail(error.value) && forall j :: i < j < |ts| ==> !ts[j].Fail?
    else
      forall i :: 0 <= i < |ts| ==> !ts[i].Fail?
  }

  /** Each status holds of exactly the histories that its name says. */
  ghost predicate Explained(ts: seq<Transition>, s: Status) {
    && (s == Pending <==> NotBegun(ts))
    && (s == InProgress <==> Running(ts))
    && (s == Completed <==> Succeeded(ts))
    && (s == Failed <==> WentWrong(ts))
    && (s == Cancelled <==> CalledOff(ts))
  }

  lemma NoRequests()
    ensures Explained([], Pending) && LastMessage([], None)
  {
  }

  /** What comes before an index does not change when something is appended. */
  lemma Before(ts: seq<Transition>, t: Transition, us: seq<Transition>)
    requires us == ts + [t]
    ensures us[|ts|] == t && us[..|ts|] == ts
    ensures forall i :: 0 <= i < |ts| ==> us[i] == ts[i] && us[..i] == ts[..i]
  {
  }

  lemma RunningSnoc(ts: seq<Transition>, t: Transition, us: seq<Transition>)
    requires us == ts + [t]
    ensures NotBegun(us) <==> NotBegun(ts) && t.Complete?
    ensures Running(us) <==> t == Start && (NotBegun(ts) || Running(ts))
  {
    Before(ts, t, us);
    if Running(us) {
      var i :| 0 <= i < |us| && us[i] == Start && NotBegun(us[..i]) && forall j :: i < j < |us| ==> us[j] == Start;
      if i < |ts| {
        assert us[|ts|] == Start;
        assert Running(ts);
      }
    }
    if t == Start && NotBegun(ts) {
      assert us[|ts|] == Start;
    }
    if t == Start && Running(ts) {
      var i :| 0 <= i < |ts| && ts[i] == Start && NotBegun(ts[..i]) && forall j :: i < j < |ts| ==> ts[j] == Start;
      assert us[i] == Start && NotBegun(us[..i]);
    }
  }

  lemma SucceededSnoc(ts: seq<Transition>, t: Transition, us: seq<Transition>)
    requires us == ts + [t]
    ensures Succeeded(us) <==> (Succeeded(ts) && !t.Fail?) || (t == Complete(true) && Running(ts))
  {
    Before(ts, t, us);
    if Succeeded(us) {
      var i :| 0 <= i < |us| && us[i] == Complete(true) && Running(us[..i]) && forall j :: i < j < |us| ==> !us[j].Fail?;
      if i < |ts| {
        assert !us[|ts|].Fail?;
        assert ts[i] == Complete(true) && Running(ts[..i]);
      }
    }
    if Succeeded(ts) && !t.Fail? {
      var i :| 0 <= i < |ts| && ts[i] == Complete(true) && Running(ts[..i]) && forall j :: i < j < |ts| ==> !ts[j].Fail?;
      assert us[i] == Complete(true) && Running(us[..i]);
    }
  }

  lemma WentWrongSnoc(ts: seq<Transition>, t: Transition, us: seq<Transition>)
    requires us == ts + [t]
    ensures WentWrong(us) <==> WentWrong(ts) || t.Fail? || (t == Complete(false) && Running(ts))
  {
    Before(ts, t, us);
    if WentWrong(ts) {
      var i :| 0 <= i < |ts| && (ts[i].Fail? || (ts[i] == Complete(false) && Running(ts[..i])));
      assert us[i].Fail? || (us[i] == Complete(false) && Running(us[..i]));
    }
    if WentWrong(us) {
      var i :| 0 <= i < |us| && (us[i].Fail? || (us[i] == Complete(false) && Running(us[..i])));
      if i < |ts| {
        assert ts[i].Fail? || (ts[i] == Complete(false) && Running(ts[..i]));
      }
    }
    if t.Fail? || (t == Complete(false) && Running(ts)) {
      assert us[|ts|].Fail? || (us[|ts|] == Complete(false) && Running(us[..|ts|]));
    }
  }

  lemma CalledOffSnoc(ts: seq<Transition>, t: Transition, us: seq<Transition>)
    requires us == ts + [t]
    ensures CalledOff(us) <==> (CalledOff(ts) && !t.Fail?) || (t == Cancel && (NotBegun(ts) || Running(ts)))
  {
    Before(ts, t, us);
    if CalledOff(us) {
      var i :| 0 <= i < |us| && us[i] == Cancel && (NotBegun(us[..i]) || Running(us[..i])) && forall j :: i < j < |us| ==> !us[j].Fail?;
      if i < |ts| {
        assert !us[|ts|].Fail?;
        assert ts[i] == Cancel && (NotBegun(ts[..i]) || Running(ts[..i]));
      }
    }
    if CalledOff(ts) && !t.Fail? {
      var i :| 0 <= i < |ts| && ts[i] == Cancel && (NotBegun(ts[..i]) || Running(ts[..i])) && forall j :: i < j < |ts| ==> !ts[j].Fail?;
      assert us[i] == Cancel && (NotBegun(us[..i]) || Running(us[..i]));
    }
  }

  lemma MessageSnoc(ts: seq<Transition>, t: Transition, error: Option<string>)
    requires LastMessage(ts, error)
    ensures LastMessage(ts + [t], if t.Fail? then Some(t.message) else error)
  {
    var us := ts + [t];
    Before(ts, t, us);
    if t.Fail? {
      assert us[|ts|] == Fail(t.message);
    } else if error.Some? {
      var i :| 0 <= i < |ts| && ts[i] == Fail(error.value) && forall j :: i < j < |ts| ==> !ts[j].Fail?;
      assert us[i] == Fail(error.value);
    }
  }

  lemma NextStatus(ts: seq<Transition>, t: Transition, s: Status)
    requires Explained(ts, s)
    ensures Explained(ts + [t], if After(s, t).Some? then After(s, t).value else s)
  {
    var us := ts + [t];
    RunningSnoc(ts, t, us);
    SucceededSnoc(ts, t, us);
    WentWrongSnoc(ts, t, us);
    CalledOffSnoc(ts, t, us);
  }

  lemma OtherTask(f: Forest, op: Operation, id: string)
    requires id in f.tasks && Possible(f, op) && op != Reset && !(op.MoveTask? && op.id == id)
    ensures var g := Apply(f, op);
            id in g.tasks && g.tasks[id].status == f.tasks[id].status && g.tasks[id].error == f.tasks[id].error
  {
  }

  lemma RequestsSnoc(ops: seq<Operation>, op: Operation, id: string)
    ensures Requests(ops + [op], id) == Requests(ops, id) + if op.MoveTask? && op.id == id then [op.transition] else []
  {
    assert (ops + [op])[..|ops|] == ops;
  }

  ghost predicate Told(ts: seq<Transition>, task: Task) {
    Explained(ts, task.status) && LastMessage(ts, task.error)
  }

  lemma NextTold(f: Forest, op: Operation, id: string, ts: seq<Transition>)
    requires id in f.tasks && Possible(f, op) && op != Reset && Told(ts, f.tasks[id])
    ensures id in Apply(f, op).tasks
    ensures Told(ts + if op.MoveTask? && op.id == id then [op.transition] else [], Apply(f, op).tasks[id])
  {
    if op.MoveTask? && op.id == id {
      NextStatus(ts, op.transition, f.tasks[id].status);
      MessageSnoc(ts, op.transition, f.tasks[id].error);
    } else {
      OtherTask(f, op, id);
      assert ts + [] == ts;
    }
  }

  lemma CreatedTold(f: Forest, id: string, parent: Option<string>)
    requires Fresh(f, id, parent)
    ensures id in Create(f, id, parent).tasks && Told([], Create(f, id, parent).tasks[id])
  {
    NoRequests();
  }

  lemma NoResetBefore(since: seq<Operation>, front: seq<Operation>, op: Operation)
    requires since == front + [op] && forall k :: 0 <= k < |since| ==> since[k] != Reset
    ensures op != Reset && forall k :: 0 <= k < |front| ==> front[k] != Reset
  {
    assert since[|front|] == op;
    assert forall k :: 0 <= k < |front| ==> front[k] == since[k];
  }

  lemma {:induction false} HistoryTold(run: seq<Forest>, ops: seq<Operation>, id: string, c: nat, i: nat, since: seq<Operation>)
    requires IsRun(run, ops) && c < i <= |ops| && ops[c].CreateTask? && ops[c].id == id
    requires since == ops[c + 1..i] && forall k :: 0 <= k < |since| ==> since[k] != Reset
    ensures id in run[i].tasks && Told(Requests(since, id), run[i].tasks[id])
    decreases i
  {
    if i == c + 1 {
      assert run[i] == Create(run[c], id, ops[c].parent);
      CreatedTold(run[c], id, ops[c].parent);
    } else {
      var front, op := ops[c + 1..i - 1], ops[i - 1];
      NoResetBefore(since, front, op);
      HistoryTold(run, ops, id, c, i - 1, front);
      RequestsSnoc(front, op, id);
      NextTold(run[i - 1], op, id, Requests(front, id));
    }
  }

  /** In every state of every run, a task's status and error message are told by what was asked of
      it since it was created: it is pending, in progress, completed, failed or cancelled exactly
      when the requests, accepted or refused, say so. */
  lemma StatusIsHistory(run: seq<Forest>, ops: seq<Operation>, id: string, c: nat, i: nat)
    requires IsRun(run, ops) && c < i <= |ops| && ops[c].CreateTask? && ops[c].id == id
    requires forall k :: c < k < i ==> ops[k] != Reset
    ensures id in run[i].tasks
    ensures var task, ts := run[i].tasks[id], Requests(ops[c + 1..i], id);
            && (task.status == Pending <==> NotBegun(ts))
            && (task.status == InProgress <==> Running(ts))
            && (task.status == Completed <==> Succeeded(ts))
            && (task.status == Failed <==> WentWrong(ts))
            && (task.status == Cancelled <==> CalledOff(ts))
            && LastMessage(ts, task.error)
  {
    HistoryTold(run, ops, id, c, i, ops[c + 1..i]);
  }
}
