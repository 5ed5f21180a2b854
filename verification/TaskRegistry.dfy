/**
 The orchestrator object of agent_core/orchestrator.py: task objects updated in place, a
 dictionary from ids to them, and the list of root tasks. Every method is tied to the function
 on forests that states it.
 */
module TaskRegistry {
  import opened Wrappers
  import opened TaskForest

  /** A task object. The id and the parent id never change. */
  class TaskState {
    const id: string
    const parent: Option<string>
    var status: Status
    var subtasks: seq<TaskState>
    var error: Option<string>

    constructor (id: string, parent: Option<string>)
      ensures this.id == id && this.parent == parent && Shown() == Task(parent, [], Pending, None)
    {
      this.id, this.parent := id, parent;
      status, subtasks, error := Pending, [], None;
    }

    ghost function Shown(): Task
      reads this
    {
      Task(parent, Ids(subtasks), status, error)
    }
  }

  function Ids(ts: seq<TaskState>): (ids: seq<string>)
    ensures |ids| == |ts| && forall i :: 0 <= i < |ts| ==> ids[i] == ts[i].id
  {
    seq(|ts|, i requires 0 <= i < |ts| => ts[i].id)
  }

  /** Appending the tree of the i-th subtask takes it off what is still to come. */
  lemma IdsAppend(f: Forest, id: string, i: nat, ts: seq<TaskState>, us: seq<TaskState>)
    requires Layered(f) && id in f.tasks && i < |f.tasks[id].subtasks| && Ids(us) == Tree(f, f.tasks[id].subtasks[i])
    ensures Ids(ts + us) + RestOfTree(f, id, i + 1) == Ids(ts) + RestOfTree(f, id, i)
  {
    TreeNext(f, id, i);
    assert Ids(ts + us) == Ids(ts) + Ids(us);
  }

  class Orchestrator {
    var tasks: map<string, TaskState>
    /** The keys of the dictionary, oldest first. */
    var order: seq<string>
    var rootTasks: seq<TaskState>

    /** Tasks are filed under their own ids, and listed tasks are the registered objects. */
    ghost predicate Valid()
      reads this, tasks.Values
    {
      && (forall x :: x in tasks ==> tasks[x].id == x)
      && (forall x :: x in tasks ==> AllRegistered(tasks[x].subtasks))
      && AllRegistered(rootTasks)
    }

    ghost predicate Registered(t: TaskState)
      reads this
    {
      t.id in tasks && tasks[t.id] == t
    }

    ghost predicate AllRegistered(ts: seq<TaskState>)
      reads this
    {
      forall k :: 0 <= k < |ts| ==> Registered(ts[k])
    }

    /** The registry as a value. */
    ghost function View(): Forest
      reads this, tasks.Values
    {
      Forest(map x | x in tasks :: tasks[x].Shown(), order, Ids(rootTasks))
    }

    constructor ()
      ensures Valid() && View() == EMPTY
    {
      tasks, order, rootTasks := map[], [], [];
    }

    /** The first half of `create_task`: file the new task. */
    method Register(task: TaskState)
      requires Valid() && Fresh(View(), task.id, task.parent)
      requires task.Shown() == Task(task.parent, [], Pending, None)
      modifies this
      ensures Valid() && tasks == old(tasks)[task.id := task] && View() == Insert(old(View()), task.id, task.parent)
    {
      tasks := tasks[task.id := task];
      order := order + [task.id];
    }

    /** The second half: list it under its parent, or among the roots. */
    method Attach(task: TaskState)
      requires Valid() && Registered(task)
      modifies this`rootTasks, tasks.Values
      ensures Valid()
      ensures View() == Listed(old(View()), task.id, task.parent)
    {
      if NamesParent(task.parent) {
        if task.parent.value in tasks {
          AppendSubtask(tasks[task.parent.value], task);
        }
      } else {
        rootTasks := rootTasks + [task];
      }
    }

    method AppendSubtask(p: TaskState, task: TaskState)
      requires Valid() && Registered(p) && Registered(task)
      modifies p`subtasks
      ensures Valid() && View() == AddChild(old(View()), p.id, task.id)
    {
      ghost var before := View();
      p.subtasks := p.subtasks + [task];
      assert AllRegistered(p.subtasks);
      assert Ids(p.subtasks) == old(Ids(p.subtasks)) + [task.id];
      forall x | x in tasks
        ensures tasks[x].Shown() == AddChild(before, p.id, task.id).tasks[x]
      {
        if x != p.id {
          assert tasks[x] != p;
        }
      }
    }

    method CreateTask(id: string, parent: Option<string>) returns (task: TaskState)
      requires Valid() && Fresh(View(), id, parent)
      modifies this, tasks.Values
      ensures Valid() && View() == Create(old(View()), id, parent)
      ensures fresh(task) && tasks == old(tasks)[id := task]
    {
      task := new TaskState(id, parent);
      Register(task);
      Attach(task);
    }

    method StartTask(id: string) returns (ok: bool)
      requires Valid()
      modifies this, tasks.Values
      ensures Valid() && tasks == old(tasks)
      ensures ok == Accepted(old(View()), id, Start) && View() == Move(old(View()), id, Start)
      ensures ok <==> id in tasks && old(id in tasks && tasks[id].status == Pending)
      ensures ok ==> tasks[id].status == InProgress
      ensures !ok ==> View() == old(View())
    {
      if id !in tasks || tasks[id].status != Pending {
        return false;
      }
      tasks[id].status := InProgress;
      return true;
    }

    method CompleteTask(id: string, success: bool) returns (ok: bool)
      requires Valid()
      modifies this, tasks.Values
      ensures Valid() && tasks == old(tasks)
      ensures ok == Accepted(old(View()), id, Complete(success)) && View() == Move(old(View()), id, Complete(success))
      ensures ok <==> id in tasks && old(id in tasks && tasks[id].status == InProgress)
      ensures ok ==> tasks[id].status == if success then Completed else Failed
      ensures !ok ==> View() == old(View())
    {
      if id !in tasks || tasks[id].status != InProgress {
        return false;
      }
      tasks[id].status := if success then Completed else Failed;
      return true;
    }

    method FailTask(id: string, message: string) returns (ok: bool)
      requires Valid()
      modifies this, tasks.Values
      ensures Valid() && tasks == old(tasks)
      ensures ok == (id in tasks) && View() == Move(old(View()), id, Fail(message))
      ensures ok ==> tasks[id].status == Failed && tasks[id].error == Some(message)
      ensures !ok ==> View() == old(View())
    {
      if id !in tasks {
        return false;
      }
      tasks[id].status := Failed;
      tasks[id].error := Some(message);
      return true;
    }

    method CancelTask(id: string) returns (ok: bool)
      requires Valid()
      modifies this, tasks.Values
      ensures Valid() && tasks == old(tasks)
      ensures ok == Accepted(old(View()), id, Cancel) && View() == Move(old(View()), id, Cancel)
      ensures ok <==> id in tasks && old(id in tasks && tasks[id].status != Completed && tasks[id].status != Failed)
      ensures ok ==> tasks[id].status == Cancelled
      ensures !ok ==> View() == old(View())
    {
      if id !in tasks || tasks[id].status == Completed || tasks[id].status == Failed {
        return false;
      }
      tasks[id].status := Cancelled;
      return true;
    }

    method Reset()
      requires Valid()
      modifies this
      ensures Valid() && View() == EMPTY
    {
      tasks, order, rootTasks := map[], [], [];
    }

    /** The task and everything below it, or all roots when no id is given. */
    method GetTaskTree(id: Option<string>) returns (result: seq<TaskState>)
      requires Valid() && Layered(View())
      ensures AllRegistered(result)
      ensures Ids(result) == if id.None? then View().roots else Tree(View(), id.value)
    {
      if id.None? {
        return rootTasks;
      }
      result := TaskTree(id.value, View());
    }

    /** The recursive case, for the forest f there is. */
    method TaskTree(id: string, ghost f: Forest) returns (result: seq<TaskState>)
      requires Valid() && f == View() && Layered(f)
      ensures AllRegistered(result)
      ensures Ids(result) == Tree(f, id)
      decreases Height(f, id)
    {
      if id !in tasks {
        return [];
      }
      var task := tasks[id];
      TreeFromStart(f, id);
      result := [task];
      var i := 0;
      while i < |task.subtasks|
        invariant 0 <= i <= |task.subtasks|
        invariant AllRegistered(result)
        invariant Ids(result) + RestOfTree(f, id, i) == Tree(f, id)
      {
        TreeNext(f, id, i);
        var sub := TaskTree(task.subtasks[i].id, f);
        IdsAppend(f, id, i, result, sub);
        result := result + sub;
        i := i + 1;
      }
    }

    /** What is written to disk: the dictionary and the ids of the roots. */
    method SaveState() returns (saved: map<string, TaskState>, savedOrder: seq<string>, rootIds: seq<string>)
      requires Valid()
      ensures saved == tasks && Payload(View().tasks, savedOrder, rootIds) == Save(View())
    {
      return tasks, order, Ids(rootTasks);
    }

    /** What is rebuilt from a payload: the dictionary, and as roots the tasks whose ids are
        listed, in dictionary order. */
    method LoadState(loaded: map<string, TaskState>, loadedOrder: seq<string>, rootIds: seq<string>)
      requires forall x :: x in loaded ==> loaded[x].id == x
      requires forall x, k :: x in loaded && 0 <= k < |loaded[x].subtasks| ==>
                 var c := loaded[x].subtasks[k]; c.id in loaded && loaded[c.id] == c
      requires forall x :: x in loadedOrder ==> x in loaded
      modifies this
      ensures Valid() && tasks == loaded
      ensures View() == Load(Payload(View().tasks, loadedOrder, rootIds))
    {
      tasks, order, rootTasks := loaded, loadedOrder, [];
      var i := 0;
      while i < |order|
        invariant 0 <= i <= |order| && tasks == loaded && order == loadedOrder
        invariant Valid()
        invariant Ids(rootTasks) == Filter(order[..i], x => x in rootIds)
      {
        assert order[..i + 1] == order[..i] + [order[i]];
        FilterSnoc(order[..i], order[i], x => x in rootIds);
        if order[i] in rootIds {
          rootTasks := rootTasks + [tasks[order[i]]];
        }
        i := i + 1;
      }
      assert order[..|order|] == order;
    }
  }
}
