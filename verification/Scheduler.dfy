// The dependency graph of tasks and its execution loop
// (crates/hub-scheduler/src/lib.rs).
module Scheduler {
  import opened Common
  import opened Graphs
  import opened Tasks
  import opened Runs
  import opened RunTheorems

  datatype DagError = NoTasks | DuplicateId | CrossesProjects | InvalidDependency | DependencyCycle

  // ---- What `Dag.New` accepts ----

  function ById(list: seq<Task>): TaskMap {
    if list == [] then map[]
    else ById(list[..|list| - 1])[list[|list| - 1].id := list[|list| - 1]]
  }

  function IdsOf(list: seq<Task>): (ids: seq<TaskId>)
    ensures |ids| == |list| && forall i :: 0 <= i < |list| ==> ids[i] == list[i].id
  {
    seq(|list|, i requires 0 <= i < |list| => list[i].id)
  }

  ghost predicate DependenciesOk(t: Task, tasks: TaskMap) {
    && t.id !in t.dependencies
    && (forall d :: d in t.dependencies ==> d in tasks)
    && Distinct(t.dependencies)
  }

  /** Everything `Dag.New` checks before it looks for cycles. */
  ghost predicate WellFormed(list: seq<Task>) {
    && list != []
    && Distinct(IdsOf(list))
    && forall t :: t in list ==> t.project == list[0].project && DependenciesOk(t, ById(list))
  }

  lemma {:induction false} ByIdKeys(list: seq<Task>)
    ensures ById(list).Keys == Elements(IdsOf(list))
    ensures KeyedById(ById(list))
    ensures forall id :: id in ById(list) ==> ById(list)[id] in list
  {
    if list != [] {
      var init, last := list[..|list| - 1], list[|list| - 1];
      ByIdKeys(init);
      assert list == init + [last];
      assert IdsOf(list) == IdsOf(init) + [last.id];
      assert Elements(IdsOf(list)) == Elements(IdsOf(init)) + {last.id};
      forall id | id in ById(list)
        ensures ById(list)[id] in list
      {
        assert id != last.id ==> ById(init)[id] in init;
      }
    }
  }

  lemma {:induction false} ByIdHolds(list: seq<Task>, i: nat)
    requires i < |list| && Distinct(IdsOf(list))
    ensures list[i].id in ById(list) && ById(list)[list[i].id] == list[i]
  {
    var init := list[..|list| - 1];
    if i < |list| - 1 {
      assert forall k :: 0 <= k < |init| ==> IdsOf(init)[k] == IdsOf(list)[k];
      ByIdHolds(init, i);
      assert IdsOf(list)[i] != IdsOf(list)[|list| - 1];
    }
  }

  lemma DistinctIdsIffNoneLost(list: seq<Task>)
    ensures |ById(list)| == |list| <==> Distinct(IdsOf(list))
    ensures |ById(list)| <= |list|
  {
    ByIdKeys(list);
    DistinctIffCardinality(IdsOf(list));
    assert |ById(list)| == |ById(list).Keys|;
  }

  lemma WellFormedIsClosed(list: seq<Task>)
    requires WellFormed(list)
    ensures Closed(GraphOf(ById(list)))
  {
    ByIdKeys(list);
  }

  /** `tasks` is `was` with every task refreshed that is not in `left`. */
  ghost predicate RefreshedExcept(was: TaskMap, tasks: TaskMap, left: set<TaskId>)
    requires Closed(GraphOf(was))
  {
    && tasks.Keys == was.Keys
    && forall id :: id in was ==>
      tasks[id] == if id in left then was[id]
                   else was[id].(status := RefreshedStatus(GraphOf(was), StatusesOf(was), id))
  }

  lemma RefreshedStatusOf(was: TaskMap, id: TaskId)
    requires Closed(GraphOf(was)) && id in was
    ensures forall d :: d in was[id].dependencies ==> d in was
    ensures RefreshedStatus(GraphOf(was), StatusesOf(was), id) ==
      if !was[id].status.Pending? && !was[id].status.Blocked? then was[id].status
      else if exists d :: d in was[id].dependencies && Unsuccessful(StatusesOf(was)[d]) then Blocked
      else if forall d :: d in was[id].dependencies ==> StatusesOf(was)[d] == Completed then Ready
      else was[id].status
  {
    assert GraphOf(was)[id] == was[id].dependencies;
  }

  lemma RefreshedOneMore(was: TaskMap, tasks: TaskMap, left: set<TaskId>, id: TaskId)
    requires Closed(GraphOf(was)) && id in was && id !in left && RefreshedExcept(was, tasks, left + {id})
    ensures tasks[id] == was[id]
    ensures RefreshedExcept(was,
              tasks[id := was[id].(status := RefreshedStatus(GraphOf(was), StatusesOf(was), id))], left)
  {
  }

  lemma RefreshedExceptNone(was: TaskMap, tasks: TaskMap)
    requires Closed(GraphOf(was)) && RefreshedExcept(was, tasks, {})
    ensures GraphOf(tasks) == GraphOf(was)
    ensures StatusesOf(tasks) == Refreshed(GraphOf(was), StatusesOf(was))
    ensures forall id :: id in tasks ==> tasks[id] == was[id].(status := tasks[id].status)
  {
  }

  class Dag {
    var tasks: TaskMap

    ghost predicate Valid()
      reads this
    {
      KeyedById(tasks) && Closed(GraphOf(tasks)) && Acyclic(GraphOf(tasks))
    }

    constructor (tasks: TaskMap)
      ensures this.tasks == tasks
    {
      this.tasks := tasks;
    }

    /** Accepts exactly the well formed acyclic task lists; a refusal for a cycle means there is one. */
    static method New(list: seq<Task>) returns (r: Result<Dag, DagError>)
      ensures r.Ok? <==> WellFormed(list) && Acyclic(GraphOf(ById(list)))
      ensures r.Ok? ==> fresh(r.value) && r.value.Valid() && r.value.tasks == ById(list)
      ensures r == Err(DependencyCycle) ==> WellFormed(list) && exists p :: IsCycle(GraphOf(ById(list)), p)
    {
      if list == [] {
        return Err(NoTasks);
      }
      var count := |list|;
      var project := list[0].project;
      var tasks: TaskMap := map[];
      for i := 0 to |list|
        invariant tasks == ById(list[..i])
      {
        assert list[..i + 1][..i] == list[..i];
        tasks := tasks[list[i].id := list[i]];
      }
      assert list[..|list|] == list;
      DistinctIdsIffNoneLost(list);
      if |tasks| != count {
        return Err(DuplicateId);
      }
      for i := 0 to |list|
        invariant forall k :: 0 <= k < i ==> list[k].project == project && DependenciesOk(list[k], tasks)
      {
        if list[i].project != project {
          return Err(CrossesProjects);
        }
        var ok := CheckDependencies(list[i], tasks);
        if !ok {
          return Err(InvalidDependency);
        }
      }
      assert WellFormed(list);
      WellFormedIsClosed(list);
      ByIdKeys(list);
      r := FindRounds(tasks, count);
    }

    static method CheckDependencies(t: Task, tasks: TaskMap) returns (ok: bool)
      ensures ok <==> DependenciesOk(t, tasks)
    {
      var seen: set<TaskId> := {};
      for i := 0 to |t.dependencies|
        invariant seen == Elements(t.dependencies[..i])
        invariant t.id !in seen && (forall d :: d in seen ==> d in tasks)
        invariant Distinct(t.dependencies[..i])
      {
        var d := t.dependencies[i];
        assert t.dependencies[..i + 1] == t.dependencies[..i] + [d];
        if d == t.id || d !in tasks || d in seen {
          return false;
        }
        seen := seen + {d};
      }
      assert t.dependencies[..|t.dependencies|] == t.dependencies;
      return true;
    }

    /** The round loop of `Dag::new`, on tasks that passed the earlier checks. */
    static method FindRounds(tasks: TaskMap, count: nat) returns (r: Result<Dag, DagError>)
      requires KeyedById(tasks) && Closed(GraphOf(tasks)) && count == |tasks|
      ensures r.Ok? <==> Acyclic(GraphOf(tasks))
      ensures r.Ok? ==> fresh(r.value) && r.value.Valid() && r.value.tasks == tasks
      ensures r.Err? ==> r.error == DependencyCycle && exists p :: IsCycle(GraphOf(tasks), p)
    {
      hide Acyclic;
      hide RankedPrefix;
      ghost var g := GraphOf(tasks);
      var completed: set<TaskId> := {};
      ghost var rank: map<TaskId, nat>, rounds := map[], 0;
      NoRounds(g);
      while |completed| < count
        invariant completed <= g.Keys && RankedPrefix(g, completed, rank, rounds)
        decreases g.Keys - completed
      {
        var next :=
          set id | id in tasks && id !in completed && forall d :: d in tasks[id].dependencies ==> d in completed;
        assert next == Round(g, completed);
        if next == {} {
          assert completed != g.Keys;
          ghost var p := StuckRoundHasCycle(g, completed);
          CycleIsNotAcyclic(g, p);
          return Err(DependencyCycle);
        }
        RoundExtendsPrefix(g, completed, rank, rounds);
        rank, rounds := AddRound(rank, next, rounds), rounds + 1;
        completed := completed + next;
      }
      assert |g.Keys| == count;
      RoundsComplete(g, completed, rank, rounds);
      var dag := new Dag(tasks);
      r := Ok(dag);
    }

    /** The body of the refresh loop: the new status of one task. */
    static method RefreshOne(task: Task, statuses: Statuses, ghost was: TaskMap) returns (status: Status)
      requires Closed(GraphOf(was)) && task.id in was && was[task.id] == task && statuses == StatusesOf(was)
      ensures status == RefreshedStatus(GraphOf(was), statuses, task.id)
    {
      RefreshedStatusOf(was, task.id);
      status := task.status;
      if task.status.Pending? || task.status.Blocked? {
        if exists d :: d in task.dependencies && (statuses[d].Failed? || statuses[d].Cancelled?) {
          status := Blocked;
        } else if forall d :: d in task.dependencies ==> statuses[d] == Completed {
          status := Ready;
        }
      }
    }

    /** Re-judges every waiting task against the statuses before the call. */
    method Refresh()
      requires Valid()
      modifies this
      ensures Valid() && GraphOf(tasks) == old(GraphOf(tasks))
      ensures StatusesOf(tasks) == Refreshed(GraphOf(tasks), old(StatusesOf(tasks)))
      ensures forall id :: id in tasks ==> tasks[id] == old(tasks)[id].(status := tasks[id].status)
    {
      ghost var was := tasks;
      var statuses := StatusesOf(tasks);
      var left := tasks.Keys;
      while left != {}
        invariant left <= was.Keys
        invariant RefreshedExcept(was, tasks, left)
        decreases left
      {
        var id :| id in left;
        assert left == (left - {id}) + {id};
        left := left - {id};
        RefreshedOneMore(was, tasks, left, id);
        var status := RefreshOne(tasks[id], statuses, was);
        tasks := tasks[id := tasks[id].(status := status)];
      }
      RefreshedExceptNone(was, tasks);
    }

    /** Moves one task along the life cycle; a refused move changes nothing. */
    method Transition(id: TaskId, next: Status) returns (ok: bool)
      modifies this
      ensures ok <==> id in old(tasks) && CanTransition(old(tasks)[id].status, next)
      ensures tasks == if ok then old(tasks)[id := old(tasks)[id].(status := next)] else old(tasks)
    {
      if id !in tasks {
        return false;
      }
      if !CanTransition(tasks[id].status, next) {
        return false;
      }
      tasks := tasks[id := tasks[id].(status := next)];
      return true;
    }
  }
}
