// Rebuilding a plan's dag after a restart
// (crates/hub-runtime/src/plan.rs).
module Plans {
  import opened Common
  import opened Graphs
  import opened Tasks
  import opened Runs
  import opened RunTheorems
  import opened Scheduler
  import Compilation

  // ---- Recovery ----

  datatype Outcome = Outcome(task: TaskId, worktreeTask: TaskId, baseSha: string)

  datatype PlanRuntime = PlanRuntime(plan: nat, baseSha: string, concurrency: nat, briefs: set<TaskId>)

  datatype RecoverError =
    | InvalidSettings
    | TaskSetChanged
    | ProvenanceMismatch
    | OutcomeMissing
    | Rejected(error: DagError)

  predicate IsHexDigit(c: char) {
    '0' <= c <= '9' || 'a' <= c <= 'f' || 'A' <= c <= 'F'
  }

  predicate SettingsOk(p: PlanRuntime) {
    && 1 <= p.concurrency <= 8
    && (|p.baseSha| == 40 || |p.baseSha| == 64)
    && forall i :: 0 <= i < |p.baseSha| ==> IsHexDigit(p.baseSha[i])
  }

  /** The saved tasks that belong to the plan, in order. */
  function OfPlan(plan: nat, tasks: seq<Task>): seq<Task> {
    if tasks == [] then []
    else if tasks[0].plan == Some(plan) then [tasks[0]] + OfPlan(plan, tasks[1..])
    else OfPlan(plan, tasks[1..])
  }

  /** Rows at positions in order. */
  ghost predicate Rows(plan: nat, saved: seq<Task>, mine: seq<Task>, at: seq<nat>) {
    && |at| == |mine|
    && (forall i :: 0 <= i < |at| ==> at[i] < |saved| && saved[at[i]] == mine[i] && mine[i].plan == Some(plan))
    && (forall i, j :: 0 <= i < j < |at| ==> at[i] < at[j])
  }

  /** `mine` stands in `saved` at the positions `at`, and there is no other row of the plan. */
  ghost predicate RowsOfPlan(plan: nat, saved: seq<Task>, mine: seq<Task>, at: seq<nat>) {
    && Rows(plan, saved, mine, at)
    && forall n :: 0 <= n < |saved| && saved[n].plan == Some(plan) ==> n in at
  }

  /** The plan's rows are exactly these, in the order they are saved in and as often. */
  lemma {:induction false} OfPlanIff(plan: nat, saved: seq<Task>, mine: seq<Task>, at: seq<nat>)
    requires RowsOfPlan(plan, saved, mine, at)
    ensures OfPlan(plan, saved) == mine
  {
    var first := if at == [] then 0 else at[0];
    if saved != [] {
      var tail := saved[1..];
      if saved[0].plan == Some(plan) {
        FirstRowIsMine(plan, saved, mine, at);
        OfPlanIff(plan, tail, mine[1..], Lowered(at[1..]));
        assert mine == [mine[0]] + mine[1..];
      } else {
        OtherRowFirst(plan, saved, mine, at);
        OfPlanIff(plan, tail, mine, Lowered(at));
      }
    }
  }

  /** The positions after the first row is gone. */
  function Lowered(at: seq<nat>): (r: seq<nat>)
    ensures |r| == |at|
    ensures forall i :: 0 <= i < |at| && at[i] > 0 ==> r[i] == at[i] - 1
  {
    seq(|at|, i requires 0 <= i < |at| => if at[i] > 0 then at[i] - 1 else 0)
  }

  lemma LoweredRows(plan: nat, saved: seq<Task>, mine: seq<Task>, at: seq<nat>)
    requires Rows(plan, saved, mine, at) && saved != [] && forall i :: 0 <= i < |at| ==> at[i] > 0
    ensures Rows(plan, saved[1..], mine, Lowered(at))
  {
    var low := Lowered(at);
    forall i | 0 <= i < |low|
      ensures low[i] < |saved[1..]| && saved[1..][low[i]] == mine[i]
    {
      assert low[i] == at[i] - 1;
    }
  }

  lemma TailRows(plan: nat, saved: seq<Task>, mine: seq<Task>, at: seq<nat>)
    requires Rows(plan, saved, mine, at) && at != []
    ensures Rows(plan, saved, mine[1..], at[1..]) && forall i :: 0 <= i < |at[1..]| ==> at[1..][i] > 0
  {
    forall i | 0 <= i < |at[1..]|
      ensures at[1..][i] > 0
    {
      assert at[0] < at[i + 1];
    }
  }

  lemma FirstRowIsMine(plan: nat, saved: seq<Task>, mine: seq<Task>, at: seq<nat>)
    requires RowsOfPlan(plan, saved, mine, at) && saved != [] && saved[0].plan == Some(plan)
    ensures at != [] && mine[0] == saved[0] && RowsOfPlan(plan, saved[1..], mine[1..], Lowered(at[1..]))
  {
    assert Rows(plan, saved, mine, at);
    var k :| 0 <= k < |at| && at[k] == 0;
    assert at[0] <= at[k];
    TailRows(plan, saved, mine, at);
    LoweredRows(plan, saved, mine[1..], at[1..]);
    forall n | n in at && n > 0
      ensures n in at[1..]
    {
      var i :| 0 <= i < |at| && at[i] == n;
      assert at[1..][i - 1] == n;
    }
    LoweredHolds(plan, saved, at, at[1..]);
  }

  lemma OtherRowFirst(plan: nat, saved: seq<Task>, mine: seq<Task>, at: seq<nat>)
    requires RowsOfPlan(plan, saved, mine, at) && saved != [] && saved[0].plan != Some(plan)
    ensures RowsOfPlan(plan, saved[1..], mine, Lowered(at))
  {
    forall i | 0 <= i < |at|
      ensures at[i] > 0
    {
      assert saved[at[i]].plan == Some(plan);
    }
    LoweredRows(plan, saved, mine, at);
    LoweredHolds(plan, saved, at, at);
  }

  lemma LoweredHolds(plan: nat, saved: seq<Task>, at: seq<nat>, rest: seq<nat>)
    requires saved != [] && forall n :: 0 <= n < |saved| && saved[n].plan == Some(plan) ==> n in at
    requires forall n :: n in at && n > 0 ==> n in rest
    ensures forall n :: 0 <= n < |saved| - 1 && saved[1..][n].plan == Some(plan) ==> n in Lowered(rest)
  {
    forall n | 0 <= n < |saved| - 1 && saved[1..][n].plan == Some(plan)
      ensures n in Lowered(rest)
    {
      assert saved[n + 1].plan == Some(plan);
      var i :| 0 <= i < |rest| && rest[i] == n + 1;
      assert Lowered(rest)[i] == n;
    }
  }

  lemma {:induction false} OfPlanMembers(plan: nat, saved: seq<Task>)
    ensures forall t :: t in OfPlan(plan, saved) <==> t in saved && t.plan == Some(plan)
  {
    if saved != [] {
      OfPlanMembers(plan, saved[1..]);
      assert saved == [saved[0]] + saved[1..];
    }
  }

  predicate ProvenanceOk(p: PlanRuntime, id: TaskId, o: Outcome) {
    o.task == id && o.worktreeTask == id && o.baseSha == p.baseSha
  }

  predicate RowOk(p: PlanRuntime, t: Task, outcomes: map<TaskId, Outcome>) {
    if t.id in outcomes then ProvenanceOk(p, t.id, outcomes[t.id]) else t.status != Completed
  }

  function RecoveredTask(t: Task, outcomes: map<TaskId, Outcome>): Task {
    t.(status := RecoveredStatus(t.status, t.id in outcomes))
  }

  /** What becomes of a saved task: its status alone may change, to Completed exactly if its outcome is
      saved, and to Pending if it was running or under review. */
  ghost predicate RecoveredFrom(was: Task, now: Task, hasOutcome: bool) {
    && now == was.(status := now.status)
    && (hasOutcome ==> now.status == Completed)
    && (!hasOutcome && was.status in {Running, Reviewing} ==> now.status == Pending)
    && (!hasOutcome && was.status !in {Running, Reviewing} ==> now.status == was.status)
  }

  function RecoveredTasks(tasks: seq<Task>, outcomes: map<TaskId, Outcome>): (r: seq<Task>)
    ensures |r| == |tasks| && forall i :: 0 <= i < |r| ==> r[i] == RecoveredTask(tasks[i], outcomes)
  {
    seq(|tasks|, i requires 0 <= i < |tasks| => RecoveredTask(tasks[i], outcomes))
  }

  /** What a saved plan must satisfy for `Recover` to rebuild its dag. */
  ghost predicate Recoverable(p: PlanRuntime, saved: seq<Task>, outcomes: map<TaskId, Outcome>) {
    var mine := OfPlan(p.plan, saved);
    && SettingsOk(p)
    && |mine| == |p.briefs| && (forall i :: 0 <= i < |mine| ==> mine[i].id in p.briefs)
    && (forall i :: 0 <= i < |mine| ==> RowOk(p, mine[i], outcomes))
    && WellFormed(RecoveredTasks(mine, outcomes))
    && Acyclic(GraphOf(ById(RecoveredTasks(mine, outcomes))))
  }

  method Recover(p: PlanRuntime, saved: seq<Task>, outcomes: map<TaskId, Outcome>)
    returns (r: Result<Dag, RecoverError>)
    ensures r.Ok? <==> Recoverable(p, saved, outcomes)
    ensures r.Ok? ==> fresh(r.value) && r.value.Valid()
    ensures r.Ok? ==> r.value.tasks == ById(RecoveredTasks(OfPlan(p.plan, saved), outcomes))
    // each task of the plan is there, recovered, and no other
    ensures r.Ok? ==> forall t :: t in saved && t.plan == Some(p.plan) ==>
      t.id in r.value.tasks && RecoveredFrom(t, r.value.tasks[t.id], t.id in outcomes)
    ensures r.Ok? ==> forall id :: id in r.value.tasks ==>
      exists t :: t in saved && t.plan == Some(p.plan) && t.id == id
  {
    hide RecoveredFrom;
    hide SettingsOk;
    var valid := CheckSettings(p);
    if !valid {
      return Err(InvalidSettings);
    }
    var mine := OfPlan(p.plan, saved);
    var tasks := mine;
    if |tasks| != |p.briefs| || exists i :: 0 <= i < |tasks| && tasks[i].id !in p.briefs {
      return Err(TaskSetChanged);
    }
    for i := 0 to |tasks|
      invariant |tasks| == |mine|
      invariant forall k :: 0 <= k < i ==> RowOk(p, mine[k], outcomes) && tasks[k] == RecoveredTask(mine[k], outcomes)
      invariant forall k :: i <= k < |tasks| ==> tasks[k] == mine[k]
    {
      var t := tasks[i];
      if t.id in outcomes {
        var outcome := outcomes[t.id];
        if outcome.task != t.id || outcome.worktreeTask != t.id || outcome.baseSha != p.baseSha {
          return Err(ProvenanceMismatch);
        }
        tasks := tasks[i := t.(status := Completed)];
      } else if t.status == Completed {
        return Err(OutcomeMissing);
      } else if t.status == Running || t.status == Reviewing {
        tasks := tasks[i := t.(status := Pending)];
      }
    }
    assert tasks == RecoveredTasks(mine, outcomes);
    var dag := Dag.New(tasks);
    match dag {
      case Ok(d) =>
        RecoveredTasksAre(p.plan, saved, outcomes);
        r := Ok(d);
      case Err(e) => r := Err(Rejected(e));
    }
  }

  method CheckSettings(p: PlanRuntime) returns (ok: bool)
    ensures ok <==> SettingsOk(p)
  {
    if p.concurrency < 1 || p.concurrency > 8 || (|p.baseSha| != 40 && |p.baseSha| != 64) {
      return false;
    }
    for i := 0 to |p.baseSha|
      invariant forall k :: 0 <= k < i ==> IsHexDigit(p.baseSha[k])
    {
      var c := p.baseSha[i];
      if !('0' <= c <= '9' || 'a' <= c <= 'f' || 'A' <= c <= 'F') {
        return false;
      }
    }
    ok := true;
  }

  lemma RecoveredTasksAre(plan: nat, saved: seq<Task>, outcomes: map<TaskId, Outcome>)
    requires WellFormed(RecoveredTasks(OfPlan(plan, saved), outcomes))
    ensures var tasks := ById(RecoveredTasks(OfPlan(plan, saved), outcomes));
      && (forall t :: t in saved && t.plan == Some(plan) ==>
            t.id in tasks && RecoveredFrom(t, tasks[t.id], t.id in outcomes))
      && forall id :: id in tasks ==> exists t :: t in saved && t.plan == Some(plan) && t.id == id
  {
    var mine := OfPlan(plan, saved);
    var list := RecoveredTasks(mine, outcomes);
    OfPlanMembers(plan, saved);
    ByIdKeys(list);
    hide OfPlan;
    forall t | t in saved && t.plan == Some(plan)
      ensures t.id in ById(list) && RecoveredFrom(t, ById(list)[t.id], t.id in outcomes)
    {
      assert t in mine;
      var i :| 0 <= i < |mine| && mine[i] == t;
      RecoveredTaskIs(t, outcomes);
      hide RecoveredFrom;
      hide RecoveredTask;
      WellFormedHas(list, i);
      hide ById;
      hide WellFormed;
      assert list[i] == RecoveredTask(t, outcomes);
    }
    hide ById;
    hide WellFormed;
    hide RecoveredFrom;
    forall id | id in ById(list)
      ensures exists t :: t in saved && t.plan == Some(plan) && t.id == id
    {
      var i :| 0 <= i < |list| && IdsOf(list)[i] == id;
      assert mine[i] in mine;
    }
  }

  lemma RecoveredTaskIs(t: Task, outcomes: map<TaskId, Outcome>)
    ensures RecoveredTask(t, outcomes).id == t.id
    ensures RecoveredFrom(t, RecoveredTask(t, outcomes), t.id in outcomes)
  {
  }

  lemma WellFormedHas(list: seq<Task>, i: nat)
    requires WellFormed(list) && i < |list|
    ensures list[i].id in ById(list) && ById(list)[list[i].id] == list[i]
  {
    hide ById;
    ByIdHolds(list, i);
  }

  // ---- Recovery after a crash ----

  /** The saved rows and outcomes are those of world `w` of a plan with graph `g`. */
  ghost predicate Saved(p: PlanRuntime, saved: seq<Task>, outcomes: map<TaskId, Outcome>, g: Graph<TaskId>, w: World) {
    var mine := OfPlan(p.plan, saved);
    && SettingsOk(p)
    && WellFormed(mine)
    && GraphOf(ById(mine)) == g && StatusesOf(ById(mine)) == w.stored
    && p.briefs == g.Keys
    && outcomes.Keys == w.outcomes
    && forall id :: id in outcomes ==> ProvenanceOk(p, id, outcomes[id])
  }

  lemma {:induction false} RecoveredById(tasks: seq<Task>, outcomes: map<TaskId, Outcome>)
    ensures ById(RecoveredTasks(tasks, outcomes)).Keys == ById(tasks).Keys
    ensures forall id :: id in ById(tasks) ==>
      ById(RecoveredTasks(tasks, outcomes))[id] == RecoveredTask(ById(tasks)[id], outcomes)
  {
    if tasks != [] {
      var init := tasks[..|tasks| - 1];
      RecoveredById(init, outcomes);
      assert RecoveredTasks(tasks, outcomes)[..|tasks| - 1] == RecoveredTasks(init, outcomes);
    }
  }

  lemma RecoveredGraph(tasks: seq<Task>, outcomes: map<TaskId, Outcome>)
    ensures GraphOf(ById(RecoveredTasks(tasks, outcomes))) == GraphOf(ById(tasks))
  {
    hide ById;
    hide RecoveredTasks;
    RecoveredById(tasks, outcomes);
  }

  lemma RecoveredStatuses(tasks: seq<Task>, outcomes: map<TaskId, Outcome>)
    ensures StatusesOf(ById(RecoveredTasks(tasks, outcomes))) == Recovered(StatusesOf(ById(tasks)), outcomes.Keys)
  {
    hide ById;
    hide RecoveredTasks;
    RecoveredById(tasks, outcomes);
    ByIdKeys(tasks);
  }

  lemma RecoveredWellFormed(tasks: seq<Task>, outcomes: map<TaskId, Outcome>)
    requires WellFormed(tasks)
    ensures WellFormed(RecoveredTasks(tasks, outcomes))
  {
    var r := RecoveredTasks(tasks, outcomes);
    RecoveredById(tasks, outcomes);
    assert IdsOf(r) == IdsOf(tasks);
    forall t | t in r
      ensures t.project == r[0].project && DependenciesOk(t, ById(r))
    {
      var i :| 0 <= i < |r| && r[i] == t;
      assert tasks[i] in tasks;
    }
  }

  lemma WellFormedCount(tasks: seq<Task>)
    requires WellFormed(tasks)
    ensures |tasks| == |GraphOf(ById(tasks)).Keys|
    ensures forall i :: 0 <= i < |tasks| ==> tasks[i].id in ById(tasks)
    ensures forall i :: 0 <= i < |tasks| ==> ById(tasks)[tasks[i].id] == tasks[i]
  {
    DistinctIdsIffNoneLost(tasks);
    forall i | 0 <= i < |tasks|
      ensures tasks[i].id in ById(tasks) && ById(tasks)[tasks[i].id] == tasks[i]
    {
      ByIdHolds(tasks, i);
    }
  }

  /** However a run was cut off, `Recover` rebuilds its dag from what is saved: the same tasks with
      the same dependencies, in exactly the statuses the crash step of the transition system gives.
      They lead to the same end exactly when no task that failed, or is about to, has a saved outcome. */
  lemma CrashedPlanRecovers(
    p: PlanRuntime, saved: seq<Task>, outcomes: map<TaskId, Outcome>,
    g: Graph<TaskId>, good: set<TaskId>, final: Statuses, concurrency: nat, ws: seq<World>, steps: seq<Step>, k: nat)
    requires IsRun(g, good, concurrency, ws, steps) && k < |ws|
    requires Startable(g, ws[0]) && Solves(g, good, ws[0].live, final)
    requires Saved(p, saved, outcomes, g, ws[k])
    ensures Recoverable(p, saved, outcomes)
    ensures var tasks := ById(RecoveredTasks(OfPlan(p.plan, saved), outcomes));
      && GraphOf(tasks) == g
      && StatusesOf(tasks) == Recovered(ws[k].stored, ws[k].outcomes)
      && (Solves(g, good, StatusesOf(tasks), final) <==> !Slipped(good, ws[k]))
      && Startable(g, World(StatusesOf(tasks), {}, ws[k].stored, ws[k].outcomes))
  {
    var mine := OfPlan(p.plan, saved);
    CrashKeepsEndOfRunIff(g, good, final, concurrency, ws, steps, k);
    RunStaysSound(g, good, final, concurrency, ws, steps, k);
    RecoveredGraph(mine, outcomes);
    RecoveredStatuses(mine, outcomes);
    RecoveredWellFormed(mine, outcomes);
    WellFormedCount(mine);
    forall i | 0 <= i < |mine|
      ensures RowOk(p, mine[i], outcomes)
    {
      assert ws[k].stored[mine[i].id] == mine[i].status;
    }
  }

  // ---- From compiling to recovering ----

  /** A compiled plan saved among tasks of other plans recovers to itself: the rows of its plan are its
      tasks and no others, and before anything ran they make up the same dag again. */
  lemma CompiledPlanRecovers(
    steps: seq<Compilation.PlanStep>, drawn: seq<TaskId>, project: nat, tasks: seq<Task>,
    p: PlanRuntime, saved: seq<Task>, at: seq<nat>)
    requires Compilation.Linked(steps, drawn, project, p.plan, tasks)
    requires WellFormed(tasks) && Acyclic(GraphOf(ById(tasks)))
    requires SettingsOk(p) && p.briefs == Elements(drawn)
    // the tasks are saved in order, and whatever stands between them is of another plan
    requires |at| == |tasks| && forall i :: 0 <= i < |at| ==> at[i] < |saved| && saved[at[i]] == tasks[i]
    requires forall i, j :: 0 <= i < j < |at| ==> at[i] < at[j]
    requires forall n :: 0 <= n < |saved| && n !in at ==> saved[n].plan != Some(p.plan)
    ensures OfPlan(p.plan, saved) == tasks
    ensures Recoverable(p, saved, map[])
    ensures ById(RecoveredTasks(OfPlan(p.plan, saved), map[])) == ById(tasks)
  {
    hide ById;
    hide WellFormed;
    hide Acyclic;
    hide OfPlan;
    hide RecoveredTasks;
    hide Distinct;
    hide Compilation.Linked;
    NothingToRecover(steps, drawn, project, p.plan, tasks);
    CompiledIds(steps, drawn, project, p.plan, tasks);
    assert RowsOfPlan(p.plan, saved, tasks, at);
    OfPlanIff(p.plan, saved, tasks, at);
    hide RowsOfPlan;
    forall i | 0 <= i < |tasks|
      ensures tasks[i].id in p.briefs && RowOk(p, tasks[i], map[])
    {
      assert tasks[i].id == drawn[i];
    }
  }

  lemma CompiledIds(
    steps: seq<Compilation.PlanStep>, drawn: seq<TaskId>, project: nat, plan: nat, tasks: seq<Task>)
    requires Compilation.Linked(steps, drawn, project, plan, tasks)
    ensures |tasks| == |drawn| == |Elements(drawn)| && forall i :: 0 <= i < |tasks| ==> tasks[i].id == drawn[i]
  {
    Compilation.LinkedIds(steps, drawn, project, plan, tasks);
    DistinctIffCardinality(drawn);
    hide ById;
    hide Distinct;
    hide Compilation.Pairs;
    hide Compilation.Compiled;
    assert forall i :: 0 <= i < |tasks| ==> IdsOf(tasks)[i] == drawn[i];
  }

  lemma NothingToRecover(
    steps: seq<Compilation.PlanStep>, drawn: seq<TaskId>, project: nat, plan: nat, tasks: seq<Task>)
    requires Compilation.Linked(steps, drawn, project, plan, tasks)
    ensures RecoveredTasks(tasks, map[]) == tasks
    ensures forall i :: 0 <= i < |tasks| ==> tasks[i].status == Pending && tasks[i].plan == Some(plan)
  {
    hide Compilation.Pairs;
    hide Compilation.StepsKnown;
    hide Distinct;
  }
}
