// The execution loop: start ready tasks up to a limit, wait for any job, book
// its result, repeat (crates/hub-scheduler/src/lib.rs,
// crates/hub-runtime/src/workers.rs).
//
// The loop is proved to take only steps of the transition system `Runs`, so
// everything shown about runs holds of it.  Which ready tasks are taken and
// which job finishes first is left to nondeterministic choice.
module Execution {
  import opened Common
  import opened Graphs
  import opened Tasks
  import opened Runs
  import opened RunTheorems
  import opened Scheduler

  /** The task runner with its durable side: task rows and saved outcomes.
      `good` fixes which runs succeed, `saves` which of the others fail only after saving. */
  class Workers {
    const good: set<TaskId>
    const saves: set<TaskId>
    var rows: TaskMap
    var outcomes: set<TaskId>

    constructor (good: set<TaskId>, saves: set<TaskId>, rows: TaskMap, outcomes: set<TaskId>)
      ensures this.good == good && this.saves == saves && this.rows == rows && this.outcomes == outcomes
    {
      this.good, this.saves, this.rows, this.outcomes := good, saves, rows, outcomes;
    }

    /** A run saves its outcome before it reports success; it may also fail after saving. */
    method Run(task: Task) returns (ok: bool)
      modifies this`outcomes
      ensures ok <==> task.id in good
      ensures outcomes == if task.id in good + saves then old(outcomes) + {task.id} else old(outcomes)
    {
      if task.id in good + saves {
        outcomes := outcomes + {task.id};
      }
      ok := task.id in good;
    }

    /** Saves status and attempts into the task's row and leaves the rest of the row alone. */
    method Changed(task: Task)
      modifies this`rows
      ensures StatusesOf(rows) == StatusesOf(old(rows))[task.id := task.status]
      ensures RowSaved(old(rows), rows, task)
    {
      var row := if task.id in rows then rows[task.id].(status := task.status, attempts := task.attempts) else task;
      rows := rows[task.id := row];
    }
  }

  /** The task's status and attempts are in its row; the rest of the row, and all other rows, are as before. */
  ghost predicate RowSaved(was: TaskMap, now: TaskMap, task: Task) {
    && now.Keys == was.Keys + {task.id}
    && now[task.id] ==
      (if task.id in was then was[task.id] else task).(status := task.status, attempts := task.attempts)
    && forall id :: id in was && id != task.id ==> now[id] == was[id]
  }

  /** Rows differ in status and attempts at most. */
  ghost predicate RowsKept(was: TaskMap, now: TaskMap) {
    forall id :: id in was ==>
      id in now && now[id] == was[id].(status := now[id].status, attempts := now[id].attempts)
  }

  lemma NoRowsChanged(rows: TaskMap)
    ensures RowsKept(rows, rows)
  {
  }

  lemma RowsStayKept(first: TaskMap, was: TaskMap, now: TaskMap, task: Task)
    requires RowsKept(first, was) && RowSaved(was, now, task)
    ensures RowsKept(first, now)
  {
  }

  lemma RowsKeptOnward(first: TaskMap, was: TaskMap, now: TaskMap)
    requires RowsKept(first, was) && RowsKept(was, now)
    ensures RowsKept(first, now)
  {
  }

  lemma SavedTwice(was: TaskMap, between: TaskMap, now: TaskMap, first: Task, second: Task)
    requires RowSaved(was, between, first) && RowSaved(between, now, second) && first.id == second.id
    requires second == first.(status := second.status, attempts := second.attempts)
    ensures RowSaved(was, now, second)
  {
  }

  // ---- The loop's position in the transition system ----

  datatype Trace = Trace(ws: seq<World>, steps: seq<Step>) {
    ghost function Then(step: Step, w: World): Trace {
      Trace(ws + [w], steps + [step])
    }
  }

  /** A task that has not begun: the only kind the loop changes. */
  predicate Open(s: Status) {
    s.Pending? || s.Blocked? || s.Ready?
  }

  /** What stays fixed during one call. */
  datatype Setting = Setting(
    g: Graph<TaskId>, good: set<TaskId>, final: Statuses, concurrency: nat, before: TaskMap, start: World)
  {
    /** `trace` is a run from the start of the call that has arrived at `w`. */
    ghost predicate At(trace: Trace, w: World) {
      && IsRun(g, good, concurrency, trace.ws, trace.steps)
      && trace.ws[0] == start && trace.ws[|trace.ws| - 1] == w
      && (forall k :: 0 <= k < |trace.steps| ==> !trace.steps[k].CrashAndRecover?)
      && Sound(g, good, final, concurrency, w)
    }

    /** One task is as given but for status and attempts; attempts count starts. */
    ghost predicate KeptTask(was: Task, t: Task) {
      && t == was.(status := t.status, attempts := t.attempts)
      && (t.status == was.status || Open(was.status))
      && !was.status.Running? && !was.status.Reviewing?
      && t.attempts == was.attempts + if Open(was.status) && Begun(t.status) then 1 else 0
    }

    ghost predicate Kept(tasks: TaskMap) {
      && KeyedById(before) && Closed(g) && Acyclic(g) && g == GraphOf(before)
      && tasks.Keys == before.Keys
      && forall id :: id in before ==> KeptTask(before[id], tasks[id])
    }
  }

  function WorldOf(tasks: TaskMap, jobs: set<TaskId>, rows: TaskMap, outcomes: set<TaskId>): World {
    World(StatusesOf(tasks), jobs, StatusesOf(rows), outcomes)
  }

  lemma Advance(s: Setting, trace: Trace, w: World, step: Step, w': World)
    requires s.At(trace, w) && Steps(s.g, s.good, s.concurrency, w, step, w') && !step.CrashAndRecover?
    ensures s.At(trace.Then(step, w'), w')
  {
    hide Sound;
    hide Enabled;
    StepKeepsSound(s.g, s.good, s.final, s.concurrency, w, step, w');
  }

  lemma StatusUpdate(tasks: TaskMap, id: TaskId, t: Task)
    ensures StatusesOf(tasks[id := t]) == StatusesOf(tasks)[id := t.status]
  {
  }

  lemma KeptGraph(s: Setting, tasks: TaskMap)
    requires s.Kept(tasks)
    ensures GraphOf(tasks) == s.g && KeyedById(tasks) && Closed(s.g)
  {
  }

  lemma KeptTaskUpdate(s: Setting, was: Task, t: Task, next: Status)
    requires s.KeptTask(was, t)
    requires t.status.Ready? || t.status.Running? || t.status.Reviewing?
    requires Begun(next)
    ensures s.KeptTask(was, t.(status := next, attempts := t.attempts + if t.status.Ready? then 1 else 0))
  {
  }

  lemma KeptUpdate(s: Setting, tasks: TaskMap, id: TaskId, next: Status)
    requires s.Kept(tasks) && id in tasks
    requires tasks[id].status.Ready? || tasks[id].status.Running? || tasks[id].status.Reviewing?
    requires Begun(next)
    ensures s.Kept(tasks[id := tasks[id].(
              status := next, attempts := tasks[id].attempts + if tasks[id].status.Ready? then 1 else 0)])
  {
    hide Setting.KeptTask;
    KeptTaskUpdate(s, s.before[id], tasks[id], next);
  }

  /** Which step starts, joins or settles a task, by the status it moves to. */
  ghost function StepTo(id: TaskId, next: Status): Step
    requires Begun(next)
  {
    match next
    case Running => Start(id)
    case Reviewing => JoinOk(id)
    case Completed => Settle(id)
    case Failed => JoinErr(id)
  }

  /** The books of one move: the new tasks and rows are where the matching step of the run leads. */
  lemma MoveIsStep(
    s: Setting, trace: Trace, tasks: TaskMap, jobs: set<TaskId>, rows: TaskMap, outcomes: set<TaskId>,
    id: TaskId, next: Status, task: Task, rows': TaskMap)
    returns (trace': Trace, jobs': set<TaskId>)
    requires s.Kept(tasks) && s.At(trace, WorldOf(tasks, jobs, rows, outcomes)) && id in tasks && Begun(next)
    requires Enabled(s.g, s.good, s.concurrency, WorldOf(tasks, jobs, rows, outcomes), StepTo(id, next))
    requires task == tasks[id].(
      status := next, attempts := tasks[id].attempts + if tasks[id].status.Ready? then 1 else 0)
    requires StatusesOf(rows') == StatusesOf(rows)[id := next]
    ensures jobs' == if next.Running? then jobs + {id} else jobs - {id}
    ensures s.Kept(tasks[id := task]) && s.At(trace', WorldOf(tasks[id := task], jobs', rows', outcomes))
  {
    hide Solves;
    hide IsRun;
    hide Acyclic;
    var w := WorldOf(tasks, jobs, rows, outcomes);
    jobs' := if next.Running? then jobs + {id} else jobs - {id};
    var w' := WorldOf(tasks[id := task], jobs', rows', outcomes);
    KeptUpdate(s, tasks, id, next);
    MoveIsAfter(s, tasks, jobs, rows, outcomes, id, next, task, rows');
    Advance(s, trace, w, StepTo(id, next), w');
    trace' := trace.Then(StepTo(id, next), w');
  }

  lemma MoveIsAfter(
    s: Setting, tasks: TaskMap, jobs: set<TaskId>, rows: TaskMap, outcomes: set<TaskId>,
    id: TaskId, next: Status, task: Task, rows': TaskMap)
    requires Begun(next) && id in tasks && task.status == next
    requires Sound(s.g, s.good, s.final, s.concurrency, WorldOf(tasks, jobs, rows, outcomes))
    requires Enabled(s.g, s.good, s.concurrency, WorldOf(tasks, jobs, rows, outcomes), StepTo(id, next))
    requires StatusesOf(rows') == StatusesOf(rows)[id := next]
    ensures WorldOf(tasks[id := task], if next.Running? then jobs + {id} else jobs - {id}, rows', outcomes)
         == After(s.g, WorldOf(tasks, jobs, rows, outcomes), StepTo(id, next))
  {
    hide Solves;
    hide FlightsAllowed;
    hide OutcomesMatch;
    StatusUpdate(tasks, id, task);
    if next.Completed? {
      assert tasks[id].status == Reviewing;
      assert jobs - {id} == jobs;
    }
  }

  // ---- The loop ----

  lemma LaunchEnabled(s: Setting, trace: Trace, w: World, id: TaskId)
    requires s.At(trace, w) && id in w.live && w.live[id].Ready? && |w.jobs| < s.concurrency
    ensures Enabled(s.g, s.good, s.concurrency, w, Start(id))
  {
  }

  /** Starts one ready task. */
  method Launch(ghost s: Setting, dag: Dag, workers: Workers, jobs: set<TaskId>, id: TaskId, ghost trace: Trace)
    returns (ghost trace': Trace)
    requires s.Kept(dag.tasks) && s.At(trace, WorldOf(dag.tasks, jobs, workers.rows, workers.outcomes))
    requires id in dag.tasks && dag.tasks[id].status == Ready && |jobs| < s.concurrency
    modifies dag, workers`rows
    ensures s.Kept(dag.tasks) && s.At(trace', WorldOf(dag.tasks, jobs + {id}, workers.rows, workers.outcomes))
    ensures StatusesOf(dag.tasks) == old(StatusesOf(dag.tasks))[id := Running]
    ensures id in dag.tasks && dag.tasks[id].id == id && RowSaved(old(workers.rows), workers.rows, dag.tasks[id])
  {
    hide RowSaved;
    hide Setting.At;
    hide Setting.Kept;
    hide Enabled;
    KeptGraph(s, dag.tasks);
    LaunchEnabled(s, trace, WorldOf(dag.tasks, jobs, workers.rows, workers.outcomes), id);
    ghost var tasks, rows := dag.tasks, workers.rows;
    var moved := dag.Transition(id, Running);
    assert moved;
    var task := dag.tasks[id].(attempts := dag.tasks[id].attempts + 1);
    dag.tasks := dag.tasks[id := task];
    assert dag.tasks == tasks[id := task];
    workers.Changed(task);
    ghost var jobs';
    trace', jobs' := MoveIsStep(s, trace, tasks, jobs, rows, workers.outcomes, id, Running, task, workers.rows);
    StatusUpdate(tasks, id, task);
  }

  lemma MoveEnabled(s: Setting, trace: Trace, w: World, step: Step)
    requires s.At(trace, w) && (step.JoinOk? || step.Settle? || step.JoinErr?)
    requires Enabled(s.g, s.good, s.concurrency, w, step)
    ensures step.id in w.live && (step.Settle? || w.live[step.id] == Running)
    ensures step.Settle? ==> w.live[step.id] == Reviewing
    ensures step.JoinOk? ==> CanTransition(w.live[step.id], Reviewing)
    ensures step.JoinErr? ==> CanTransition(w.live[step.id], Failed)
  {
  }

  /** Moves a begun task along and saves its row. */
  method MoveAndSave(
    ghost s: Setting, dag: Dag, workers: Workers, ghost jobs: set<TaskId>, id: TaskId, next: Status, ghost trace: Trace)
    returns (ghost trace': Trace)
    requires s.Kept(dag.tasks) && s.At(trace, WorldOf(dag.tasks, jobs, workers.rows, workers.outcomes))
    requires next.Reviewing? || next.Completed? || next.Failed?
    requires Enabled(
      s.g, s.good, s.concurrency, WorldOf(dag.tasks, jobs, workers.rows, workers.outcomes), StepTo(id, next))
    modifies dag, workers`rows
    ensures id in old(dag.tasks)
    ensures s.Kept(dag.tasks) && s.At(trace', WorldOf(dag.tasks, jobs - {id}, workers.rows, workers.outcomes))
    ensures StatusesOf(dag.tasks) == old(StatusesOf(dag.tasks))[id := next]
    ensures dag.tasks == old(dag.tasks)[id := old(dag.tasks)[id].(status := next)] && dag.tasks[id].id == id
    ensures RowSaved(old(workers.rows), workers.rows, dag.tasks[id])
  {
    hide RowSaved;
    hide Setting.At;
    hide Setting.Kept;
    hide Enabled;
    KeptGraph(s, dag.tasks);
    MoveEnabled(s, trace, WorldOf(dag.tasks, jobs, workers.rows, workers.outcomes), StepTo(id, next));
    ghost var tasks, rows := dag.tasks, workers.rows;
    var moved := dag.Transition(id, next);
    assert moved;
    workers.Changed(dag.tasks[id]);
    ghost var jobs';
    trace', jobs' := MoveIsStep(s, trace, tasks, jobs, rows, workers.outcomes, id, next, dag.tasks[id], workers.rows);
    StatusUpdate(tasks, id, dag.tasks[id]);
  }

  /** A running job's outcome is saved. */
  lemma OutcomeSaved(s: Setting, trace: Trace, w: World, id: TaskId) returns (trace': Trace)
    requires s.At(trace, w) && id in w.jobs
    ensures s.At(trace', w.(outcomes := w.outcomes + {id}))
    ensures id in s.good ==> Enabled(s.g, s.good, s.concurrency, w.(outcomes := w.outcomes + {id}), JoinOk(id))
  {
    var w' := After(s.g, w, SaveOutcome(id));
    Advance(s, trace, w, SaveOutcome(id), w');
    trace' := trace.Then(SaveOutcome(id), w');
  }

  lemma SettleEnabled(s: Setting, trace: Trace, w: World, id: TaskId)
    requires s.At(trace, w) && id in w.live && w.live[id].Reviewing?
    ensures Enabled(s.g, s.good, s.concurrency, w, Settle(id))
  {
  }

  lemma JoinErrEnabled(s: Setting, trace: Trace, w: World, id: TaskId)
    requires s.At(trace, w) && id in w.jobs && id !in s.good
    ensures Enabled(s.g, s.good, s.concurrency, w, JoinErr(id))
  {
  }

  lemma JobIsRunning(s: Setting, trace: Trace, w: World, id: TaskId)
    requires s.At(trace, w) && id in w.jobs
    ensures id in w.live && w.live[id] == Running
  {
  }

  /** Runs the job `id` to its end. */
  method RunJob(
    ghost s: Setting, workers: Workers, tasks: TaskMap, ghost jobs: set<TaskId>, id: TaskId, ghost trace: Trace)
    returns (ok: bool, ghost trace': Trace)
    requires s.Kept(tasks) && s.At(trace, WorldOf(tasks, jobs, workers.rows, workers.outcomes))
    requires id in jobs && id in tasks && s.good == workers.good
    modifies workers`outcomes
    ensures s.At(trace', WorldOf(tasks, jobs, workers.rows, workers.outcomes))
    ensures ok <==> id in s.good
    ensures ok ==>
      Enabled(s.g, s.good, s.concurrency, WorldOf(tasks, jobs, workers.rows, workers.outcomes), JoinOk(id))
  {
    hide Setting.At;
    hide Enabled;
    hide Setting.Kept;
    KeptGraph(s, tasks);
    ghost var w := WorldOf(tasks, jobs, workers.rows, workers.outcomes);
    ok := workers.Run(tasks[id]);
    trace' := trace;
    if id in workers.good + workers.saves {
      trace' := OutcomeSaved(s, trace, w, id);
    }
  }

  /** Waits for the job `id` and books its result. */
  method Join(ghost s: Setting, dag: Dag, workers: Workers, ghost jobs: set<TaskId>, id: TaskId, ghost trace: Trace)
    returns (ghost trace': Trace)
    requires s.Kept(dag.tasks) && s.At(trace, WorldOf(dag.tasks, jobs, workers.rows, workers.outcomes))
    requires id in jobs && s.good == workers.good
    modifies dag, workers`rows, workers`outcomes
    ensures s.Kept(dag.tasks) && s.At(trace', WorldOf(dag.tasks, jobs - {id}, workers.rows, workers.outcomes))
    ensures id in old(dag.tasks) && old(dag.tasks)[id].status == Running
    ensures StatusesOf(dag.tasks) == old(StatusesOf(dag.tasks))[id := OfRun(s.good, id)]
    ensures id in dag.tasks && RowSaved(old(workers.rows), workers.rows, dag.tasks[id])
  {
    hide RowSaved;
    hide Setting.At;
    hide Setting.Kept;
    hide Enabled;
    KeptGraph(s, dag.tasks);
    ghost var w := WorldOf(dag.tasks, jobs, workers.rows, workers.outcomes);
    JobIsRunning(s, trace, w, id);
    var ok;
    ok, trace' := RunJob(s, workers, dag.tasks, jobs, id, trace);
    if ok {
      trace' := Finalize(s, dag, workers, jobs, id, trace');
    } else {
      JoinErrEnabled(s, trace', WorldOf(dag.tasks, jobs, workers.rows, workers.outcomes), id);
      trace' := MoveAndSave(s, dag, workers, jobs, id, Failed, trace');
    }
  }

  /** A successful job is reviewed and completed. */
  method Finalize(ghost s: Setting, dag: Dag, workers: Workers, ghost jobs: set<TaskId>, id: TaskId, ghost trace: Trace)
    returns (ghost trace': Trace)
    requires s.Kept(dag.tasks) && s.At(trace, WorldOf(dag.tasks, jobs, workers.rows, workers.outcomes))
    requires Enabled(
      s.g, s.good, s.concurrency, WorldOf(dag.tasks, jobs, workers.rows, workers.outcomes), JoinOk(id))
    modifies dag, workers`rows
    ensures s.Kept(dag.tasks) && s.At(trace', WorldOf(dag.tasks, jobs - {id}, workers.rows, workers.outcomes))
    ensures id in old(dag.tasks) && id in dag.tasks
    ensures StatusesOf(dag.tasks) == old(StatusesOf(dag.tasks))[id := Completed]
    ensures RowSaved(old(workers.rows), workers.rows, dag.tasks[id])
  {
    hide RowSaved;
    hide Setting.At;
    hide Setting.Kept;
    hide Enabled;
    ghost var rows := workers.rows;
    trace' := MoveAndSave(s, dag, workers, jobs, id, Reviewing, trace);
    ghost var between, reviewing := workers.rows, dag.tasks[id];
    SettleEnabled(s, trace', WorldOf(dag.tasks, jobs - {id}, workers.rows, workers.outcomes), id);
    trace' := MoveAndSave(s, dag, workers, jobs - {id}, id, Completed, trace');
    assert jobs - {id} - {id} == jobs - {id};
    SavedTwice(rows, between, workers.rows, reviewing, dag.tasks[id]);
  }

  /** Any `count` members of `from`, or all of them if there are fewer. */
  method TakeAny(from: set<TaskId>, count: nat) returns (taken: set<TaskId>)
    ensures taken <= from && |taken| <= count
    ensures |taken| == count || taken == from
  {
    taken := {};
    while |taken| < count && taken != from
      invariant taken <= from && |taken| <= count
      decreases from - taken
    {
      assert from - taken != {} by {
        assert from == taken + (from - taken);
      }
      var id :| id in from - taken;
      taken := taken + {id};
    }
  }

  ghost predicate NoneReviewing(s: Statuses) {
    forall id :: id in s ==> !s[id].Reviewing?
  }

  ghost predicate AllReady(ids: set<TaskId>, s: Statuses) {
    forall id :: id in ids ==> id in s && s[id].Ready?
  }

  /** The tasks whose end is still open: joining a job shrinks this set and nothing grows it. */
  ghost function Unfinished(s: Statuses): set<TaskId> {
    set id | id in s && !s[id].Completed? && !s[id].Failed? && !s[id].Cancelled?
  }

  lemma LimitHolds(s: Setting, trace: Trace, w: World)
    requires s.At(trace, w)
    ensures |w.jobs| <= s.concurrency
  {
  }

  lemma RefreshStep(s: Setting, trace: Trace, before: TaskMap, after: TaskMap, w: World) returns (trace': Trace)
    requires s.Kept(before) && s.At(trace, w) && w.live == StatusesOf(before)
    requires StatusesOf(after) == Refreshed(GraphOf(before), StatusesOf(before))
    requires after.Keys == before.Keys
    requires forall id :: id in after ==> after[id] == before[id].(status := after[id].status)
    ensures s.Kept(after) && s.At(trace', w.(live := StatusesOf(after)))
    ensures Unfinished(StatusesOf(after)) == Unfinished(StatusesOf(before))
    ensures NoneReviewing(StatusesOf(before)) ==> NoneReviewing(StatusesOf(after))
  {
    hide Setting.At;
    hide Setting.Kept;
    hide Enabled;
    KeptGraph(s, before);
    RefreshKeepsKept(s, before, after);
    RefreshKeepsUnfinished(s.g, StatusesOf(before));
    var w' := w.(live := StatusesOf(after));
    RefreshEnabled(s, trace, w);
    Advance(s, trace, w, Refresh, w');
    trace' := trace.Then(Refresh, w');
  }

  lemma RefreshKeepsUnfinished(g: Graph<TaskId>, live: Statuses)
    requires Closed(g) && live.Keys == g.Keys
    ensures Unfinished(Refreshed(g, live)) == Unfinished(live)
    ensures NoneReviewing(live) ==> NoneReviewing(Refreshed(g, live))
  {
  }

  lemma RefreshEnabled(s: Setting, trace: Trace, w: World)
    requires s.At(trace, w)
    ensures Enabled(s.g, s.good, s.concurrency, w, Refresh)
  {
  }

  lemma RefreshKeepsKept(s: Setting, before: TaskMap, after: TaskMap)
    requires s.Kept(before) && after.Keys == before.Keys && GraphOf(before) == s.g
    requires StatusesOf(after) == Refreshed(s.g, StatusesOf(before))
    requires forall id :: id in after ==> after[id] == before[id].(status := after[id].status)
    ensures s.Kept(after)
  {
    hide RefreshedStatus;
    hide Acyclic;
    hide Setting.KeptTask;
    forall id | id in s.before
      ensures s.KeptTask(s.before[id], after[id])
    {
      assert after[id].status == StatusesOf(after)[id] == RefreshedStatus(s.g, StatusesOf(before), id);
      RefreshStaysOpen(s.g, StatusesOf(before), id);
      KeptTaskRefresh(s, s.before[id], before[id], after[id].status);
    }
  }

  lemma KeptTaskRefresh(s: Setting, was: Task, t: Task, next: Status)
    requires s.KeptTask(was, t) && (next == t.status || (Open(t.status) && Open(next)))
    ensures s.KeptTask(was, t.(status := next))
  {
  }

  lemma RefreshStaysOpen(g: Graph<TaskId>, live: Statuses, id: TaskId)
    requires Closed(g) && live.Keys == g.Keys && id in g
    ensures RefreshedStatus(g, live, id) == live[id] || (Open(live[id]) && Open(RefreshedStatus(g, live, id)))
  {
  }

  /** Starting tasks neither ends one, nor sends one to review, nor touches more of a row than it should. */
  ghost predicate Onward(was: TaskMap, first: TaskMap, tasks: TaskMap, rows: TaskMap) {
    && Unfinished(StatusesOf(tasks)) == Unfinished(StatusesOf(was))
    && (NoneReviewing(StatusesOf(was)) ==> NoneReviewing(StatusesOf(tasks)))
    && RowsKept(first, rows)
  }

  lemma NotYetOnward(tasks: TaskMap, rows: TaskMap)
    ensures Onward(tasks, rows, tasks, rows)
  {
  }

  /** Starts ready tasks, in any order, until the limit is reached or none is left. */
  method Fill(ghost s: Setting, dag: Dag, workers: Workers, running: set<TaskId>, concurrency: nat, ghost start: Trace)
    returns (jobs: set<TaskId>, ghost trace: Trace)
    requires s.Kept(dag.tasks) && s.At(start, WorldOf(dag.tasks, running, workers.rows, workers.outcomes))
    requires s.concurrency == concurrency > 0
    modifies dag, workers`rows
    ensures s.Kept(dag.tasks) && s.At(trace, WorldOf(dag.tasks, jobs, workers.rows, workers.outcomes))
    ensures Onward(old(dag.tasks), old(workers.rows), dag.tasks, workers.rows)
    ensures jobs == {} ==> dag.tasks == old(dag.tasks) && NoneReady(dag.tasks)
  {
    hide Setting.At;
    hide Setting.Kept;
    hide AllReady;
    hide Onward;
    hide NoneReady;
    hide StatusesOf;
    jobs, trace := running, start;
    LimitHolds(s, start, WorldOf(dag.tasks, jobs, workers.rows, workers.outcomes));
    NotYetOnward(dag.tasks, workers.rows);
    ghost var was, first := dag.tasks, workers.rows;
    var left := PickReady(dag.tasks, concurrency - |jobs|);
    ghost var picked := left;
    while left != {}
      invariant s.Kept(dag.tasks) && s.At(trace, WorldOf(dag.tasks, jobs, workers.rows, workers.outcomes))
      invariant |jobs| + |left| <= concurrency && AllReady(left, StatusesOf(dag.tasks))
      invariant Onward(was, first, dag.tasks, workers.rows)
      invariant jobs == {} ==> dag.tasks == was && left == picked && running == {}
      decreases left
    {
      var id :| id in left;
      trace := LaunchNext(s, dag, workers, jobs, left, id, was, first, trace);
      left := left - {id};
      jobs := jobs + {id};
    }
  }

  ghost predicate NoneReady(tasks: TaskMap) {
    forall id :: id in tasks ==> !tasks[id].status.Ready?
  }

  /** Ready tasks, as many as there is room for. */
  method PickReady(tasks: TaskMap, room: nat) returns (picked: set<TaskId>)
    ensures |picked| <= room && AllReady(picked, StatusesOf(tasks))
    ensures room > 0 && picked == {} ==> NoneReady(tasks)
  {
    var ready := set id | id in tasks && tasks[id].status == Ready;
    picked := TakeAny(ready, room);
    ReadyAre(tasks, picked);
    assert forall id :: id in tasks && tasks[id].status.Ready? ==> id in ready;
  }

  /** Starts one of the tasks picked. */
  method LaunchNext(
    ghost s: Setting, dag: Dag, workers: Workers, jobs: set<TaskId>, ghost left: set<TaskId>, id: TaskId,
    ghost was: TaskMap, ghost first: TaskMap, ghost trace: Trace)
    returns (ghost trace': Trace)
    requires s.Kept(dag.tasks) && s.At(trace, WorldOf(dag.tasks, jobs, workers.rows, workers.outcomes))
    requires id in left && AllReady(left, StatusesOf(dag.tasks)) && |jobs| < s.concurrency
    requires Onward(was, first, dag.tasks, workers.rows)
    modifies dag, workers`rows
    ensures s.Kept(dag.tasks) && s.At(trace', WorldOf(dag.tasks, jobs + {id}, workers.rows, workers.outcomes))
    ensures AllReady(left - {id}, StatusesOf(dag.tasks))
    ensures Onward(was, first, dag.tasks, workers.rows)
  {
    hide Setting.At;
    hide Setting.Kept;
    hide AllReady;
    hide Unfinished;
    hide NoneReviewing;
    hide RowsKept;
    hide RowSaved;
    ghost var now, rows := StatusesOf(dag.tasks), workers.rows;
    AllReadyBut(left, now, id);
    trace' := Launch(s, dag, workers, jobs, id, trace);
    RowsStayKept(first, rows, workers.rows, dag.tasks[id]);
    LaunchKeeps(now, StatusesOf(dag.tasks), id, left - {id});
  }

  lemma ReadyAre(tasks: TaskMap, ids: set<TaskId>)
    requires forall id :: id in ids ==> id in tasks && tasks[id].status == Ready
    ensures AllReady(ids, StatusesOf(tasks))
  {
  }

  lemma AllReadyBut(ids: set<TaskId>, s: Statuses, id: TaskId)
    requires AllReady(ids, s) && id in ids
    ensures id in s && s[id].Ready? && AllReady(ids - {id}, s)
  {
  }

  lemma LaunchKeeps(was: Statuses, now: Statuses, id: TaskId, left: set<TaskId>)
    requires id in was && was[id].Ready? && now == was[id := Running]
    ensures Unfinished(now) == Unfinished(was)
    ensures NoneReviewing(was) ==> NoneReviewing(now)
    ensures id !in left && AllReady(left, was) ==> AllReady(left, now)
  {
  }

  lemma JoinKeeps(was: Statuses, now: Statuses, id: TaskId, end: Status)
    requires id in was && was[id].Running? && (end.Completed? || end.Failed?) && now == was[id := end]
    ensures Unfinished(now) == Unfinished(was) - {id} && id in Unfinished(was)
    ensures NoneReviewing(was) ==> NoneReviewing(now)
  {
  }

  datatype ExecuteError = ConcurrencyOutOfRange

  /** A dag and rows that `Execute` may be handed. */
  ghost predicate Executable(dag: Dag, workers: Workers)
    reads dag, workers
  {
    KeyedById(dag.tasks)
    && Startable(GraphOf(dag.tasks), WorldOf(dag.tasks, {}, workers.rows, workers.outcomes))
  }

  lemma SettingFor(tasks: TaskMap, rows: TaskMap, outcomes: set<TaskId>, good: set<TaskId>, concurrency: nat)
    returns (s: Setting, trace: Trace)
    requires KeyedById(tasks) && Startable(GraphOf(tasks), WorldOf(tasks, {}, rows, outcomes))
    ensures s.g == GraphOf(tasks) && s.good == good && s.concurrency == concurrency && s.before == tasks
    ensures s.start == WorldOf(tasks, {}, rows, outcomes)
    ensures Solves(s.g, good, StatusesOf(tasks), s.final)
    ensures s.Kept(tasks) && s.At(trace, s.start) && NoneReviewing(StatusesOf(tasks))
  {
    var w := WorldOf(tasks, {}, rows, outcomes);
    var final := SolutionExists(GraphOf(tasks), good, StatusesOf(tasks));
    s := Setting(GraphOf(tasks), good, final, concurrency, tasks, w);
    trace := Trace([w], []);
    StartIsSound(s.g, good, final, concurrency, w);
    NothingRuns(s.g, w);
    hide Sound;
    hide Solves;
    StartIsKept(s, tasks);
  }

  lemma NothingRuns(g: Graph<TaskId>, w: World)
    requires Startable(g, w)
    ensures Closed(g) && Acyclic(g)
    ensures forall id :: id in w.live ==> !w.live[id].Running? && !w.live[id].Reviewing?
  {
    hide Acyclic;
    hide FlightsAllowed;
  }

  lemma StartIsKept(s: Setting, tasks: TaskMap)
    requires s.before == tasks && s.g == GraphOf(tasks) && KeyedById(tasks) && Closed(s.g) && Acyclic(s.g)
    requires var now := StatusesOf(tasks); forall id :: id in now ==> !now[id].Running? && !now[id].Reviewing?
    ensures s.Kept(tasks) && NoneReviewing(StatusesOf(tasks))
  {
    hide Acyclic;
    hide Closed;
    assert forall id :: id in tasks ==> tasks[id].status == StatusesOf(tasks)[id];
  }

  /** With no job left and nothing to start, the statuses are final. */
  lemma DoneIsFinal(s: Setting, trace: Trace, tasks: TaskMap, rows: TaskMap, outcomes: set<TaskId>, waiting: Statuses)
    requires s.Kept(tasks) && s.At(trace, WorldOf(tasks, {}, rows, outcomes))
    requires waiting.Keys == s.g.Keys && StatusesOf(tasks) == Refreshed(s.g, waiting)
    requires NoneReviewing(StatusesOf(tasks)) && forall id :: id in tasks ==> !tasks[id].status.Ready?
    ensures Quiescent(s.g, StatusesOf(tasks)) && StatusesOf(tasks) == s.final
  {
    var live := StatusesOf(tasks);
    RefreshTwice(s.g, waiting);
    assert forall id :: id in live ==> !live[id].Running?;
    QuiescentIsFinal(s.g, s.good, live, s.final);
  }

  lemma RefreshTwice(g: Graph<TaskId>, live: Statuses)
    requires Closed(g) && live.Keys == g.Keys
    ensures Refreshed(g, Refreshed(g, live)) == Refreshed(g, live)
  {
    var next := Refreshed(g, live);
    forall id | id in g
      ensures RefreshedStatus(g, next, id) == next[id]
    {
      assert forall d :: d in g[id] ==> (Unsuccessful(next[d]) <==> Unsuccessful(live[d]));
      assert forall d :: d in g[id] ==> (next[d].Completed? <==> live[d].Completed?);
    }
  }

  /** Every task's row is written once more at the end. */
  method SaveAll(ghost s: Setting, dag: Dag, workers: Workers, ghost start: Trace) returns (ghost trace: Trace)
    requires s.Kept(dag.tasks) && s.At(start, WorldOf(dag.tasks, {}, workers.rows, workers.outcomes))
    requires Quiescent(s.g, StatusesOf(dag.tasks))
    modifies workers`rows
    ensures s.At(trace, WorldOf(dag.tasks, {}, workers.rows, workers.outcomes))
    ensures SavedBut(workers.rows, dag.tasks, {}) && RowsKept(old(workers.rows), workers.rows)
  {
    hide Setting.At;
    hide Setting.Kept;
    hide Quiescent;
    hide Closed;
    hide RowsKept;
    hide RowSaved;
    KeptGraph(s, dag.tasks);
    AtKeys(s, start, WorldOf(dag.tasks, {}, workers.rows, workers.outcomes));
    hide SavedBut;
    trace := start;
    NoneSaved(workers.rows, dag.tasks);
    NoRowsChanged(workers.rows);
    var left := dag.tasks.Keys;
    while left != {}
      invariant left <= dag.tasks.Keys
      invariant s.At(trace, WorldOf(dag.tasks, {}, workers.rows, workers.outcomes))
      invariant SavedBut(workers.rows, dag.tasks, left) && RowsKept(old(workers.rows), workers.rows)
      decreases left
    {
      var id :| id in left;
      ghost var w, rows := WorldOf(dag.tasks, {}, workers.rows, workers.outcomes), workers.rows;
      workers.Changed(dag.tasks[id]);
      SavedOne(rows, workers.rows, dag.tasks, left, id);
      RowsStayKept(old(workers.rows), rows, workers.rows, dag.tasks[id]);
      left := left - {id};
      trace := PersistStep(s, trace, w, id, WorldOf(dag.tasks, {}, workers.rows, workers.outcomes));
    }
  }

  /** The rows hold the tasks' statuses and attempts, but for the tasks in `left`. */
  ghost predicate SavedBut(rows: TaskMap, tasks: TaskMap, left: set<TaskId>) {
    && rows.Keys == tasks.Keys
    && forall id :: id in tasks && id !in left ==>
      rows[id].status == tasks[id].status && rows[id].attempts == tasks[id].attempts
  }

  lemma NoneSaved(rows: TaskMap, tasks: TaskMap)
    requires rows.Keys == tasks.Keys
    ensures SavedBut(rows, tasks, tasks.Keys)
  {
  }

  lemma SavedOne(rows: TaskMap, rows': TaskMap, tasks: TaskMap, left: set<TaskId>, id: TaskId)
    requires SavedBut(rows, tasks, left) && id in tasks && tasks[id].id == id && RowSaved(rows, rows', tasks[id])
    ensures SavedBut(rows', tasks, left - {id})
  {
  }

  lemma AllSaved(rows: TaskMap, tasks: TaskMap)
    requires SavedBut(rows, tasks, {})
    ensures StatusesOf(rows) == StatusesOf(tasks)
  {
  }

  lemma AtKeys(s: Setting, trace: Trace, w: World)
    requires s.At(trace, w)
    ensures w.live.Keys == w.stored.Keys == s.g.Keys
  {
  }

  lemma PersistStep(s: Setting, trace: Trace, w: World, id: TaskId, w': World) returns (trace': Trace)
    requires s.At(trace, w) && Quiescent(s.g, w.live) && w.jobs == {} && id in w.live
    requires w' == w.(stored := w.stored[id := w.live[id]])
    ensures s.At(trace', w')
  {
    hide Setting.At;
    AtKeys(s, trace, w);
    Advance(s, trace, w, Persist(id), w');
    trace' := trace.Then(Persist(id), w');
  }

  /** Runs the plan to its end: whatever the order of completions, whichever ready tasks are
      taken and whatever the limit, the statuses end where the statuses at the start lead. */
  method Execute(dag: Dag, workers: Workers, concurrency: nat)
    returns (r: Result<Dag, ExecuteError>, ghost trace: Trace)
    requires Executable(dag, workers)
    modifies dag, workers`rows, workers`outcomes
    ensures r.Err? <==> concurrency == 0 || concurrency > 8
    ensures r.Err? ==> dag.tasks == old(dag.tasks)
    ensures r.Err? ==> workers.rows == old(workers.rows) && workers.outcomes == old(workers.outcomes)
    ensures r.Ok? ==> r.value == dag && GraphOf(dag.tasks) == old(GraphOf(dag.tasks))
    ensures r.Ok? ==> Quiescent(GraphOf(dag.tasks), StatusesOf(dag.tasks))
    ensures r.Ok? ==> Solves(GraphOf(dag.tasks), workers.good, old(StatusesOf(dag.tasks)), StatusesOf(dag.tasks))
    // the rows hold every task's status and attempts, and nothing else in them changed
    ensures r.Ok? ==> workers.rows.Keys == dag.tasks.Keys == old(workers.rows).Keys
    ensures r.Ok? ==> forall id :: id in dag.tasks ==>
      workers.rows[id] == old(workers.rows)[id].(
        status := dag.tasks[id].status, attempts := dag.tasks[id].attempts)
    // it takes only steps of the transition system, none of them a crash
    ensures r.Ok? ==> IsRun(GraphOf(dag.tasks), workers.good, concurrency, trace.ws, trace.steps)
    ensures r.Ok? ==> forall k :: 0 <= k < |trace.steps| ==> !trace.steps[k].CrashAndRecover?
    ensures r.Ok? ==> trace.ws[0] == old(WorldOf(dag.tasks, {}, workers.rows, workers.outcomes))
    ensures r.Ok? ==> trace.ws[|trace.ws| - 1] == WorldOf(dag.tasks, {}, workers.rows, workers.outcomes)
    // each task was started at most once, and exactly those that had to run were
    ensures r.Ok? ==> forall id :: id in dag.tasks ==>
      var started := Open(old(dag.tasks)[id].status) && Begun(dag.tasks[id].status);
      dag.tasks[id].attempts == old(dag.tasks)[id].attempts + if started then 1 else 0
  {
    if concurrency == 0 || concurrency > 8 {
      trace := Trace([], []);
      return Err(ConcurrencyOutOfRange), trace;
    }
    ghost var s;
    s, trace := SettingFor(dag.tasks, workers.rows, workers.outcomes, workers.good, concurrency);
    trace := Loop(s, dag, workers, concurrency, trace);
    KeptGraph(s, dag.tasks);
    ghost var rows := workers.rows;
    trace := SaveAll(s, dag, workers, trace);
    RowsKeptOnward(old(workers.rows), rows, workers.rows);
    r := Ok(dag);
  }

  method Loop(ghost s: Setting, dag: Dag, workers: Workers, concurrency: nat, ghost start: Trace)
    returns (ghost trace: Trace)
    requires s.Kept(dag.tasks) && s.At(start, WorldOf(dag.tasks, {}, workers.rows, workers.outcomes))
    requires NoneReviewing(StatusesOf(dag.tasks))
    requires s.good == workers.good && s.concurrency == concurrency > 0
    modifies dag, workers`rows, workers`outcomes
    ensures s.Kept(dag.tasks) && s.At(trace, WorldOf(dag.tasks, {}, workers.rows, workers.outcomes))
    ensures Quiescent(s.g, StatusesOf(dag.tasks)) && StatusesOf(dag.tasks) == s.final
    ensures RowsKept(old(workers.rows), workers.rows)
  {
    hide Setting.At;
    hide Setting.Kept;
    hide RowsKept;
    hide RowSaved;
    NoRowsChanged(workers.rows);
    var jobs: set<TaskId> := {};
    trace := start;
    while true
      invariant s.Kept(dag.tasks) && s.At(trace, WorldOf(dag.tasks, jobs, workers.rows, workers.outcomes))
      invariant NoneReviewing(StatusesOf(dag.tasks))
      invariant RowsKept(old(workers.rows), workers.rows)
      decreases Unfinished(StatusesOf(dag.tasks))
    {
      ghost var before := dag.tasks;
      KeptValid(s, dag);
      dag.Refresh();
      trace := RefreshStep(s, trace, before, dag.tasks, WorldOf(before, jobs, workers.rows, workers.outcomes));
      ghost var rows := workers.rows;
      jobs, trace := Fill(s, dag, workers, jobs, concurrency, trace);
      RowsKeptOnward(old(workers.rows), rows, workers.rows);
      if jobs == {} {
        KeptGraph(s, before);
        DoneIsFinal(s, trace, dag.tasks, workers.rows, workers.outcomes, StatusesOf(before));
        break;
      }
      var id :| id in jobs;
      ghost var was := StatusesOf(dag.tasks);
      rows := workers.rows;
      trace := Join(s, dag, workers, jobs, id, trace);
      RowsStayKept(old(workers.rows), rows, workers.rows, dag.tasks[id]);
      JoinKeeps(was, StatusesOf(dag.tasks), id, OfRun(s.good, id));
      jobs := jobs - {id};
    }
  }

  lemma KeptValid(s: Setting, dag: Dag)
    requires s.Kept(dag.tasks)
    ensures dag.Valid() && GraphOf(dag.tasks) == s.g
  {
    KeptGraph(s, dag.tasks);
  }
}
