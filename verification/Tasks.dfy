// Tasks and their life cycle (crates/hub-core/src/lib.rs).
module Tasks {
  import opened Common
  import opened Graphs

  datatype Status = Pending | Blocked | Ready | Running | Reviewing | Completed | Failed | Cancelled

  /** Task ids are UUIDs. */
  datatype TaskId = Uuid(bits: int)

  type Statuses = map<TaskId, Status>

  /** The transitions a task may take through `Dag.Transition`. */
  predicate CanTransition(from: Status, to: Status) {
    match from
    case Pending => to in {Ready, Blocked, Cancelled}
    case Blocked => to in {Ready, Cancelled}
    case Ready => to in {Running, Cancelled}
    case Running => to in {Reviewing, Failed, Cancelled}
    case Reviewing => to in {Completed, Running, Failed, Cancelled}
    case Failed => to in {Ready, Cancelled}
    case Completed => false
    case Cancelled => false
  }

  datatype Task = Task(
    id: TaskId,
    project: nat,
    plan: Option<nat>,
    dependencies: seq<TaskId>,
    status: Status,
    attempts: nat)

  type TaskMap = map<TaskId, Task>

  function GraphOf(tasks: TaskMap): (g: Graph<TaskId>)
    ensures g.Keys == tasks.Keys
  {
    map id | id in tasks :: tasks[id].dependencies
  }

  function StatusesOf(tasks: TaskMap): (s: Statuses)
    ensures s.Keys == tasks.Keys
  {
    map id | id in tasks :: tasks[id].status
  }

  /** Keys every task by its own id. */
  ghost predicate KeyedById(tasks: TaskMap) {
    forall id :: id in tasks ==> tasks[id].id == id
  }

  // ---- The life cycle ----

  /** Completed and Cancelled tasks stay what they are, all others can go on. */
  lemma FinalStatuses(s: Status)
    ensures (forall next :: !CanTransition(s, next)) <==> s.Completed? || s.Cancelled?
  {
    assert CanTransition(Pending, Ready) && CanTransition(Blocked, Ready) && CanTransition(Ready, Running);
    assert CanTransition(Running, Failed) && CanTransition(Reviewing, Completed) && CanTransition(Failed, Ready);
  }

  /** Whatever is not finished can be cancelled. */
  lemma CancelledFromAnywhere(s: Status)
    ensures CanTransition(s, Cancelled) <==> !s.Completed? && !s.Cancelled?
  {
  }

  /** A history of transitions. */
  ghost predicate IsHistory(h: seq<Status>) {
    h != [] && forall i, j :: 0 <= i < j < |h| && j == i + 1 ==> CanTransition(h[i], h[j])
  }

  /** No task completes without having been ready, run and been reviewed, in this order; in particular none
      goes from Blocked or Failed to Completed without running anew. */
  lemma {:induction false} CompletedAfterReview(h: seq<Status>) returns (ready: nat, running: nat, reviewing: nat)
    requires IsHistory(h) && h[|h| - 1].Completed? && h[0] in {Pending, Blocked, Ready, Failed}
    ensures ready < running < reviewing < |h| - 1
    ensures h[ready].Ready? && h[running].Running? && h[reviewing].Reviewing?
  {
    reviewing := |h| - 2;
    assert CanTransition(h[reviewing], h[|h| - 1]);
    running := LastBefore(h, reviewing, Running);
    ready := LastBefore(h, running, Ready);
  }

  /** Running is entered from Ready only, but for a review that sends a task back; Reviewing from Running only. */
  lemma {:induction false} LastBefore(h: seq<Status>, at: nat, goal: Status) returns (i: nat)
    requires IsHistory(h) && at < |h| && h[0] in {Pending, Blocked, Ready, Failed}
    requires (h[at].Reviewing? && goal.Running?) || (goal.Ready? && (h[at].Running? || h[at].Reviewing?))
    ensures i < at && h[i] == goal
  {
    assert CanTransition(h[at - 1], h[at]);
    if h[at - 1] == goal {
      i := at - 1;
    } else {
      i := LastBefore(h, at - 1, goal);
    }
  }
}
