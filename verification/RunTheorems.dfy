// What every run of the scheduler has in common, however its choices and its
// crashes fall.
module RunTheorems {
  import opened Graphs
  import opened Tasks
  import opened Runs

  /** `steps` lead through the worlds `ws`. */
  ghost predicate IsRun(g: Graph<TaskId>, good: set<TaskId>, concurrency: nat, ws: seq<World>, steps: seq<Step>) {
    && |ws| == |steps| + 1
    && forall i, j :: 0 <= i < j < |ws| && j == i + 1 ==> Steps(g, good, concurrency, ws[i], steps[i], ws[j])
  }

  lemma {:induction false} RunStaysSound(
    g: Graph<TaskId>, good: set<TaskId>, final: Statuses, concurrency: nat, ws: seq<World>, steps: seq<Step>, k: nat)
    requires IsRun(g, good, concurrency, ws, steps) && k < |ws|
    requires Startable(g, ws[0]) && Solves(g, good, ws[0].live, final)
    ensures Sound(g, good, final, concurrency, ws[k])
  {
    hide Sound;
    hide Solves;
    hide Startable;
    hide Steps;
    if k == 0 {
      StartIsSound(g, good, final, concurrency, ws[0]);
    } else {
      RunStaysSound(g, good, final, concurrency, ws, steps, k - 1);
      StepKeepsSound(g, good, final, concurrency, ws[k - 1], steps[k - 1], ws[k]);
    }
  }

  /** Two runs from the same statuses that both finish end with the same statuses:
      completion order, choice of ready tasks, concurrency and crashes that strike while no outcome has
      slipped make no difference. */
  lemma OneEnd(
    g: Graph<TaskId>, good: set<TaskId>,
    concurrency: nat, ws: seq<World>, steps: seq<Step>,
    concurrency': nat, ws': seq<World>, steps': seq<Step>)
    requires IsRun(g, good, concurrency, ws, steps) && Startable(g, ws[0])
    requires IsRun(g, good, concurrency', ws', steps') && Startable(g, ws'[0])
    requires ws[0].live == ws'[0].live
    requires Quiescent(g, ws[|ws| - 1].live) && Quiescent(g, ws'[|ws'| - 1].live)
    ensures ws[|ws| - 1].live == ws'[|ws'| - 1].live
  {
    var final := SolutionExists(g, good, ws[0].live);
    RunStaysSound(g, good, final, concurrency, ws, steps, |ws| - 1);
    RunStaysSound(g, good, final, concurrency', ws', steps', |ws'| - 1);
    QuiescentIsFinal(g, good, ws[|ws| - 1].live, final);
    QuiescentIsFinal(g, good, ws'[|ws'| - 1].live, final);
  }

  /** At every point of every run: no more jobs than the limit, and exactly the running tasks are jobs. */
  lemma JobsStayWithinLimit(
    g: Graph<TaskId>, good: set<TaskId>, concurrency: nat, ws: seq<World>, steps: seq<Step>, k: nat)
    requires IsRun(g, good, concurrency, ws, steps) && Startable(g, ws[0]) && k < |ws|
    ensures |ws[k].jobs| <= concurrency
    ensures ws[k].jobs == set id | id in g && id in ws[k].live && ws[k].live[id].Running?
  {
    var final := SolutionExists(g, good, ws[0].live);
    RunStaysSound(g, good, final, concurrency, ws, steps, k);
  }

  /** A task starts only after its dependencies completed, and never with a saved outcome. */
  lemma StartsAreAllowed(
    g: Graph<TaskId>, good: set<TaskId>, concurrency: nat, ws: seq<World>, steps: seq<Step>, k: nat, id: TaskId)
    requires IsRun(g, good, concurrency, ws, steps) && Startable(g, ws[0])
    requires k < |steps| && steps[k] == Start(id)
    ensures id in g && ws[k].live.Keys == g.Keys
    ensures forall d :: d in g[id] ==> d in g && ws[k].live[d] == Completed && d in ws[k].outcomes
    ensures id !in ws[k].outcomes
  {
    var final := SolutionExists(g, good, ws[0].live);
    RunStaysSound(g, good, final, concurrency, ws, steps, k);
    assert Steps(g, good, concurrency, ws[k], steps[k], ws[k + 1]);
    assert DependenciesCompleted(g, ws[k].live, id);
  }

  predicate Begun(s: Status) {
    s.Running? || s.Reviewing? || s.Completed? || s.Failed?
  }

  lemma {:induction false} BegunUntilCrash(
    g: Graph<TaskId>, good: set<TaskId>, concurrency: nat, ws: seq<World>, steps: seq<Step>, i: nat, j: nat, id: TaskId)
    requires IsRun(g, good, concurrency, ws, steps) && Startable(g, ws[0])
    requires i < j < |ws| && steps[i] == Start(id)
    requires forall k :: i < k < j ==> !steps[k].CrashAndRecover?
    ensures id in ws[j].live && Begun(ws[j].live[id])
    decreases j
  {
    assert Steps(g, good, concurrency, ws[j - 1], steps[j - 1], ws[j]);
    if j > i + 1 {
      BegunUntilCrash(g, good, concurrency, ws, steps, i, j - 1, id);
    }
  }

  /** No task starts twice, unless the process died in between. */
  lemma NoTaskStartsTwice(
    g: Graph<TaskId>, good: set<TaskId>, concurrency: nat, ws: seq<World>, steps: seq<Step>, i: nat, j: nat, id: TaskId)
    requires IsRun(g, good, concurrency, ws, steps) && Startable(g, ws[0])
    requires i < j < |steps| && steps[i] == Start(id) && steps[j] == Start(id)
    ensures exists k :: i < k < j && steps[k].CrashAndRecover?
  {
    assert Steps(g, good, concurrency, ws[j], steps[j], ws[j + 1]);
    if forall k :: i < k < j ==> !steps[k].CrashAndRecover? {
      BegunUntilCrash(g, good, concurrency, ws, steps, i, j, id);
    }
  }

  /** Whatever a crash interrupts, the rows and outcomes it leaves behind can be started again, nothing in
      them is running or under review, and completed are exactly the tasks with saved outcomes.  They lead
      to the same end exactly when no task that failed, or is about to, has a saved outcome. */
  lemma CrashKeepsEndOfRunIff(
    g: Graph<TaskId>, good: set<TaskId>, final: Statuses, concurrency: nat, ws: seq<World>, steps: seq<Step>, k: nat)
    requires IsRun(g, good, concurrency, ws, steps) && k < |ws|
    requires Startable(g, ws[0]) && Solves(g, good, ws[0].live, final)
    ensures Startable(g, AfterCrash(ws[k]))
    ensures Solves(g, good, AfterCrash(ws[k]).live, final) <==> !Slipped(good, ws[k])
    ensures forall id :: id in g ==>
      var s := AfterCrash(ws[k]).live[id];
      && !s.Running? && !s.Reviewing?
      && (s.Completed? <==> id in ws[k].outcomes)
  {
    RunStaysSound(g, good, final, concurrency, ws, steps, k);
    CrashKeepsEndIff(g, good, final, concurrency, ws[k]);
    CrashIsStartable(g, good, final, concurrency, ws[k]);
    RecoveredIff(g, good, final, concurrency, ws[k]);
    hide Sound;
    hide Slipped;
    hide Solves;
    hide Startable;
  }

  /** What `recover` rebuilds from the rows and outcomes of a world. */
  ghost function AfterCrash(w: World): World {
    w.(live := Recovered(w.stored, w.outcomes), jobs := {})
  }

  lemma RecoveredIff(g: Graph<TaskId>, good: set<TaskId>, final: Statuses, concurrency: nat, w: World)
    requires Sound(g, good, final, concurrency, w)
    ensures w.stored.Keys == g.Keys
    ensures forall id :: id in g ==>
      var s := Recovered(w.stored, w.outcomes)[id];
      && !s.Running? && !s.Reviewing?
      && (s.Completed? <==> id in w.outcomes)
  {
    SoundSolves(g, good, final, concurrency, w);
    hide Solves;
    hide FlightsAllowed;
  }

  // ---- A run that slips ----

  ghost function OneTask(a: TaskId): Graph<TaskId> {
    map[a := []]
  }

  /** The only task of `OneTask`, live and stored. */
  ghost function At(a: TaskId, live: Status, jobs: set<TaskId>, stored: Status, outcomes: set<TaskId>): World {
    World(map[a := live], jobs, map[a := stored], outcomes)
  }

  lemma SlipStarts(a: TaskId)
    ensures Startable(OneTask(a), At(a, Pending, {}, Pending, {}))
    ensures Steps(OneTask(a), {}, 1, At(a, Pending, {}, Pending, {}), Refresh, At(a, Ready, {}, Pending, {}))
    ensures Steps(OneTask(a), {}, 1, At(a, Ready, {}, Pending, {}), Start(a), At(a, Running, {a}, Running, {}))
  {
    RankedIsAcyclic(OneTask(a), map[a := 0]);
    hide Acyclic;
    assert Recovered(map[a := Pending], {}) == map[a := Pending];
    assert Refreshed(OneTask(a), map[a := Pending]) == map[a := Ready];
  }

  lemma SlipFails(a: TaskId)
    ensures Steps(
      OneTask(a), {}, 1, At(a, Running, {a}, Running, {}), SaveOutcome(a), At(a, Running, {a}, Running, {a}))
    ensures Steps(OneTask(a), {}, 1, At(a, Running, {a}, Running, {a}), JoinErr(a), At(a, Failed, {}, Failed, {a}))
  {
    assert {} + {a} == {a} && {a} - {a} == {};
    hide Quiescent;
  }

  lemma SlipEnds(a: TaskId)
    ensures Quiescent(OneTask(a), map[a := Failed])
    ensures Recovered(map[a := Failed], {a}) == map[a := Completed]
  {
    assert Refreshed(OneTask(a), map[a := Failed]) == map[a := Failed];
  }

  /** One task whose run saves its outcome and then fails: an uninterrupted run ends with it Failed, a crash
      and recovery make it Completed. */
  lemma SlippedOutcome(a: TaskId) returns (ws: seq<World>, steps: seq<Step>)
    ensures IsRun(OneTask(a), {}, 1, ws, steps) && ws != [] && Startable(OneTask(a), ws[0])
    ensures Quiescent(OneTask(a), ws[|ws| - 1].live) && ws[|ws| - 1].live == map[a := Failed]
    ensures AfterCrash(ws[|ws| - 1]).live == map[a := Completed]
  {
    SlipStarts(a);
    SlipFails(a);
    SlipEnds(a);
    hide Steps;
    hide Startable;
    hide Quiescent;
    ws := [At(a, Pending, {}, Pending, {}), At(a, Ready, {}, Pending, {}), At(a, Running, {a}, Running, {}),
           At(a, Running, {a}, Running, {a}), At(a, Failed, {}, Failed, {a})];
    steps := [Refresh, Start(a), SaveOutcome(a), JoinErr(a)];
  }

  // ---- The end of a fresh plan, spelled out ----

  ghost predicate AllPending(g: Graph<TaskId>, s: Statuses) {
    s.Keys == g.Keys && forall id :: id in g ==> s[id] == Pending
  }

  lemma FreshPlanIsStartable(g: Graph<TaskId>, s: Statuses)
    requires Closed(g) && Acyclic(g) && AllPending(g, s)
    ensures Startable(g, World(s, {}, s, {}))
  {
  }

  lemma FreshEndKinds(g: Graph<TaskId>, good: set<TaskId>, now: Statuses, final: Statuses, id: TaskId)
    requires AllPending(g, now) && Solves(g, good, now, final) && id in g
    ensures final[id] in {Completed, Failed, Blocked, Pending}
    ensures final[id] == Verdict(g, good, Pending, final, id)
  {
  }

  lemma FreshEnd(g: Graph<TaskId>, good: set<TaskId>, now: Statuses, final: Statuses, id: TaskId)
    requires AllPending(g, now) && Solves(g, good, now, final) && id in g
    ensures final[id] in {Completed, Failed, Blocked, Pending}
    ensures final[id] == Completed <==> id in good && forall d :: d in g[id] ==> final[d] == Completed
    ensures final[id] == Failed <==> id !in good && forall d :: d in g[id] ==> final[d] == Completed
    ensures final[id] == Blocked <==> exists d :: d in g[id] && final[d] == Failed
  {
    FreshEndKinds(g, good, now, final, id);
    forall d | d in g[id]
      ensures final[d] in {Completed, Failed, Blocked, Pending}
    {
      FreshEndKinds(g, good, now, final, d);
    }
  }

  /** A walk from a task to a failed one it depends on, directly or not. */
  ghost predicate FailedAncestor(g: Graph<TaskId>, final: Statuses, id: TaskId, p: seq<TaskId>) {
    && IsPath(g, p) && final.Keys == g.Keys
    && |p| > 1 && p[0] == id && final[p[|p| - 1]] == Failed
  }

  lemma UnfinishedBecauseOf(g: Graph<TaskId>, good: set<TaskId>, now: Statuses, final: Statuses, id: TaskId)
    returns (d: TaskId)
    requires AllPending(g, now) && Solves(g, good, now, final) && id in g
    requires final[id] == Pending || final[id] == Blocked
    ensures d in g[id] && d in g && final[d] in {Failed, Blocked, Pending}
  {
    FreshEnd(g, good, now, final, id);
    d :| d in g[id] && final[d] != Completed;
    FreshEnd(g, good, now, final, d);
  }

  lemma {:induction false} UnfinishedHasFailedAncestor(
    g: Graph<TaskId>, good: set<TaskId>, now: Statuses, final: Statuses, rank: map<TaskId, nat>, id: TaskId)
    returns (p: seq<TaskId>)
    requires AllPending(g, now) && Solves(g, good, now, final) && Ranked(g, rank) && id in g
    requires final[id] == Pending || final[id] == Blocked
    ensures FailedAncestor(g, final, id, p)
    decreases rank[id]
  {
    hide IsPath;
    hide Verdict;
    var d := UnfinishedBecauseOf(g, good, now, final, id);
    var rest := [d];
    if final[d] == Failed {
      PathOfOne(g, d);
    } else {
      rest := UnfinishedHasFailedAncestor(g, good, now, final, rank, d);
    }
    PathCons(g, id, rest);
    p := [id] + rest;
  }

  /** A task is left Pending exactly when it has a failed ancestor but no failed direct dependency. */
  lemma PendingEnd(g: Graph<TaskId>, good: set<TaskId>, now: Statuses, final: Statuses, id: TaskId)
    requires Acyclic(g) && AllPending(g, now) && Solves(g, good, now, final) && id in g
    ensures final[id] == Pending <==>
      (exists p :: FailedAncestor(g, final, id, p)) && !exists d :: d in g[id] && final[d] == Failed
  {
    var rank := AcyclicIsRanked(g);
    FreshEnd(g, good, now, final, id);
    if final[id] == Pending {
      var p := UnfinishedHasFailedAncestor(g, good, now, final, rank, id);
    }
    if p :| FailedAncestor(g, final, id, p) {
      AncestorOfFailureUnfinished(g, good, now, final, p);
    }
  }

  lemma {:induction false} AncestorOfFailureUnfinished(
    g: Graph<TaskId>, good: set<TaskId>, now: Statuses, final: Statuses, p: seq<TaskId>)
    requires AllPending(g, now) && Solves(g, good, now, final) && IsPath(g, p) && |p| > 1
    requires final[p[|p| - 1]] == Failed
    ensures final[p[0]] == Pending || final[p[0]] == Blocked
  {
    assert p[1] in g[p[0]];
    if |p| > 2 {
      assert IsPath(g, p[1..]);
      AncestorOfFailureUnfinished(g, good, now, final, p[1..]);
    }
    FreshEnd(g, good, now, final, p[0]);
  }
}
