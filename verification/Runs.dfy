// The scheduler as a transition system, with the durable rows beside the live
// statuses so that a crash can strike between any two steps
// (crates/hub-scheduler/src/lib.rs, crates/hub-runtime/src/plan.rs,
// crates/hub-runtime/src/workers.rs).
//
// Whether a task's run succeeds is fixed by the set `good`; which ready task
// starts, which job finishes first, how many run at once and when the process
// dies are all left open.
module Runs {
  import opened Common
  import opened Graphs
  import opened Tasks

  // ---- What a start status forces at the end ----

  predicate Unsuccessful(s: Status) {
    s.Failed? || s.Cancelled?
  }

  predicate InFlight(s: Status) {
    s.Ready? || s.Running? || s.Reviewing?
  }

  function OfRun(good: set<TaskId>, id: TaskId): Status {
    if id in good then Completed else Failed
  }

  /** The end status of `id`, given its present status and the end statuses of its dependencies. */
  ghost function Verdict(g: Graph<TaskId>, good: set<TaskId>, now: Status, final: Statuses, id: TaskId): Status
    requires Closed(g) && final.Keys == g.Keys && id in g
  {
    match now
    case Completed => Completed
    case Failed => Failed
    case Cancelled => Cancelled
    case Ready => OfRun(good, id)
    case Running => OfRun(good, id)
    case Reviewing => OfRun(good, id)
    case _ =>
      if exists d :: d in g[id] && Unsuccessful(final[d]) then Blocked
      else if forall d :: d in g[id] ==> final[d] == Completed then OfRun(good, id)
      else now
  }

  /** `final` is where statuses `now` lead: every task's verdict, all at once. */
  ghost predicate Solves(g: Graph<TaskId>, good: set<TaskId>, now: Statuses, final: Statuses) {
    && Closed(g) && now.Keys == g.Keys && final.Keys == g.Keys
    && forall id :: id in g ==> final[id] == Verdict(g, good, now[id], final, id)
  }

  lemma {:induction false} SolutionsAgreeAt(
    g: Graph<TaskId>, good: set<TaskId>, now: Statuses, a: Statuses, b: Statuses, rank: map<TaskId, nat>, id: TaskId)
    requires Ranked(g, rank) && Solves(g, good, now, a) && Solves(g, good, now, b) && id in g
    ensures a[id] == b[id]
    decreases rank[id]
  {
    forall d | d in g[id]
      ensures a[d] == b[d]
    {
      SolutionsAgreeAt(g, good, now, a, b, rank, d);
    }
  }

  /** Statuses lead to at most one end. */
  lemma SolutionIsUnique(g: Graph<TaskId>, good: set<TaskId>, now: Statuses, a: Statuses, b: Statuses)
    requires Acyclic(g) && Solves(g, good, now, a) && Solves(g, good, now, b)
    ensures a == b
  {
    var rank := AcyclicIsRanked(g);
    forall id | id in g
      ensures a[id] == b[id]
    {
      SolutionsAgreeAt(g, good, now, a, b, rank, id);
    }
  }

  ghost function EndOf(g: Graph<TaskId>, good: set<TaskId>, now: Statuses, rank: map<TaskId, nat>, id: TaskId): Status
    requires Closed(g) && Ranked(g, rank) && now.Keys == g.Keys && id in g
    decreases rank[id]
  {
    if now[id].Pending? || now[id].Blocked? then
      if exists d :: d in g[id] && Unsuccessful(EndOf(g, good, now, rank, d)) then Blocked
      else if forall d :: d in g[id] ==> EndOf(g, good, now, rank, d) == Completed then OfRun(good, id)
      else now[id]
    else if InFlight(now[id]) then OfRun(good, id)
    else now[id]
  }

  /** Statuses of an acyclic graph lead somewhere. */
  lemma SolutionExists(g: Graph<TaskId>, good: set<TaskId>, now: Statuses) returns (final: Statuses)
    requires Closed(g) && Acyclic(g) && now.Keys == g.Keys
    ensures Solves(g, good, now, final)
  {
    var rank := AcyclicIsRanked(g);
    final := map id | id in g :: EndOf(g, good, now, rank, id);
    forall id | id in g
      ensures final[id] == Verdict(g, good, now[id], final, id)
    {
      assert forall d :: d in g[id] ==> final[d] == EndOf(g, good, now, rank, d);
    }
  }

  // ---- Refreshing ----

  /** What `refresh` makes of one task, judged on the statuses before it. */
  function RefreshedStatus(g: Graph<TaskId>, s: Statuses, id: TaskId): Status
    requires Closed(g) && s.Keys == g.Keys && id in g
  {
    if !s[id].Pending? && !s[id].Blocked? then s[id]
    else if exists d :: d in g[id] && Unsuccessful(s[d]) then Blocked
    else if forall d :: d in g[id] ==> s[d] == Completed then Ready
    else s[id]
  }

  function Refreshed(g: Graph<TaskId>, s: Statuses): Statuses
    requires Closed(g) && s.Keys == g.Keys
  {
    map id | id in g :: RefreshedStatus(g, s, id)
  }

  lemma RefreshKeepsSolution(g: Graph<TaskId>, good: set<TaskId>, s: Statuses, final: Statuses)
    requires Solves(g, good, s, final)
    ensures Solves(g, good, Refreshed(g, s), final)
  {
    forall id | id in g
      ensures final[id] == Verdict(g, good, RefreshedStatus(g, s, id), final, id)
    {
      RefreshKeepsVerdict(g, good, s, final, id);
    }
  }

  lemma RefreshKeepsVerdict(g: Graph<TaskId>, good: set<TaskId>, s: Statuses, final: Statuses, id: TaskId)
    requires Solves(g, good, s, final) && id in g
    ensures final[id] == Verdict(g, good, RefreshedStatus(g, s, id), final, id)
  {
    var now := s[id];
    if now.Pending? || now.Blocked? {
      if d :| d in g[id] && Unsuccessful(s[d]) {
        assert Unsuccessful(final[d]);
      } else if forall d :: d in g[id] ==> s[d] == Completed {
        assert forall d :: d in g[id] ==> final[d] == Completed;
      }
    }
  }

  /** Nothing runs and a refresh would change nothing and free nothing. */
  ghost predicate Quiescent(g: Graph<TaskId>, s: Statuses) {
    && Closed(g) && s.Keys == g.Keys
    && Refreshed(g, s) == s
    && forall id :: id in g ==> !InFlight(s[id])
  }

  lemma {:induction false} QuiescentAt(
    g: Graph<TaskId>, good: set<TaskId>, s: Statuses, final: Statuses, rank: map<TaskId, nat>, id: TaskId)
    requires Ranked(g, rank) && Quiescent(g, s) && Solves(g, good, s, final) && id in g
    ensures s[id] == final[id]
    decreases rank[id]
  {
    forall d | d in g[id]
      ensures s[d] == final[d]
    {
      QuiescentAt(g, good, s, final, rank, d);
    }
    assert Refreshed(g, s)[id] == s[id];
  }

  /** A state with nothing left to do is the end its statuses lead to. */
  lemma QuiescentIsFinal(g: Graph<TaskId>, good: set<TaskId>, s: Statuses, final: Statuses)
    requires Acyclic(g) && Quiescent(g, s) && Solves(g, good, s, final)
    ensures s == final
  {
    var rank := AcyclicIsRanked(g);
    forall id | id in g
      ensures s[id] == final[id]
    {
      QuiescentAt(g, good, s, final, rank, id);
    }
  }

  // ---- The transition system ----

  /** Live statuses, running jobs, saved task rows and saved worker outcomes. */
  datatype World = World(live: Statuses, jobs: set<TaskId>, stored: Statuses, outcomes: set<TaskId>)

  /** What `PlanRuntime.recover` rebuilds from the saved rows and outcomes. */
  function RecoveredStatus(stored: Status, hasOutcome: bool): Status {
    if hasOutcome then Completed
    else if stored.Running? || stored.Reviewing? then Pending
    else stored
  }

  function Recovered(stored: Statuses, outcomes: set<TaskId>): (s: Statuses)
    ensures s.Keys == stored.Keys
  {
    map id | id in stored :: RecoveredStatus(stored[id], id in outcomes)
  }

  datatype Step =
    | Refresh
    | Start(id: TaskId)
    | SaveOutcome(id: TaskId)
    | JoinOk(id: TaskId)
    | Settle(id: TaskId)
    | JoinErr(id: TaskId)
    | Persist(id: TaskId)
    | CrashAndRecover

  /** A task saved its outcome and failed all the same, or is about to. */
  ghost predicate Slipped(good: set<TaskId>, w: World) {
    exists id :: id in w.outcomes && id in w.live && SlippedAt(good, w.live[id], id)
  }

  predicate SlippedAt(good: set<TaskId>, live: Status, id: TaskId) {
    live.Failed? || (InFlight(live) && id !in good)
  }

  /** The steps that may be taken.  A crash that strikes when an outcome slipped is treated apart, in
      `CrashKeepsEndIff`. */
  ghost predicate Enabled(g: Graph<TaskId>, good: set<TaskId>, concurrency: nat, w: World, step: Step) {
    && Closed(g) && w.live.Keys == g.Keys && w.stored.Keys == g.Keys
    && match step
       case Refresh => true
       case Start(id) => id in g && w.live[id].Ready? && |w.jobs| < concurrency
       case SaveOutcome(id) => id in w.jobs
       case JoinOk(id) =>
         id in g && id in w.jobs && id in good && id in w.outcomes && CanTransition(w.live[id], Reviewing)
       case Settle(id) => id in g && w.live[id].Reviewing? && CanTransition(w.live[id], Completed)
       case JoinErr(id) => id in g && id in w.jobs && id !in good && CanTransition(w.live[id], Failed)
       case Persist(id) => id in g && Quiescent(g, w.live) && w.jobs == {}
       case CrashAndRecover => !Slipped(good, w)
  }

  ghost function After(g: Graph<TaskId>, w: World, step: Step): World
    requires Closed(g) && w.live.Keys == g.Keys && w.stored.Keys == g.Keys
    requires step.Persist? ==> step.id in g
  {
    match step
    case Refresh => w.(live := Refreshed(g, w.live))
    case Start(id) => World(w.live[id := Running], w.jobs + {id}, w.stored[id := Running], w.outcomes)
    case SaveOutcome(id) => w.(outcomes := w.outcomes + {id})
    case JoinOk(id) => World(w.live[id := Reviewing], w.jobs - {id}, w.stored[id := Reviewing], w.outcomes)
    case Settle(id) => w.(live := w.live[id := Completed], stored := w.stored[id := Completed])
    case JoinErr(id) => World(w.live[id := Failed], w.jobs - {id}, w.stored[id := Failed], w.outcomes)
    case Persist(id) => w.(stored := w.stored[id := w.live[id]])
    case CrashAndRecover => w.(live := Recovered(w.stored, w.outcomes), jobs := {})
  }

  ghost predicate Steps(g: Graph<TaskId>, good: set<TaskId>, concurrency: nat, w: World, step: Step, w': World) {
    Enabled(g, good, concurrency, w, step) && w' == After(g, w, step)
  }

  // ---- The invariant ----

  ghost predicate DependenciesCompleted(g: Graph<TaskId>, s: Statuses, id: TaskId)
    requires Closed(g) && s.Keys == g.Keys && id in g
  {
    forall d :: d in g[id] ==> s[d] == Completed
  }

  /** Nothing is ready, running or under review before its dependencies completed. */
  ghost predicate FlightsAllowed(g: Graph<TaskId>, s: Statuses) {
    && Closed(g) && s.Keys == g.Keys
    && forall id :: id in g && InFlight(s[id]) ==> DependenciesCompleted(g, s, id)
  }

  /** The live jobs are exactly the running tasks, within the limit. */
  ghost predicate JobsMatch(live: Statuses, jobs: set<TaskId>, concurrency: nat) {
    && |jobs| <= concurrency
    && forall id :: id in jobs <==> id in live && live[id].Running?
  }

  /** Success is reported only once the outcome is saved, and a saved outcome is never run again. */
  ghost predicate OutcomesMatch(w: World) {
    && (forall id :: id in w.live && (w.live[id].Completed? || w.live[id].Reviewing?) ==> id in w.outcomes)
    && (forall id :: id in w.stored && w.stored[id].Completed? ==> id in w.outcomes)
    && (forall id :: id in w.live && id in w.outcomes ==>
          w.live[id].Running? || w.live[id].Reviewing? || w.live[id].Completed?)
  }

  /** The end the live statuses lead to is the one the stored rows lead to, and the books agree. */
  ghost predicate Coherent(g: Graph<TaskId>, good: set<TaskId>, final: Statuses, concurrency: nat, w: World) {
    && Solves(g, good, w.live, final)
    && Solves(g, good, Recovered(w.stored, w.outcomes), final)
    && FlightsAllowed(g, w.live)
    && FlightsAllowed(g, Recovered(w.stored, w.outcomes))
    && JobsMatch(w.live, w.jobs, concurrency)
    && OutcomesMatch(w)
  }

  /** What `execute` may be handed: a plan fresh from `compile`, or one just recovered. */
  ghost predicate Startable(g: Graph<TaskId>, w: World) {
    && Closed(g) && Acyclic(g) && w.live.Keys == g.Keys && w.stored.Keys == g.Keys
    && w.jobs == {}
    && w.live == Recovered(w.stored, w.outcomes)
    && FlightsAllowed(g, w.live)
    && (forall id :: id in g && w.stored[id].Completed? ==> id in w.outcomes)
  }

  lemma StartIsCoherent(g: Graph<TaskId>, good: set<TaskId>, final: Statuses, concurrency: nat, w: World)
    requires Startable(g, w) && Solves(g, good, w.live, final)
    ensures Coherent(g, good, final, concurrency, w)
  {
  }

  /** Changing one task's status to one with the same verdict keeps the solution. */
  lemma UpdateKeepsSolution(
    g: Graph<TaskId>, good: set<TaskId>, s: Statuses, final: Statuses, id: TaskId, next: Status)
    requires Solves(g, good, s, final) && id in g
    requires final[id] == Verdict(g, good, next, final, id)
    ensures Solves(g, good, s[id := next], final)
  {
  }

  lemma StartedDependencies(
    g: Graph<TaskId>, good: set<TaskId>, s: Statuses, final: Statuses, id: TaskId)
    requires Solves(g, good, s, final) && id in g && DependenciesCompleted(g, s, id)
    ensures Verdict(g, good, Pending, final, id) == OfRun(good, id)
  {
    assert forall d :: d in g[id] ==> final[d] == Completed;
  }

  lemma RecoveredUpdate(stored: Statuses, outcomes: set<TaskId>, id: TaskId, next: Status)
    requires id in stored
    ensures Recovered(stored[id := next], outcomes)
         == Recovered(stored, outcomes)[id := RecoveredStatus(next, id in outcomes)]
  {
  }

  lemma RecoveredOutcome(stored: Statuses, outcomes: set<TaskId>, id: TaskId)
    requires id in stored
    ensures Recovered(stored, outcomes + {id}) == Recovered(stored, outcomes)[id := Completed]
  {
  }

  /** Moving one task on, without starting it early or undoing it, keeps the start rule. */
  lemma UpdateKeepsFlights(g: Graph<TaskId>, s: Statuses, id: TaskId, next: Status)
    requires FlightsAllowed(g, s) && id in g
    requires s[id].Completed? ==> next.Completed?
    requires InFlight(next) ==> InFlight(s[id])
    ensures FlightsAllowed(g, s[id := next])
  {
    forall n | n in g && InFlight(s[id := next][n])
      ensures DependenciesCompleted(g, s[id := next], n)
    {
      assert DependenciesCompleted(g, s, n);
    }
  }

  lemma RefreshKeepsFlights(g: Graph<TaskId>, s: Statuses)
    requires FlightsAllowed(g, s)
    ensures FlightsAllowed(g, Refreshed(g, s))
  {
    var next := Refreshed(g, s);
    forall id | id in g && InFlight(next[id])
      ensures DependenciesCompleted(g, next, id)
    {
      assert DependenciesCompleted(g, s, id);
    }
  }

  lemma RefreshKeepsBooks(g: Graph<TaskId>, concurrency: nat, w: World)
    requires Closed(g) && w.live.Keys == g.Keys
    requires JobsMatch(w.live, w.jobs, concurrency) && OutcomesMatch(w)
    ensures JobsMatch(Refreshed(g, w.live), w.jobs, concurrency)
    ensures OutcomesMatch(w.(live := Refreshed(g, w.live)))
  {
  }

  lemma RefreshKeepsCoherent(g: Graph<TaskId>, good: set<TaskId>, final: Statuses, concurrency: nat, w: World)
    requires Coherent(g, good, final, concurrency, w)
    ensures Coherent(g, good, final, concurrency, w.(live := Refreshed(g, w.live)))
  {
    RefreshKeepsSolution(g, good, w.live, final);
    RefreshKeepsFlights(g, w.live);
    RefreshKeepsBooks(g, concurrency, w);
  }

  lemma StartKeepsBooks(concurrency: nat, w: World, id: TaskId)
    requires w.live.Keys == w.stored.Keys && id in w.live && w.live[id].Ready? && |w.jobs| < concurrency
    requires JobsMatch(w.live, w.jobs, concurrency) && OutcomesMatch(w)
    ensures JobsMatch(w.live[id := Running], w.jobs + {id}, concurrency)
    ensures OutcomesMatch(World(w.live[id := Running], w.jobs + {id}, w.stored[id := Running], w.outcomes))
    ensures id !in w.outcomes
  {
  }

  lemma StartKeepsCoherent(g: Graph<TaskId>, good: set<TaskId>, final: Statuses, concurrency: nat, w: World, id: TaskId)
    requires Coherent(g, good, final, concurrency, w)
    requires id in g && w.live[id].Ready? && |w.jobs| < concurrency
    ensures Coherent(g, good, final, concurrency,
                  World(w.live[id := Running], w.jobs + {id}, w.stored[id := Running], w.outcomes))
  {
    StartKeepsBooks(concurrency, w, id);
    StartKeepsSolutions(g, good, final, w, id);
    UpdateKeepsFlights(g, w.live, id, Running);
    RecoveredUpdate(w.stored, w.outcomes, id, Running);
    UpdateKeepsFlights(g, Recovered(w.stored, w.outcomes), id, Pending);
  }

  lemma StartKeepsSolutions(g: Graph<TaskId>, good: set<TaskId>, final: Statuses, w: World, id: TaskId)
    requires Solves(g, good, w.live, final) && Solves(g, good, Recovered(w.stored, w.outcomes), final)
    requires FlightsAllowed(g, w.live) && id in g && w.live[id].Ready? && id !in w.outcomes
    ensures Solves(g, good, w.live[id := Running], final)
    ensures Solves(g, good, Recovered(w.stored[id := Running], w.outcomes), final)
  {
    StartedDependencies(g, good, w.live, final, id);
    UpdateKeepsSolution(g, good, w.live, final, id, Running);
    RecoveredUpdate(w.stored, w.outcomes, id, Running);
    UpdateKeepsSolution(g, good, Recovered(w.stored, w.outcomes), final, id, Pending);
  }

  lemma SaveOutcomeKeepsCoherent(
    g: Graph<TaskId>, good: set<TaskId>, final: Statuses, concurrency: nat, w: World, id: TaskId)
    requires Coherent(g, good, final, concurrency, w)
    requires id in w.jobs && id in final && final[id] == Completed
    ensures Coherent(g, good, final, concurrency, w.(outcomes := w.outcomes + {id}))
  {
    var r := Recovered(w.stored, w.outcomes);
    RecoveredOutcome(w.stored, w.outcomes, id);
    UpdateKeepsSolution(g, good, r, final, id, Completed);
    UpdateKeepsFlights(g, r, id, Completed);
  }

  lemma MoveKeepsBooks(concurrency: nat, w: World, id: TaskId, next: Status)
    requires w.live.Keys == w.stored.Keys && id in w.live
    requires JobsMatch(w.live, w.jobs, concurrency) && OutcomesMatch(w)
    requires (next.Failed? && id !in w.outcomes) || ((next.Reviewing? || next.Completed?) && id in w.outcomes)
    ensures JobsMatch(w.live[id := next], w.jobs - {id}, concurrency)
    ensures OutcomesMatch(World(w.live[id := next], w.jobs - {id}, w.stored[id := next], w.outcomes))
  {
    SubsetCardinality(w.jobs - {id}, w.jobs);
  }

  /** Joining or settling a job: its row and its live status move together. */
  lemma MoveKeepsCoherent(
    g: Graph<TaskId>, good: set<TaskId>, final: Statuses, concurrency: nat, w: World, id: TaskId, next: Status)
    requires Coherent(g, good, final, concurrency, w) && id in g
    requires w.live[id].Running? || w.live[id].Reviewing?
    requires (next.Failed? && w.live[id].Running? && id !in good)
          || ((next.Reviewing? || next.Completed?) && id in w.outcomes)
    ensures Coherent(g, good, final, concurrency,
                  World(w.live[id := next], w.jobs - {id}, w.stored[id := next], w.outcomes))
  {
    var r := Recovered(w.stored, w.outcomes);
    assert id in w.outcomes ==> r[id] == Completed;
    MoveKeepsBooks(concurrency, w, id, next);
    UpdateKeepsSolution(g, good, w.live, final, id, next);
    UpdateKeepsFlights(g, w.live, id, next);
    RecoveredUpdate(w.stored, w.outcomes, id, next);
    var again := RecoveredStatus(next, id in w.outcomes);
    UpdateKeepsSolution(g, good, r, final, id, again);
    UpdateKeepsFlights(g, r, id, again);
  }

  lemma PersistKeepsCoherent(
    g: Graph<TaskId>, good: set<TaskId>, final: Statuses, concurrency: nat, w: World, id: TaskId)
    requires Coherent(g, good, final, concurrency, w)
    requires Enabled(g, good, concurrency, w, Persist(id))
    ensures Coherent(g, good, final, concurrency, After(g, w, Persist(id)))
  {
    var r := Recovered(w.stored, w.outcomes);
    RecoveredUpdate(w.stored, w.outcomes, id, w.live[id]);
    UpdateKeepsSolution(g, good, r, final, id, w.live[id]);
    UpdateKeepsFlights(g, r, id, w.live[id]);
  }

  lemma CrashKeepsCoherent(g: Graph<TaskId>, good: set<TaskId>, final: Statuses, concurrency: nat, w: World)
    requires Coherent(g, good, final, concurrency, w)
    ensures Coherent(g, good, final, concurrency, w.(live := Recovered(w.stored, w.outcomes), jobs := {}))
  {
  }

  // ---- Outcomes that slipped ----

  /** The world without the outcomes of tasks that end otherwise than completed. */
  ghost function Honest(final: Statuses, w: World): World {
    w.(outcomes := set id | id in w.outcomes && (id in final ==> final[id] == Completed))
  }

  /** A task with a saved outcome has begun, and nothing starts it again. */
  ghost predicate Marked(w: World) {
    forall id :: id in w.live && id in w.outcomes ==>
      w.live[id].Running? || w.live[id].Reviewing? || w.live[id].Completed? || w.live[id].Failed?
  }

  ghost predicate Sound(g: Graph<TaskId>, good: set<TaskId>, final: Statuses, concurrency: nat, w: World) {
    Coherent(g, good, final, concurrency, Honest(final, w)) && Marked(w)
  }

  /** An outcome that has not slipped belongs to a task that ends completed, and conversely. */
  lemma SlippedIff(g: Graph<TaskId>, good: set<TaskId>, final: Statuses, w: World, id: TaskId)
    requires Solves(g, good, w.live, final) && Marked(w) && id in g && id in w.outcomes
    ensures final[id] == Completed <==> !SlippedAt(good, w.live[id], id)
  {
  }

  lemma HonestIff(g: Graph<TaskId>, good: set<TaskId>, final: Statuses, w: World)
    requires Solves(g, good, w.live, final) && Marked(w)
    ensures Honest(final, w) == w <==> !Slipped(good, w)
  {
    forall id | id in g && id in w.outcomes
      ensures final[id] == Completed <==> !SlippedAt(good, w.live[id], id)
    {
      SlippedIff(g, good, final, w, id);
    }
    hide Verdict;
    hide SlippedAt;
    assert Honest(final, w) == w <==> Honest(final, w).outcomes == w.outcomes;
    if Slipped(good, w) {
      var id :| id in w.outcomes && id in w.live && SlippedAt(good, w.live[id], id);
      assert id !in Honest(final, w).outcomes;
    }
  }

  lemma StartIsSound(g: Graph<TaskId>, good: set<TaskId>, final: Statuses, concurrency: nat, w: World)
    requires Startable(g, w) && Solves(g, good, w.live, final)
    ensures Sound(g, good, final, concurrency, w)
  {
    StartIsCoherent(g, good, final, concurrency, w);
    HonestIff(g, good, final, w);
    hide Coherent;
    hide Solves;
    hide FlightsAllowed;
  }

  /** Tasks whose outcome is saved while they run, whether or not it slips. */
  lemma SaveOutcomeKeepsSound(
    g: Graph<TaskId>, good: set<TaskId>, final: Statuses, concurrency: nat, w: World, id: TaskId)
    requires Sound(g, good, final, concurrency, w) && id in w.jobs
    ensures Sound(g, good, final, concurrency, w.(outcomes := w.outcomes + {id}))
  {
    var h, h' := Honest(final, w), Honest(final, w.(outcomes := w.outcomes + {id}));
    hide Solves;
    hide FlightsAllowed;
    assert id in w.live && w.live[id].Running? && id in final by {
      RunningIsKnown(g, good, final, concurrency, w, id);
    }
    hide Coherent;
    if final[id] == Completed {
      assert h' == h.(outcomes := h.outcomes + {id});
      SaveOutcomeKeepsCoherent(g, good, final, concurrency, h, id);
    } else {
      assert h' == h;
    }
  }

  lemma RunningIsKnown(g: Graph<TaskId>, good: set<TaskId>, final: Statuses, concurrency: nat, w: World, id: TaskId)
    requires Sound(g, good, final, concurrency, w) && id in w.jobs
    ensures id in g && id in w.live && w.live[id].Running? && id in final && final[id] == OfRun(good, id)
  {
    hide FlightsAllowed;
  }

  lemma ReviewingIsKnown(g: Graph<TaskId>, good: set<TaskId>, final: Statuses, concurrency: nat, w: World, id: TaskId)
    requires Sound(g, good, final, concurrency, w) && id in w.live && w.live[id].Reviewing?
    ensures id in g && id in Honest(final, w).outcomes && id !in w.jobs
  {
    hide FlightsAllowed;
  }

  lemma MoveKeepsSound(
    g: Graph<TaskId>, good: set<TaskId>, final: Statuses, concurrency: nat, w: World, id: TaskId, next: Status)
    requires Sound(g, good, final, concurrency, w) && id in g && id in w.live
    requires w.live[id].Running? || w.live[id].Reviewing?
    requires (next.Failed? && w.live[id].Running? && id !in good)
          || ((next.Reviewing? || next.Completed?) && id in Honest(final, w).outcomes)
    ensures Sound(g, good, final, concurrency,
                  World(w.live[id := next], w.jobs - {id}, w.stored[id := next], w.outcomes))
  {
    hide Coherent;
    MoveKeepsCoherent(g, good, final, concurrency, Honest(final, w), id, next);
  }

  lemma StartKeepsSound(g: Graph<TaskId>, good: set<TaskId>, final: Statuses, concurrency: nat, w: World, id: TaskId)
    requires Sound(g, good, final, concurrency, w)
    requires id in g && id in w.live && w.live[id].Ready? && |w.jobs| < concurrency
    ensures Sound(g, good, final, concurrency,
                  World(w.live[id := Running], w.jobs + {id}, w.stored[id := Running], w.outcomes))
  {
    hide Coherent;
    StartKeepsCoherent(g, good, final, concurrency, Honest(final, w), id);
  }

  lemma RefreshKeepsSound(g: Graph<TaskId>, good: set<TaskId>, final: Statuses, concurrency: nat, w: World)
    requires Closed(g) && w.live.Keys == g.Keys && Sound(g, good, final, concurrency, w)
    ensures Sound(g, good, final, concurrency, w.(live := Refreshed(g, w.live)))
  {
    hide Coherent;
    RefreshKeepsCoherent(g, good, final, concurrency, Honest(final, w));
  }

  lemma PersistKeepsSound(g: Graph<TaskId>, good: set<TaskId>, final: Statuses, concurrency: nat, w: World, id: TaskId)
    requires Sound(g, good, final, concurrency, w) && Enabled(g, good, concurrency, w, Persist(id))
    ensures Sound(g, good, final, concurrency, After(g, w, Persist(id)))
  {
    hide Coherent;
    hide Quiescent;
    PersistKeepsCoherent(g, good, final, concurrency, Honest(final, w), id);
  }

  lemma CrashKeepsSound(g: Graph<TaskId>, good: set<TaskId>, final: Statuses, concurrency: nat, w: World)
    requires Sound(g, good, final, concurrency, w) && !Slipped(good, w)
    ensures Sound(g, good, final, concurrency, w.(live := Recovered(w.stored, w.outcomes), jobs := {}))
  {
    SoundSolves(g, good, final, concurrency, w);
    HonestIff(g, good, final, w);
    hide Coherent;
    hide Slipped;
    CrashKeepsCoherent(g, good, final, concurrency, w);
  }

  lemma SoundSolves(g: Graph<TaskId>, good: set<TaskId>, final: Statuses, concurrency: nat, w: World)
    requires Sound(g, good, final, concurrency, w)
    ensures Solves(g, good, w.live, final) && Marked(w)
    ensures w.stored.Keys == g.Keys
  {
    hide FlightsAllowed;
  }

  /** What a crash leaves leads to the same end exactly when no outcome slipped. */
  lemma CrashKeepsEndIff(g: Graph<TaskId>, good: set<TaskId>, final: Statuses, concurrency: nat, w: World)
    requires Sound(g, good, final, concurrency, w)
    ensures Solves(g, good, Recovered(w.stored, w.outcomes), final) <==> !Slipped(good, w)
  {
    SoundSolves(g, good, final, concurrency, w);
    HonestIff(g, good, final, w);
    if Slipped(good, w) {
      var id :| id in w.outcomes && id in w.live && SlippedAt(good, w.live[id], id);
      SlippedIff(g, good, final, w, id);
      hide SlippedAt;
      assert Recovered(w.stored, w.outcomes)[id] == Completed;
    }
  }

  /** Slipped or not, what a crash leaves can be started. */
  lemma CrashIsStartable(g: Graph<TaskId>, good: set<TaskId>, final: Statuses, concurrency: nat, w: World)
    requires Acyclic(g) && Sound(g, good, final, concurrency, w)
    ensures Startable(g, w.(live := Recovered(w.stored, w.outcomes), jobs := {}))
  {
    var h := Honest(final, w);
    MoreOutcomes(g, w.stored, h.outcomes, w.outcomes);
    hide FlightsAllowed;
    hide Acyclic;
  }

  lemma MoreOutcomes(g: Graph<TaskId>, stored: Statuses, few: set<TaskId>, many: set<TaskId>)
    requires FlightsAllowed(g, Recovered(stored, few)) && few <= many
    ensures FlightsAllowed(g, Recovered(stored, many))
  {
    var s, t := Recovered(stored, few), Recovered(stored, many);
    forall id | id in g && InFlight(t[id])
      ensures DependenciesCompleted(g, t, id)
    {
      assert s[id] == t[id] && DependenciesCompleted(g, s, id);
    }
  }

  /** The invariant holds over every run: each step keeps it, a crash included. */
  lemma StepKeepsSound(
    g: Graph<TaskId>, good: set<TaskId>, final: Statuses, concurrency: nat, w: World, step: Step, w': World)
    requires Sound(g, good, final, concurrency, w)
    requires Steps(g, good, concurrency, w, step, w')
    ensures Sound(g, good, final, concurrency, w')
  {
    hide Sound;
    hide Quiescent;
    match step
    case Refresh => RefreshKeepsSound(g, good, final, concurrency, w);
    case Start(id) => StartKeepsSound(g, good, final, concurrency, w, id);
    case SaveOutcome(id) => SaveOutcomeKeepsSound(g, good, final, concurrency, w, id);
    case JoinOk(id) =>
      RunningIsKnown(g, good, final, concurrency, w, id);
      MoveKeepsSound(g, good, final, concurrency, w, id, Reviewing);
    case Settle(id) =>
      ReviewingIsKnown(g, good, final, concurrency, w, id);
      assert w.jobs - {id} == w.jobs;
      MoveKeepsSound(g, good, final, concurrency, w, id, Completed);
    case JoinErr(id) =>
      RunningIsKnown(g, good, final, concurrency, w, id);
      MoveKeepsSound(g, good, final, concurrency, w, id, Failed);
    case Persist(id) => PersistKeepsSound(g, good, final, concurrency, w, id);
    case CrashAndRecover => CrashKeepsSound(g, good, final, concurrency, w);
  }
}
