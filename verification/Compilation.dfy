// Compiling an execution plan, whose steps name each other by key, into a dag of tasks with fresh ids
// (crates/hub-runtime/src/plan.rs).
module Compilation {
  import opened Common
  import opened Graphs
  import opened Tasks
  import opened Runs
  import RunTheorems
  import opened Scheduler

  datatype Key = Key(text: string)

  /** `briefUsable`: the brief has criteria, a valid budget and a handoff that can be prepared. */
  datatype PlanStep = PlanStep(key: Key, title: string, goal: string, dependencies: seq<Key>, briefUsable: bool)

  datatype ExecutionPlan = ExecutionPlan(title: string, steps: seq<PlanStep>)

  datatype CompileError = PlanShape | StepIncomplete | DuplicateKey | UnknownDependency | Rejected(error: DagError)

  predicate StepComplete(s: PlanStep) {
    s.key.text != "" && !Blank(s.title) && !Blank(s.goal) && s.briefUsable
  }

  function KeysOf(steps: seq<PlanStep>): (keys: seq<Key>)
    ensures |keys| == |steps| && forall i :: 0 <= i < |keys| ==> keys[i] == steps[i].key
  {
    seq(|steps|, i requires 0 <= i < |steps| => steps[i].key)
  }

  ghost predicate StepsKnown(steps: seq<PlanStep>) {
    forall i :: 0 <= i < |steps| ==> forall d :: d in steps[i].dependencies ==> d in KeysOf(steps)
  }

  /** The plan's dependencies, by key. */
  ghost function KeyGraph(steps: seq<PlanStep>): Graph<Key> {
    map k | k in Elements(KeysOf(steps)) :: StepOf(steps, k).dependencies
  }

  ghost function StepOf(steps: seq<PlanStep>, k: Key): (s: PlanStep)
    requires k in KeysOf(steps)
    ensures s in steps && s.key == k
  {
    var i :| 0 <= i < |steps| && KeysOf(steps)[i] == k;
    steps[i]
  }

  /** A step's own dependencies are in order. */
  ghost predicate StepOk(s: PlanStep) {
    s.key !in s.dependencies && Distinct(s.dependencies)
  }

  /** What a plan needs, said of its own keys: complete steps with distinct keys, which depend on distinct
      other steps and on each other in no circle. */
  ghost predicate Compilable(p: ExecutionPlan) {
    && !Blank(p.title) && 1 <= |p.steps| <= 32
    && (forall s :: s in p.steps ==> StepComplete(s))
    && Distinct(KeysOf(p.steps))
    && StepsKnown(p.steps)
    && (forall s :: s in p.steps ==> StepOk(s))
    && Acyclic(KeyGraph(p.steps))
  }

  // ---- Pairing keys with ids ----

  function Pairs<A(==), B>(a: seq<A>, b: seq<B>): map<A, B>
    requires |a| == |b|
  {
    if a == [] then map[]
    else Pairs(a[..|a| - 1], b[..|b| - 1])[a[|a| - 1] := b[|b| - 1]]
  }

  ghost predicate Paired<A, B>(a: seq<A>, b: seq<B>, m: map<A, B>)
    requires |a| == |b|
  {
    forall i :: 0 <= i < |a| ==> a[i] in m && m[a[i]] == b[i]
  }

  lemma {:induction false} PairsHold<A, B>(a: seq<A>, b: seq<B>)
    requires |a| == |b|
    ensures Pairs(a, b).Keys == Elements(a)
    ensures forall x :: x in Pairs(a, b) ==> Pairs(a, b)[x] in b
    ensures Distinct(a) ==> Paired(a, b, Pairs(a, b))
  {
    if a != [] {
      var n := |a| - 1;
      PairsHold(a[..n], b[..n]);
      assert a == a[..n] + [a[n]];
      AppendKeepsDistinct(a[..n], a[n]);
      hide Distinct;
      assert Elements(a) == Elements(a[..n]) + {a[n]};
      if Distinct(a) {
        PairedMore(a, b, Pairs(a[..n], b[..n]));
      }
    }
  }

  lemma PairsAppend<A, B>(a: seq<A>, b: seq<B>, x: A, y: B)
    requires |a| == |b|
    ensures Pairs(a + [x], b + [y]) == Pairs(a, b)[x := y]
  {
    assert (a + [x])[..|a|] == a && (b + [y])[..|b|] == b;
  }

  lemma NoPairs<A, B>(a: seq<A>, b: seq<B>)
    requires |a| == |b|
    ensures Pairs(a[..0], b[..0]) == map[]
  {
  }

  lemma TakeNext<T>(s: seq<T>, i: nat)
    requires i < |s|
    ensures s[..i + 1] == s[..i] + [s[i]]
  {
  }

  lemma PairAt<A, B>(a: seq<A>, b: seq<B>, i: nat)
    requires i < |a| == |b| && Distinct(a)
    ensures a[i] in Pairs(a, b) && Pairs(a, b)[a[i]] == b[i]
  {
    PairsHold(a, b);
  }

  lemma PairedMore<A, B>(a: seq<A>, b: seq<B>, m: map<A, B>)
    requires |a| == |b| > 0 && Paired(a[..|a| - 1], b[..|b| - 1], m) && a[|a| - 1] !in a[..|a| - 1]
    ensures Paired(a, b, m[a[|a| - 1] := b[|b| - 1]])
  {
    var n := |a| - 1;
    forall i | 0 <= i < n
      ensures a[i] in m && a[i] != a[n] && m[a[i]] == b[i]
    {
      assert a[..n][i] == a[i] && b[..n][i] == b[i];
    }
  }

  // ---- Renaming a graph ----

  /** Edges go to edges. */
  ghost predicate Carries<K(!new), L(!new)>(g: Graph<K>, h: Graph<L>, f: map<K, L>) {
    && g.Keys == f.Keys
    && (forall k :: k in f ==> f[k] in h)
    && forall k, d :: k in g && d in g[k] ==> d in f && f[d] in h[f[k]]
  }

  lemma PullBack<K(!new), L(!new)>(g: Graph<K>, h: Graph<L>, f: map<K, L>)
    requires Closed(g) && Closed(h) && Carries(g, h, f) && Acyclic(h)
    ensures Acyclic(g)
  {
    var rank := AcyclicIsRanked(h);
    var lower: map<K, nat> := map k | k in g :: rank[f[k]];
    assert Ranked(g, lower);
    RankedIsAcyclic(g, lower);
  }

  // ---- The tasks of a plan ----

  function TaskFor(s: PlanStep, ids: map<Key, TaskId>, project: nat, plan: nat): Task
    requires s.key in ids && forall d :: d in s.dependencies ==> d in ids
  {
    Task(ids[s.key], project, Some(plan), Renamed(s.dependencies, ids), Pending, 0)
  }

  function Renamed(keys: seq<Key>, ids: map<Key, TaskId>): (r: seq<TaskId>)
    requires forall d :: d in keys ==> d in ids
    ensures |r| == |keys| && forall i :: 0 <= i < |keys| ==> r[i] == ids[keys[i]]
  {
    seq(|keys|, i requires 0 <= i < |keys| => ids[keys[i]])
  }

  ghost predicate Compiled(steps: seq<PlanStep>, ids: map<Key, TaskId>, project: nat, plan: nat, tasks: seq<Task>) {
    && |tasks| <= |steps|
    && forall i :: 0 <= i < |tasks| ==>
      && steps[i].key in ids && (forall d :: d in steps[i].dependencies ==> d in ids)
      && tasks[i] == TaskFor(steps[i], ids, project, plan)
  }

  /** The ids are told apart as the keys are. */
  ghost predicate Injective(ids: map<Key, TaskId>) {
    forall a, b :: a in ids && b in ids && ids[a] == ids[b] ==> a == b
  }

  lemma PairsAreInjective(keys: seq<Key>, drawn: seq<TaskId>)
    requires |keys| == |drawn| && Distinct(keys) && Distinct(drawn)
    ensures Injective(Pairs(keys, drawn))
  {
    PairsHold(keys, drawn);
    var ids := Pairs(keys, drawn);
    forall a, b | a in ids && b in ids && ids[a] == ids[b]
      ensures a == b
    {
      var i :| 0 <= i < |keys| && keys[i] == a;
      var j :| 0 <= j < |keys| && keys[j] == b;
      assert drawn[i] == drawn[j];
    }
  }

  lemma RenamedKeeps(keys: seq<Key>, ids: map<Key, TaskId>, k: Key)
    requires (forall d :: d in keys ==> d in ids) && k in ids && Injective(ids)
    ensures ids[k] in Renamed(keys, ids) <==> k in keys
    ensures Distinct(Renamed(keys, ids)) <==> Distinct(keys)
  {
    if k in keys {
      var i :| 0 <= i < |keys| && keys[i] == k;
      assert Renamed(keys, ids)[i] == ids[k];
    }
    if Distinct(Renamed(keys, ids)) {
      forall i, j | 0 <= i < j < |keys|
        ensures keys[i] != keys[j]
      {
        assert Renamed(keys, ids)[i] != Renamed(keys, ids)[j];
      }
    }
  }

  /** Everything a compiled plan's steps and tasks have to do with each other. */
  ghost predicate Linked(steps: seq<PlanStep>, drawn: seq<TaskId>, project: nat, plan: nat, tasks: seq<Task>) {
    && |steps| == |drawn| && Distinct(KeysOf(steps)) && Distinct(drawn) && StepsKnown(steps)
    && |tasks| == |steps| && Compiled(steps, Pairs(KeysOf(steps), drawn), project, plan, tasks)
  }

  lemma {:induction false} LinkedIds(
    steps: seq<PlanStep>, drawn: seq<TaskId>, project: nat, plan: nat, tasks: seq<Task>)
    requires Linked(steps, drawn, project, plan, tasks)
    ensures IdsOf(tasks) == drawn && ById(tasks).Keys == Elements(drawn)
    ensures forall i :: 0 <= i < |tasks| ==> drawn[i] in ById(tasks) && ById(tasks)[drawn[i]] == tasks[i]
  {
    PairsHold(KeysOf(steps), drawn);
    hide ById;
    hide Pairs;
    assert IdsOf(tasks) == drawn;
    ByIdKeys(tasks);
    forall i | 0 <= i < |tasks|
      ensures drawn[i] in ById(tasks) && ById(tasks)[drawn[i]] == tasks[i]
    {
      ByIdHolds(tasks, i);
    }
  }

  lemma KeyGraphHolds(steps: seq<PlanStep>, i: nat)
    requires Distinct(KeysOf(steps)) && i < |steps|
    ensures steps[i].key in KeyGraph(steps) && KeyGraph(steps)[steps[i].key] == steps[i].dependencies
  {
    assert KeysOf(steps)[i] == steps[i].key;
    var s := StepOf(steps, steps[i].key);
    var j :| 0 <= j < |steps| && steps[j] == s;
    assert KeysOf(steps)[j] == KeysOf(steps)[i];
  }

  /** The tasks' graph is the plan's, renamed: one has a circle exactly when the other has. */
  lemma CompiledAcyclicIff(steps: seq<PlanStep>, drawn: seq<TaskId>, project: nat, plan: nat, tasks: seq<Task>)
    requires Linked(steps, drawn, project, plan, tasks)
    ensures Closed(KeyGraph(steps)) && Closed(GraphOf(ById(tasks)))
    ensures Acyclic(GraphOf(ById(tasks))) <==> Acyclic(KeyGraph(steps))
  {
    var keys := KeysOf(steps);
    NodesOf(steps, drawn, project, plan, tasks);
    CarriedForth(steps, drawn, tasks, Pairs(keys, drawn), Pairs(drawn, keys));
    CarriedBack(steps, drawn, tasks, Pairs(keys, drawn), Pairs(drawn, keys));
    hide *;
    if Acyclic(GraphOf(ById(tasks))) {
      PullBack(KeyGraph(steps), GraphOf(ById(tasks)), Pairs(keys, drawn));
    }
    if Acyclic(KeyGraph(steps)) {
      PullBack(GraphOf(ById(tasks)), KeyGraph(steps), Pairs(drawn, keys));
    }
  }

  /** The `i`th step and the `i`th task, as nodes of their graphs. */
  ghost predicate Node(
    steps: seq<PlanStep>, drawn: seq<TaskId>, tasks: seq<Task>, ids: map<Key, TaskId>, back: map<TaskId, Key>, i: nat)
    requires |steps| == |drawn| == |tasks| && i < |steps|
  {
    var k, x := steps[i].key, drawn[i];
    && k in ids && ids[k] == x && x in back && back[x] == k
    && k in KeyGraph(steps) && KeyGraph(steps)[k] == steps[i].dependencies
    && x in GraphOf(ById(tasks)) && GraphOf(ById(tasks))[x] == tasks[i].dependencies
    && (forall d :: d in steps[i].dependencies ==> d in ids)
    && tasks[i].dependencies == Renamed(steps[i].dependencies, ids)
  }

  ghost predicate Nodes(
    steps: seq<PlanStep>, drawn: seq<TaskId>, tasks: seq<Task>, ids: map<Key, TaskId>, back: map<TaskId, Key>)
  {
    && |steps| == |drawn| == |tasks|
    && (forall i :: 0 <= i < |steps| ==> Node(steps, drawn, tasks, ids, back, i))
    && KeyGraph(steps).Keys == ids.Keys == Elements(KeysOf(steps))
    && GraphOf(ById(tasks)).Keys == back.Keys == Elements(drawn)
  }

  lemma NodeAt(
    steps: seq<PlanStep>, drawn: seq<TaskId>, project: nat, plan: nat, tasks: seq<Task>, i: nat)
    requires Linked(steps, drawn, project, plan, tasks) && i < |steps|
    ensures Node(steps, drawn, tasks, Pairs(KeysOf(steps), drawn), Pairs(drawn, KeysOf(steps)), i)
  {
    hide Pairs;
    hide ById;
    hide KeyGraph;
    hide Distinct;
    hide StepsKnown;
    hide Elements;
    PairAt(KeysOf(steps), drawn, i);
    PairAt(drawn, KeysOf(steps), i);
    LinkedIds(steps, drawn, project, plan, tasks);
    KeyGraphHolds(steps, i);
  }

  lemma SameKeys(
    steps: seq<PlanStep>, drawn: seq<TaskId>, project: nat, plan: nat, tasks: seq<Task>)
    requires Linked(steps, drawn, project, plan, tasks)
    ensures KeyGraph(steps).Keys == Pairs(KeysOf(steps), drawn).Keys == Elements(KeysOf(steps))
    ensures GraphOf(ById(tasks)).Keys == Pairs(drawn, KeysOf(steps)).Keys == Elements(drawn)
  {
    hide Pairs;
    hide ById;
    hide Distinct;
    hide StepsKnown;
    hide Compiled;
    hide Elements;
    hide KeyGraph;
    PairsHold(KeysOf(steps), drawn);
    PairsHold(drawn, KeysOf(steps));
    LinkedIds(steps, drawn, project, plan, tasks);
    KeyGraphKeys(steps);
  }

  lemma KeyGraphKeys(steps: seq<PlanStep>)
    ensures KeyGraph(steps).Keys == Elements(KeysOf(steps))
  {
  }

  lemma NodesOf(
    steps: seq<PlanStep>, drawn: seq<TaskId>, project: nat, plan: nat, tasks: seq<Task>)
    requires Linked(steps, drawn, project, plan, tasks)
    ensures Nodes(steps, drawn, tasks, Pairs(KeysOf(steps), drawn), Pairs(drawn, KeysOf(steps)))
  {
    hide Pairs;
    hide ById;
    hide Node;
    hide Distinct;
    hide StepsKnown;
    hide Compiled;
    hide KeyGraph;
    hide Elements;
    hide GraphOf;
    SameKeys(steps, drawn, project, plan, tasks);
    forall i | 0 <= i < |steps|
      ensures Node(steps, drawn, tasks, Pairs(KeysOf(steps), drawn), Pairs(drawn, KeysOf(steps)), i)
    {
      NodeAt(steps, drawn, project, plan, tasks, i);
    }
  }

  lemma CarriedForth(
    steps: seq<PlanStep>, drawn: seq<TaskId>, tasks: seq<Task>, ids: map<Key, TaskId>, back: map<TaskId, Key>)
    requires Nodes(steps, drawn, tasks, ids, back)
    ensures Closed(KeyGraph(steps)) && Carries(KeyGraph(steps), GraphOf(ById(tasks)), ids)
  {
    var g, h := KeyGraph(steps), GraphOf(ById(tasks));
    hide KeyGraph;
    hide ById;
    hide GraphOf;
    hide Renamed;
    forall k | k in g || k in ids
      ensures k in g && k in ids && ids[k] in h
    {
      var i :| 0 <= i < |steps| && KeysOf(steps)[i] == k;
      assert Node(steps, drawn, tasks, ids, back, i);
    }
    forall k, d | k in g && d in g[k]
      ensures d in g && d in ids && ids[d] in h[ids[k]]
    {
      var i :| 0 <= i < |steps| && KeysOf(steps)[i] == k;
      assert Node(steps, drawn, tasks, ids, back, i);
      var m :| 0 <= m < |steps[i].dependencies| && steps[i].dependencies[m] == d;
      assert Renamed(steps[i].dependencies, ids)[m] == ids[d];
    }
    assert g.Keys == ids.Keys;
  }

  lemma CarriedBack(
    steps: seq<PlanStep>, drawn: seq<TaskId>, tasks: seq<Task>, ids: map<Key, TaskId>, back: map<TaskId, Key>)
    requires Nodes(steps, drawn, tasks, ids, back)
    ensures Closed(GraphOf(ById(tasks))) && Carries(GraphOf(ById(tasks)), KeyGraph(steps), back)
  {
    var g, h := KeyGraph(steps), GraphOf(ById(tasks));
    hide KeyGraph;
    hide ById;
    hide GraphOf;
    hide Renamed;
    forall x | x in h || x in back
      ensures x in h && x in back && back[x] in g
    {
      var i :| 0 <= i < |steps| && drawn[i] == x;
      assert Node(steps, drawn, tasks, ids, back, i);
    }
    forall x, d | x in h && d in h[x]
      ensures d in h && d in back && back[d] in g[back[x]]
    {
      var i :| 0 <= i < |steps| && drawn[i] == x;
      assert Node(steps, drawn, tasks, ids, back, i);
      var m :| 0 <= m < |tasks[i].dependencies| && tasks[i].dependencies[m] == d;
      var e := steps[i].dependencies[m];
      assert e in steps[i].dependencies && d == ids[e];
      var j :| 0 <= j < |steps| && KeysOf(steps)[j] == e;
      assert Node(steps, drawn, tasks, ids, back, j);
    }
    assert h.Keys == back.Keys;
  }

  lemma StepOkIff(
    steps: seq<PlanStep>, drawn: seq<TaskId>, project: nat, plan: nat, tasks: seq<Task>, i: nat)
    requires Linked(steps, drawn, project, plan, tasks) && i < |steps|
    ensures DependenciesOk(tasks[i], ById(tasks)) <==> StepOk(steps[i])
    ensures tasks[i].project == project
  {
    var ids := Pairs(KeysOf(steps), drawn);
    PairsHold(KeysOf(steps), drawn);
    PairsAreInjective(KeysOf(steps), drawn);
    LinkedIds(steps, drawn, project, plan, tasks);
    hide Pairs;
    hide ById;
    hide Injective;
    hide StepsKnown;
    RenamedKeeps(steps[i].dependencies, ids, steps[i].key);
    hide Distinct;
    RenamedInto(steps[i].dependencies, ids, drawn);
    hide Renamed;
  }

  lemma RenamedInto(keys: seq<Key>, ids: map<Key, TaskId>, drawn: seq<TaskId>)
    requires (forall d :: d in keys ==> d in ids) && forall x :: x in ids ==> ids[x] in drawn
    ensures forall d :: d in Renamed(keys, ids) ==> d in drawn
  {
    forall d | d in Renamed(keys, ids)
      ensures d in drawn
    {
      var m :| 0 <= m < |keys| && Renamed(keys, ids)[m] == d;
      assert ids[keys[m]] in drawn;
    }
  }

  lemma CompiledWellFormedIff(
    steps: seq<PlanStep>, drawn: seq<TaskId>, project: nat, plan: nat, tasks: seq<Task>)
    requires Linked(steps, drawn, project, plan, tasks) && steps != []
    ensures WellFormed(tasks) <==> forall s :: s in steps ==> StepOk(s)
  {
    LinkedIds(steps, drawn, project, plan, tasks);
    forall i | 0 <= i < |steps|
      ensures DependenciesOk(tasks[i], ById(tasks)) <==> StepOk(steps[i])
      ensures tasks[i].project == project
    {
      StepOkIff(steps, drawn, project, plan, tasks, i);
    }
    hide ById;
    hide Compiled;
    hide DependenciesOk;
    hide StepOk;
    hide StepsKnown;
    hide Distinct;
    if WellFormed(tasks) {
      forall s | s in steps
        ensures StepOk(s)
      {
        var i :| 0 <= i < |steps| && steps[i] == s;
        assert tasks[i] in tasks;
      }
    }
    if forall s :: s in steps ==> StepOk(s) {
      forall t | t in tasks
        ensures t.project == tasks[0].project && DependenciesOk(t, ById(tasks))
      {
        var i :| 0 <= i < |tasks| && tasks[i] == t;
        assert steps[i] in steps;
      }
    }
  }

  /** The first `i` keys have their ids, and no two of them are the same. */
  ghost predicate Assigned(keys: seq<Key>, drawn: seq<TaskId>, ids: map<Key, TaskId>, i: nat)
    requires i <= |keys| == |drawn|
  {
    ids == Pairs(keys[..i], drawn[..i]) && Distinct(keys[..i])
  }

  lemma AssignNext(keys: seq<Key>, drawn: seq<TaskId>, ids: map<Key, TaskId>, i: nat)
    requires i < |keys| == |drawn| && Assigned(keys, drawn, ids, i)
    ensures if keys[i] in ids then !Distinct(keys) else Assigned(keys, drawn, ids[keys[i] := drawn[i]], i + 1)
  {
    hide Distinct;
    hide Pairs;
    hide Paired;
    TakeNext(keys, i);
    TakeNext(drawn, i);
    PairsAppend(keys[..i], drawn[..i], keys[i], drawn[i]);
    PairsHold(keys[..i], drawn[..i]);
    AppendKeepsDistinct(keys[..i], keys[i]);
    if Distinct(keys) {
      PrefixIsDistinct(keys, i + 1);
    }
  }

  lemma AssignEnds(keys: seq<Key>, drawn: seq<TaskId>)
    requires |keys| == |drawn|
    ensures Assigned(keys, drawn, map[], 0)
    ensures forall ids :: Assigned(keys, drawn, ids, |keys|) ==> ids == Pairs(keys, drawn) && Distinct(keys)
  {
    assert keys[..|keys|] == keys && drawn[..|drawn|] == drawn;
  }

  /** Draws an id for each key; stops at a key that has one. */
  method AssignIds(steps: seq<PlanStep>, drawn: seq<TaskId>) returns (r: Result<map<Key, TaskId>, CompileError>)
    requires |drawn| == |steps|
    ensures r.Ok? <==> Distinct(KeysOf(steps)) && forall i :: 0 <= i < |steps| ==> StepComplete(steps[i])
    ensures r.Ok? ==> r.value == Pairs(KeysOf(steps), drawn)
  {
    hide Blank;
    hide Distinct;
    hide Assigned;
    hide Pairs;
    ghost var keys := KeysOf(steps);
    var ids: map<Key, TaskId> := map[];
    AssignEnds(keys, drawn);
    for i := 0 to |steps|
      invariant Assigned(keys, drawn, ids, i)
      invariant forall k :: 0 <= k < i ==> StepComplete(steps[k])
    {
      var s := steps[i];
      if s.key.text == "" || Blank(s.title) || Blank(s.goal) || !s.briefUsable {
        return Err(StepIncomplete);
      }
      AssignNext(keys, drawn, ids, i);
      if steps[i].key in ids {
        return Err(DuplicateKey);
      }
      ids := ids[steps[i].key := drawn[i]];
    }
    r := Ok(ids);
  }

  predicate DependenciesIn(s: PlanStep, ids: map<Key, TaskId>) {
    forall d :: d in s.dependencies ==> d in ids
  }

  lemma CompiledMore(steps: seq<PlanStep>, ids: map<Key, TaskId>, project: nat, plan: nat, tasks: seq<Task>, i: nat)
    requires |tasks| == i < |steps| && Compiled(steps, ids, project, plan, tasks)
    requires steps[i].key in ids && DependenciesIn(steps[i], ids)
    ensures Compiled(steps, ids, project, plan, tasks + [TaskFor(steps[i], ids, project, plan)])
  {
    hide TaskFor;
  }

  lemma NoneCompiled(steps: seq<PlanStep>, ids: map<Key, TaskId>, project: nat, plan: nat)
    ensures Compiled(steps, ids, project, plan, [])
  {
  }

  method MakeTasks(
    steps: seq<PlanStep>, ids: map<Key, TaskId>, ghost drawn: seq<TaskId>, project: nat, plan: nat)
    returns (r: Result<(seq<Task>, map<TaskId, PlanStep>), CompileError>)
    requires |drawn| == |steps| && forall i :: 0 <= i < |steps| ==> steps[i].key in ids && ids[steps[i].key] == drawn[i]
    ensures r.Ok? <==> forall i :: 0 <= i < |steps| ==> DependenciesIn(steps[i], ids)
    ensures r.Ok? ==> |r.value.0| == |steps| && Compiled(steps, ids, project, plan, r.value.0)
    ensures r.Ok? ==> r.value.1 == Pairs(drawn, steps)
  {
    NoPairs(drawn, steps);
    NoneCompiled(steps, ids, project, plan);
    hide Pairs;
    hide Compiled;
    var tasks: seq<Task> := [];
    var briefs: map<TaskId, PlanStep> := map[];
    for i := 0 to |steps|
      invariant |tasks| == i && Compiled(steps, ids, project, plan, tasks)
      invariant forall k :: 0 <= k < i ==> DependenciesIn(steps[k], ids)
      invariant briefs == Pairs(drawn[..i], steps[..i])
    {
      if !DependenciesIn(steps[i], ids) {
        return Err(UnknownDependency);
      }
      TakeNext(drawn, i);
      TakeNext(steps, i);
      PairsAppend(drawn[..i], steps[..i], drawn[i], steps[i]);
      CompiledMore(steps, ids, project, plan, tasks, i);
      briefs := briefs[ids[steps[i].key] := steps[i]];
      tasks := tasks + [TaskFor(steps[i], ids, project, plan)];
    }
    assert drawn[..|steps|] == drawn && steps[..|steps|] == steps;
    r := Ok((tasks, briefs));
  }

  lemma CompilableIff(
    p: ExecutionPlan, drawn: seq<TaskId>, project: nat, plan: nat, tasks: seq<Task>)
    requires Linked(p.steps, drawn, project, plan, tasks)
    requires !Blank(p.title) && 1 <= |p.steps| <= 32 && forall i :: 0 <= i < |p.steps| ==> StepComplete(p.steps[i])
    ensures WellFormed(tasks) && Acyclic(GraphOf(ById(tasks))) <==> Compilable(p)
  {
    CompiledWellFormedIff(p.steps, drawn, project, plan, tasks);
    CompiledAcyclicIff(p.steps, drawn, project, plan, tasks);
    hide WellFormed;
    hide StepOk;
    hide StepComplete;
    hide Acyclic;
    hide Compiled;
    hide ById;
    hide KeyGraph;
  }

  lemma CompiledArePending(
    steps: seq<PlanStep>, drawn: seq<TaskId>, project: nat, plan: nat, tasks: seq<Task>)
    requires Linked(steps, drawn, project, plan, tasks)
    ensures RunTheorems.AllPending(GraphOf(ById(tasks)), StatusesOf(ById(tasks)))
    ensures ById(tasks).Keys == Elements(drawn)
  {
    LinkedIds(steps, drawn, project, plan, tasks);
    hide ById;
    hide Pairs;
    hide StepsKnown;
    hide Distinct;
  }

  /** The `i`th task, field by field: the drawn id, the project and plan asked for, not begun, and waiting for
      the tasks of the steps that its step names, in the same order. */
  ghost predicate TaskIsStep(
    steps: seq<PlanStep>, drawn: seq<TaskId>, project: nat, plan: nat, task: Task, i: nat)
    requires |steps| == |drawn| && i < |steps|
  {
    && task.id == drawn[i] && task.project == project && task.plan == Some(plan)
    && task.status == Pending && task.attempts == 0
    && |task.dependencies| == |steps[i].dependencies|
    && forall m :: 0 <= m < |task.dependencies| ==>
      exists j :: 0 <= j < |steps| && steps[j].key == steps[i].dependencies[m] && task.dependencies[m] == drawn[j]
  }

  lemma TasksAreSteps(steps: seq<PlanStep>, drawn: seq<TaskId>, project: nat, plan: nat, tasks: seq<Task>, i: nat)
    requires Linked(steps, drawn, project, plan, tasks) && i < |steps|
    ensures TaskIsStep(steps, drawn, project, plan, tasks[i], i)
  {
    var keys := KeysOf(steps);
    PairAt(keys, drawn, i);
    var task := tasks[i];
    forall m | 0 <= m < |task.dependencies|
      ensures exists j ::
        0 <= j < |steps| && steps[j].key == steps[i].dependencies[m] && task.dependencies[m] == drawn[j]
    {
      var d := steps[i].dependencies[m];
      assert d in keys;
      var j :| 0 <= j < |keys| && keys[j] == d;
      PairAt(keys, drawn, j);
      assert steps[j].key == d;
    }
    hide Pairs;
    hide Distinct;
    hide StepsKnown;
  }

  /** A plan compiles exactly when it is compilable as written, whatever ids are drawn, and its tasks are
      its steps renamed; none has begun, and they may be executed. */
  method Compile(p: ExecutionPlan, project: nat, plan: nat, drawn: seq<TaskId>)
    returns (r: Result<(Dag, map<TaskId, PlanStep>), CompileError>, ghost tasks: seq<Task>)
    requires |drawn| == |p.steps| && Distinct(drawn)
    ensures r.Ok? <==> Compilable(p)
    ensures r.Ok? ==> fresh(r.value.0) && r.value.0.Valid()
    ensures r.Ok? ==> r.value.0.tasks == ById(tasks) && Linked(p.steps, drawn, project, plan, tasks)
    ensures r.Ok? ==> forall i :: 0 <= i < |p.steps| ==> TaskIsStep(p.steps, drawn, project, plan, tasks[i], i)
    ensures r.Ok? ==> RunTheorems.AllPending(GraphOf(r.value.0.tasks), StatusesOf(r.value.0.tasks))
    ensures r.Ok? ==>
      var now := StatusesOf(r.value.0.tasks);
      Startable(GraphOf(r.value.0.tasks), World(now, {}, now, {}))
    ensures r.Ok? ==> r.value.1 == Pairs(drawn, p.steps) && r.value.1.Keys == r.value.0.tasks.Keys
  {
    hide StepComplete;
    hide WellFormed;
    hide Acyclic;
    hide KeyGraph;
    hide Pairs;
    hide ById;
    tasks := [];
    if Blank(p.title) || |p.steps| == 0 || |p.steps| > 32 {
      return Err(PlanShape), tasks;
    }
    var ids := AssignIds(p.steps, drawn);
    if ids.Err? {
      return Err(ids.error), tasks;
    }
    PairsHold(KeysOf(p.steps), drawn);
    PairsHold(drawn, p.steps);
    var made := MakeTasks(p.steps, ids.value, drawn, project, plan);
    if made.Err? {
      return Err(made.error), tasks;
    }
    tasks := made.value.0;
    CompilableIff(p, drawn, project, plan, tasks);
    CompiledArePending(p.steps, drawn, project, plan, tasks);
    forall i | 0 <= i < |p.steps|
      ensures TaskIsStep(p.steps, drawn, project, plan, tasks[i], i)
    {
      TasksAreSteps(p.steps, drawn, project, plan, tasks, i);
    }
    hide TaskIsStep;
    hide Compilable;
    hide Startable;
    var dag := Dag.New(made.value.0);
    match dag {
      case Ok(d) =>
        RunTheorems.FreshPlanIsStartable(GraphOf(d.tasks), StatusesOf(d.tasks));
        r := Ok((d, made.value.1));
      case Err(e) =>
        r := Err(Rejected(e));
    }
  }
}
