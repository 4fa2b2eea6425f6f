// Laying a plan out in columns (apps/desktop/src/task-graph.ts).
module TaskGraph {
  import opened Common
  import opened Graphs
  import Scheduler
  import Tasks

  type Task = Tasks.Task
  type TaskId = Tasks.TaskId

  /** The view's keys are strings; any type will do. */
  datatype Node<K> = Node(key: K, dependencies: seq<K>, status: string)

  datatype LayoutError = DuplicateOrUnknownKey | CyclicDependencies

  function KeysOf<K(==,!new)>(nodes: seq<Node<K>>): (keys: seq<K>)
    ensures |keys| == |nodes| && forall i :: 0 <= i < |nodes| ==> keys[i] == nodes[i].key
  {
    seq(|nodes|, i requires 0 <= i < |nodes| => nodes[i].key)
  }

  /** The dependencies by key; a later node of the same key would hide an earlier one. */
  function GraphOf<K(==,!new)>(nodes: seq<Node<K>>): Graph<K> {
    if nodes == [] then map[]
    else GraphOf(nodes[..|nodes| - 1])[nodes[|nodes| - 1].key := nodes[|nodes| - 1].dependencies]
  }

  predicate DependenciesKnown<K(==,!new)>(nodes: seq<Node<K>>) {
    forall n :: n in nodes ==> forall d :: d in n.dependencies ==> d in KeysOf(nodes)
  }

  lemma {:induction false} GraphHolds<K(!new)>(nodes: seq<Node<K>>)
    ensures GraphOf(nodes).Keys == Elements(KeysOf(nodes))
    ensures Distinct(KeysOf(nodes)) ==>
      forall n :: n in nodes ==> n.key in GraphOf(nodes) && GraphOf(nodes)[n.key] == n.dependencies
    ensures forall k :: k in GraphOf(nodes) ==>
      exists n :: n in nodes && n.key == k && GraphOf(nodes)[k] == n.dependencies
  {
    if nodes != [] {
      var init, last := nodes[..|nodes| - 1], nodes[|nodes| - 1];
      GraphHolds(init);
      assert nodes == init + [last];
      assert KeysOf(nodes) == KeysOf(init) + [last.key];
      assert Elements(KeysOf(nodes)) == Elements(KeysOf(init)) + {last.key};
      if Distinct(KeysOf(nodes)) {
        assert Distinct(KeysOf(init));
        forall n | n in nodes
          ensures n.key in GraphOf(nodes) && GraphOf(nodes)[n.key] == n.dependencies
        {
          if n != last {
            var i :| 0 <= i < |init| && init[i] == n;
            assert KeysOf(nodes)[i] != KeysOf(nodes)[|nodes| - 1];
          }
        }
      }
      forall k | k in GraphOf(nodes)
        ensures exists n :: n in nodes && n.key == k && GraphOf(nodes)[k] == n.dependencies
      {
        if k == last.key {
          assert last in nodes;
        } else {
          var n :| n in init && n.key == k && GraphOf(init)[k] == n.dependencies;
          assert n in nodes;
        }
      }
    }
  }

  /** The nodes whose key is in `keys`, in their original order. */
  function Keep<K(==,!new)>(nodes: seq<Node<K>>, keys: set<K>): (r: seq<Node<K>>)
    ensures forall n :: n in r <==> n in nodes && n.key in keys
  {
    if nodes == [] then []
    else if nodes[0].key in keys then [nodes[0]] + Keep(nodes[1..], keys)
    else Keep(nodes[1..], keys)
  }

  /** The nodes at one level: those whose longest dependency chain has that length. */
  ghost function AtLevel<K(!new)>(g: Graph<K>, level: nat): set<K> {
    set n | n in g && LongestChain(g, n, level)
  }

  /** The layout: column `k` holds, in the given order, the nodes whose longest chain has length `k`. */
  ghost predicate IsLayout<K(!new)>(nodes: seq<Node<K>>, layers: seq<seq<Node<K>>>) {
    var g := GraphOf(nodes);
    && (forall k :: 0 <= k < |layers| ==> layers[k] != [] && layers[k] == Keep(nodes, AtLevel(g, k)))
    && forall n :: n in g ==> exists k :: 0 <= k < |layers| && LongestChain(g, n, k)
  }

  // ---- Rounds put each node at its level ----

  ghost predicate LayersSoFar<K(!new)>(g: Graph<K>, done: set<K>, rank: map<K, nat>, rounds: nat) {
    && RankedPrefix(g, done, rank, rounds)
    && (forall n :: n in done && rank[n] > 0 ==> exists d :: d in g[n] && d in done && rank[d] == rank[n] - 1)
    // a node left out waits for one of the latest round
    && (forall n :: n in g && n !in done && rounds > 0 ==>
          (exists d :: d in g[n] && d !in done) || exists d :: d in g[n] && d in done && rank[d] == rounds - 1)
  }

  lemma RoundDeepens<K(!new)>(g: Graph<K>, done: set<K>, rank: map<K, nat>, rounds: nat)
    requires LayersSoFar(g, done, rank, rounds)
    ensures LayersSoFar(g, done + Round(g, done), AddRound(rank, Round(g, done), rounds), rounds + 1)
  {
    var next := Round(g, done);
    var rank' := AddRound(rank, next, rounds);
    RoundExtendsPrefix(g, done, rank, rounds);
    forall n | n in done + next && rank'[n] > 0
      ensures exists d :: d in g[n] && d in done + next && rank'[d] == rank'[n] - 1
    {
      var d :| d in g[n] && d in done && rank[d] == rank'[n] - 1;
      assert rank'[d] == rank[d];
    }
    forall n | n in g && n !in done + next
      ensures (exists d :: d in g[n] && d !in done + next)
           || exists d :: d in g[n] && d in done + next && rank'[d] == rounds
    {
      var d :| d in g[n] && d !in done;
    }
  }

  ghost function RankedAt<K(!new)>(rank: map<K, nat>, level: nat): set<K> {
    set n | n in rank && rank[n] == level
  }

  lemma RankedAtIsLevel<K(!new)>(g: Graph<K>, rank: map<K, nat>, level: nat)
    requires Tight(g, rank)
    ensures RankedAt(rank, level) == AtLevel(g, level)
  {
    forall n | n in g
      ensures LongestChain(g, n, level) <==> rank[n] == level
    {
      TightRankIsLongestChain(g, rank, n);
      if LongestChain(g, n, level) {
        LongestChainIsUnique(g, n, level, rank[n]);
      }
    }
  }

  // ---- The method ----

  function FilterReady<K(==,!new)>(nodes: seq<Node<K>>, done: set<K>): seq<Node<K>> {
    if nodes == [] then []
    else
      var rest := FilterReady(nodes[1..], done);
      if nodes[0].key !in done && forall d :: d in nodes[0].dependencies ==> d in done then [nodes[0]] + rest
      else rest
  }

  lemma {:induction false} FilterReadyIsRound<K(!new)>(nodes: seq<Node<K>>, g: Graph<K>, done: set<K>)
    requires forall n :: n in nodes ==> n.key in g && g[n.key] == n.dependencies
    ensures FilterReady(nodes, done) == Keep(nodes, Round(g, done))
  {
    if nodes != [] {
      FilterReadyIsRound(nodes[1..], g, done);
    }
  }

  /** Lays out exactly the graphs with distinct keys, known dependencies and no cycle. */
  method GraphLayers<K(==,!new)>(nodes: seq<Node<K>>) returns (r: Result<seq<seq<Node<K>>>, LayoutError>)
    ensures r.Ok? <==> Distinct(KeysOf(nodes)) && DependenciesKnown(nodes) && Acyclic(GraphOf(nodes))
    ensures r.Ok? ==> IsLayout(nodes, r.value)
    ensures r == Err(DuplicateOrUnknownKey) <==> !(Distinct(KeysOf(nodes)) && DependenciesKnown(nodes))
    ensures r == Err(CyclicDependencies) ==> exists p :: IsCycle(GraphOf(nodes), p)
  {
    hide Acyclic;
    hide LayersSoFar;
    hide IsLayout;
    hide IsCycle;
    hide Round;
    var keys := set n | n in nodes :: n.key;
    ghost var g := GraphOf(nodes);
    GraphHolds(nodes);
    DistinctIffCardinality(KeysOf(nodes));
    assert keys == Elements(KeysOf(nodes));
    if |keys| != |nodes| || exists n :: n in nodes && exists d :: d in n.dependencies && d !in keys {
      return Err(DuplicateOrUnknownKey);
    }
    assert Closed(g);
    var done: set<K> := {};
    var layers: seq<seq<Node<K>>> := [];
    ghost var rank: map<K, nat> := map[];
    LayersStart(nodes, g);
    while |done| < |nodes|
      invariant done <= g.Keys && Placed(nodes, g, done, rank, layers)
      decreases g.Keys - done
    {
      var layer := FilterReady(nodes, done);
      FilterReadyIsRound(nodes, g, done);
      KeepEmpty(nodes, Round(g, done));
      if layer == [] {
        assert done != g.Keys;
        ghost var p := StuckRoundHasCycle(g, done);
        CycleIsNotAcyclic(g, p);
        return Err(CyclicDependencies);
      }
      LayerPlaced(nodes, g, done, rank, layers);
      rank := AddRound(rank, Round(g, done), |layers|);
      layers := layers + [layer];
      done := done + set n | n in layer :: n.key;
    }
    AllPlaced(nodes, g, done, rank, layers);
    r := Ok(layers);
  }

  ghost predicate Placed<K(!new)>(
    nodes: seq<Node<K>>, g: Graph<K>, done: set<K>, rank: map<K, nat>, layers: seq<seq<Node<K>>>)
  {
    && LayersSoFar(g, done, rank, |layers|)
    && forall k :: 0 <= k < |layers| ==> layers[k] != [] && layers[k] == Keep(nodes, RankedAt(rank, k))
  }

  lemma LayersStart<K(!new)>(nodes: seq<Node<K>>, g: Graph<K>)
    ensures Placed(nodes, g, {}, map[], [])
  {
  }

  lemma {:induction false} KeepEmpty<K(!new)>(nodes: seq<Node<K>>, keys: set<K>)
    requires keys <= Elements(KeysOf(nodes))
    ensures Keep(nodes, keys) == [] <==> keys == {}
    ensures (set n | n in Keep(nodes, keys) :: n.key) == keys
  {
    forall k | k in keys
      ensures exists n :: n in Keep(nodes, keys) && n.key == k
    {
      var i :| 0 <= i < |nodes| && KeysOf(nodes)[i] == k;
      assert nodes[i] in Keep(nodes, keys);
    }
    if k :| k in keys {
      assert exists n :: n in Keep(nodes, keys) && n.key == k;
    }
    if Keep(nodes, keys) != [] {
      assert Keep(nodes, keys)[0] in Keep(nodes, keys);
    }
  }

  lemma LayerPlaced<K(!new)>(
    nodes: seq<Node<K>>, g: Graph<K>, done: set<K>, rank: map<K, nat>, layers: seq<seq<Node<K>>>)
    requires Placed(nodes, g, done, rank, layers) && Keep(nodes, Round(g, done)) != []
    ensures Placed(nodes, g, done + Round(g, done), AddRound(rank, Round(g, done), |layers|),
                   layers + [Keep(nodes, Round(g, done))])
  {
    hide LayersSoFar;
    hide AddRound;
    hide Round;
    hide RankedAt;
    hide Keep;
    RoundDeepens(g, done, rank, |layers|);
    SoFarRanks(g, done, rank, |layers|);
    var next, rank' := Round(g, done), AddRound(rank, Round(g, done), |layers|);
    forall k | 0 <= k <= |layers|
      ensures RankedAt(rank', k) == if k < |layers| then RankedAt(rank, k) else next
    {
      RankedAtAfter(rank, next, |layers|, k);
    }
  }

  lemma SoFarRanks<K(!new)>(g: Graph<K>, done: set<K>, rank: map<K, nat>, rounds: nat)
    requires LayersSoFar(g, done, rank, rounds)
    ensures Round(g, done) !! rank.Keys && forall n :: n in rank ==> rank[n] < rounds
  {
  }

  lemma RankedAtAfter<K(!new)>(rank: map<K, nat>, next: set<K>, rounds: nat, k: nat)
    requires next !! rank.Keys && k <= rounds && forall n :: n in rank ==> rank[n] < rounds
    ensures RankedAt(AddRound(rank, next, rounds), k) == if k < rounds then RankedAt(rank, k) else next
  {
  }

  lemma AllPlaced<K(!new)>(nodes: seq<Node<K>>, g: Graph<K>, done: set<K>, rank: map<K, nat>, layers: seq<seq<Node<K>>>)
    requires g == GraphOf(nodes) && Placed(nodes, g, done, rank, layers) && |done| >= |nodes|
    ensures Acyclic(g) && IsLayout(nodes, layers)
  {
    GraphHolds(nodes);
    DistinctIffCardinality(KeysOf(nodes));
    RoundsComplete(g, done, rank, |layers|);
    assert Tight(g, rank);
    forall k | 0 <= k < |layers|
      ensures layers[k] == Keep(nodes, AtLevel(g, k))
    {
      RankedAtIsLevel(g, rank, k);
    }
    forall n | n in g
      ensures 0 <= rank[n] < |layers| && LongestChain(g, n, rank[n])
    {
      TightRankIsLongestChain(g, rank, n);
    }
  }

  // ---- The layout loses and repeats nothing ----

  function Flatten<K(==,!new)>(layers: seq<seq<Node<K>>>): seq<Node<K>> {
    if layers == [] then [] else Flatten(layers[..|layers| - 1]) + layers[|layers| - 1]
  }

  lemma {:induction false} KeepAddsUp<K(!new)>(nodes: seq<Node<K>>, a: set<K>, b: set<K>)
    requires a !! b
    ensures multiset(Keep(nodes, a)) + multiset(Keep(nodes, b)) == multiset(Keep(nodes, a + b))
  {
    if nodes != [] {
      KeepAddsUp(nodes[1..], a, b);
    }
  }

  lemma {:induction false} KeepAll<K(!new)>(nodes: seq<Node<K>>, keys: set<K>)
    requires forall n :: n in nodes ==> n.key in keys
    ensures Keep(nodes, keys) == nodes
  {
    if nodes != [] {
      KeepAll(nodes[1..], keys);
    }
  }

  ghost function BelowLevel<K(!new)>(g: Graph<K>, level: nat): set<K> {
    if level == 0 then {} else BelowLevel(g, level - 1) + AtLevel(g, level - 1)
  }

  lemma {:induction false} BelowLevelIs<K(!new)>(g: Graph<K>, level: nat, n: K)
    ensures n in BelowLevel(g, level) <==> n in g && exists k :: 0 <= k < level && LongestChain(g, n, k)
  {
    if level > 0 {
      BelowLevelIs(g, level - 1, n);
    }
  }

  lemma LevelIsNotBelow<K(!new)>(g: Graph<K>, level: nat, n: K)
    requires LongestChain(g, n, level)
    ensures n !in BelowLevel(g, level)
  {
    BelowLevelIs(g, level, n);
  }

  lemma {:induction false} LayersAddUp<K(!new)>(nodes: seq<Node<K>>, layers: seq<seq<Node<K>>>)
    requires forall k :: 0 <= k < |layers| ==> layers[k] == Keep(nodes, AtLevel(GraphOf(nodes), k))
    ensures multiset(Flatten(layers)) == multiset(Keep(nodes, BelowLevel(GraphOf(nodes), |layers|)))
  {
    if layers == [] {
      KeepEmpty(nodes, {});
    } else {
      var g, k := GraphOf(nodes), |layers| - 1;
      LayersAddUp(nodes, layers[..k]);
      forall n | n in AtLevel(g, k)
        ensures n !in BelowLevel(g, k)
      {
        LevelIsNotBelow(g, k, n);
      }
      KeepAddsUp(nodes, BelowLevel(g, k), AtLevel(g, k));
    }
  }

  /** Every node appears in the columns exactly as often as it was given. */
  lemma LayoutIsPartition<K(!new)>(nodes: seq<Node<K>>, layers: seq<seq<Node<K>>>)
    requires Distinct(KeysOf(nodes)) && IsLayout(nodes, layers)
    ensures multiset(Flatten(layers)) == multiset(nodes)
  {
    var g := GraphOf(nodes);
    GraphHolds(nodes);
    LayersAddUp(nodes, layers);
    forall n | n in nodes
      ensures n.key in BelowLevel(g, |layers|)
    {
      BelowLevelIs(g, |layers|, n.key);
    }
    KeepAll(nodes, BelowLevel(g, |layers|));
  }

  // ---- The view lays out whatever the scheduler accepts ----

  function NodesOf(list: seq<Task>): (nodes: seq<Node<TaskId>>)
    ensures |nodes| == |list|
    ensures forall i :: 0 <= i < |list| ==> nodes[i].key == list[i].id && nodes[i].dependencies == list[i].dependencies
  {
    seq(|list|, i requires 0 <= i < |list| => Node(list[i].id, list[i].dependencies, ""))
  }

  lemma {:induction false} SameGraph(list: seq<Task>)
    ensures GraphOf(NodesOf(list)) == Tasks.GraphOf(Scheduler.ById(list))
    ensures KeysOf(NodesOf(list)) == Scheduler.IdsOf(list)
  {
    if list != [] {
      SameGraph(list[..|list| - 1]);
      assert NodesOf(list)[..|list| - 1] == NodesOf(list[..|list| - 1]);
    }
  }

  /** `Dag.New` accepts a task list exactly when `GraphLayers` lays it out and the list is not empty,
      stays in one project and repeats no dependency. */
  lemma AcceptedIffLaidOut(list: seq<Task>)
    ensures Scheduler.WellFormed(list) && Acyclic(Tasks.GraphOf(Scheduler.ById(list))) <==>
      && Distinct(KeysOf(NodesOf(list))) && DependenciesKnown(NodesOf(list)) && Acyclic(GraphOf(NodesOf(list)))
      && list != [] && forall t :: t in list ==> t.project == list[0].project && Distinct(t.dependencies)
  {
    hide Acyclic;
    hide Distinct;
    SameGraph(list);
    KnownHere(list);
    if Acyclic(GraphOf(NodesOf(list))) && Distinct(KeysOf(NodesOf(list))) {
      NoSelfDependency(list);
    }
  }

  lemma KnownHere(list: seq<Task>)
    ensures DependenciesKnown(NodesOf(list)) <==>
      forall t :: t in list ==> forall d :: d in t.dependencies ==> d in Scheduler.ById(list)
  {
    var nodes := NodesOf(list);
    SameGraph(list);
    Scheduler.ByIdKeys(list);
    forall t | t in list && DependenciesKnown(nodes)
      ensures forall d :: d in t.dependencies ==> d in KeysOf(nodes)
    {
      var i :| 0 <= i < |list| && list[i] == t;
      assert nodes[i] in nodes;
    }
    assert forall i :: 0 <= i < |list| ==> list[i] in list;
  }

  lemma NoSelfDependency(list: seq<Task>)
    requires Distinct(KeysOf(NodesOf(list))) && Acyclic(GraphOf(NodesOf(list)))
    ensures forall t :: t in list ==> t.id !in t.dependencies
  {
    var nodes, g := NodesOf(list), GraphOf(NodesOf(list));
    GraphHolds(nodes);
    forall t | t in list
      ensures t.id !in t.dependencies
    {
      var i :| 0 <= i < |list| && list[i] == t;
      assert nodes[i] in nodes;
      assert t.id in t.dependencies ==> IsCycle(g, [t.id]);
    }
  }
}
