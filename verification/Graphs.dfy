// Dependency graphs as the scheduler, the plan view and the handoff see them:
// every node lists the nodes it depends on.  The theorems here are about the
// shared round-by-round traversal: a round that finds nothing exposes a real
// cycle, and rounds that reach every node rule cycles out.
module Graphs {
  import opened Common

  type Graph<K> = map<K, seq<K>>

  /** Every dependency is a node. */
  ghost predicate Closed<K(!new)>(g: Graph<K>) {
    forall n, d :: n in g && d in g[n] ==> d in g
  }

  /** A walk along dependencies. */
  ghost predicate IsPath<K(!new)>(g: Graph<K>, p: seq<K>) {
    && p != []
    && (forall i :: 0 <= i < |p| ==> p[i] in g)
    && (forall i, j :: 0 <= i < j < |p| && j == i + 1 ==> p[j] in g[p[i]])
  }

  lemma PathOfOne<K(!new)>(g: Graph<K>, n: K)
    requires n in g
    ensures IsPath(g, [n])
  {
  }

  lemma PathCons<K(!new)>(g: Graph<K>, n: K, p: seq<K>)
    requires IsPath(g, p) && n in g && p[0] in g[n]
    ensures IsPath(g, [n] + p)
  {
  }

  ghost predicate IsCycle<K(!new)>(g: Graph<K>, p: seq<K>) {
    IsPath(g, p) && p[0] in g[p[|p| - 1]]
  }

  ghost predicate Acyclic<K(!new)>(g: Graph<K>) {
    forall p :: !IsCycle(g, p)
  }

  /** A numbering that every dependency edge lowers. */
  ghost predicate Ranked<K(!new)>(g: Graph<K>, rank: map<K, nat>) {
    && rank.Keys == g.Keys
    && forall n, d :: n in g && d in g[n] ==> d in g && rank[d] < rank[n]
  }

  /** The nodes a round adds: not done, with every dependency done. */
  function Round<K(==,!new)>(g: Graph<K>, done: set<K>): (next: set<K>)
    ensures next !! done && next <= g.Keys
  {
    set n | n in g && n !in done && forall d :: d in g[n] ==> d in done
  }

  // ---- Rounds that finish rule out cycles ----

  lemma {:induction false} PathLowersRank<K(!new)>(g: Graph<K>, rank: map<K, nat>, p: seq<K>)
    requires Ranked(g, rank) && IsPath(g, p)
    ensures rank[p[0]] >= rank[p[|p| - 1]] + |p| - 1
  {
    if |p| > 1 {
      var q := p[..|p| - 1];
      assert IsPath(g, q);
      PathLowersRank(g, rank, q);
      assert p[|p| - 1] in g[p[|p| - 2]];
    }
  }

  lemma RankedIsAcyclic<K(!new)>(g: Graph<K>, rank: map<K, nat>)
    requires Ranked(g, rank)
    ensures Acyclic(g)
  {
    forall p | IsCycle(g, p)
      ensures false
    {
      PathLowersRank(g, rank, p);
    }
  }

  // ---- A round that finds nothing exposes a cycle ----

  ghost predicate DependsInside<K(!new)>(g: Graph<K>, left: set<K>, n: K)
    requires n in g
  {
    exists d :: d in g[n] && d in left
  }

  lemma {:induction false} WalkInside<K(!new)>(g: Graph<K>, left: set<K>, start: K, steps: nat) returns (p: seq<K>)
    requires left <= g.Keys && start in left
    requires forall n :: n in left ==> DependsInside(g, left, n)
    ensures IsPath(g, p) && |p| == steps + 1
    ensures forall i :: 0 <= i < |p| ==> p[i] in left
  {
    if steps == 0 {
      p := [start];
    } else {
      p := WalkInside(g, left, start, steps - 1);
      var last := p[|p| - 1];
      assert DependsInside(g, left, last);
      var d :| d in g[last] && d in left;
      p := p + [d];
    }
  }

  lemma Pigeonhole<K(!new)>(p: seq<K>, left: set<K>) returns (i: nat, j: nat)
    requires |p| > |left| && forall k :: 0 <= k < |p| ==> p[k] in left
    ensures i < j < |p| && p[i] == p[j]
  {
    DistinctIffCardinality(p);
    if Distinct(p) {
      assert Elements(p) <= left;
      SubsetCardinality(Elements(p), left);
    }
    i, j :| i < j < |p| && p[i] == p[j];
  }

  lemma {:induction false} SubsetCardinality<T>(a: set<T>, b: set<T>)
    requires a <= b
    ensures |a| <= |b|
    ensures a != b ==> |a| < |b|
  {
    assert b == a + (b - a);
  }

  lemma RepeatedNodeClosesCycle<K(!new)>(g: Graph<K>, walk: seq<K>, i: nat, j: nat)
    requires IsPath(g, walk) && i < j < |walk| && walk[i] == walk[j]
    ensures IsCycle(g, walk[i..j])
  {
    assert walk[j] in g[walk[j - 1]];
  }

  lemma StuckNodesDependInside<K(!new)>(g: Graph<K>, done: set<K>)
    requires Closed(g) && Round(g, done) == {}
    ensures forall n :: n in g.Keys - done ==> DependsInside(g, g.Keys - done, n)
  {
    forall n | n in g.Keys - done
      ensures DependsInside(g, g.Keys - done, n)
    {
      assert n !in Round(g, done);
      var d :| d in g[n] && d !in done;
    }
  }

  lemma StuckRoundHasCycle<K(!new)>(g: Graph<K>, done: set<K>) returns (p: seq<K>)
    requires Closed(g) && done <= g.Keys && done != g.Keys
    requires Round(g, done) == {}
    ensures IsCycle(g, p)
  {
    var left := g.Keys - done;
    StuckNodesDependInside(g, done);
    assert g.Keys == done + left;
    var start :| start in left;
    var walk := WalkInside(g, left, start, |left|);
    var i, j := Pigeonhole(walk, left);
    RepeatedNodeClosesCycle(g, walk, i, j);
    p := walk[i..j];
  }

  // ---- Acyclic closed graphs are exactly the ranked ones ----

  /** `rank` numbers the downward closed set `done`. */
  ghost predicate RankedPrefix<K(!new)>(g: Graph<K>, done: set<K>, rank: map<K, nat>, rounds: nat) {
    && done == rank.Keys && done <= g.Keys
    && (forall n :: n in done ==> rank[n] < rounds)
    && forall n, d :: n in done && d in g[n] ==> d in done && rank[d] < rank[n]
  }

  function AddRound<K(==,!new)>(rank: map<K, nat>, next: set<K>, round: nat): map<K, nat> {
    map n | n in rank.Keys + next :: if n in next then round else rank[n]
  }

  lemma RoundExtendsPrefix<K(!new)>(g: Graph<K>, done: set<K>, rank: map<K, nat>, rounds: nat)
    requires RankedPrefix(g, done, rank, rounds)
    ensures RankedPrefix(g, done + Round(g, done), AddRound(rank, Round(g, done), rounds), rounds + 1)
  {
  }

  lemma NoRounds<K(!new)>(g: Graph<K>)
    ensures RankedPrefix(g, {}, map[], 0)
  {
  }

  /** Rounds that reached as many nodes as there are reached them all, so there is no cycle. */
  lemma RoundsComplete<K(!new)>(g: Graph<K>, done: set<K>, rank: map<K, nat>, rounds: nat)
    requires RankedPrefix(g, done, rank, rounds) && |done| >= |g.Keys|
    ensures done == g.Keys && Ranked(g, rank) && Acyclic(g)
  {
    SubsetCardinality(done, g.Keys);
    RankedIsAcyclic(g, rank);
  }

  lemma CycleIsNotAcyclic<K(!new)>(g: Graph<K>, p: seq<K>)
    requires IsCycle(g, p)
    ensures !Acyclic(g)
  {
  }

  lemma {:induction false} RankRest<K(!new)>(g: Graph<K>, done: set<K>, rank: map<K, nat>, rounds: nat)
    returns (full: map<K, nat>)
    requires Closed(g) && Acyclic(g) && RankedPrefix(g, done, rank, rounds)
    ensures Ranked(g, full)
    decreases g.Keys - done
  {
    if done == g.Keys {
      full := rank;
    } else {
      var next := Round(g, done);
      if next == {} {
        var p := StuckRoundHasCycle(g, done);
        assert false;
      } else {
        RoundExtendsPrefix(g, done, rank, rounds);
        full := RankRest(g, done + next, AddRound(rank, next, rounds), rounds + 1);
      }
    }
  }

  lemma AcyclicIsRanked<K(!new)>(g: Graph<K>) returns (rank: map<K, nat>)
    requires Closed(g) && Acyclic(g)
    ensures Ranked(g, rank)
  {
    rank := RankRest(g, {}, map[], 0);
  }

  // ---- Levels: the length of the longest dependency chain ----

  /** The longest walk along dependencies that starts at `n` has exactly `level` edges. */
  ghost predicate LongestChain<K(!new)>(g: Graph<K>, n: K, level: nat) {
    && (exists p :: IsPath(g, p) && p[0] == n && |p| == level + 1)
    && (forall p :: IsPath(g, p) && p[0] == n ==> |p| <= level + 1)
  }

  lemma LongestChainIsUnique<K(!new)>(g: Graph<K>, n: K, a: nat, b: nat)
    requires LongestChain(g, n, a) && LongestChain(g, n, b)
    ensures a == b
  {
    var p :| IsPath(g, p) && p[0] == n && |p| == a + 1;
    var q :| IsPath(g, q) && q[0] == n && |q| == b + 1;
  }

  /** A numbering in which each node sits one above its highest dependency. */
  ghost predicate Tight<K(!new)>(g: Graph<K>, rank: map<K, nat>) {
    && Ranked(g, rank)
    && forall n :: n in g && rank[n] > 0 ==> exists d :: d in g[n] && d in g && rank[d] == rank[n] - 1
  }

  lemma {:induction false} TightRankIsLongestChain<K(!new)>(g: Graph<K>, rank: map<K, nat>, n: K)
    requires Tight(g, rank) && n in g
    ensures LongestChain(g, n, rank[n])
  {
    var chain := DescendingChain(g, rank, n);
    forall p | IsPath(g, p) && p[0] == n
      ensures |p| <= rank[n] + 1
    {
      PathLowersRank(g, rank, p);
    }
  }

  lemma {:induction false} DescendingChain<K(!new)>(g: Graph<K>, rank: map<K, nat>, n: K) returns (p: seq<K>)
    requires Tight(g, rank) && n in g
    ensures IsPath(g, p) && p[0] == n && |p| == rank[n] + 1
    decreases rank[n]
  {
    if rank[n] == 0 {
      p := [n];
    } else {
      var d :| d in g[n] && d in g && rank[d] == rank[n] - 1;
      var rest := DescendingChain(g, rank, d);
      PathCons(g, n, rest);
      p := [n] + rest;
    }
  }
}
