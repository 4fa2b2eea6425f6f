// The closure of a group selection over dependency and correction links
// (crates/hub-context/src/handoff.rs, the `closure` loop in `select`).
module Closures {
  import opened Common
  import opened Evidence

  predicate Touched(g: Group, s: set<Id>) {
    g.id in s || exists c :: c in g.corrects && c in s
  }

  /** What a touched group adds: itself and everything it links to. */
  function Links(g: Group): set<Id> {
    {g.id} + Elements(g.dependsOn) + Elements(g.corrects)
  }

  ghost predicate Obeys(g: Group, s: set<Id>) {
    Touched(g, s) ==> Links(g) <= s
  }

  /** Closed under `depends_on`, `corrects`, and "whatever corrects a member". */
  ghost predicate ClosedUnder(groups: seq<Group>, s: set<Id>) {
    forall g :: g in groups ==> Obeys(g, s)
  }

  function Universe(groups: seq<Group>): set<Id> {
    if groups == [] then {} else Links(groups[0]) + Universe(groups[1..])
  }

  /** The least closed superset of `s`: what lies in every closed superset. */
  ghost function Closure(groups: seq<Group>, s: set<Id>): set<Id> {
    set x | x in s + Universe(groups) && forall t :: s <= t && ClosedUnder(groups, t) ==> x in t
  }

  lemma {:induction false} UniverseHoldsLinks(groups: seq<Group>, g: Group)
    requires g in groups
    ensures Links(g) <= Universe(groups)
  {
    if groups[0] != g {
      UniverseHoldsLinks(groups[1..], g);
    }
  }

  lemma WholeIsClosed(groups: seq<Group>, s: set<Id>)
    ensures ClosedUnder(groups, s + Universe(groups))
  {
    forall g | g in groups
      ensures Obeys(g, s + Universe(groups))
    {
      UniverseHoldsLinks(groups, g);
    }
  }

  /** The closure is the least closed set that contains `s`. */
  lemma ClosureIsLeast(groups: seq<Group>, s: set<Id>)
    ensures s <= Closure(groups, s)
    ensures ClosedUnder(groups, Closure(groups, s))
    ensures forall t :: s <= t && ClosedUnder(groups, t) ==> Closure(groups, s) <= t
  {
    var c := Closure(groups, s);
    WholeIsClosed(groups, s);
    forall g | g in groups
      ensures Obeys(g, c)
    {
      if Touched(g, c) {
        forall t | s <= t && ClosedUnder(groups, t)
          ensures Links(g) <= t
        {
          TouchedGrows(groups, g, c, t);
        }
        UniverseHoldsLinks(groups, g);
      }
    }
  }

  lemma TouchedGrows(groups: seq<Group>, g: Group, s: set<Id>, t: set<Id>)
    requires g in groups && Touched(g, s) && s <= t && ClosedUnder(groups, t)
    ensures Links(g) <= t
  {
    assert Touched(g, t);
    assert Obeys(g, t);
  }

  lemma ClosureIsUnique(groups: seq<Group>, s: set<Id>, c: set<Id>)
    requires s <= c && ClosedUnder(groups, c)
    requires forall t :: s <= t && ClosedUnder(groups, t) ==> c <= t
    ensures c == Closure(groups, s)
  {
    ClosureIsLeast(groups, s);
  }

  // ---- Laws ----

  lemma ClosureMonotone(groups: seq<Group>, s: set<Id>, t: set<Id>)
    requires s <= t
    ensures Closure(groups, s) <= Closure(groups, t)
  {
    ClosureIsLeast(groups, s);
    ClosureIsLeast(groups, t);
  }

  lemma ClosureIdempotent(groups: seq<Group>, s: set<Id>)
    ensures Closure(groups, Closure(groups, s)) == Closure(groups, s)
  {
    ClosureIsLeast(groups, s);
    ClosureIsLeast(groups, Closure(groups, s));
  }

  lemma UnionIsClosed(groups: seq<Group>, a: set<Id>, b: set<Id>)
    requires ClosedUnder(groups, a) && ClosedUnder(groups, b)
    ensures ClosedUnder(groups, a + b)
  {
    forall g | g in groups
      ensures Obeys(g, a + b)
    {
      assert Obeys(g, a) && Obeys(g, b);
    }
  }

  /** Every link has one cause, so the closure of a union is the union of the closures. */
  lemma ClosureDistributes(groups: seq<Group>, s: set<Id>, t: set<Id>)
    ensures Closure(groups, s + t) == Closure(groups, s) + Closure(groups, t)
  {
    ClosureIsLeast(groups, s);
    ClosureIsLeast(groups, t);
    ClosureIsLeast(groups, s + t);
    UnionIsClosed(groups, Closure(groups, s), Closure(groups, t));
    ClosureMonotone(groups, s, s + t);
    ClosureMonotone(groups, t, s + t);
  }

  /** What it means to follow every link: with a group go the groups it depends on and those it corrects,
      and with a corrected group goes every group that corrects it. */
  ghost predicate FollowsLinks(groups: seq<Group>, s: set<Id>) {
    && (forall g, d :: g in groups && g.id in s && d in g.dependsOn ==> d in s)
    && (forall g, c :: g in groups && g.id in s && c in g.corrects ==> c in s)
    && (forall g, c :: g in groups && c in g.corrects && c in s ==> g.id in s)
  }

  lemma ClosedIffFollowsLinks(groups: seq<Group>, s: set<Id>)
    ensures ClosedUnder(groups, s) <==> FollowsLinks(groups, s)
  {
    if ClosedUnder(groups, s) {
      forall g | g in groups
        ensures Obeys(g, s)
      {
      }
    }
    if FollowsLinks(groups, s) {
      forall g | g in groups
        ensures Obeys(g, s)
      {
      }
    }
  }

  /** The order in which the groups are listed does not matter. */
  lemma ClosureIgnoresOrder(groups: seq<Group>, groups': seq<Group>, s: set<Id>)
    requires Elements(groups) == Elements(groups')
    ensures Closure(groups, s) == Closure(groups', s)
  {
    assert forall g :: g in groups <==> g in Elements(groups);
    assert forall g :: g in groups' <==> g in Elements(groups');
    assert forall t :: ClosedUnder(groups, t) <==> ClosedUnder(groups', t);
    ClosureIsLeast(groups, s);
    ClosureIsLeast(groups', s);
  }

  // ---- The loop ----

  /** Sweeps over the groups until a sweep adds nothing. */
  method MakeClosure(groups: seq<Group>, start: set<Id>) returns (selected: set<Id>)
    ensures selected == Closure(groups, start)
  {
    selected := start;
    while true
      invariant start <= selected <= start + Universe(groups)
      invariant forall t :: start <= t && ClosedUnder(groups, t) ==> selected <= t
      decreases start + Universe(groups) - selected
    {
      var before := |selected|;
      ghost var was := selected;
      selected := Sweep(groups, start, selected);
      if before == |selected| {
        SubsetSameSize(was, selected);
        ClosureIsUnique(groups, start, selected);
        break;
      }
      assert selected == was + (selected - was);
      ghost var added :| added in selected - was;
    }
  }

  lemma SubsetSameSize<T>(a: set<T>, b: set<T>)
    requires a <= b && |a| == |b|
    ensures a == b
  {
    assert b == a + (b - a);
  }

  /** One sweep: adds only what every closed superset has; if it adds nothing the set is closed. */
  method Sweep(groups: seq<Group>, ghost start: set<Id>, was: set<Id>) returns (selected: set<Id>)
    requires start <= was <= start + Universe(groups)
    requires forall t :: start <= t && ClosedUnder(groups, t) ==> was <= t
    ensures was <= selected <= start + Universe(groups)
    ensures forall t :: start <= t && ClosedUnder(groups, t) ==> selected <= t
    ensures selected == was ==> ClosedUnder(groups, selected)
  {
    selected := was;
    for i := 0 to |groups|
      invariant was <= selected <= start + Universe(groups)
      invariant forall t :: start <= t && ClosedUnder(groups, t) ==> selected <= t
      invariant selected == was ==> forall k :: 0 <= k < i ==> Obeys(groups[k], was)
    {
      var g := groups[i];
      UniverseHoldsLinks(groups, g);
      if g.id in selected || exists c :: c in g.corrects && c in selected {
        forall t | start <= t && ClosedUnder(groups, t)
          ensures Links(g) <= t
        {
          TouchedGrows(groups, g, selected, t);
        }
        selected := selected + {g.id} + Elements(g.dependsOn) + Elements(g.corrects);
      }
    }
  }
}
