// Packing a selection and growing it greedily under the byte budget
// (crates/hub-context/src/handoff.rs, `pack` and the end of `select`).
module Selections {
  import opened Common
  import opened Graphs
  import opened Evidence
  import opened Closures
  import Rendering
  import opened Handoffs

  // ---- Packing ----

  function Chosen(s: set<Id>): Group -> bool {
    (g: Group) => g.id in s
  }

  function NotChosen(s: set<Id>): Group -> bool {
    (g: Group) => g.id !in s
  }

  function Kept(h: Handoff, s: set<Id>): seq<Group> {
    Filter(h.groups, Chosen(s))
  }

  function CitedBy(groups: seq<Group>): Source -> bool {
    (x: Source) => exists g :: g in groups && x.id in g.sourceIds
  }

  function NamedBy(sources: seq<Source>): CallOutcome -> bool {
    (o: CallOutcome) => exists x :: x in sources && x.callId == Some(o.callId)
  }

  function Pack(h: Handoff, s: set<Id>): Selection {
    var kept := Kept(h, s);
    var evidence := Filter(h.sources, CitedBy(kept));
    Selection(evidence, kept, Filter(h.outcomes, NamedBy(evidence)), GroupIds(Filter(h.groups, NotChosen(s))))
  }

  function PackedBytes(h: Handoff, s: set<Id>): nat {
    SelectionBytes(Pack(h, s))
  }

  // ---- Packing more never takes less space ----

  function KeptSum(groups: seq<Group>, s: set<Id>): nat {
    Sum(Filter(groups, Chosen(s)), GroupBytes)
  }

  function OmittedSum(groups: seq<Group>, s: set<Id>): nat {
    Sum(GroupIds(Filter(groups, NotChosen(s))), IdBytes)
  }

  function KeptCount(groups: seq<Group>, s: set<Id>): nat {
    |Filter(groups, Chosen(s))|
  }

  lemma SumsStep(groups: seq<Group>, s: set<Id>)
    requires groups != []
    ensures var g, rest := groups[0], groups[1..];
      && KeptSum(groups, s) == KeptSum(rest, s) + (if g.id in s then GroupBytes(g) else 0)
      && OmittedSum(groups, s) == OmittedSum(rest, s) + (if g.id in s then 0 else IdBytes(g.id))
      && KeptCount(groups, s) == KeptCount(rest, s) + (if g.id in s then 1 else 0)
  {
    Rendering.SumCons(groups[0], Filter(groups[1..], Chosen(s)), GroupBytes);
    GroupIdsCons(groups[0], Filter(groups[1..], NotChosen(s)));
  }

  lemma {:induction false} CountsSplit(groups: seq<Group>, s: set<Id>)
    ensures KeptCount(groups, s) + |Filter(groups, NotChosen(s))| == |groups|
  {
    if groups != [] {
      CountsSplit(groups[1..], s);
    }
  }

  /** Moving a group from the omitted ids to the kept groups costs at least two bytes. */
  lemma {:induction false} GroupsGrow(groups: seq<Group>, s: set<Id>, t: set<Id>)
    requires s <= t
    ensures KeptCount(groups, s) <= KeptCount(groups, t)
    ensures KeptSum(groups, t) + OmittedSum(groups, t)
         >= KeptSum(groups, s) + OmittedSum(groups, s) + 2 * (KeptCount(groups, t) - KeptCount(groups, s))
  {
    if groups != [] {
      hide KeptSum;
      hide OmittedSum;
      hide KeptCount;
      GroupsGrow(groups[1..], s, t);
      SumsStep(groups, s);
      SumsStep(groups, t);
    }
  }

  lemma GroupIdsCons(g: Group, groups: seq<Group>)
    ensures GroupIds([g] + groups) == [g.id] + GroupIds(groups)
    ensures Sum(GroupIds([g] + groups), IdBytes) == IdBytes(g.id) + Sum(GroupIds(groups), IdBytes)
  {
    assert GroupIds([g] + groups) == [g.id] + GroupIds(groups);
    Rendering.SumCons(g.id, GroupIds(groups), IdBytes);
  }

  function GroupsPart(h: Handoff, s: set<Id>): nat {
    ArrayBytes(Pack(h, s).groups, GroupBytes) + ArrayBytes(Pack(h, s).omitted, IdBytes)
  }

  lemma GroupsPartIs(h: Handoff, s: set<Id>)
    ensures GroupsPart(h, s) == 4 + KeptSum(h.groups, s) + OmittedSum(h.groups, s)
      + Commas(KeptCount(h.groups, s)) + Commas(|h.groups| - KeptCount(h.groups, s))
  {
    CountsSplit(h.groups, s);
  }

  lemma GroupBytesGrow(h: Handoff, s: set<Id>, t: set<Id>)
    requires s <= t
    ensures GroupsPart(h, s) <= GroupsPart(h, t)
    ensures Kept(h, s) != Kept(h, t) ==> GroupsPart(h, s) < GroupsPart(h, t)
  {
    hide GroupsPart;
    hide KeptSum;
    hide OmittedSum;
    GroupsPartIs(h, s);
    GroupsPartIs(h, t);
    GroupsGrow(h.groups, s, t);
    CountIsKept(h, s);
    CountIsKept(h, t);
    if KeptCount(h.groups, s) == KeptCount(h.groups, t) {
      SameCountSameGroups(h.groups, s, t);
    }
    hide KeptCount;
    CountsBound(h.groups, t);
  }

  lemma CountIsKept(h: Handoff, s: set<Id>)
    ensures KeptCount(h.groups, s) == |Kept(h, s)|
  {
  }

  lemma CountsBound(groups: seq<Group>, s: set<Id>)
    ensures KeptCount(groups, s) <= |groups|
  {
  }

  lemma {:induction false} SameCountSameGroups(groups: seq<Group>, s: set<Id>, t: set<Id>)
    requires s <= t && KeptCount(groups, s) == KeptCount(groups, t)
    ensures Filter(groups, Chosen(s)) == Filter(groups, Chosen(t))
  {
    if groups != [] {
      GroupsGrow(groups[1..], s, t);
      SameCountSameGroups(groups[1..], s, t);
    }
  }

  lemma SourcesGrow(h: Handoff, s: set<Id>, t: set<Id>)
    requires s <= t
    ensures ArrayBytes(Pack(h, s).sources, SourceBytes) <= ArrayBytes(Pack(h, t).sources, SourceBytes)
    ensures ArrayBytes(Pack(h, s).outcomes, OutcomeBytes) <= ArrayBytes(Pack(h, t).outcomes, OutcomeBytes)
  {
    assert forall g :: g in Kept(h, s) ==> g in Kept(h, t);
    ArrayGrows(h.sources, CitedBy(Kept(h, s)), CitedBy(Kept(h, t)), SourceBytes);
    var a, b := Pack(h, s).sources, Pack(h, t).sources;
    assert forall x :: x in a ==> x in b;
    ArrayGrows(h.outcomes, NamedBy(a), NamedBy(b), OutcomeBytes);
  }

  /** The packed size grows with the selected set, strictly when a group is added. */
  lemma PackedBytesGrow(h: Handoff, s: set<Id>, t: set<Id>)
    requires s <= t
    ensures PackedBytes(h, s) <= PackedBytes(h, t)
    ensures Kept(h, s) != Kept(h, t) ==> PackedBytes(h, s) < PackedBytes(h, t)
  {
    GroupBytesGrow(h, s, t);
    SourcesGrow(h, s, t);
  }

  // ---- What a selection holds ----

  /** `part` lists members of `whole` in their order there. */
  ghost predicate InOrder<T(!new)>(part: seq<T>, whole: seq<T>) {
    exists at: seq<nat> :: InOrderAt(part, whole, at)
  }

  ghost predicate InOrderAt<T(!new)>(part: seq<T>, whole: seq<T>, at: seq<nat>) {
    && |at| == |part|
    && (forall i :: 0 <= i < |at| ==> at[i] < |whole| && whole[at[i]] == part[i])
    && forall i, j :: 0 <= i < j < |at| ==> at[i] < at[j]
  }

  lemma {:induction false} FilterPositions<T(!new)>(items: seq<T>, p: T -> bool) returns (at: seq<nat>)
    ensures InOrderAt(Filter(items, p), items, at)
  {
    if items == [] {
      at := [];
    } else {
      var rest := FilterPositions(items[1..], p);
      at := Shifted(rest);
      ShiftedInOrder(Filter(items[1..], p), items, rest);
      if p(items[0]) {
        at := [0] + at;
      }
    }
  }

  function Shifted(at: seq<nat>): (r: seq<nat>)
    ensures |r| == |at| && forall i :: 0 <= i < |at| ==> r[i] == at[i] + 1
  {
    seq(|at|, i requires 0 <= i < |at| => at[i] + 1)
  }

  lemma ShiftedInOrder<T(!new)>(part: seq<T>, whole: seq<T>, at: seq<nat>)
    requires whole != [] && InOrderAt(part, whole[1..], at)
    ensures InOrderAt(part, whole, Shifted(at))
    ensures InOrderAt([whole[0]] + part, whole, [0] + Shifted(at))
  {
  }

  lemma FilterInOrder<T(!new)>(items: seq<T>, p: T -> bool)
    ensures InOrder(Filter(items, p), items)
  {
    var at := FilterPositions(items, p);
  }

  lemma {:induction false} GroupIdsOfFilter(groups: seq<Group>, s: set<Id>)
    ensures multiset(GroupIds(Filter(groups, Chosen(s)))) + multiset(GroupIds(Filter(groups, NotChosen(s))))
         == multiset(GroupIds(groups))
  {
    if groups != [] {
      var g, rest := groups[0], groups[1..];
      GroupIdsOfFilter(rest, s);
      GroupIdsCons(g, rest);
      GroupIdsCons(g, Filter(rest, Chosen(s)));
      GroupIdsCons(g, Filter(rest, NotChosen(s)));
      assert groups == [g] + rest;
    }
  }

  lemma {:induction false} OmittedPositions(groups: seq<Group>, s: set<Id>)
    ensures InOrder(GroupIds(Filter(groups, NotChosen(s))), GroupIds(groups))
  {
    var at := FilterPositions(groups, NotChosen(s));
    assert InOrderAt(GroupIds(Filter(groups, NotChosen(s))), GroupIds(groups), at);
  }

  /** Kept and omitted groups partition the input in its order; kept sources are exactly those a kept
      group cites, kept outcomes exactly those a kept source names. */
  lemma PackFacts(h: Handoff, s: set<Id>)
    ensures var p := Pack(h, s);
      && InOrder(p.groups, h.groups) && InOrder(p.omitted, GroupIds(h.groups))
      && multiset(GroupIds(p.groups)) + multiset(p.omitted) == multiset(GroupIds(h.groups))
      && (forall g :: g in p.groups <==> g in h.groups && g.id in s)
      && InOrder(p.sources, h.sources)
      && (forall x :: x in p.sources <==> x in h.sources && exists g :: g in p.groups && x.id in g.sourceIds)
      && InOrder(p.outcomes, h.outcomes)
      && (forall o :: o in p.outcomes <==> o in h.outcomes && exists x :: x in p.sources && x.callId == Some(o.callId))
  {
    FilterInOrder(h.groups, Chosen(s));
    OmittedPositions(h.groups, s);
    GroupIdsOfFilter(h.groups, s);
    FilterInOrder(h.sources, CitedBy(Kept(h, s)));
    FilterInOrder(h.outcomes, NamedBy(Pack(h, s).sources));
  }

  // ---- Selecting ----

  function Mandatory(h: Handoff): set<Id> {
    set g | g in h.groups && (g.section != Background || g.corrects != []) :: g.id
  }

  /** With distinct ids a group is mandatory exactly if it is no background or corrects another. */
  lemma MandatoryIff(h: Handoff, g: Group)
    requires Distinct(GroupIds(h.groups)) && g in h.groups
    ensures g.id in Mandatory(h) <==> !g.section.Background? || |g.corrects| > 0
  {
    if g.id in Mandatory(h) {
      var other :| other in h.groups && (other.section != Background || other.corrects != []) && other.id == g.id;
      var i :| 0 <= i < |h.groups| && h.groups[i] == g;
      var j :| 0 <= j < |h.groups| && h.groups[j] == other;
      assert GroupIds(h.groups)[i] == GroupIds(h.groups)[j];
    }
  }

  /** A set that could be selected: closed, holding the mandatory groups, within budget. */
  ghost predicate Candidate(h: Handoff, s: set<Id>) {
    && Mandatory(h) <= s && s <= Elements(GroupIds(h.groups)) && ClosedUnder(h.groups, s)
    && PackedBytes(h, s) <= h.maxBytes
  }

  /** A candidate to which no omitted group could be added with its closure. */
  ghost predicate BestSelection(h: Handoff, s: set<Id>) {
    && Candidate(h, s)
    && forall g :: g in h.groups && g.id !in s ==> PackedBytes(h, Closure(h.groups, s + {g.id})) > h.maxBytes
  }

  // ---- Later groups come first ----

  ghost predicate SameFrom(h: Handoff, s: set<Id>, t: set<Id>, k: nat) {
    forall j :: k <= j < |h.groups| ==> (h.groups[j].id in s <==> h.groups[j].id in t)
  }

  /** Where a candidate `t` first parts from `s`, seen from the end but not before `i`, `s` has the group. */
  ghost predicate PrefersLatest(h: Handoff, s: set<Id>, i: nat) {
    forall t, k :: Candidate(h, t) && i <= k < |h.groups| && SameFrom(h, s, t, k + 1) ==>
      (h.groups[k].id in t ==> h.groups[k].id in s)
  }

  /** The set has nothing but what the groups from `i` on that are in it bring along. */
  ghost predicate Seeded(h: Handoff, s: set<Id>, i: nat) {
    forall t :: Candidate(h, t) && HasFrom(h, s, t, i) ==> s <= t
  }

  ghost predicate HasFrom(h: Handoff, s: set<Id>, t: set<Id>, i: nat) {
    forall j :: i <= j < |h.groups| && h.groups[j].id in s ==> h.groups[j].id in t
  }

  lemma ClosureInside(h: Handoff, s: set<Id>, t: set<Id>)
    requires s <= t && ClosedUnder(h.groups, t)
    ensures Closure(h.groups, s) <= t
  {
    ClosureIsLeast(h.groups, s);
  }

  lemma GreedyStarts(h: Handoff)
    ensures Seeded(h, Closure(h.groups, Mandatory(h)), |h.groups|)
    ensures PrefersLatest(h, Closure(h.groups, Mandatory(h)), |h.groups|)
  {
    var s := Closure(h.groups, Mandatory(h));
    hide Closure;
    hide ClosedUnder;
    hide PackedBytes;
    forall t | Candidate(h, t)
      ensures s <= t
    {
      ClosureInside(h, Mandatory(h), t);
    }
  }

  /** What can be closed inside a fitting closed set fits. */
  lemma FitsInside(h: Handoff, s: set<Id>, t: set<Id>)
    requires s <= t && ClosedUnder(h.groups, t) && PackedBytes(h, t) <= h.maxBytes
    ensures Closure(h.groups, s) <= t && PackedBytes(h, Closure(h.groups, s)) <= h.maxBytes
  {
    hide ClosedUnder;
    hide Closure;
    hide PackedBytes;
    ClosureInside(h, s, t);
    PackedBytesGrow(h, Closure(h.groups, s), t);
  }

  /** Nothing that was refused comes back with a later choice. */
  lemma RefusedStaysOut(h: Handoff, s: set<Id>, t: set<Id>, i: nat)
    requires Offered(h, s, i) && s <= t && ClosedUnder(h.groups, t) && PackedBytes(h, t) <= h.maxBytes
    ensures SameFrom(h, s, t, i)
  {
    hide ClosedUnder;
    hide Closure;
    hide PackedBytes;
    forall j | i <= j < |h.groups| && h.groups[j].id !in s
      ensures h.groups[j].id !in t
    {
      if h.groups[j].id in t {
        FitsInside(h, s + {h.groups[j].id}, t);
      }
    }
  }

  /** A candidate that agrees with the choice so far and has the next group proves that it fits. */
  lemma NextFits(h: Handoff, s: set<Id>, t: set<Id>, i: nat)
    requires i < |h.groups| && Seeded(h, s, i + 1) && Candidate(h, t) && HasFrom(h, s, t, i + 1)
    requires h.groups[i].id in t
    ensures PackedBytes(h, Closure(h.groups, s + {h.groups[i].id})) <= h.maxBytes
    ensures Closure(h.groups, s + {h.groups[i].id}) <= t
  {
    hide HasFrom;
    hide Mandatory;
    hide Elements;
    hide ClosedUnder;
    hide Closure;
    hide PackedBytes;
    assert s <= t;
    FitsInside(h, s + {h.groups[i].id}, t);
  }

  lemma LatestTaken(h: Handoff, s: set<Id>, i: nat)
    requires i < |h.groups| && Offered(h, s, i + 1) && Seeded(h, s, i + 1) && PrefersLatest(h, s, i + 1)
    requires PackedBytes(h, Closure(h.groups, s + {h.groups[i].id})) <= h.maxBytes
    ensures Seeded(h, Closure(h.groups, s + {h.groups[i].id}), i)
    ensures PrefersLatest(h, Closure(h.groups, s + {h.groups[i].id}), i)
  {
    hide Closure;
    hide ClosedUnder;
    hide PackedBytes;
    hide Offered;
    hide Candidate;
    var next := Closure(h.groups, s + {h.groups[i].id});
    ClosureIsLeast(h.groups, s + {h.groups[i].id});
    RefusedStaysOut(h, s, next, i + 1);
    forall t | Candidate(h, t) && HasFrom(h, next, t, i)
      ensures next <= t
    {
      assert HasFrom(h, s, t, i + 1);
      NextFits(h, s, t, i);
    }
    forall t, k | Candidate(h, t) && i <= k < |h.groups| && SameFrom(h, next, t, k + 1) && h.groups[k].id in t
      ensures h.groups[k].id in next
    {
      if k > i {
        assert SameFrom(h, s, t, k + 1);
      }
    }
  }

  lemma LatestRefused(h: Handoff, s: set<Id>, i: nat)
    requires i < |h.groups| && Seeded(h, s, i + 1) && PrefersLatest(h, s, i + 1)
    requires PackedBytes(h, Closure(h.groups, s + {h.groups[i].id})) > h.maxBytes
    ensures Seeded(h, s, i) && PrefersLatest(h, s, i)
  {
    hide Closure;
    hide Candidate;
    hide PackedBytes;
    forall t | Candidate(h, t) && HasFrom(h, s, t, i)
      ensures s <= t
    {
      assert HasFrom(h, s, t, i + 1);
    }
    forall t, k | Candidate(h, t) && i <= k < |h.groups| && SameFrom(h, s, t, k + 1) && h.groups[k].id in t
      ensures h.groups[k].id in s
    {
      if k == i {
        assert HasFrom(h, s, t, i + 1);
        NextFits(h, s, t, i);
      }
    }
  }

  /** Among all candidates there is only one that prefers later groups throughout: that is the selection. */
  lemma LatestIsUnique(h: Handoff, s: set<Id>, t: set<Id>)
    requires Candidate(h, s) && Candidate(h, t) && PrefersLatest(h, s, 0) && PrefersLatest(h, t, 0)
    ensures s == t
  {
    hide PackedBytes;
    hide ClosedUnder;
    hide PrefersLatest;
    hide Mandatory;
    hide Elements;
    LatestAgree(h, s, t, 0);
    SameIdsSameSet(h, s, t);
    SameIdsSameSet(h, t, s);
  }

  lemma SameIdsSameSet(h: Handoff, s: set<Id>, t: set<Id>)
    requires s <= Elements(GroupIds(h.groups)) && SameFrom(h, s, t, 0)
    ensures s <= t
  {
    forall id | id in s
      ensures id in t
    {
      var j :| 0 <= j < |h.groups| && GroupIds(h.groups)[j] == id;
      assert h.groups[j].id == id;
    }
  }

  lemma {:induction false} LatestAgree(h: Handoff, s: set<Id>, t: set<Id>, k: nat)
    requires Candidate(h, s) && Candidate(h, t) && PrefersLatest(h, s, 0) && PrefersLatest(h, t, 0)
    requires k <= |h.groups|
    ensures SameFrom(h, s, t, k) && SameFrom(h, t, s, k)
    decreases |h.groups| - k
  {
    hide Candidate;
    if k < |h.groups| {
      LatestAgree(h, s, t, k + 1);
    }
  }

  lemma ClosureStaysInside(h: Handoff, s: set<Id>)
    requires Resolved(h) && s <= Elements(GroupIds(h.groups))
    ensures Closure(h.groups, s) <= Elements(GroupIds(h.groups))
  {
    var all := Elements(GroupIds(h.groups));
    forall g | g in h.groups
      ensures Obeys(g, all)
    {
      var i :| 0 <= i < |h.groups| && h.groups[i] == g;
      assert GroupIds(h.groups)[i] == g.id;
    }
    ClosureIsLeast(h.groups, s);
  }

  lemma MandatoryAreGroups(h: Handoff)
    ensures Mandatory(h) <= Elements(GroupIds(h.groups))
  {
    forall g | g in h.groups
      ensures g.id in Elements(GroupIds(h.groups))
    {
      var i :| 0 <= i < |h.groups| && h.groups[i] == g;
      assert GroupIds(h.groups)[i] == g.id;
    }
  }

  /** Groups from the `i`th on have been offered: each is in, or too big to join with its closure. */
  ghost predicate Offered(h: Handoff, s: set<Id>, i: nat) {
    forall k :: i <= k < |h.groups| && h.groups[k].id !in s ==>
      PackedBytes(h, Closure(h.groups, s + {h.groups[k].id})) > h.maxBytes
  }

  /** What was too big to join stays too big when the selection has grown. */
  lemma OfferedSurvivesGrowth(h: Handoff, s: set<Id>, t: set<Id>, i: nat)
    requires s <= t && Offered(h, s, i)
    ensures Offered(h, t, i)
  {
    forall k | i <= k < |h.groups| && h.groups[k].id !in t
      ensures PackedBytes(h, Closure(h.groups, t + {h.groups[k].id})) > h.maxBytes
    {
      var id := h.groups[k].id;
      ClosureMonotone(h.groups, s + {id}, t + {id});
      PackedBytesGrow(h, Closure(h.groups, s + {id}), Closure(h.groups, t + {id}));
    }
  }

  lemma Refused(h: Handoff, s: set<Id>, i: nat)
    requires i < |h.groups| && Offered(h, s, i + 1)
    requires PackedBytes(h, Closure(h.groups, s + {h.groups[i].id})) > h.maxBytes
    ensures Offered(h, s, i)
  {
    hide PackedBytes;
    hide Closure;
  }

  lemma Taken(h: Handoff, s: set<Id>, t: set<Id>, i: nat)
    requires i < |h.groups| && Offered(h, s, i + 1) && s <= t && h.groups[i].id in t
    ensures Offered(h, t, i)
  {
    hide PackedBytes;
    hide Closure;
    OfferedSurvivesGrowth(h, s, t, i + 1);
  }

  lemma AllOffered(h: Handoff, s: set<Id>)
    requires Mandatory(h) <= s && s <= Elements(GroupIds(h.groups)) && ClosedUnder(h.groups, s)
    requires PackedBytes(h, s) <= h.maxBytes && Offered(h, s, 0)
    ensures BestSelection(h, s)
  {
    hide PackedBytes;
    hide Closure;
    forall g | g in h.groups && g.id !in s
      ensures PackedBytes(h, Closure(h.groups, s + {g.id})) > h.maxBytes
    {
      var k :| 0 <= k < |h.groups| && h.groups[k] == g;
    }
  }

  /** Accepts exactly the inputs that pass the checks and whose mandatory closure fits; the selection
      is the pack of a closed, maximal set, the one that prefers later groups. */
  method Select(h: Handoff) returns (r: Result<Selection, SelectError>, ghost s: set<Id>)
    ensures r.Ok? <==> Accepted(h) && PackedBytes(h, Closure(h.groups, Mandatory(h))) <= h.maxBytes
    ensures r.Ok? ==> r.value == Pack(h, s) && BestSelection(h, s) && PrefersLatest(h, s, 0)
    ensures r.Err? ==> Check(h) == Some(r.error) || (Accepted(h) && r.error == MandatoryTooLarge)
    // what is written out fits, and with it the kept texts
    ensures r.Ok? ==> forall authority :: EscapedBytes(authority) == Rendering.AUTHORITY_BYTES ==>
      TextBytes(Rendering.SelectionText(r.value, authority)) <= h.maxBytes
    ensures r.Ok? ==> Sum(r.value.sources, KeptBytes) <= h.maxBytes
  {
    hide Accepted;
    hide Check;
    hide BestSelection;
    hide PrefersLatest;
    hide PackedBytes;
    hide ClosedUnder;
    hide Closure;
    s := {};
    CheckIffAccepted(h);
    var complaint := Check(h);
    if complaint.Some? {
      return Err(complaint.value), s;
    }
    var mandatory := set g | g in h.groups && (g.section != Background || g.corrects != []) :: g.id;
    var selected := MakeClosure(h.groups, mandatory);
    if PackedBytes(h, selected) > h.maxBytes {
      return Err(MandatoryTooLarge), s;
    }
    selected := Grow(h, selected);
    s := selected;
    r := Ok(Pack(h, selected));
    WrittenFits(h, s);
  }

  /** The bytes of a source's text. */
  function KeptBytes(x: Source): nat {
    TextBytes(x.text)
  }

  lemma {:induction false} KeptBytesFit(sources: seq<Source>)
    ensures Sum(sources, KeptBytes) <= Sum(sources, SourceBytes)
  {
    if sources != [] {
      KeptBytesFit(sources[1..]);
      Rendering.EscapedBytesBounds(sources[0].text);
    }
  }

  /** The measured size is that of the text written out. */
  lemma PackedBytesIsWritten(h: Handoff, s: set<Id>, authority: string)
    requires EscapedBytes(authority) == Rendering.AUTHORITY_BYTES
    ensures PackedBytes(h, s) == TextBytes(Rendering.SelectionText(Pack(h, s), authority))
  {
    hide Pack;
    Rendering.SelectionSize(Pack(h, s), authority);
  }

  lemma WrittenFits(h: Handoff, s: set<Id>)
    requires BestSelection(h, s)
    ensures forall authority :: EscapedBytes(authority) == Rendering.AUTHORITY_BYTES ==>
      TextBytes(Rendering.SelectionText(Pack(h, s), authority)) <= h.maxBytes
    ensures Sum(Pack(h, s).sources, KeptBytes) <= h.maxBytes
  {
    hide Closure;
    hide ClosedUnder;
    hide Mandatory;
    forall authority | EscapedBytes(authority) == Rendering.AUTHORITY_BYTES
      ensures TextBytes(Rendering.SelectionText(Pack(h, s), authority)) <= h.maxBytes
    {
      PackedBytesIsWritten(h, s, authority);
      hide PackedBytes;
    }
    KeptBytesFit(Pack(h, s).sources);
    hide Pack;
    hide Sum;
  }

  lemma AcceptedResolves(h: Handoff)
    requires Accepted(h)
    ensures Resolved(h)
  {
  }

  /** Offers every group, the latest first, and takes each whose closure still fits. */
  method Grow(h: Handoff, start: set<Id>) returns (selected: set<Id>)
    requires Accepted(h) && start == Closure(h.groups, Mandatory(h)) && PackedBytes(h, start) <= h.maxBytes
    ensures BestSelection(h, selected) && PrefersLatest(h, selected, 0)
  {
    hide Accepted;
    hide Seeded;
    hide PrefersLatest;
    hide PackedBytes;
    hide ClosedUnder;
    hide Closure;
    hide Offered;
    hide Mandatory;
    hide BestSelection;
    AcceptedResolves(h);
    MandatoryAreGroups(h);
    ClosureStaysInside(h, Mandatory(h));
    ClosureIsLeast(h.groups, Mandatory(h));
    selected := start;
    var i := |h.groups|;
    NoneOffered(h, selected);
    GreedyStarts(h);
    while i > 0
      invariant 0 <= i <= |h.groups|
      invariant Mandatory(h) <= selected <= Elements(GroupIds(h.groups)) && ClosedUnder(h.groups, selected)
      invariant PackedBytes(h, selected) <= h.maxBytes
      invariant Offered(h, selected, i) && Seeded(h, selected, i) && PrefersLatest(h, selected, i)
    {
      i := i - 1;
      var id := h.groups[i].id;
      assert GroupIds(h.groups)[i] == id;
      var next := MakeClosure(h.groups, selected + {id});
      ClosureIsLeast(h.groups, selected + {id});
      ClosureStaysInside(h, selected + {id});
      if PackedBytes(h, next) <= h.maxBytes {
        Taken(h, selected, next, i);
        LatestTaken(h, selected, i);
        selected := next;
      } else {
        Refused(h, selected, i);
        LatestRefused(h, selected, i);
      }
    }
    AllOffered(h, selected);
  }

  lemma NoneOffered(h: Handoff, s: set<Id>)
    ensures Offered(h, s, |h.groups|)
  {
  }

  // ---- Consequences ----

  /** Only background groups that correct nothing are ever omitted, and nothing kept links to one or
      is corrected by one. */
  lemma OmittedAreDispensable(h: Handoff, s: set<Id>, g: Group, kept: Group)
    requires BestSelection(h, s) && g in h.groups && g.id !in s && kept in h.groups && kept.id in s
    ensures g.section == Background && g.corrects == []
    ensures g.id !in kept.dependsOn && g.id !in kept.corrects && kept.id !in g.corrects
  {
    hide PackedBytes;
    hide Closure;
    assert Obeys(kept, s);
    assert Obeys(g, s);
    assert g.id in Mandatory(h) <==>
      exists x :: x in h.groups && x.id == g.id && (x.section != Background || x.corrects != []);
  }

  /** Who corrects whom. */
  function CorrectsGraph(h: Handoff): Graph<Id> {
    map id | id in Elements(GroupIds(h.groups)) :: GroupOf(h, id).corrects
  }

  /** Where a group's evidence begins. */
  ghost function FirstEvidence(h: Handoff, id: Id): nat
    requires Resolved(h) && id in GroupIds(h.groups)
  {
    Earliest(SourceIds(h.sources), GroupOf(h, id).sourceIds)
  }

  /** A correcting group's evidence begins after the corrected group's. */
  lemma CorrectionGoesBack(h: Handoff, id: Id, prior: Id)
    requires Accepted(h) && id in GroupIds(h.groups) && prior in GroupOf(h, id).corrects
    ensures prior in GroupIds(h.groups) && FirstEvidence(h, prior) < FirstEvidence(h, id)
  {
    var g := GroupOf(h, id);
    assert ContentProper(h, g) && CorrectsEarlier(h, g);
    var c := GroupOf(h, prior).sourceIds[0];
    assert c in GroupOf(h, prior).sourceIds;
  }

  /** No chain of corrections ever leads back to where it began. */
  lemma CorrectionsAreAcyclic(h: Handoff)
    requires Accepted(h)
    ensures Acyclic(CorrectsGraph(h))
  {
    hide Accepted;
    hide Acyclic;
    hide FirstEvidence;
    AcceptedResolves(h);
    var g := CorrectsGraph(h);
    var rank := map id | id in g :: FirstEvidence(h, id);
    forall id, prior | id in g && prior in g[id]
      ensures prior in g && rank[prior] < rank[id]
    {
      CorrectionGoesBack(h, id, prior);
    }
    RankedIsAcyclic(g, rank);
  }
}
