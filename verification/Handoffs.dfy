// Checking a handoff and selecting what fits its byte budget
// (crates/hub-context/src/handoff.rs).
module Handoffs {
  import opened Common
  import opened Graphs
  import opened Evidence
  import opened Closures

  datatype SelectError =
    | LimitsExceeded
    | InputTooLarge
    | DuplicateIds
    | IncompleteSource
    | UnresolvedSource
    | UnresolvedDependency
    | UserAttribution
    | CorrectionNeedsUser
    | CorrectionOrder
    | UnverifiedOutcome
    | MissingSection
    | UngroupedSource
    | MandatoryTooLarge

  // ---- Looking things up ----

  function SourceIds(sources: seq<Source>): (ids: seq<Id>)
    ensures |ids| == |sources| && forall i :: 0 <= i < |sources| ==> ids[i] == sources[i].id
  {
    seq(|sources|, i requires 0 <= i < |sources| => sources[i].id)
  }

  function GroupIds(groups: seq<Group>): (ids: seq<Id>)
    ensures |ids| == |groups| && forall i :: 0 <= i < |groups| ==> ids[i] == groups[i].id
  {
    seq(|groups|, i requires 0 <= i < |groups| => groups[i].id)
  }

  function CallIds(outcomes: seq<CallOutcome>): (ids: seq<Id>)
    ensures |ids| == |outcomes| && forall i :: 0 <= i < |outcomes| ==> ids[i] == outcomes[i].callId
  {
    seq(|outcomes|, i requires 0 <= i < |outcomes| => outcomes[i].callId)
  }

  /** The first position of `id`. */
  function Position(ids: seq<Id>, id: Id): (n: nat)
    requires id in ids
    ensures n < |ids| && ids[n] == id && id !in ids[..n]
  {
    if ids[0] == id then 0
    else
      var rest := Position(ids[1..], id);
      assert ids[..rest + 1] == [ids[0]] + ids[1..][..rest];
      rest + 1
  }

  lemma PositionInDistinct(ids: seq<Id>, i: nat)
    requires Distinct(ids) && i < |ids|
    ensures Position(ids, ids[i]) == i
  {
    assert ids[Position(ids, ids[i])] == ids[i];
  }

  function Earliest(ids: seq<Id>, cited: seq<Id>): (n: nat)
    requires cited != [] && forall c :: c in cited ==> c in ids
    ensures exists c :: c in cited && n == Position(ids, c)
    ensures forall c :: c in cited ==> n <= Position(ids, c)
  {
    var first := Position(ids, cited[0]);
    if |cited| == 1 then first
    else
      var rest := Earliest(ids, cited[1..]);
      if first < rest then first else rest
  }

  function Latest(ids: seq<Id>, cited: seq<Id>): (n: nat)
    requires cited != [] && forall c :: c in cited ==> c in ids
    ensures exists c :: c in cited && n == Position(ids, c)
    ensures forall c :: c in cited ==> n >= Position(ids, c)
  {
    var first := Position(ids, cited[0]);
    if |cited| == 1 then first
    else
      var rest := Latest(ids, cited[1..]);
      if first > rest then first else rest
  }

  function SourceOf(h: Handoff, id: Id): (s: Source)
    requires id in SourceIds(h.sources)
    ensures s in h.sources && s.id == id
  {
    h.sources[Position(SourceIds(h.sources), id)]
  }

  function GroupOf(h: Handoff, id: Id): (g: Group)
    requires id in GroupIds(h.groups)
    ensures g in h.groups && g.id == id
  {
    h.groups[Position(GroupIds(h.groups), id)]
  }

  // ---- The checks, in the order they are made ----

  predicate WithinLimits(h: Handoff) {
    0 < h.maxBytes <= 144_000 && |h.sources| <= 256 && |h.groups| <= 256
  }

  predicate AllDistinct(h: Handoff) {
    && |Elements(SourceIds(h.sources))| == |h.sources|
    && |Elements(GroupIds(h.groups))| == |h.groups|
    && |Elements(CallIds(h.outcomes))| == |h.outcomes|
  }

  predicate SourceComplete(s: Source) {
    !Blank(s.id.text) && !Blank(s.reference) && !Blank(s.text)
  }

  predicate SourcesResolve(h: Handoff, g: Group) {
    && !Blank(g.id.text) && g.sourceIds != []
    && forall id :: id in g.sourceIds ==> id in SourceIds(h.sources)
  }

  predicate LinksResolve(h: Handoff, g: Group) {
    && (forall id :: id in g.dependsOn ==> id != g.id && id in GroupIds(h.groups))
    && (forall id :: id in g.corrects ==> id != g.id && id in GroupIds(h.groups))
  }

  predicate Resolved(h: Handoff) {
    forall g :: g in h.groups ==> SourcesResolve(h, g) && LinksResolve(h, g)
  }

  predicate OnlyUsers(h: Handoff, g: Group)
    requires SourcesResolve(h, g)
  {
    forall id :: id in g.sourceIds ==> SourceOf(h, id).role == User
  }

  predicate NeedsUser(s: Section) {
    s.Purpose? || s.Constraints? || s.Completion?
  }

  /** Every piece of correcting evidence comes after every piece it corrects. */
  predicate CorrectsEarlier(h: Handoff, g: Group)
    requires Resolved(h) && g in h.groups
  {
    forall prior :: prior in g.corrects ==>
      Earliest(SourceIds(h.sources), g.sourceIds) > Latest(SourceIds(h.sources), GroupOf(h, prior).sourceIds)
  }

  predicate CallSucceeded(h: Handoff, callId: Id) {
    exists o :: o in h.outcomes && o.callId == callId && o.completed && o.exitCode == Some(0)
  }

  predicate OutcomeVerified(h: Handoff, g: Group)
    requires SourcesResolve(h, g)
  {
    g.verifiedOutcome ==> forall id :: id in g.sourceIds ==>
      var s := SourceOf(h, id);
      s.role == Tool && s.callId.Some? && CallSucceeded(h, s.callId.value)
  }

  predicate HasSection(h: Handoff, s: Section) {
    exists g :: g in h.groups && g.section == s
  }

  predicate SectionsPresent(h: Handoff) {
    && HasSection(h, Purpose) && HasSection(h, Constraints) && HasSection(h, Decisions)
    && HasSection(h, CurrentState) && HasSection(h, Unresolved) && HasSection(h, Completion)
  }

  predicate AllGrouped(h: Handoff) {
    forall s :: s in h.sources ==> exists g :: g in h.groups && s.id in g.sourceIds
  }

  function ResolutionError(h: Handoff, g: Group): Option<SelectError> {
    if !SourcesResolve(h, g) then Some(UnresolvedSource)
    else if !LinksResolve(h, g) then Some(UnresolvedDependency)
    else None
  }

  function ContentError(h: Handoff, g: Group): Option<SelectError>
    requires Resolved(h) && g in h.groups
  {
    if NeedsUser(g.section) && !OnlyUsers(h, g) then Some(UserAttribution)
    else if g.corrects != [] && !OnlyUsers(h, g) then Some(CorrectionNeedsUser)
    else if !CorrectsEarlier(h, g) then Some(CorrectionOrder)
    else if !OutcomeVerified(h, g) then Some(UnverifiedOutcome)
    else None
  }

  /** The first group, from the `i`th on, whose references do not resolve. */
  function FirstUnresolved(h: Handoff, i: nat): (e: Option<SelectError>)
    requires i <= |h.groups|
    ensures e.None? <==> forall k :: i <= k < |h.groups| ==> ResolutionError(h, h.groups[k]).None?
    ensures e.Some? ==> exists k :: i <= k < |h.groups| && ResolutionError(h, h.groups[k]) == e
    decreases |h.groups| - i
  {
    if i == |h.groups| then None
    else if ResolutionError(h, h.groups[i]).Some? then ResolutionError(h, h.groups[i])
    else FirstUnresolved(h, i + 1)
  }

  /** The first complaint about a group's content, from the `i`th on. */
  function FirstImproper(h: Handoff, i: nat): (e: Option<SelectError>)
    requires Resolved(h) && i <= |h.groups|
    ensures e.None? <==> forall k :: i <= k < |h.groups| ==> ContentError(h, h.groups[k]).None?
    ensures e.Some? ==> exists k :: i <= k < |h.groups| && ContentError(h, h.groups[k]) == e
    decreases |h.groups| - i
  {
    if i == |h.groups| then None
    else if ContentError(h, h.groups[i]).Some? then ContentError(h, h.groups[i])
    else FirstImproper(h, i + 1)
  }

  /** The first complaint about the input, in the order the source makes them. */
  function Check(h: Handoff): Option<SelectError> {
    if !WithinLimits(h) then Some(LimitsExceeded)
    else if HandoffBytes(h) > 1_000_000 then Some(InputTooLarge)
    else if !AllDistinct(h) then Some(DuplicateIds)
    else if exists s :: s in h.sources && !SourceComplete(s) then Some(IncompleteSource)
    else if FirstUnresolved(h, 0).Some? then FirstUnresolved(h, 0)
    else if FirstImproper(h, 0).Some? then FirstImproper(h, 0)
    else if !SectionsPresent(h) then Some(MissingSection)
    else if !AllGrouped(h) then Some(UngroupedSource)
    else None
  }

  /** What an accepted input satisfies. */
  ghost predicate ContentProper(h: Handoff, g: Group)
    requires Resolved(h) && g in h.groups
  {
    && (NeedsUser(g.section) || g.corrects != [] ==> OnlyUsers(h, g))
    && CorrectsEarlier(h, g) && OutcomeVerified(h, g)
  }

  ghost predicate Accepted(h: Handoff) {
    && WithinLimits(h) && HandoffBytes(h) <= 1_000_000
    && Distinct(SourceIds(h.sources)) && Distinct(GroupIds(h.groups)) && Distinct(CallIds(h.outcomes))
    && (forall s :: s in h.sources ==> SourceComplete(s))
    && Resolved(h)
    && (forall g :: g in h.groups ==> ContentProper(h, g))
    && SectionsPresent(h) && AllGrouped(h)
  }

  lemma DistinctByCount(h: Handoff)
    ensures AllDistinct(h) <==>
      Distinct(SourceIds(h.sources)) && Distinct(GroupIds(h.groups)) && Distinct(CallIds(h.outcomes))
  {
    DistinctIffCardinality(SourceIds(h.sources));
    DistinctIffCardinality(GroupIds(h.groups));
    DistinctIffCardinality(CallIds(h.outcomes));
  }

  lemma ProperIfNoComplaint(h: Handoff)
    requires Resolved(h)
    ensures FirstImproper(h, 0).None? <==> forall g :: g in h.groups ==> ContentProper(h, g)
  {
    forall g | g in h.groups
      ensures ContentError(h, g).None? <==> ContentProper(h, g)
    {
    }
    assert forall k :: 0 <= k < |h.groups| ==> h.groups[k] in h.groups;
  }

  /** The checks pass exactly for the inputs that meet every requirement. */
  lemma CheckIffAccepted(h: Handoff)
    ensures Check(h).None? <==> Accepted(h)
  {
    hide ContentProper;
    hide Distinct;
    hide HandoffBytes;
    hide AllDistinct;
    hide SectionsPresent;
    hide AllGrouped;
    DistinctByCount(h);
    assert FirstUnresolved(h, 0).None? <==> Resolved(h);
    if Resolved(h) {
      ProperIfNoComplaint(h);
    }
  }

  // ---- What is accepted, in plain terms ----

  /** Everything a group names exists. */
  ghost predicate NamesExist(h: Handoff, g: Group) {
    && !Blank(g.id.text) && g.sourceIds != []
    && (forall id :: id in g.sourceIds ==> HasSource(h, id))
    && (forall id :: id in g.dependsOn ==> id != g.id && HasGroup(h, id))
    && forall id :: id in g.corrects ==> id != g.id && HasGroup(h, id)
  }

  ghost predicate HasSource(h: Handoff, id: Id) {
    exists x :: x in h.sources && x.id == id
  }

  ghost predicate HasGroup(h: Handoff, id: Id) {
    exists g :: g in h.groups && g.id == id
  }

  /** Purpose, constraints, completion and corrections are the user's own words. */
  ghost predicate SaidByUser(h: Handoff, g: Group) {
    g.section in {Purpose, Constraints, Completion} || |g.corrects| > 0 ==>
      forall x :: x in h.sources && x.id in g.sourceIds ==> x.role == User
  }

  /** All the evidence of a group comes after all that of a group it corrects. */
  ghost predicate ComesAfter(h: Handoff, g: Group) {
    forall p :: p in h.groups && p.id in g.corrects ==> AllAfter(h, g, p)
  }

  ghost predicate AllAfter(h: Handoff, g: Group, p: Group) {
    forall i, j :: Cites(h, g, i) && Cites(h, p, j) ==> j < i
  }

  /** The group rests on the `i`th source. */
  predicate Cites(h: Handoff, g: Group, i: int) {
    0 <= i < |h.sources| && h.sources[i].id in g.sourceIds
  }

  /** A verified group rests on calls of tools that completed with exit code 0 only. */
  ghost predicate Verified(h: Handoff, g: Group) {
    g.verifiedOutcome ==> forall x :: x in h.sources && x.id in g.sourceIds ==>
      x.role == Tool
      && exists o :: o in h.outcomes && x.callId == Some(o.callId) && o.completed && o.exitCode == Some(0)
  }

  lemma NamesExistIff(h: Handoff, g: Group)
    ensures NamesExist(h, g) <==> SourcesResolve(h, g) && LinksResolve(h, g)
  {
    hide Blank;
    forall id
      ensures id in SourceIds(h.sources) <==> HasSource(h, id)
      ensures id in GroupIds(h.groups) <==> HasGroup(h, id)
    {
      HasIff(h, id);
    }
    hide HasSource;
    hide HasGroup;
  }

  lemma HasIff(h: Handoff, id: Id)
    ensures id in SourceIds(h.sources) <==> HasSource(h, id)
    ensures id in GroupIds(h.groups) <==> HasGroup(h, id)
  {
    if x :| x in h.sources && x.id == id {
      var i :| 0 <= i < |h.sources| && h.sources[i] == x;
      assert SourceIds(h.sources)[i] == id;
    }
    if g :| g in h.groups && g.id == id {
      var i :| 0 <= i < |h.groups| && h.groups[i] == g;
      assert GroupIds(h.groups)[i] == id;
    }
  }

  lemma OnlySource(h: Handoff, x: Source)
    requires Distinct(SourceIds(h.sources)) && x in h.sources
    ensures x.id in SourceIds(h.sources) && SourceOf(h, x.id) == x
  {
    var i :| 0 <= i < |h.sources| && h.sources[i] == x;
    assert SourceIds(h.sources)[i] == x.id;
    PositionInDistinct(SourceIds(h.sources), i);
  }

  lemma OnlyGroup(h: Handoff, g: Group)
    requires Distinct(GroupIds(h.groups)) && g in h.groups
    ensures g.id in GroupIds(h.groups) && GroupOf(h, g.id) == g
  {
    var i :| 0 <= i < |h.groups| && h.groups[i] == g;
    assert GroupIds(h.groups)[i] == g.id;
    PositionInDistinct(GroupIds(h.groups), i);
  }

  lemma OnlyUsersIff(h: Handoff, g: Group)
    requires Distinct(SourceIds(h.sources)) && SourcesResolve(h, g)
    ensures OnlyUsers(h, g) <==> forall x :: x in h.sources && x.id in g.sourceIds ==> x.role == User
  {
    hide Distinct;
    forall x | x in h.sources
      ensures x.id in SourceIds(h.sources) && SourceOf(h, x.id) == x
    {
      OnlySource(h, x);
    }
    hide SourceOf;
  }

  lemma VerifiedIff(h: Handoff, g: Group)
    requires Distinct(SourceIds(h.sources)) && SourcesResolve(h, g)
    ensures OutcomeVerified(h, g) <==> Verified(h, g)
  {
    hide Distinct;
    forall x | x in h.sources
      ensures x.id in SourceIds(h.sources) && SourceOf(h, x.id) == x
    {
      OnlySource(h, x);
    }
    hide SourceOf;
  }

  lemma ComesAfterIff(h: Handoff, g: Group)
    requires Distinct(SourceIds(h.sources)) && Distinct(GroupIds(h.groups)) && Resolved(h) && g in h.groups
    ensures CorrectsEarlier(h, g) <==> ComesAfter(h, g)
  {
    forall p | p in h.groups
      ensures p.id in GroupIds(h.groups) && GroupOf(h, p.id) == p
      ensures SourcesResolve(h, p)
    {
      OnlyGroup(h, p);
    }
    assert LinksResolve(h, g);
    forall p | p in h.groups
      ensures Earliest(SourceIds(h.sources), g.sourceIds) > Latest(SourceIds(h.sources), p.sourceIds) <==>
        AllAfter(h, g, p)
    {
      AllAfterIff(h, g, p);
    }
    hide Distinct;
    hide SourcesResolve;
    hide GroupOf;
    hide Earliest;
    hide Latest;
    hide AllAfter;
  }

  lemma CitesOf(h: Handoff, g: Group, id: Id)
    requires SourcesResolve(h, g) && id in g.sourceIds
    ensures Cites(h, g, Position(SourceIds(h.sources), id))
  {
  }

  lemma CitedPosition(h: Handoff, g: Group, i: nat)
    requires Distinct(SourceIds(h.sources)) && Cites(h, g, i)
    ensures h.sources[i].id in SourceIds(h.sources)
    ensures Position(SourceIds(h.sources), h.sources[i].id) == i
  {
    assert SourceIds(h.sources)[i] == h.sources[i].id;
    PositionInDistinct(SourceIds(h.sources), i);
  }

  lemma FirstCited(h: Handoff, g: Group)
    requires Distinct(SourceIds(h.sources)) && SourcesResolve(h, g)
    ensures var n := Earliest(SourceIds(h.sources), g.sourceIds);
      Cites(h, g, n) && forall i :: Cites(h, g, i) ==> n <= i
  {
    var ids := SourceIds(h.sources);
    var n := Earliest(ids, g.sourceIds);
    var id :| id in g.sourceIds && n == Position(ids, id);
    CitesOf(h, g, id);
    forall i | Cites(h, g, i)
      ensures n <= i
    {
      CitedPosition(h, g, i);
    }
  }

  lemma LastCited(h: Handoff, g: Group)
    requires Distinct(SourceIds(h.sources)) && SourcesResolve(h, g)
    ensures var n := Latest(SourceIds(h.sources), g.sourceIds);
      Cites(h, g, n) && forall i :: Cites(h, g, i) ==> i <= n
  {
    var ids := SourceIds(h.sources);
    var n := Latest(ids, g.sourceIds);
    var id :| id in g.sourceIds && n == Position(ids, id);
    CitesOf(h, g, id);
    forall i | Cites(h, g, i)
      ensures i <= n
    {
      CitedPosition(h, g, i);
    }
  }

  lemma AllAfterIff(h: Handoff, g: Group, p: Group)
    requires Distinct(SourceIds(h.sources)) && SourcesResolve(h, g) && SourcesResolve(h, p)
    ensures Earliest(SourceIds(h.sources), g.sourceIds) > Latest(SourceIds(h.sources), p.sourceIds) <==>
      AllAfter(h, g, p)
  {
    FirstCited(h, g);
    LastCited(h, p);
    hide Distinct;
    hide Cites;
    hide SourcesResolve;
  }

  /** Exactly these handoffs are accepted: within the limits, with distinct ids, complete sources that some
      group cites, and all six sections; and of every group, what it names exists, what must be the user's
      words is, its evidence follows what it corrects, and it is verified only by calls that succeeded. */
  lemma AcceptedIff(h: Handoff)
    ensures Accepted(h) <==>
      && 0 < h.maxBytes <= 144_000 && |h.sources| <= 256 && |h.groups| <= 256 && HandoffBytes(h) <= 1_000_000
      && Distinct(SourceIds(h.sources)) && Distinct(GroupIds(h.groups)) && Distinct(CallIds(h.outcomes))
      && (forall x :: x in h.sources ==> !Blank(x.id.text) && !Blank(x.reference) && !Blank(x.text))
      && (forall x :: x in h.sources ==> exists g :: g in h.groups && x.id in g.sourceIds)
      && (forall s :: s in [Purpose, Constraints, Decisions, CurrentState, Unresolved, Completion] ==>
            exists g :: g in h.groups && g.section == s)
      && forall g :: g in h.groups ==>
        NamesExist(h, g) && SaidByUser(h, g) && ComesAfter(h, g) && Verified(h, g)
  {
    SectionsIff(h);
    hide SectionsPresent;
    hide HandoffBytes;
    hide Blank;
    forall g | g in h.groups
      ensures NamesExist(h, g) <==> SourcesResolve(h, g) && LinksResolve(h, g)
    {
      NamesExistIff(h, g);
    }
    hide SourcesResolve;
    hide LinksResolve;
    hide NamesExist;
    if Distinct(SourceIds(h.sources)) && Distinct(GroupIds(h.groups)) && Resolved(h) {
      forall g | g in h.groups
        ensures ContentProper(h, g) <==> SaidByUser(h, g) && ComesAfter(h, g) && Verified(h, g)
      {
        ContentProperIff(h, g);
      }
    }
    hide Distinct;
    hide ContentProper;
    hide SaidByUser;
    hide ComesAfter;
    hide Verified;
  }

  lemma SectionsIff(h: Handoff)
    ensures SectionsPresent(h) <==>
      forall s :: s in [Purpose, Constraints, Decisions, CurrentState, Unresolved, Completion] ==>
        exists g :: g in h.groups && g.section == s
  {
    assert SectionsPresent(h) <==>
      forall s :: s in [Purpose, Constraints, Decisions, CurrentState, Unresolved, Completion] ==> HasSection(h, s);
  }

  lemma ContentProperIff(h: Handoff, g: Group)
    requires Distinct(SourceIds(h.sources)) && Distinct(GroupIds(h.groups)) && Resolved(h) && g in h.groups
    ensures ContentProper(h, g) <==> SaidByUser(h, g) && ComesAfter(h, g) && Verified(h, g)
  {
    OnlyUsersIff(h, g);
    VerifiedIff(h, g);
    ComesAfterIff(h, g);
    hide Distinct;
    hide OnlyUsers;
    hide OutcomeVerified;
    hide CorrectsEarlier;
    hide ComesAfter;
    hide Verified;
  }
}
