// Migrating routing settings from targets to agent profiles, and back
// (crates/hub-router/src/automatic.rs).
module RoutingSettings {
  import opened Common
  import opened Evidence

  datatype Provider = Local | Codex | Api

  datatype ModelTarget = ModelTarget(
    provider: Provider, profile: Option<string>, model: string, reasoning: Option<string>)

  datatype LevelAssignment = LevelAssignment(level: int, target: ModelTarget)

  datatype AgentProfile = AgentProfile(id: string, name: string, target: ModelTarget)

  datatype RouteAgent = RouteAgent(route: string, agentId: string)

  datatype LegacyIdentity = LegacyIdentity(route: string, agentName: string)

  datatype Settings = Settings(
    classifier: ModelTarget, levels: seq<LevelAssignment>, fallback: Option<ModelTarget>,
    plannerDefault: Option<ModelTarget>, reviewerDefault: Option<ModelTarget>,
    agents: seq<AgentProfile>, routeAgents: seq<RouteAgent>, legacy: seq<LegacyIdentity>)

  const ROUTES: seq<string> := [
    "classifier", "level_1", "level_2", "level_3", "level_4", "level_5", "planner", "reviewer", "fallback"]

  function DefaultName(route: string): string {
    if route == "classifier" then "Router"
    else if route == "level_1" then "Quick"
    else if route == "level_2" then "Builder"
    else if route == "level_3" then "Developer"
    else if route == "level_4" then "Engineer"
    else if route == "level_5" then "Architect"
    else if route == "planner" then "Planner"
    else if route == "reviewer" then "Reviewer"
    else if route == "fallback" then "Fallback"
    else "Agent"
  }

  // ---- Reading the settings ----

  function LevelTarget(levels: seq<LevelAssignment>, level: int): Option<ModelTarget> {
    if levels == [] then None
    else if levels[0].level == level then Some(levels[0].target)
    else LevelTarget(levels[1..], level)
  }

  function OrElse(a: Option<ModelTarget>, b: Option<ModelTarget>): Option<ModelTarget> {
    if a.Some? then a else b
  }

  /** The target a route has without agents. */
  function TargetForRoute(s: Settings, route: string): Option<ModelTarget> {
    if route == "classifier" then Some(s.classifier)
    else if route == "level_1" then LevelTarget(s.levels, 1)
    else if route == "level_2" then LevelTarget(s.levels, 2)
    else if route == "level_3" then LevelTarget(s.levels, 3)
    else if route == "level_4" then LevelTarget(s.levels, 4)
    else if route == "level_5" then LevelTarget(s.levels, 5)
    else if route == "planner" then OrElse(s.plannerDefault, LevelTarget(s.levels, 5))
    else if route == "reviewer" then OrElse(s.reviewerDefault, OrElse(s.plannerDefault, LevelTarget(s.levels, 5)))
    else if route == "fallback" then OrElse(s.fallback, LevelTarget(s.levels, 3))
    else None
  }

  predicate HasLevel(levels: seq<LevelAssignment>, level: int) {
    LevelTarget(levels, level).Some?
  }

  predicate AllLevels(levels: seq<LevelAssignment>) {
    forall n :: 1 <= n <= 5 ==> HasLevel(levels, n)
  }

  function FindRoute(assignments: seq<RouteAgent>, route: string): (r: Option<string>)
    ensures r.Some? ==> RouteAgent(route, r.value) in assignments
    ensures r.None? <==> forall a :: a in assignments ==> a.route != route
  {
    if assignments == [] then None
    else if assignments[0].route == route then Some(assignments[0].agentId)
    else FindRoute(assignments[1..], route)
  }

  function FindAgent(agents: seq<AgentProfile>, id: string): (r: Option<AgentProfile>)
    ensures r.Some? ==> r.value in agents && r.value.id == id
    ensures r.None? <==> forall a :: a in agents ==> a.id != id
  {
    if agents == [] then None
    else if agents[0].id == id then Some(agents[0])
    else FindAgent(agents[1..], id)
  }

  function AgentForRoute(s: Settings, route: string): Option<AgentProfile> {
    var id := FindRoute(s.routeAgents, route);
    if id.None? then None else FindAgent(s.agents, id.value)
  }

  function CountRoute(assignments: seq<RouteAgent>, route: string): nat {
    if assignments == [] then 0
    else (if assignments[0].route == route then 1 else 0) + CountRoute(assignments[1..], route)
  }

  function CountAgent(agents: seq<AgentProfile>, id: string): nat {
    if agents == [] then 0
    else (if agents[0].id == id then 1 else 0) + CountAgent(agents[1..], id)
  }

  /** Counting is counting: as often as the route stands among the assignments' routes. */
  lemma {:induction false} CountRouteIs(assignments: seq<RouteAgent>, route: string)
    ensures CountRoute(assignments, route) == multiset(RoutesOf(assignments))[route]
  {
    if assignments != [] {
      CountRouteIs(assignments[1..], route);
      assert RoutesOf(assignments) == [assignments[0].route] + RoutesOf(assignments[1..]);
    }
  }

  function RoutesOf(assignments: seq<RouteAgent>): (r: seq<string>)
    ensures |r| == |assignments| && forall i :: 0 <= i < |r| ==> r[i] == assignments[i].route
  {
    seq(|assignments|, i requires 0 <= i < |assignments| => assignments[i].route)
  }

  lemma {:induction false} CountAgentIs(agents: seq<AgentProfile>, id: string)
    ensures CountAgent(agents, id) == multiset(AgentIds(agents))[id]
  {
    if agents != [] {
      CountAgentIs(agents[1..], id);
      assert AgentIds(agents) == [agents[0].id] + AgentIds(agents[1..]);
    }
  }

  function AgentIds(agents: seq<AgentProfile>): (r: seq<string>)
    ensures |r| == |agents| && forall i :: 0 <= i < |r| ==> r[i] == agents[i].id
  {
    seq(|agents|, i requires 0 <= i < |agents| => agents[i].id)
  }

  /** Nine assignments, one per route, each to an agent that exists. */
  predicate RoutesAssigned(s: Settings) {
    && |s.routeAgents| == |ROUTES|
    && (forall route :: route in ROUTES ==> CountRoute(s.routeAgents, route) == 1)
    && forall a :: a in s.routeAgents ==> FindAgent(s.agents, a.agentId).Some?
  }

  predicate Complete(s: Settings) {
    s.agents != [] && RoutesAssigned(s)
  }

  // ---- The migration ----

  function LegacyName(legacy: seq<LegacyIdentity>, route: string): Option<string> {
    if legacy == [] then None
    else if legacy[0].route == route then Some(Trim(legacy[0].agentName))
    else LegacyName(legacy[1..], route)
  }

  function TrimStart(s: string): string {
    if s != "" && IsWhitespace(s[0]) then TrimStart(s[1..]) else s
  }

  function TrimEnd(s: string): string {
    if s != "" && IsWhitespace(s[|s| - 1]) then TrimEnd(s[..|s| - 1]) else s
  }

  function Trim(s: string): string {
    TrimEnd(TrimStart(s))
  }

  function NameFor(legacy: seq<LegacyIdentity>, route: string): string {
    var name := LegacyName(legacy, route);
    if name.Some? && name.value != "" then name.value else DefaultName(route)
  }

  /** Trimming takes white space off both ends and nothing else. */
  lemma TrimIs(s: string) returns (before: string, after: string)
    ensures s == before + Trim(s) + after && Blank(before) && Blank(after)
    ensures Trim(s) != "" ==> !IsWhitespace(Trim(s)[0]) && !IsWhitespace(Trim(s)[|Trim(s)| - 1])
  {
    hide IsWhitespace;
    before := TrimStartIs(s);
    after := TrimEndIs(TrimStart(s));
    if Trim(s) != "" {
      assert TrimStart(s)[0] == Trim(s)[0];
    }
  }

  lemma {:induction false} TrimStartIs(s: string) returns (before: string)
    ensures s == before + TrimStart(s) && Blank(before)
    ensures TrimStart(s) != "" ==> !IsWhitespace(TrimStart(s)[0])
  {
    hide IsWhitespace;
    if s != "" && IsWhitespace(s[0]) {
      var rest := TrimStartIs(s[1..]);
      before := [s[0]] + rest;
    } else {
      before := "";
    }
  }

  lemma {:induction false} TrimEndIs(s: string) returns (after: string)
    ensures s == TrimEnd(s) + after && Blank(after)
    ensures TrimEnd(s) != "" ==> !IsWhitespace(TrimEnd(s)[|TrimEnd(s)| - 1])
  {
    hide IsWhitespace;
    if s != "" && IsWhitespace(s[|s| - 1]) {
      var rest := TrimEndIs(s[..|s| - 1]);
      after := rest + [s[|s| - 1]];
    } else {
      after := "";
    }
  }

  /** An old name belongs to the first identity kept for the route. */
  lemma {:induction false} LegacyNameIs(legacy: seq<LegacyIdentity>, route: string, i: nat)
    requires i < |legacy| && legacy[i].route == route && forall j :: 0 <= j < i ==> legacy[j].route != route
    ensures LegacyName(legacy, route) == Some(Trim(legacy[i].agentName))
  {
    hide Trim;
    if i > 0 {
      LegacyNameIs(legacy[1..], route, i - 1);
    }
  }

  lemma {:induction false} NoLegacyName(legacy: seq<LegacyIdentity>, route: string)
    requires forall i :: 0 <= i < |legacy| ==> legacy[i].route != route
    ensures LegacyName(legacy, route) == None
  {
    hide Trim;
    if legacy != [] {
      NoLegacyName(legacy[1..], route);
    }
  }

  function Dashed(s: string): string {
    if s == "" then "" else [if s[0] == '_' then '-' else s[0]] + Dashed(s[1..])
  }

  function AgentId(route: string): string {
    "agent-" + Dashed(route)
  }

  function FindTwin(agents: seq<AgentProfile>, name: string, target: ModelTarget): (r: Option<string>)
    ensures r.Some? ==> AgentProfile(r.value, name, target) in agents
    ensures r.None? ==> forall a :: a in agents ==> a.name != name || a.target != target
  {
    if agents == [] then None
    else if agents[0].name == name && agents[0].target == target then Some(agents[0].id)
    else FindTwin(agents[1..], name, target)
  }

  datatype Spec = Spec(route: string, name: string, target: ModelTarget)

  /** The routes from the `i`th on that have a target. */
  function Specs(s: Settings, i: nat): (r: seq<Spec>)
    requires i <= |ROUTES|
    decreases |ROUTES| - i
  {
    if i == |ROUTES| then []
    else
      var target := TargetForRoute(s, ROUTES[i]);
      var rest := Specs(s, i + 1);
      if target.Some? then [Spec(ROUTES[i], NameFor(s.legacy, ROUTES[i]), target.value)] + rest else rest
  }

  /** The reviewer falls back on the planner, the planner on level 5, the fallback on level 3; a route with a
      target of its own uses that. */
  lemma RoutesFallBack(s: Settings)
    ensures s.reviewerDefault.None? ==> TargetForRoute(s, "reviewer") == TargetForRoute(s, "planner")
    ensures s.plannerDefault.None? ==> TargetForRoute(s, "planner") == TargetForRoute(s, "level_5")
    ensures s.fallback.None? ==> TargetForRoute(s, "fallback") == TargetForRoute(s, "level_3")
    ensures s.reviewerDefault.Some? ==> TargetForRoute(s, "reviewer") == s.reviewerDefault
    ensures s.plannerDefault.Some? ==> TargetForRoute(s, "planner") == s.plannerDefault
    ensures s.fallback.Some? ==> TargetForRoute(s, "fallback") == s.fallback
    ensures TargetForRoute(s, "classifier") == Some(s.classifier)
  {
    hide LevelTarget;
  }

  /** A level's target is that of the first assignment for it. */
  lemma {:induction false} LevelTargetIff(levels: seq<LevelAssignment>, level: int, i: nat)
    requires i < |levels| && levels[i].level == level && forall j :: 0 <= j < i ==> levels[j].level != level
    ensures LevelTarget(levels, level) == Some(levels[i].target)
  {
    if i > 0 {
      LevelTargetIff(levels[1..], level, i - 1);
    }
  }

  lemma {:induction false} NoLevel(levels: seq<LevelAssignment>, level: int)
    requires forall i :: 0 <= i < |levels| ==> levels[i].level != level
    ensures LevelTarget(levels, level) == None
  {
    if levels != [] {
      NoLevel(levels[1..], level);
    }
  }

  lemma LevelRoute(s: Settings, n: nat)
    requires 1 <= n <= 5
    ensures TargetForRoute(s, ROUTES[n]) == LevelTarget(s.levels, n)
  {
    hide LevelTarget;
  }

  /** A route without a target exists exactly when a level is missing. */
  lemma EveryRouteHasTargetIff(s: Settings)
    ensures AllLevels(s.levels) <==> forall route :: route in ROUTES ==> TargetForRoute(s, route).Some?
  {
    hide LevelTarget;
    if AllLevels(s.levels) {
      AllRoutesHaveTargets(s);
    } else {
      hide TargetForRoute;
      var n :| 1 <= n <= 5 && !HasLevel(s.levels, n);
      LevelRoute(s, n);
      assert ROUTES[n] in ROUTES;
    }
  }

  lemma AllRoutesHaveTargets(s: Settings)
    requires AllLevels(s.levels)
    ensures forall route :: route in ROUTES ==> TargetForRoute(s, route).Some?
  {
    hide LevelTarget;
    assert HasLevel(s.levels, 1) && HasLevel(s.levels, 2) && HasLevel(s.levels, 3);
    assert HasLevel(s.levels, 4) && HasLevel(s.levels, 5);
    hide AllLevels;
    forall i | 0 <= i < |ROUTES|
      ensures TargetForRoute(s, ROUTES[i]).Some?
    {
    }
  }

  // ---- Building the agents ----

  function AgentFor(spec: Spec): AgentProfile {
    AgentProfile(AgentId(spec.route), spec.name, spec.target)
  }

  /** Agents and assignments for a list of specs: routes that would get the same agent share it. */
  function Built(specs: seq<Spec>): (seq<AgentProfile>, seq<RouteAgent>) {
    if specs == [] then ([], [])
    else
      var (agents, assignments) := Built(specs[..|specs| - 1]);
      var spec := specs[|specs| - 1];
      var twin := FindTwin(agents, spec.name, spec.target);
      if twin.Some? then (agents, assignments + [RouteAgent(spec.route, twin.value)])
      else (agents + [AgentFor(spec)],
            assignments + [RouteAgent(spec.route, AgentId(spec.route))])
  }

  /** What `ensure_agent_profiles` makes of the settings. */
  function Ensured(s: Settings): Settings {
    if Complete(s) then s.(legacy := [])
    else
      var (agents, assignments) := Built(Specs(s, 0));
      s.(agents := agents, routeAgents := assignments, legacy := [])
  }

  ghost predicate DistinctRoutes(specs: seq<Spec>) {
    forall i, j :: 0 <= i < j < |specs| ==> AgentId(specs[i].route) != AgentId(specs[j].route)
  }

  ghost predicate DistinctAgents(agents: seq<AgentProfile>) {
    forall i, j :: 0 <= i < j < |agents| ==> agents[i].id != agents[j].id
  }

  lemma {:induction false} FindAgentAppend(agents: seq<AgentProfile>, more: AgentProfile, id: string)
    ensures FindAgent(agents + [more], id) ==
      if FindAgent(agents, id).Some? then FindAgent(agents, id) else if more.id == id then Some(more) else None
  {
    if agents == [] {
      assert agents + [more] == [more] && [more][1..] == [];
    } else {
      assert (agents + [more])[1..] == agents[1..] + [more];
      FindAgentAppend(agents[1..], more, id);
    }
  }

  lemma {:induction false} FindDistinctAgent(agents: seq<AgentProfile>, a: AgentProfile)
    requires DistinctAgents(agents) && a in agents
    ensures FindAgent(agents, a.id) == Some(a)
  {
    if agents[0] != a {
      var i :| 0 <= i < |agents| && agents[i] == a;
      assert agents[0].id != agents[i].id;
      FindDistinctAgent(agents[1..], a);
    }
  }

  ghost predicate NamedFor(specs: seq<Spec>, agent: AgentProfile) {
    exists k :: 0 <= k < |specs| && agent == AgentFor(specs[k])
  }

  ghost predicate Serves(agents: seq<AgentProfile>, assignment: RouteAgent, spec: Spec) {
    && assignment.route == spec.route
    && AgentProfile(assignment.agentId, spec.name, spec.target) in agents
  }

  ghost predicate NamedAgents(specs: seq<Spec>, agents: seq<AgentProfile>) {
    forall i :: 0 <= i < |agents| ==> NamedFor(specs, agents[i])
  }

  ghost predicate AllServed(specs: seq<Spec>, agents: seq<AgentProfile>, assignments: seq<RouteAgent>)
    requires |assignments| == |specs|
  {
    forall k :: 0 <= k < |specs| ==> Serves(agents, assignments[k], specs[k])
  }

  /** Each spec's route is assigned an agent with the spec's name and target. */
  ghost predicate BuiltOk(specs: seq<Spec>, agents: seq<AgentProfile>, assignments: seq<RouteAgent>) {
    && |assignments| == |specs| && |agents| <= |specs| && (specs != [] ==> agents != [])
    && DistinctAgents(agents)
    && NamedAgents(specs, agents)
    && AllServed(specs, agents, assignments)
  }

  lemma NamedAgentsStay(specs: seq<Spec>, agents: seq<AgentProfile>, spec: Spec)
    requires NamedAgents(specs, agents)
    ensures NamedAgents(specs + [spec], agents)
  {
    hide AgentId;
    forall i | 0 <= i < |agents|
      ensures NamedFor(specs + [spec], agents[i])
    {
      assert NamedFor(specs, agents[i]);
      var k :| 0 <= k < |specs| && agents[i] == AgentFor(specs[k]);
      assert (specs + [spec])[k] == specs[k];
    }
  }

  lemma SharedAgentOk(
    specs: seq<Spec>, agents: seq<AgentProfile>, assignments: seq<RouteAgent>, spec: Spec, id: string)
    requires BuiltOk(specs, agents, assignments) && AgentProfile(id, spec.name, spec.target) in agents
    ensures BuiltOk(specs + [spec], agents, assignments + [RouteAgent(spec.route, id)])
  {
    NamedAgentsStay(specs, agents, spec);
    SharedAgentServes(specs, agents, assignments, spec, id);
    hide NamedAgents;
    hide DistinctAgents;
    hide AllServed;
  }

  lemma SharedAgentServes(
    specs: seq<Spec>, agents: seq<AgentProfile>, assignments: seq<RouteAgent>, spec: Spec, id: string)
    requires |assignments| == |specs| && AllServed(specs, agents, assignments)
    requires AgentProfile(id, spec.name, spec.target) in agents
    ensures AllServed(specs + [spec], agents, assignments + [RouteAgent(spec.route, id)])
  {
    var last := RouteAgent(spec.route, id);
    assert Serves(agents, last, spec);
    hide Serves;
    forall k | 0 <= k < |specs + [spec]|
      ensures Serves(agents, (assignments + [last])[k], (specs + [spec])[k])
    {
      if k < |specs| {
        assert Serves(agents, assignments[k], specs[k]);
      }
    }
  }

  lemma NewAgentOk(specs: seq<Spec>, agents: seq<AgentProfile>, assignments: seq<RouteAgent>, spec: Spec)
    requires BuiltOk(specs, agents, assignments)
    requires forall k :: 0 <= k < |specs| ==> AgentId(specs[k].route) != AgentId(spec.route)
    ensures BuiltOk(specs + [spec], agents + [AgentFor(spec)],
                    assignments + [RouteAgent(spec.route, AgentId(spec.route))])
  {
    NewAgentNamed(specs, agents, spec);
    NewAgentServes(specs, agents, assignments, spec);
    hide NamedAgents;
    hide DistinctAgents;
    hide AllServed;
  }

  lemma NewAgentNamed(specs: seq<Spec>, agents: seq<AgentProfile>, spec: Spec)
    requires NamedAgents(specs, agents) && DistinctAgents(agents)
    requires forall k :: 0 <= k < |specs| ==> AgentId(specs[k].route) != AgentId(spec.route)
    ensures NamedAgents(specs + [spec], agents + [AgentFor(spec)])
    ensures DistinctAgents(agents + [AgentFor(spec)])
  {
    hide AgentId;
    forall i | 0 <= i < |agents|
      ensures agents[i].id != AgentId(spec.route)
    {
      assert NamedFor(specs, agents[i]);
    }
    NamedAgentsStay(specs, agents, spec);
    assert (specs + [spec])[|specs|] == spec;
    assert NamedFor(specs + [spec], AgentFor(spec));
  }

  lemma NewAgentServes(specs: seq<Spec>, agents: seq<AgentProfile>, assignments: seq<RouteAgent>, spec: Spec)
    requires |assignments| == |specs| && AllServed(specs, agents, assignments)
    ensures AllServed(specs + [spec], agents + [AgentFor(spec)],
                      assignments + [RouteAgent(spec.route, AgentId(spec.route))])
  {
    hide AgentId;
    var added := AgentFor(spec);
    assert (agents + [added])[|agents|] == added;
    forall k | 0 <= k < |specs|
      ensures Serves(agents + [added], assignments[k], specs[k])
    {
      assert Serves(agents, assignments[k], specs[k]);
    }
  }

  lemma {:induction false} BuiltIsOk(specs: seq<Spec>)
    requires DistinctRoutes(specs)
    ensures BuiltOk(specs, Built(specs).0, Built(specs).1)
  {
    hide AgentId;
    hide BuiltOk;
    if specs == [] {
      NothingBuilt();
    } else {
      var n := |specs| - 1;
      var init, spec := specs[..n], specs[n];
      BuiltIsOk(init);
      var (agents, assignments) := Built(init);
      assert specs == init + [spec];
      var twin := FindTwin(agents, spec.name, spec.target);
      if twin.Some? {
        SharedAgentOk(init, agents, assignments, spec, twin.value);
      } else {
        NewAgentOk(init, agents, assignments, spec);
      }
    }
  }

  lemma NothingBuilt()
    ensures BuiltOk([], [], [])
  {
  }

  lemma {:induction false} FindRouteOf(assignments: seq<RouteAgent>, k: nat)
    requires k < |assignments|
    requires forall i, j :: 0 <= i < j < |assignments| ==> assignments[i].route != assignments[j].route
    ensures FindRoute(assignments, assignments[k].route) == Some(assignments[k].agentId)
    ensures CountRoute(assignments, assignments[k].route) == 1
  {
    if k == 0 {
      NotCounted(assignments[1..], assignments[0].route);
    } else {
      FindRouteOf(assignments[1..], k - 1);
    }
  }

  lemma {:induction false} NotCounted(assignments: seq<RouteAgent>, route: string)
    requires forall i :: 0 <= i < |assignments| ==> assignments[i].route != route
    ensures CountRoute(assignments, route) == 0
  {
    if assignments != [] {
      NotCounted(assignments[1..], route);
    }
  }

  lemma BuiltResolves(specs: seq<Spec>, k: nat)
    requires DistinctRoutes(specs) && k < |specs|
    ensures var (agents, assignments) := Built(specs);
      && FindRoute(assignments, specs[k].route).Some?
      && CountRoute(assignments, specs[k].route) == 1
      && FindAgent(agents, FindRoute(assignments, specs[k].route).value)
           == Some(AgentProfile(FindRoute(assignments, specs[k].route).value, specs[k].name, specs[k].target))
  {
    BuiltIsOk(specs);
    var (agents, assignments) := Built(specs);
    RoutesOfSpecs(specs, agents, assignments);
    FindRouteOf(assignments, k);
    FindDistinctAgent(agents, AgentProfile(assignments[k].agentId, specs[k].name, specs[k].target));
  }

  /** No two built agents have the same name and target: routes that agree on both share one. */
  lemma {:induction false} NoTwins(specs: seq<Spec>)
    ensures forall a, b :: a in Built(specs).0 && b in Built(specs).0 ==>
      a.name == b.name && a.target == b.target ==> a == b
  {
    hide AgentId;
    if specs != [] {
      NoTwins(specs[..|specs| - 1]);
    }
  }

  lemma RoutesOfSpecs(specs: seq<Spec>, agents: seq<AgentProfile>, assignments: seq<RouteAgent>)
    requires DistinctRoutes(specs) && BuiltOk(specs, agents, assignments)
    ensures forall i, j :: 0 <= i < j < |assignments| ==> assignments[i].route != assignments[j].route
  {
    hide AgentId;
    forall i, j | 0 <= i < j < |assignments|
      ensures assignments[i].route != assignments[j].route
    {
      assert AgentId(specs[i].route) != AgentId(specs[j].route);
    }
  }

  // ---- The nine routes get nine ids ----

  lemma {:induction false} DashedAt(s: string, i: nat)
    requires i < |s|
    ensures |Dashed(s)| == |s| && Dashed(s)[i] == if s[i] == '_' then '-' else s[i]
  {
    if |s| > 1 {
      DashedAt(s[1..], if i > 0 then i - 1 else 0);
    } else {
      assert Dashed(s[1..]) == "";
    }
  }

  lemma {:induction false} DashedLength(s: string)
    ensures |Dashed(s)| == |s|
  {
    if s != "" {
      DashedLength(s[1..]);
    }
  }

  /** Routes without a dash keep apart. */
  lemma AgentIdInjective(a: string, b: string)
    requires '-' !in a && '-' !in b && AgentId(a) == AgentId(b)
    ensures a == b
  {
    assert AgentId(a)[|"agent-"|..] == Dashed(a) && AgentId(b)[|"agent-"|..] == Dashed(b);
    DashedLength(a);
    DashedLength(b);
    forall i | 0 <= i < |a|
      ensures a[i] == b[i]
    {
      DashedAt(a, i);
      DashedAt(b, i);
    }
  }

  lemma RoutesAreDistinct()
    ensures forall i, j :: 0 <= i < j < |ROUTES| ==> ROUTES[i] != ROUTES[j]
    ensures forall i :: 0 <= i < |ROUTES| ==> '-' !in ROUTES[i]
  {
    assert ROUTES[1][6] == '1' && ROUTES[2][6] == '2' && ROUTES[3][6] == '3';
    assert ROUTES[4][6] == '4' && ROUTES[5][6] == '5';
    assert ROUTES[6][0] == 'p' && ROUTES[7][0] == 'r' && ROUTES[8][0] == 'f' && ROUTES[0][0] == 'c';
    assert ROUTES[1][0] == 'l' && ROUTES[2][0] == 'l' && ROUTES[3][0] == 'l';
    assert ROUTES[4][0] == 'l' && ROUTES[5][0] == 'l';
  }

  lemma {:induction false} SpecsOfAll(s: Settings, i: nat)
    requires i <= |ROUTES| && forall route :: route in ROUTES ==> TargetForRoute(s, route).Some?
    ensures |Specs(s, i)| == |ROUTES| - i
    ensures forall k :: 0 <= k < |Specs(s, i)| ==>
      && Specs(s, i)[k].route == ROUTES[i + k]
      && Specs(s, i)[k].name == NameFor(s.legacy, ROUTES[i + k])
      && TargetForRoute(s, ROUTES[i + k]) == Some(Specs(s, i)[k].target)
    decreases |ROUTES| - i
  {
    hide TargetForRoute;
    hide NameFor;
    if i < |ROUTES| {
      assert ROUTES[i] in ROUTES;
      SpecsOfAll(s, i + 1);
    }
  }

  lemma AllSpecsDistinct(s: Settings)
    requires forall route :: route in ROUTES ==> TargetForRoute(s, route).Some?
    ensures DistinctRoutes(Specs(s, 0))
  {
    hide TargetForRoute;
    hide AgentId;
    SpecsOfAll(s, 0);
    RoutesAreDistinct();
    var specs := Specs(s, 0);
    forall i, j | 0 <= i < j < |specs|
      ensures AgentId(specs[i].route) != AgentId(specs[j].route)
    {
      assert ROUTES[i] != ROUTES[j];
      if AgentId(specs[i].route) == AgentId(specs[j].route) {
        AgentIdInjective(specs[i].route, specs[j].route);
      }
    }
  }

  // ---- What the migration keeps ----

  lemma MigratedRoute(s: Settings, i: nat)
    requires AllLevels(s.levels) && !Complete(s) && i < |ROUTES|
    ensures CountRoute(Ensured(s).routeAgents, ROUTES[i]) == 1
    ensures AgentForRoute(Ensured(s), ROUTES[i]).Some?
    ensures Some(AgentForRoute(Ensured(s), ROUTES[i]).value.target) == TargetForRoute(s, ROUTES[i])
  {
    EveryRouteHasTargetIff(s);
    hide TargetForRoute;
    hide AllLevels;
    hide Built;
    hide Complete;
    SpecsOfAll(s, 0);
    AllSpecsDistinct(s);
    hide DistinctRoutes;
    BuiltResolves(Specs(s, 0), i);
  }

  lemma MigratedAgents(s: Settings)
    requires AllLevels(s.levels) && !Complete(s)
    ensures Ensured(s).agents != [] && |Ensured(s).routeAgents| == |ROUTES|
    ensures forall a :: a in Ensured(s).routeAgents ==> FindAgent(Ensured(s).agents, a.agentId).Some?
  {
    EveryRouteHasTargetIff(s);
    hide TargetForRoute;
    hide AllLevels;
    hide Built;
    hide Complete;
    SpecsOfAll(s, 0);
    AllSpecsDistinct(s);
    hide DistinctRoutes;
    var specs := Specs(s, 0);
    BuiltIsOk(specs);
    var (agents, assignments) := Built(specs);
    forall a | a in assignments
      ensures FindAgent(agents, a.agentId).Some?
    {
      var k :| 0 <= k < |assignments| && assignments[k] == a;
      assert AgentProfile(assignments[k].agentId, specs[k].name, specs[k].target) in agents;
    }
  }

  /** The migrated agent of a route carries the route's own old name, trimmed, or else the default one. */
  lemma MigratedName(s: Settings, i: nat)
    requires AllLevels(s.levels) && !Complete(s) && i < |ROUTES|
    ensures AgentForRoute(Ensured(s), ROUTES[i]).Some?
    ensures var name := AgentForRoute(Ensured(s), ROUTES[i]).value.name;
      && (forall k :: FirstFor(s.legacy, ROUTES[i], k) && Trim(s.legacy[k].agentName) != "" ==>
            name == Trim(s.legacy[k].agentName))
      && ((forall k :: FirstFor(s.legacy, ROUTES[i], k) ==> Trim(s.legacy[k].agentName) == "") ==>
            name == DefaultName(ROUTES[i]))
  {
    MigratedNameFor(s, i);
    hide *;
    NameForIs(s.legacy, ROUTES[i]);
  }

  ghost predicate FirstFor(legacy: seq<LegacyIdentity>, route: string, k: int) {
    0 <= k < |legacy| && legacy[k].route == route && forall j :: 0 <= j < k ==> legacy[j].route != route
  }

  lemma NameForIs(legacy: seq<LegacyIdentity>, route: string)
    ensures forall k :: FirstFor(legacy, route, k) && Trim(legacy[k].agentName) != "" ==>
      NameFor(legacy, route) == Trim(legacy[k].agentName)
    ensures (forall k :: FirstFor(legacy, route, k) ==> Trim(legacy[k].agentName) == "") ==>
      NameFor(legacy, route) == DefaultName(route)
  {
    hide Trim;
    hide DefaultName;
    forall k | FirstFor(legacy, route, k)
      ensures LegacyName(legacy, route) == Some(Trim(legacy[k].agentName))
    {
      LegacyNameIs(legacy, route, k);
    }
    if forall k :: 0 <= k < |legacy| ==> legacy[k].route != route {
      NoLegacyName(legacy, route);
    } else {
      var k := FirstIdentity(legacy, route);
      assert FirstFor(legacy, route, k);
    }
  }

  lemma {:induction false} FirstIdentity(legacy: seq<LegacyIdentity>, route: string) returns (k: nat)
    requires exists i :: 0 <= i < |legacy| && legacy[i].route == route
    ensures FirstFor(legacy, route, k)
  {
    if legacy[0].route == route {
      k := 0;
    } else {
      var i :| 0 <= i < |legacy| && legacy[i].route == route;
      assert legacy[1..][i - 1].route == route;
      var rest := FirstIdentity(legacy[1..], route);
      k := rest + 1;
    }
  }

  lemma MigratedNameFor(s: Settings, i: nat)
    requires AllLevels(s.levels) && !Complete(s) && i < |ROUTES|
    ensures AgentForRoute(Ensured(s), ROUTES[i]).Some?
    ensures AgentForRoute(Ensured(s), ROUTES[i]).value.name == NameFor(s.legacy, ROUTES[i])
  {
    EveryRouteHasTargetIff(s);
    hide TargetForRoute;
    hide AllLevels;
    hide Built;
    hide Complete;
    hide NameFor;
    SpecsOfAll(s, 0);
    AllSpecsDistinct(s);
    hide DistinctRoutes;
    BuiltResolves(Specs(s, 0), i);
  }

  /** With all five levels present, the migrated settings are complete, every route has an agent with
      the target the route had, and the target of no route changes. */
  lemma MigrationKeepsTargets(s: Settings)
    requires AllLevels(s.levels) && !Complete(s)
    ensures Complete(Ensured(s))
    ensures forall route :: route in ROUTES ==>
      && AgentForRoute(Ensured(s), route).Some?
      && Some(AgentForRoute(Ensured(s), route).value.target) == TargetForRoute(s, route)
      && TargetForRoute(Ensured(s), route) == TargetForRoute(s, route)
  {
    MigratedAgents(s);
    forall route | route in ROUTES
      ensures CountRoute(Ensured(s).routeAgents, route) == 1
      ensures AgentForRoute(Ensured(s), route).Some?
      ensures Some(AgentForRoute(Ensured(s), route).value.target) == TargetForRoute(s, route)
      ensures TargetForRoute(Ensured(s), route) == TargetForRoute(s, route)
    {
      var i :| 0 <= i < |ROUTES| && ROUTES[i] == route;
      MigratedRoute(s, i);
      SameTargets(s, Ensured(s), route);
    }
  }

  lemma SameTargets(s: Settings, t: Settings, route: string)
    requires t.classifier == s.classifier && t.levels == s.levels && t.fallback == s.fallback
    requires t.plannerDefault == s.plannerDefault && t.reviewerDefault == s.reviewerDefault
    ensures TargetForRoute(t, route) == TargetForRoute(s, route)
  {
  }

  /** Repeating the migration changes nothing. */
  lemma MigrationIsIdempotent(s: Settings)
    requires AllLevels(s.levels)
    ensures Ensured(Ensured(s)) == Ensured(s) && Complete(Ensured(s))
  {
    if !Complete(s) {
      MigrationKeepsTargets(s);
    } else {
      CompleteIgnoresLegacy(s);
    }
  }

  lemma CompleteIgnoresLegacy(s: Settings)
    requires Complete(s)
    ensures Complete(s.(legacy := []))
  {
  }

  // ---- Validation ----

  predicate ValidTarget(t: ModelTarget) {
    && !Blank(t.model) && TextBytes(t.model) <= 300
    && (t.reasoning.Some? ==> !Blank(t.reasoning.value) && TextBytes(t.reasoning.value) <= 50)
    && (t.provider.Local? ==> (t.profile.Some? ==> t.profile.value == "spark") && t.reasoning.None?)
    && (t.provider.Codex? ==> (t.profile.Some? ==> t.profile.value == "codex"))
    && (t.provider.Api? ==> t.profile.Some? && !Blank(t.profile.value))
  }

  predicate IdCharacter(c: char) {
    'a' <= c <= 'z' || 'A' <= c <= 'Z' || '0' <= c <= '9' || c == '-' || c == '_' || c == '.'
  }

  predicate ValidId(id: string) {
    !Blank(id) && TextBytes(id) <= 80 && forall i :: 0 <= i < |id| ==> IdCharacter(id[i])
  }

  predicate IsControl(c: char) {
    c as int < 0x20 || 0x7F <= c as int < 0xA0
  }

  predicate Presentable(name: string) {
    |name| <= 80 && forall i :: 0 <= i < |name| ==> !IsControl(name[i])
  }

  predicate ValidName(name: string) {
    !Blank(name) && Presentable(name)
  }

  predicate ValidAgent(a: AgentProfile) {
    ValidId(a.id) && ValidName(a.name) && ValidTarget(a.target)
  }

  /** `validate_agents`. */
  predicate ValidAgents(s: Settings) {
    && 1 <= |s.agents| <= 50
    && (forall i :: 0 <= i < |s.agents| ==> ValidAgent(s.agents[i]) && CountAgent(s.agents, s.agents[i].id) == 1)
    && RoutesAssigned(s)
  }

  // ---- Copying the agents' targets back ----

  lemma {:induction false} CountedRouteIsFound(assignments: seq<RouteAgent>, route: string)
    requires CountRoute(assignments, route) > 0
    ensures FindRoute(assignments, route).Some?
  {
    if assignments[0].route != route {
      CountedRouteIsFound(assignments[1..], route);
    }
  }

  lemma EveryRouteHasAgent(s: Settings)
    requires RoutesAssigned(s)
    ensures forall route :: route in ROUTES ==> AgentForRoute(s, route).Some?
  {
    hide FindAgent;
    forall route | route in ROUTES
      ensures AgentForRoute(s, route).Some?
    {
      CountedRouteIsFound(s.routeAgents, route);
      assert RouteAgent(route, FindRoute(s.routeAgents, route).value) in s.routeAgents;
    }
  }

  /** The first assignment of the level gets the target. */
  function SetLevel(levels: seq<LevelAssignment>, level: int, target: ModelTarget): seq<LevelAssignment> {
    if levels == [] then []
    else if levels[0].level == level then [LevelAssignment(level, target)] + levels[1..]
    else [levels[0]] + SetLevel(levels[1..], level, target)
  }

  /** The target of a route's agent. */
  function AgentTarget(s: Settings, i: nat): ModelTarget
    requires i < |ROUTES| && AgentForRoute(s, ROUTES[i]).Some?
  {
    AgentForRoute(s, ROUTES[i]).value.target
  }

  ghost predicate HasAgents(s: Settings) {
    forall i :: 0 <= i < |ROUTES| ==> AgentForRoute(s, ROUTES[i]).Some?
  }

  /** The nine routes' agents' targets, in the order of the routes. */
  ghost function AgentTargets(s: Settings): (r: seq<ModelTarget>)
    requires HasAgents(s)
    ensures |r| == 9 && forall i :: 0 <= i < 9 ==> r[i] == AgentTarget(s, i)
  {
    seq(9, i requires 0 <= i < 9 => AgentTarget(s, i))
  }

  /** Updates levels `n` to 5, stopping at the first one that is missing. */
  function SyncLevels(targets: seq<ModelTarget>, levels: seq<LevelAssignment>, n: int): (seq<LevelAssignment>, bool)
    requires 1 <= n <= 6 && |targets| == 9
    decreases 6 - n
  {
    if n == 6 then (levels, true)
    else if LevelTarget(levels, n).None? then (levels, false)
    else SyncLevels(targets, SetLevel(levels, n, targets[n]), n + 1)
  }

  function SyncedWith(s: Settings, targets: seq<ModelTarget>): (Settings, bool)
    requires |targets| == 9
  {
    var (levels, ok) := SyncLevels(targets, s.levels, 1);
    var started := s.(classifier := targets[0], levels := levels);
    if !ok then (started, false)
    else
      (started.(plannerDefault := Some(targets[6]), reviewerDefault := Some(targets[7]),
                fallback := if s.fallback.Some? then Some(targets[8]) else None), true)
  }

  /** What `sync_targets_from_agents` makes of the settings, and whether it reports success. */
  ghost function Synced(s: Settings): (Settings, bool) {
    if !ValidAgents(s) then (s, false)
    else
      RoutesHaveAgents(s);
      SyncedWith(s, AgentTargets(s))
  }

  lemma {:induction false} SetLevelReads(levels: seq<LevelAssignment>, level: int, target: ModelTarget, other: int)
    ensures LevelTarget(SetLevel(levels, level, target), other) ==
      if other == level && LevelTarget(levels, level).Some? then Some(target) else LevelTarget(levels, other)
  {
    if levels != [] && levels[0].level != level {
      SetLevelReads(levels[1..], level, target, other);
    }
  }

  lemma {:induction false} SetLevelSame(levels: seq<LevelAssignment>, level: int)
    requires LevelTarget(levels, level).Some?
    ensures SetLevel(levels, level, LevelTarget(levels, level).value) == levels
  {
    if levels[0].level != level {
      SetLevelSame(levels[1..], level);
    }
  }

  lemma {:induction false} SyncLevelsReads(targets: seq<ModelTarget>, levels: seq<LevelAssignment>, n: int)
    requires 1 <= n <= 6 && |targets| == 9
    ensures SyncLevels(targets, levels, n).1 <==> forall m :: n <= m <= 5 ==> HasLevel(levels, m)
    ensures SyncLevels(targets, levels, n).1 ==>
      forall m :: LevelTarget(SyncLevels(targets, levels, n).0, m) ==
        if n <= m <= 5 then Some(targets[m]) else LevelTarget(levels, m)
    decreases 6 - n
  {
    hide LevelTarget;
    hide SetLevel;
    if n == 6 {
      assert SyncLevels(targets, levels, n) == (levels, true);
    } else if !HasLevel(levels, n) {
      assert SyncLevels(targets, levels, n) == (levels, false);
    } else {
      var next := SetLevel(levels, n, targets[n]);
      forall m
        ensures LevelTarget(next, m) == if m == n then Some(targets[n]) else LevelTarget(levels, m)
      {
        SetLevelReads(levels, n, targets[n], m);
      }
      SyncLevelsReads(targets, next, n + 1);
      assert forall m :: n + 1 <= m <= 5 ==> HasLevel(next, m) == HasLevel(levels, m);
    }
  }

  lemma {:induction false} SyncLevelsSame(targets: seq<ModelTarget>, levels: seq<LevelAssignment>, n: int)
    requires 1 <= n <= 6 && |targets| == 9
    requires forall m :: n <= m <= 5 ==> LevelTarget(levels, m) == Some(targets[m])
    ensures SyncLevels(targets, levels, n) == (levels, true)
    decreases 6 - n
  {
    hide LevelTarget;
    hide SetLevel;
    if n < 6 {
      SetLevelSame(levels, n);
      SyncLevelsSame(targets, levels, n + 1);
    }
  }

  lemma RoutesHaveAgents(s: Settings)
    requires RoutesAssigned(s)
    ensures HasAgents(s)
  {
    EveryRouteHasAgent(s);
    hide AgentForRoute;
    hide RoutesAssigned;
  }

  lemma SyncedWithReads(s: Settings, targets: seq<ModelTarget>, i: nat)
    requires |targets| == 9 && SyncedWith(s, targets).1 && i < 9
    ensures TargetForRoute(SyncedWith(s, targets).0, ROUTES[i]) ==
      Some(targets[if i == 8 && s.fallback.None? then 3 else i])
  {
    SyncLevelsReads(targets, s.levels, 1);
    hide LevelTarget;
    hide SyncLevels;
    if 1 <= i <= 5 {
      LevelRoute(SyncedWith(s, targets).0, i);
      hide TargetForRoute;
    }
  }

  lemma SyncedWithTwice(s: Settings, targets: seq<ModelTarget>)
    requires |targets| == 9 && SyncedWith(s, targets).1
    ensures SyncedWith(SyncedWith(s, targets).0, targets) == SyncedWith(s, targets)
  {
    SyncLevelsReads(targets, s.levels, 1);
    hide LevelTarget;
    var t := SyncedWith(s, targets).0;
    SyncLevelsSame(targets, t.levels, 1);
    hide SyncLevels;
  }

  /** It succeeds exactly on valid agents with all five levels present. */
  lemma SyncSucceedsIff(s: Settings)
    ensures Synced(s).1 <==> ValidAgents(s) && AllLevels(s.levels)
  {
    hide ValidAgents;
    hide HasAgents;
    if ValidAgents(s) {
      ValidAgentsHaveRoutes(s);
      SyncedWithSucceedsIff(s, AgentTargets(s));
      hide SyncedWith;
      hide AllLevels;
    }
  }

  lemma ValidAgentsHaveRoutes(s: Settings)
    requires ValidAgents(s)
    ensures HasAgents(s)
  {
    RoutesHaveAgents(s);
  }

  lemma SyncedWithSucceedsIff(s: Settings, targets: seq<ModelTarget>)
    requires |targets| == 9
    ensures SyncedWith(s, targets).1 <==> AllLevels(s.levels)
  {
    SyncLevelsReads(targets, s.levels, 1);
    hide SyncLevels;
  }

  /** After a sync every route runs on its agent's target, except that a fallback the user never set
      goes on following level 3. */
  lemma SyncedTargets(s: Settings, i: nat)
    requires Synced(s).1 && i < |ROUTES|
    ensures HasAgents(s)
    ensures TargetForRoute(Synced(s).0, ROUTES[i]) ==
      Some(AgentTarget(s, if i == 8 && s.fallback.None? then 3 else i))
  {
    RoutesHaveAgents(s);
    hide ValidAgents;
    hide AgentForRoute;
    hide TargetForRoute;
    hide SyncedWith;
    SyncedWithReads(s, AgentTargets(s), i);
  }

  /** A sync that fails on valid agents found a level missing: the classifier and the levels before it have
      their agents' targets already, everything else is as before. */
  lemma FailedSyncIs(s: Settings) returns (n: nat)
    requires ValidAgents(s) && !Synced(s).1
    ensures HasAgents(s) && n <= 5 && FirstMissing(s.levels, n)
    ensures var t := Synced(s).0;
      && t == s.(classifier := AgentTarget(s, 0), levels := t.levels)
      && forall m ::
        LevelTarget(t.levels, m) == if 1 <= m < n then Some(AgentTarget(s, m)) else LevelTarget(s.levels, m)
  {
    ValidAgentsHaveRoutes(s);
    hide ValidAgents;
    n := SyncLevelsStops(AgentTargets(s), s.levels, 1);
    hide AgentForRoute;
    hide SyncLevels;
    hide LevelTarget;
    hide FirstMissing;
  }

  ghost predicate FirstMissing(levels: seq<LevelAssignment>, n: int) {
    !HasLevel(levels, n) && forall m :: 1 <= m < n ==> HasLevel(levels, m)
  }

  lemma {:induction false} SyncLevelsStops(targets: seq<ModelTarget>, levels: seq<LevelAssignment>, n: int)
    returns (k: nat)
    requires 1 <= n <= 6 && |targets| == 9 && !SyncLevels(targets, levels, n).1
    requires forall m :: 1 <= m < n ==> HasLevel(levels, m)
    ensures n <= k <= 5 && FirstMissing(levels, k)
    ensures forall m ::
      LevelTarget(SyncLevels(targets, levels, n).0, m) ==
        if n <= m < k then Some(targets[m]) else LevelTarget(levels, m)
    decreases 6 - n
  {
    hide LevelTarget;
    hide SetLevel;
    if HasLevel(levels, n) {
      var next := SetLevel(levels, n, targets[n]);
      forall m
        ensures LevelTarget(next, m) == if m == n then Some(targets[n]) else LevelTarget(levels, m)
        ensures HasLevel(next, m) == HasLevel(levels, m)
      {
        SetLevelReads(levels, n, targets[n], m);
      }
      k := SyncLevelsStops(targets, next, n + 1);
    } else {
      k := n;
    }
  }

  /** A second sync changes nothing. */
  lemma SyncIsIdempotent(s: Settings)
    requires Synced(s).1
    ensures Synced(Synced(s).0) == Synced(s)
  {
    RoutesHaveAgents(s);
    hide ValidAgents;
    hide AgentForRoute;
    SyncedWithTwice(s, AgentTargets(s));
    var t := Synced(s).0;
    SyncedWithAgents(s, AgentTargets(s));
    hide SyncedWith;
    SameAgents(s, t);
    assert AgentTargets(t) == AgentTargets(s);
  }

  lemma SyncedWithAgents(s: Settings, targets: seq<ModelTarget>)
    requires |targets| == 9
    ensures SyncedWith(s, targets).0.agents == s.agents
    ensures SyncedWith(s, targets).0.routeAgents == s.routeAgents
  {
  }

  lemma SameAgents(s: Settings, t: Settings)
    requires t.agents == s.agents && t.routeAgents == s.routeAgents
    ensures ValidAgents(t) == ValidAgents(s) && HasAgents(t) == HasAgents(s)
    ensures HasAgents(s) ==> forall i :: 0 <= i < |ROUTES| ==> AgentTarget(t, i) == AgentTarget(s, i)
  {
    assert forall route :: AgentForRoute(t, route) == AgentForRoute(s, route);
    hide AgentForRoute;
    hide ValidAgent;
  }

  /** Migrating settings and then copying the agents' targets back changes the target of no route. */
  lemma MigrationThenSyncKeepsTargets(s: Settings)
    requires AllLevels(s.levels) && !Complete(s) && ValidAgents(Ensured(s))
    ensures Synced(Ensured(s)).1
    ensures forall route :: route in ROUTES ==>
      TargetForRoute(Synced(Ensured(s)).0, route) == TargetForRoute(s, route)
  {
    var m := Ensured(s);
    MigrationKeepsTargets(s);
    SyncSucceedsIff(m);
    hide LevelTarget;
    hide Synced;
    hide Complete;
    hide ValidAgents;
    assert ROUTES[3] in ROUTES;
    FallbackFollowsLevel3(s);
    hide AgentForRoute;
    hide TargetForRoute;
    hide Ensured;
    forall i | 0 <= i < |ROUTES|
      ensures TargetForRoute(Synced(m).0, ROUTES[i]) == TargetForRoute(s, ROUTES[i])
    {
      assert ROUTES[i] in ROUTES;
      SyncedTargets(m, i);
    }
  }

  lemma FallbackFollowsLevel3(s: Settings)
    ensures Ensured(s).fallback == s.fallback
    ensures s.fallback.None? ==> TargetForRoute(s, ROUTES[8]) == TargetForRoute(s, ROUTES[3])
  {
    hide LevelTarget;
    hide Complete;
    hide Built;
  }

  // ---- When the migrated agents are valid ----

  lemma {:induction false} TrimStartFacts(s: string)
    ensures !Blank(s) ==> TrimStart(s) != "" && !IsWhitespace(TrimStart(s)[0])
    ensures Blank(s) ==> TrimStart(s) == ""
  {
    hide IsWhitespace;
    if s != "" && IsWhitespace(s[0]) {
      TrimStartFacts(s[1..]);
      assert forall i :: 1 <= i < |s| ==> s[i] == s[1..][i - 1];
    }
  }

  lemma {:induction false} TrimEndKeepsStart(s: string)
    requires s != "" && !IsWhitespace(s[0])
    ensures TrimEnd(s) != "" && TrimEnd(s)[0] == s[0]
  {
    hide IsWhitespace;
    if IsWhitespace(s[|s| - 1]) {
      TrimEndKeepsStart(s[..|s| - 1]);
    }
  }

  /** Trimmed text is empty or not blank. */
  lemma TrimmedIsNotBlank(s: string)
    ensures Trim(s) != "" ==> !Blank(Trim(s))
  {
    hide IsWhitespace;
    TrimStartFacts(s);
    if !Blank(s) {
      TrimEndKeepsStart(TrimStart(s));
      assert !IsWhitespace(Trim(s)[0]);
    }
  }

  lemma {:induction false} LegacyNameIsNotBlank(legacy: seq<LegacyIdentity>, route: string)
    ensures LegacyName(legacy, route).Some? && LegacyName(legacy, route).value != "" ==>
      !Blank(LegacyName(legacy, route).value)
  {
    hide Blank;
    hide Trim;
    if legacy != [] {
      TrimmedIsNotBlank(legacy[0].agentName);
      LegacyNameIsNotBlank(legacy[1..], route);
    }
  }

  lemma DefaultNameIsNotBlank(route: string)
    ensures !Blank(DefaultName(route))
  {
    assert !IsWhitespace(DefaultName(route)[0]);
  }

  lemma NameIsNotBlank(legacy: seq<LegacyIdentity>, route: string)
    ensures !Blank(NameFor(legacy, route))
  {
    hide Blank;
    hide LegacyName;
    hide DefaultName;
    LegacyNameIsNotBlank(legacy, route);
    DefaultNameIsNotBlank(route);
  }

  predicate RouteCharacter(c: char) {
    'a' <= c <= 'z' || '1' <= c <= '5' || c == '_'
  }

  lemma RouteCharacters(i: nat)
    requires i < |ROUTES|
    ensures |ROUTES[i]| <= 10 && forall j :: 0 <= j < |ROUTES[i]| ==> RouteCharacter(ROUTES[i][j])
  {
    var route := ROUTES[i];
    if i == 0 {
      assert route == "classifier";
    } else if i == 6 {
      assert route == "planner";
    } else if i == 7 {
      assert route == "reviewer";
    } else if i == 8 {
      assert route == "fallback";
    } else {
      assert route[..6] == "level_" && |route| == 7;
      assert forall j :: 0 <= j < 6 ==> route[j] == route[..6][j];
      assert RouteCharacter(route[6]);
    }
  }

  lemma IdIsValid(route: string)
    requires |route| <= 10 && forall j :: 0 <= j < |route| ==> RouteCharacter(route[j])
    ensures ValidId(AgentId(route))
  {
    DashedLength(route);
    var id := AgentId(route);
    forall i | 0 <= i < |id|
      ensures IdCharacter(id[i])
    {
      if i >= 6 {
        DashedAt(route, i - 6);
        assert RouteCharacter(route[i - 6]);
        assert id[i] == Dashed(route)[i - 6];
      } else {
        assert id[i] == "agent-"[i];
      }
    }
    OneByteEach(id);
    assert id[0] == 'a' && !IsWhitespace('a');
  }

  lemma {:induction false} DistinctAgentIsCountedOnce(agents: seq<AgentProfile>, k: nat)
    requires DistinctAgents(agents) && k < |agents|
    ensures CountAgent(agents, agents[k].id) == 1
  {
    if k == 0 {
      AgentNotCounted(agents[1..], agents[0].id);
    } else {
      assert agents[1..][k - 1] == agents[k];
      DistinctAgentIsCountedOnce(agents[1..], k - 1);
    }
  }

  lemma {:induction false} AgentNotCounted(agents: seq<AgentProfile>, id: string)
    requires forall i :: 0 <= i < |agents| ==> agents[i].id != id
    ensures CountAgent(agents, id) == 0
  {
    if agents != [] {
      AgentNotCounted(agents[1..], id);
    }
  }

  /** The route's old target and its name pass validation. */
  ghost predicate Migratable(s: Settings, route: string) {
    && TargetForRoute(s, route).Some?
    && ValidTarget(TargetForRoute(s, route).value) && Presentable(NameFor(s.legacy, route))
  }

  /** The spec made for the `k`th route. */
  ghost predicate SpecOf(s: Settings, spec: Spec, k: nat)
    requires k < |ROUTES|
  {
    && spec.route == ROUTES[k] && spec.name == NameFor(s.legacy, ROUTES[k])
    && TargetForRoute(s, ROUTES[k]) == Some(spec.target)
  }

  ghost predicate SpecsOf(s: Settings, specs: seq<Spec>) {
    |specs| == 9 && forall k :: 0 <= k < 9 ==> SpecOf(s, specs[k], k)
  }

  lemma MigratedAgentIsValidIff(s: Settings, spec: Spec, k: nat)
    requires k < |ROUTES| && SpecOf(s, spec, k)
    ensures Migratable(s, ROUTES[k]) <==> ValidName(spec.name) && ValidTarget(spec.target)
    ensures Migratable(s, ROUTES[k]) ==> ValidAgent(AgentFor(spec))
  {
    hide AgentId;
    hide NameFor;
    hide TargetForRoute;
    hide ValidId;
    hide Presentable;
    hide ValidTarget;
    hide Blank;
    RouteCharacters(k);
    IdIsValid(ROUTES[k]);
    NameIsNotBlank(s.legacy, ROUTES[k]);
  }

  ghost predicate AllMigratable(s: Settings) {
    forall k :: 0 <= k < 9 ==> Migratable(s, ROUTES[k])
  }

  ghost predicate AllValid(agents: seq<AgentProfile>) {
    forall i :: 0 <= i < |agents| ==> ValidAgent(agents[i])
  }

  lemma NamedAgentsAreValid(s: Settings, specs: seq<Spec>, agents: seq<AgentProfile>)
    requires SpecsOf(s, specs) && NamedAgents(specs, agents) && AllMigratable(s)
    ensures AllValid(agents)
  {
    hide Migratable;
    hide SpecOf;
    hide ValidAgent;
    hide AgentFor;
    forall i | 0 <= i < |agents|
      ensures ValidAgent(agents[i])
    {
      assert NamedFor(specs, agents[i]);
      var k :| 0 <= k < |specs| && agents[i] == AgentFor(specs[k]);
      MigratedAgentIsValidIff(s, specs[k], k);
    }
  }

  lemma ServingAgentsAreMigratable(
    s: Settings, specs: seq<Spec>, agents: seq<AgentProfile>, assignments: seq<RouteAgent>)
    requires SpecsOf(s, specs) && |assignments| == 9 && AllServed(specs, agents, assignments) && AllValid(agents)
    ensures AllMigratable(s)
  {
    hide Migratable;
    hide SpecOf;
    hide ValidId;
    hide ValidName;
    hide ValidTarget;
    forall k | 0 <= k < 9
      ensures Migratable(s, ROUTES[k])
    {
      assert Serves(agents, assignments[k], specs[k]);
      var agent := AgentProfile(assignments[k].agentId, specs[k].name, specs[k].target);
      assert ValidAgent(agent);
      MigratedAgentIsValidIff(s, specs[k], k);
    }
  }

  lemma CountedOnce(agents: seq<AgentProfile>)
    requires DistinctAgents(agents)
    ensures forall i :: 0 <= i < |agents| ==> CountAgent(agents, agents[i].id) == 1
  {
    forall i | 0 <= i < |agents|
      ensures CountAgent(agents, agents[i].id) == 1
    {
      DistinctAgentIsCountedOnce(agents, i);
    }
  }

  lemma ValidAgentsIff(s: Settings)
    requires Complete(s) && |s.agents| <= 9 && DistinctAgents(s.agents)
    ensures ValidAgents(s) <==> AllValid(s.agents)
  {
    CountedOnce(s.agents);
    hide CountAgent;
    hide ValidAgent;
    hide RoutesAssigned;
    hide DistinctAgents;
  }

  lemma SpecsAreOf(s: Settings)
    requires AllLevels(s.levels)
    ensures SpecsOf(s, Specs(s, 0)) && DistinctRoutes(Specs(s, 0))
  {
    EveryRouteHasTargetIff(s);
    SpecsOfAll(s, 0);
    AllSpecsDistinct(s);
    hide TargetForRoute;
    hide NameFor;
    hide Specs;
    hide DistinctRoutes;
    hide AllLevels;
    var specs := Specs(s, 0);
    forall k | 0 <= k < 9
      ensures SpecOf(s, specs[k], k)
    {
      assert ROUTES[0 + k] == ROUTES[k];
    }
  }

  /** The migrated agents pass validation exactly when every route's old target does and the names taken
      from the old settings are short and free of control characters: the ids always pass. */
  lemma MigratedAgentsAreValidIff(s: Settings)
    requires AllLevels(s.levels) && !Complete(s)
    ensures ValidAgents(Ensured(s)) <==> AllMigratable(s)
  {
    hide AllLevels;
    hide AllMigratable;
    hide AllValid;
    hide Specs;
    hide Built;
    hide ValidAgents;
    hide SpecsOf;
    hide NamedAgents;
    hide AllServed;
    hide DistinctAgents;
    hide DistinctRoutes;
    MigrationKeepsTargets(s);
    hide Complete;
    SpecsAreOf(s);
    var specs := Specs(s, 0);
    assert |specs| == 9 by {
      EveryRouteHasTargetIff(s);
      SpecsOfAll(s, 0);
    }
    BuiltIsOk(specs);
    var (agents, assignments) := Built(specs);
    ValidAgentsIff(Ensured(s));
    if AllMigratable(s) {
      NamedAgentsAreValid(s, specs, agents);
    }
    if AllValid(agents) {
      ServingAgentsAreMigratable(s, specs, agents, assignments);
    }
  }

  // ---- The settings object ----

  lemma SpecsStep(s: Settings, i: nat, specs: seq<Spec>, spec: Spec)
    requires i < |ROUTES| && TargetForRoute(s, ROUTES[i]) == Some(spec.target)
    requires spec.route == ROUTES[i] && spec.name == NameFor(s.legacy, ROUTES[i])
    ensures specs + Specs(s, i) == specs + [spec] + Specs(s, i + 1)
  {
    hide TargetForRoute;
    hide NameFor;
    assert Specs(s, i) == [spec] + Specs(s, i + 1);
  }

  lemma RoutesAssignedIff(s: Settings)
    ensures RoutesAssigned(s) <==>
      && |s.routeAgents| == 9
      && (forall route :: route in ROUTES ==> CountRoute(s.routeAgents, route) == 1)
      && forall a :: a in s.routeAgents ==> exists agent :: agent in s.agents && agent.id == a.agentId
  {
    hide CountRoute;
    hide FindAgent;
  }

  lemma CompleteIff(s: Settings)
    ensures Complete(s) <==>
      && s.agents != [] && |s.routeAgents| == 9
      && (forall route :: route in ROUTES ==> CountRoute(s.routeAgents, route) == 1)
      && forall a :: a in s.routeAgents ==> exists agent :: agent in s.agents && agent.id == a.agentId
  {
    RoutesAssignedIff(s);
    hide RoutesAssigned;
  }

  /** The names of the nine default agents, route by route. */
  lemma DefaultNames(i: nat)
    requires i < |ROUTES|
    ensures DefaultName(ROUTES[i]) == [
      "Router", "Quick", "Builder", "Developer", "Engineer", "Architect", "Planner", "Reviewer", "Fallback"][i]
  {
  }

  class AutoSettings {
    var classifier: ModelTarget
    var levels: seq<LevelAssignment>
    var fallback: Option<ModelTarget>
    var plannerDefault: Option<ModelTarget>
    var reviewerDefault: Option<ModelTarget>
    var agents: seq<AgentProfile>
    var routeAgents: seq<RouteAgent>
    var legacy: seq<LegacyIdentity>

    constructor (s: Settings)
      ensures Now() == s
    {
      classifier, levels, fallback := s.classifier, s.levels, s.fallback;
      plannerDefault, reviewerDefault := s.plannerDefault, s.reviewerDefault;
      agents, routeAgents, legacy := s.agents, s.routeAgents, s.legacy;
    }

    function Now(): Settings
      reads this
    {
      Settings(classifier, levels, fallback, plannerDefault, reviewerDefault, agents, routeAgents, legacy)
    }

    /** `ensure_agent_profiles`. */
    method EnsureAgentProfiles() returns (migrated: bool)
      modifies this
      ensures Now() == Ensured(old(Now()))
      ensures migrated <==> !Complete(old(Now())) || old(legacy) != []
    {
      hide Complete;
      hide Specs;
      hide Built;
      var s := Now();
      var complete := agents != [] && |routeAgents| == 9
        && (forall route :: route in ROUTES ==> CountRoute(routeAgents, route) == 1)
        && forall a :: a in routeAgents ==> exists agent :: agent in agents && agent.id == a.agentId;
      CompleteIff(s);
      if complete {
        migrated := legacy != [];
        legacy := [];
        return;
      }
      var specs := RoutesWithTarget();
      BuildAgents(specs);
      legacy := [];
      migrated := true;
    }

    method RoutesWithTarget() returns (specs: seq<Spec>)
      ensures specs == Specs(Now(), 0)
    {
      hide TargetForRoute;
      hide NameFor;
      var s := Now();
      specs := [];
      for i := 0 to |ROUTES|
        invariant specs + Specs(s, i) == Specs(s, 0)
      {
        var target := TargetForRoute(s, ROUTES[i]);
        if target.Some? {
          var spec := Spec(ROUTES[i], NameFor(s.legacy, ROUTES[i]), target.value);
          SpecsStep(s, i, specs, spec);
          specs := specs + [spec];
        }
      }
    }

    method BuildAgents(specs: seq<Spec>)
      modifies this`agents, this`routeAgents
      ensures (agents, routeAgents) == Built(specs)
    {
      agents, routeAgents := [], [];
      for i := 0 to |specs|
        invariant (agents, routeAgents) == Built(specs[..i])
      {
        var spec := specs[i];
        assert specs[..i + 1][..i] == specs[..i];
        var twin := FindTwin(agents, spec.name, spec.target);
        var agentId;
        if twin.Some? {
          agentId := twin.value;
        } else {
          agentId := AgentId(spec.route);
          agents := agents + [AgentProfile(agentId, spec.name, spec.target)];
        }
        routeAgents := routeAgents + [RouteAgent(spec.route, agentId)];
      }
      assert specs[..|specs|] == specs;
    }

    /** `validate_agents`. */
    method ValidateAgents() returns (ok: bool)
      ensures ok <==> ValidAgents(Now())
    {
      hide ValidAgent;
      hide CountAgent;
      hide RoutesAssigned;
      if agents == [] || |agents| > 50 {
        return false;
      }
      for i := 0 to |agents|
        invariant forall k :: 0 <= k < i ==> ValidAgent(agents[k]) && CountAgent(agents, agents[k].id) == 1
      {
        var valid := ValidateAgent(agents[i]);
        if !valid || CountAgent(agents, agents[i].id) != 1 {
          return false;
        }
      }
      RoutesAssignedIff(Now());
      ok := |routeAgents| == 9
        && (forall route :: route in ROUTES ==> CountRoute(routeAgents, route) == 1)
        && forall a :: a in routeAgents ==> exists agent :: agent in agents && agent.id == a.agentId;
    }

    static method ValidateAgent(agent: AgentProfile) returns (ok: bool)
      ensures ok <==> ValidAgent(agent)
    {
      hide Blank;
      hide TextBytes;
      hide ValidTarget;
      if Blank(agent.id) || TextBytes(agent.id) > 80 || Blank(agent.name) || |agent.name| > 80 {
        return false;
      }
      for i := 0 to |agent.id|
        invariant forall k :: 0 <= k < i ==> IdCharacter(agent.id[k])
      {
        var c := agent.id[i];
        if !('a' <= c <= 'z' || 'A' <= c <= 'Z' || '0' <= c <= '9' || c in "-_.") {
          return false;
        }
      }
      for i := 0 to |agent.name|
        invariant forall k :: 0 <= k < i ==> !IsControl(agent.name[k])
      {
        var code := agent.name[i] as int;
        if code < 32 || 127 <= code < 160 {
          return false;
        }
      }
      ok := ValidateTarget(agent.target);
    }

    /** `ModelTarget::validate`. */
    static method ValidateTarget(t: ModelTarget) returns (ok: bool)
      ensures ok <==> ValidTarget(t)
    {
      hide Blank;
      hide TextBytes;
      if Blank(t.model) || TextBytes(t.model) > 300
        || (t.reasoning.Some? && (Blank(t.reasoning.value) || TextBytes(t.reasoning.value) > 50))
      {
        return false;
      }
      match t.provider {
        case Local =>
          if t.profile.Some? && t.profile.value != "spark" {
            return false;
          }
        case Codex =>
          if t.profile.Some? && t.profile.value != "codex" {
            return false;
          }
        case Api =>
          if t.profile.None? || Blank(t.profile.value) {
            return false;
          }
      }
      ok := !(t.provider.Local? && t.reasoning.Some?);
    }

    /** `sync_targets_from_agents`. */
    method SyncTargetsFromAgents() returns (ok: bool)
      modifies this
      ensures (Now(), ok) == Synced(old(Now()))
    {
      ghost var s := Now();
      hide ValidAgents;
      hide AgentForRoute;
      var valid := ValidateAgents();
      if !valid {
        return false;
      }
      ValidAgentsHaveRoutes(s);
      ghost var targets := AgentTargets(s);
      classifier := AgentForRoute(Now(), ROUTES[0]).value.target;
      for level := 1 to 6
        invariant SyncLevels(targets, levels, level) == SyncLevels(targets, s.levels, 1)
        invariant Now() == s.(classifier := targets[0], levels := levels)
      {
        SameAgents(s, Now());
        if LevelTarget(levels, level).None? {
          return false;
        }
        levels := SetLevel(levels, level, AgentForRoute(Now(), ROUTES[level]).value.target);
      }
      SameAgents(s, Now());
      plannerDefault := Some(AgentForRoute(Now(), ROUTES[6]).value.target);
      SameAgents(s, Now());
      reviewerDefault := Some(AgentForRoute(Now(), ROUTES[7]).value.target);
      SameAgents(s, Now());
      if fallback.Some? {
        fallback := Some(AgentForRoute(Now(), ROUTES[8]).value.target);
      }
      ok := true;
    }
  }
}
