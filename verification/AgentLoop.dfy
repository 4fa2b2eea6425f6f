// The tool-round loop of an API agent
// (crates/hub-runtime/src/api_worker.rs, crates/protocol-types/src/providers.rs).
module AgentLoop {
  import opened Common

  const MAX_TOOL_CALLS := 32

  datatype Role = System | User | Assistant | Tool

  datatype Block =
    | Text(text: string)
    | ToolUse(id: string, name: string, arguments: string)
    | ToolResult(toolUseId: string, output: string, isError: bool)
    | Refusal(category: Option<string>, reason: Option<string>)

  datatype Target = Target(profile: string, model: string, effort: Option<string>)

  /** The provider configuration that produced something. */
  datatype Origin = Origin(target: Target, revision: nat)

  /** Provider-native state, tagged with where it came from. */
  datatype Opaque = Opaque(blob: string, origin: Origin)

  datatype Message = Message(role: Role, content: seq<Block>, state: Option<Opaque>)

  datatype Response = Response(content: seq<Block>, stopReason: string, state: Option<string>)

  /** The model and the tools, both arbitrary: what round `n` answers to a transcript, and what the
      `k`th call of round `n` returns. */
  datatype World = World(
    infer: (nat, seq<Message>) -> Result<Response, string>,
    tool: (nat, nat, Block) -> Result<string, string>)

  datatype Outcome = Completed | Refused | ProviderError | RoundLimit

  datatype AgentResult = AgentResult(text: string, transcript: seq<Message>, outcome: Outcome)

  datatype AgentError = EmptyTranscript | EmptyCompletion

  // ---- Reading a message ----

  function Calls(content: seq<Block>): (calls: seq<Block>)
    ensures forall i :: 0 <= i < |calls| ==> calls[i].ToolUse?
  {
    if content == [] then []
    else if content[0].ToolUse? then [content[0]] + Calls(content[1..])
    else Calls(content[1..])
  }

  /** The calls are those of the parts, in order: with `OneCall` this says which calls there are. */
  lemma {:induction false} CallsAppend(a: seq<Block>, b: seq<Block>)
    ensures Calls(a + b) == Calls(a) + Calls(b)
  {
    if a == [] {
      assert a + b == b;
    } else {
      var rest := a[1..];
      CallsAppend(rest, b);
      assert (a + b)[1..] == rest + b && (a + b)[0] == a[0];
      var restCalls, bCalls := Calls(rest), Calls(b);
      assert [a[0]] + (restCalls + bCalls) == [a[0]] + restCalls + bCalls;
    }
  }

  lemma OneCall(x: Block)
    ensures Calls([x]) == if x.ToolUse? then [x] else []
  {
    assert [x][1..] == [];
  }

  /** The text of a message is that of its text blocks, in order. */
  lemma {:induction false} FinalTextAppend(a: seq<Block>, b: seq<Block>)
    ensures FinalText(a + b) == FinalText(a) + FinalText(b)
  {
    if a == [] {
      assert a + b == b;
    } else {
      FinalTextAppend(a[1..], b);
      assert (a + b)[1..] == a[1..] + b;
    }
  }

  lemma OneText(x: Block)
    ensures FinalText([x]) == if x.Text? then x.text else ""
  {
    assert [x][1..] == [];
  }

  /** So are the lines of a refusal those of its refusal blocks. */
  lemma {:induction false} RefusalLinesAppend(a: seq<Block>, b: seq<Block>)
    ensures RefusalLines(a + b) == RefusalLines(a) + RefusalLines(b)
  {
    hide RefusalLine;
    if a == [] {
      assert a + b == b;
    } else {
      RefusalLinesAppend(a[1..], b);
      assert (a + b)[1..] == a[1..] + b;
    }
  }

  lemma OneRefusalLine(x: Block)
    ensures RefusalLines([x]) == if x.Refusal? then [RefusalLine(x.category, x.reason)] else []
  {
    hide RefusalLine;
    assert [x][1..] == [];
  }

  lemma {:induction false} JoinLinesAppend(a: seq<string>, b: seq<string>)
    ensures JoinLines([]) == "" && forall x :: JoinLines([x]) == x
    ensures a != [] && b != [] ==> JoinLines(a + b) == JoinLines(a) + "\n" + JoinLines(b)
  {
    if |a| > 1 && b != [] {
      JoinLinesAppend(a[1..], b);
      assert (a + b)[1..] == a[1..] + b;
      assert JoinLines(a + b) == a[0] + "\n" + JoinLines(a[1..] + b);
    } else if |a| == 1 && b != [] {
      assert (a + b)[1..] == b;
    }
  }

  predicate HasRefusal(content: seq<Block>) {
    exists i :: 0 <= i < |content| && content[i].Refusal?
  }

  function FinalText(content: seq<Block>): string {
    if content == [] then ""
    else (if content[0].Text? then content[0].text else "") + FinalText(content[1..])
  }

  function RefusalLine(category: Option<string>, reason: Option<string>): (r: string)
    ensures r != "" || category == Some("") || reason == Some("")
    ensures category.Some? ==> category.value <= r
    ensures reason.Some? ==> |reason.value| <= |r| && r[|r| - |reason.value|..] == reason.value
    ensures category.Some? && reason.Some? ==> |r| == |category.value| + 2 + |reason.value|
  {
    match (category, reason)
    case (Some(c), Some(r)) => c + ": " + r
    case (Some(c), None) => c
    case (None, Some(r)) => r
    case (None, None) => "provider refused the request"
  }

  function RefusalLines(content: seq<Block>): seq<string> {
    if content == [] then []
    else if content[0].Refusal? then [RefusalLine(content[0].category, content[0].reason)] + RefusalLines(content[1..])
    else RefusalLines(content[1..])
  }

  function JoinLines(lines: seq<string>): string {
    if lines == [] then "" else if |lines| == 1 then lines[0] else lines[0] + "\n" + JoinLines(lines[1..])
  }

  predicate RefusalStop(stopReason: string) {
    Lower(stopReason) in ["refusal", "refused", "content_filter", "safety"]
  }

  function Clipped(s: string, limit: nat): (r: string)
    ensures r <= s && |r| <= limit && (|r| < limit ==> r == s)
  {
    if |s| <= limit then s else s[..limit]
  }

  /** The assistant message of a response; a refusing stop reason always leaves a refusal block. */
  function AssistantMessage(response: Response, origin: Origin): (m: Message)
    ensures m.role == Assistant && response.content <= m.content && |m.content| <= |response.content| + 1
    ensures m.content != response.content <==>
      RefusalStop(Clipped(response.stopReason, 200)) && !HasRefusal(response.content)
    ensures m.content != response.content ==>
      m.content[|response.content|] == Refusal(Some(Clipped(response.stopReason, 200)), None)
    ensures m.state.Some? <==> response.state.Some?
    ensures m.state.Some? ==> m.state.value.blob == response.state.value && m.state.value.origin == origin
  {
    var stop := Clipped(response.stopReason, 200);
    Message(Assistant,
            if RefusalStop(stop) && !HasRefusal(response.content)
            then response.content + [Refusal(Some(stop), None)] else response.content,
            if response.state.Some? then Some(Opaque(response.state.value, origin)) else None)
  }

  lemma RefusalStopRefuses(response: Response, origin: Origin)
    requires RefusalStop(Clipped(response.stopReason, 200))
    ensures HasRefusal(AssistantMessage(response, origin).content)
  {
    var content := AssistantMessage(response, origin).content;
    if !HasRefusal(response.content) {
      assert content[|content| - 1].Refusal?;
    }
  }

  // ---- The shape of what the loop appends ----

  /** A tool message that answers the calls of `asked` one to one, in order, by id. */
  predicate Answers(asked: Message, answer: Message) {
    && answer.role == Tool && answer.state.None?
    && |answer.content| == |Calls(asked.content)|
    && forall i :: 0 <= i < |answer.content| ==>
      answer.content[i].ToolResult? && answer.content[i].toolUseId == Calls(asked.content)[i].id
  }

  /** Whole rounds: an assistant message that calls tools and does not refuse, then its answer. */
  predicate Rounds(added: seq<Message>) {
    && |added| % 2 == 0
    && (forall i :: 0 <= i < |added| / 2 ==>
          && added[2 * i].role == Assistant && Calls(added[2 * i].content) != [] && !HasRefusal(added[2 * i].content)
          && Answers(added[2 * i], added[2 * i + 1]))
  }

  /** What the loop appended, by how it ended: whole rounds, closed by a final assistant message when
      the model completed or refused. */
  predicate ProperSuffix(added: seq<Message>, outcome: Outcome) {
    match outcome
    case Completed =>
      && added != [] && Rounds(added[..|added| - 1])
      && var last := added[|added| - 1];
      && last.role == Assistant && Calls(last.content) == []
      && !HasRefusal(last.content) && !Blank(FinalText(last.content))
    case Refused =>
      && added != [] && Rounds(added[..|added| - 1])
      && var last := added[|added| - 1];
      && last.role == Assistant && HasRefusal(last.content)
    case ProviderError => Rounds(added) && |added| < 2 * MAX_TOOL_CALLS
    case RoundLimit => Rounds(added) && |added| == 2 * MAX_TOOL_CALLS
  }

  predicate AllFrom(messages: seq<Message>, origin: Origin) {
    forall i :: 0 <= i < |messages| && messages[i].state.Some? ==> messages[i].state.value.origin == origin
  }

  // ---- What a run does ----

  function ResultBlock(call: Block, result: Result<string, string>): (r: Block)
    requires call.ToolUse?
    ensures r.ToolResult? && r.toolUseId == call.id && (r.isError <==> result.Err?)
    ensures r.output == if result.Ok? then result.value else result.error
  {
    match result
    case Ok(text) => ToolResult(call.id, text, false)
    case Err(error) => ToolResult(call.id, error, true)
  }

  function AnswerOf(world: World, round: nat, calls: seq<Block>): (answer: Message)
    requires forall i :: 0 <= i < |calls| ==> calls[i].ToolUse?
    ensures |answer.content| == |calls|
  {
    var blocks := seq(|calls|, i requires 0 <= i < |calls| => ResultBlock(calls[i], world.tool(round, i, calls[i])));
    Message(Tool, blocks, None)
  }

  function RefusalText(content: seq<Block>): string {
    var reason := JoinLines(RefusalLines(content));
    if Blank(reason) then "Provider refused the request." else reason
  }

  /** Round `k` went from one request to the next: the model called tools without refusing. */
  ghost predicate Follows(world: World, origin: Origin, k: nat, before: seq<Message>, after: seq<Message>) {
    && world.infer(k, before).Ok?
    && var assistant := AssistantMessage(world.infer(k, before).value, origin);
    && !HasRefusal(assistant.content) && Calls(assistant.content) != []
    && after == before + [assistant, AnswerOf(world, k, Calls(assistant.content))]
  }

  /** Round `k` ended the run with `r`: the provider failed, refused or completed, or the rounds are used up. */
  ghost predicate Ends(
    world: World, origin: Origin, k: nat, request: seq<Message>, r: Result<AgentResult, AgentError>)
  {
    if world.infer(k, request).Err? then r == Ok(AgentResult("", request, ProviderError))
    else
      var assistant := AssistantMessage(world.infer(k, request).value, origin);
      var calls := Calls(assistant.content);
      if HasRefusal(assistant.content) then
        r == Ok(AgentResult(RefusalText(assistant.content), request + [assistant], Refused))
      else if calls == [] then
        r == if Blank(FinalText(assistant.content)) then Err(EmptyCompletion)
             else Ok(AgentResult(FinalText(assistant.content), request + [assistant], Completed))
      else
        && k + 1 == MAX_TOOL_CALLS
        && r == Ok(AgentResult("", request + [assistant, AnswerOf(world, k, calls)], RoundLimit))
  }

  /** The requests follow one another from the input transcript, and the last one ended the run. */
  ghost predicate Unfolds(
    world: World, origin: Origin, history: seq<Message>,
    requests: seq<seq<Message>>, r: Result<AgentResult, AgentError>)
  {
    && 1 <= |requests| <= MAX_TOOL_CALLS && requests[0] == history
    && Chained(world, origin, requests)
    && Ends(world, origin, |requests| - 1, requests[|requests| - 1], r)
  }

  ghost predicate Chained(world: World, origin: Origin, requests: seq<seq<Message>>) {
    forall k, n :: 0 <= k && n == k + 1 && n < |requests| ==> Follows(world, origin, k, requests[k], requests[n])
  }

  lemma ChainGrows(world: World, origin: Origin, requests: seq<seq<Message>>, next: seq<Message>)
    requires Chained(world, origin, requests)
    requires requests != [] ==> Follows(world, origin, |requests| - 1, requests[|requests| - 1], next)
    ensures Chained(world, origin, requests + [next])
  {
    hide Follows;
    var all := requests + [next];
    forall k, n | 0 <= k && n == k + 1 && n < |all|
      ensures Follows(world, origin, k, all[k], all[n])
    {
      if n == |requests| {
        assert all[n] == next && all[k] == requests[|requests| - 1];
      } else {
        assert all[k] == requests[k] && all[n] == requests[n];
      }
    }
  }

  /** A run can unfold in one way only. */
  lemma RunIsDetermined(
    world: World, origin: Origin, history: seq<Message>,
    requests: seq<seq<Message>>, r: Result<AgentResult, AgentError>,
    requests': seq<seq<Message>>, r': Result<AgentResult, AgentError>)
    requires Unfolds(world, origin, history, requests, r) && Unfolds(world, origin, history, requests', r')
    ensures requests == requests' && r == r'
  {
    hide Follows;
    hide Ends;
    var n := if |requests| <= |requests'| then |requests| else |requests'|;
    SameStart(world, origin, requests, requests', n);
    assert requests[n - 1] == requests[..n][n - 1] == requests'[..n][n - 1] == requests'[n - 1];
    if n < |requests'| {
      EndsOrFollows(world, origin, n - 1, requests[n - 1], r, requests'[n]);
    } else if n < |requests| {
      EndsOrFollows(world, origin, n - 1, requests[n - 1], r', requests[n]);
    } else {
      assert requests[..n] == requests && requests'[..n] == requests';
      OneEnding(world, origin, n - 1, requests[n - 1], r, r');
    }
  }

  lemma OneEnding(
    world: World, origin: Origin, k: nat, request: seq<Message>,
    r: Result<AgentResult, AgentError>, r': Result<AgentResult, AgentError>)
    requires Ends(world, origin, k, request, r) && Ends(world, origin, k, request, r')
    ensures r == r'
  {
  }

  /** A round either ends the run or leads to the next. */
  lemma EndsOrFollows(
    world: World, origin: Origin, k: nat, request: seq<Message>, r: Result<AgentResult, AgentError>, next: seq<Message>)
    requires Ends(world, origin, k, request, r) && Follows(world, origin, k, request, next)
    ensures k + 1 == MAX_TOOL_CALLS
  {
  }

  lemma OneNext(
    world: World, origin: Origin, k: nat, before: seq<Message>, a: seq<Message>, b: seq<Message>)
    requires Follows(world, origin, k, before, a) && Follows(world, origin, k, before, b)
    ensures a == b
  {
    hide HasRefusal;
    hide Calls;
  }

  lemma {:induction false} SameStart(
    world: World, origin: Origin, a: seq<seq<Message>>, b: seq<seq<Message>>, n: nat)
    requires Chained(world, origin, a) && Chained(world, origin, b)
    requires 1 <= n <= |a| && n <= |b| && a[0] == b[0]
    ensures a[..n] == b[..n]
  {
    hide Follows;
    if n > 1 {
      SameStart(world, origin, a, b, n - 1);
      assert a[n - 2] == a[..n - 1][n - 2] && b[n - 2] == b[..n - 1][n - 2];
      OneNext(world, origin, n - 2, a[n - 2], a[n - 1], b[n - 1]);
      assert a[..n] == a[..n - 1] + [a[n - 1]] && b[..n] == b[..n - 1] + [b[n - 1]];
    }
  }

  method Answer(world: World, round: nat, calls: seq<Block>) returns (results: seq<Block>)
    requires forall i :: 0 <= i < |calls| ==> calls[i].ToolUse?
    ensures results == AnswerOf(world, round, calls).content
  {
    results := [];
    for i := 0 to |calls|
      invariant |results| == i
      invariant forall k :: 0 <= k < i ==> results[k] == ResultBlock(calls[k], world.tool(round, k, calls[k]))
    {
      results := results + [ResultBlock(calls[i], world.tool(round, i, calls[i]))];
    }
  }

  /** The body of the loop: the run ends, or the transcript grows by a round. */
  method OneRound(world: World, origin: Origin, round: nat, transcript: seq<Message>)
    returns (r: Option<Result<AgentResult, AgentError>>, next: seq<Message>)
    requires round < MAX_TOOL_CALLS
    ensures r.Some? ==> Ends(world, origin, round, transcript, r.value)
    ensures r.None? ==> Follows(world, origin, round, transcript, next)
  {
    hide Blank;
    hide FinalText;
    hide RefusalText;
    hide AnswerOf;
    next := transcript;
    var response := world.infer(round, transcript);
    if response.Err? {
      return Some(Ok(AgentResult("", transcript, ProviderError))), next;
    }
    var stop := Clipped(response.value.stopReason, 200);
    var content := response.value.content;
    if Lower(stop) in ["refusal", "refused", "content_filter", "safety"] && !HasRefusal(content) {
      content := content + [Refusal(Some(stop), None)];
    }
    var state := match response.value.state case Some(blob) => Some(Opaque(blob, origin)) case None => None;
    var assistant := Message(Assistant, content, state);
    assert assistant == AssistantMessage(response.value, origin);
    var calls := Calls(assistant.content);
    var refused := HasRefusal(assistant.content);
    next := transcript + [assistant];
    if refused {
      var reason := JoinLines(RefusalLines(assistant.content));
      var text := if Blank(reason) then "Provider refused the request." else reason;
      RefusalTextIs(assistant.content);
      return Some(Ok(AgentResult(text, next, Refused))), next;
    }
    if calls == [] {
      if Blank(FinalText(assistant.content)) {
        return Some(Err(EmptyCompletion)), next;
      }
      return Some(Ok(AgentResult(FinalText(assistant.content), next, Completed))), next;
    }
    var results := Answer(world, round, calls);
    AnswerIs(world, round, calls);
    next := next + [Message(Tool, results, None)];
    assert next == transcript + [assistant, AnswerOf(world, round, calls)];
    r := None;
  }

  lemma AnswerIs(world: World, round: nat, calls: seq<Block>)
    requires forall i :: 0 <= i < |calls| ==> calls[i].ToolUse?
    ensures AnswerOf(world, round, calls) == Message(Tool, AnswerOf(world, round, calls).content, None)
  {
  }

  /** The run unfolds from the model's and the tools' answers, with at most 32 inferences; every request
      is the input transcript plus whole rounds, and whatever comes back extends the input by a properly
      shaped suffix. */
  method RunWithHistory(world: World, origin: Origin, history: seq<Message>)
    returns (r: Result<AgentResult, AgentError>, ghost requests: seq<seq<Message>>)
    ensures history == [] ==> r == Err(EmptyTranscript) && requests == []
    ensures history != [] ==> Unfolds(world, origin, history, requests, r)
    ensures |requests| <= 32
    ensures forall k :: 0 <= k < |requests| ==> RequestOk(history, requests[k], k, origin)
    ensures r.Ok? ==> history <= r.value.transcript
    ensures r.Ok? ==> ProperSuffix(r.value.transcript[|history|..], r.value.outcome)
    ensures r.Ok? ==> AllFrom(r.value.transcript[|history|..], origin)
  {
    hide Ends;
    hide Follows;
    hide Chained;
    hide RequestOk;
    hide ProperSuffix;
    hide AllFrom;
    requests := [];
    if history == [] {
      return Err(EmptyTranscript), requests;
    }
    var transcript := history;
    FirstRequest(world, origin, history);
    for round := 0 to MAX_TOOL_CALLS
      invariant |requests| == round && (requests + [transcript])[0] == history
      invariant Chained(world, origin, requests + [transcript])
      invariant round == MAX_TOOL_CALLS ==>
        Follows(world, origin, round - 1, requests[round - 1], transcript)
    {
      requests := requests + [transcript];
      var ended, next := OneRound(world, origin, round, transcript);
      if ended.Some? {
        UnfoldsProperly(world, origin, history, requests, ended.value);
        return ended.value, requests;
      }
      ChainGrows(world, origin, requests, next);
      transcript := next;
    }
    ChainEnds(world, origin, requests, transcript);
    r := Ok(AgentResult("", transcript, RoundLimit));
    LimitEnds(world, origin, requests[MAX_TOOL_CALLS - 1], transcript);
    UnfoldsProperly(world, origin, history, requests, r);
  }

  lemma LimitEnds(world: World, origin: Origin, request: seq<Message>, transcript: seq<Message>)
    requires Follows(world, origin, MAX_TOOL_CALLS - 1, request, transcript)
    ensures Ends(world, origin, MAX_TOOL_CALLS - 1, request, Ok(AgentResult("", transcript, RoundLimit)))
  {
    hide AnswerOf;
    hide AssistantMessage;
    hide HasRefusal;
    hide Calls;
  }

  lemma FirstRequest(world: World, origin: Origin, history: seq<Message>)
    ensures Chained(world, origin, [] + [history])
  {
  }

  lemma ChainEnds(world: World, origin: Origin, requests: seq<seq<Message>>, next: seq<Message>)
    requires Chained(world, origin, requests + [next])
    ensures Chained(world, origin, requests)
  {
    hide Follows;
    var all := requests + [next];
    forall k, n | 0 <= k && n == k + 1 && n < |requests|
      ensures Follows(world, origin, k, requests[k], requests[n])
    {
      assert all[k] == requests[k] && all[n] == requests[n];
    }
  }

  // ---- The shape every run keeps ----

  lemma RoundKeepsShape(
    world: World, origin: Origin, history: seq<Message>, k: nat, before: seq<Message>, after: seq<Message>)
    requires RequestOk(history, before, k, origin) && Follows(world, origin, k, before, after)
    ensures RequestOk(history, after, k + 1, origin)
  {
    var assistant := AssistantMessage(world.infer(k, before).value, origin);
    var answer := AnswerOf(world, k, Calls(assistant.content));
    AnswersAll(assistant, world, k);
    hide Answers;
    hide AnswerOf;
    hide Calls;
    hide HasRefusal;
    RoundAdded(before[|history|..], assistant, answer, origin);
    hide Rounds;
    assert after[|history|..] == before[|history|..] + [assistant, answer];
  }

  lemma {:induction false} RequestsKeepShape(
    world: World, origin: Origin, history: seq<Message>, requests: seq<seq<Message>>, k: nat)
    requires requests != [] && requests[0] == history && Chained(world, origin, requests) && k < |requests|
    ensures RequestOk(history, requests[k], k, origin)
  {
    hide Follows;
    if k == 0 {
      assert history[|history|..] == [];
    } else {
      RequestsKeepShape(world, origin, history, requests, k - 1);
      hide RequestOk;
      RoundKeepsShape(world, origin, history, k - 1, requests[k - 1], requests[k]);
    }
  }

  lemma EndKeepsShape(
    world: World, origin: Origin, history: seq<Message>,
    k: nat, request: seq<Message>, r: Result<AgentResult, AgentError>)
    requires RequestOk(history, request, k, origin) && k < MAX_TOOL_CALLS && Ends(world, origin, k, request, r) && r.Ok?
    ensures history <= r.value.transcript
    ensures ProperSuffix(r.value.transcript[|history|..], r.value.outcome)
    ensures AllFrom(r.value.transcript[|history|..], origin)
  {
    hide Blank;
    hide FinalText;
    hide RefusalText;
    hide RefusalStop;
    hide Answers;
    var added := r.value.transcript[|history|..];
    if r.value.outcome == RoundLimit {
      hide AnswerOf;
      RoundKeepsShape(world, origin, history, k, request, r.value.transcript);
    } else if r.value.outcome != ProviderError {
      hide AnswerOf;
      hide Calls;
      hide HasRefusal;
      hide Rounds;
      assert added[..|added| - 1] == request[|history|..];
    }
  }

  /** However a run unfolds, its requests are the input transcript plus whole rounds, and its result
      extends the input by a properly shaped suffix that carries the run's own origin only. */
  lemma UnfoldsProperly(
    world: World, origin: Origin, history: seq<Message>,
    requests: seq<seq<Message>>, r: Result<AgentResult, AgentError>)
    requires Unfolds(world, origin, history, requests, r)
    ensures forall k :: 0 <= k < |requests| ==> RequestOk(history, requests[k], k, origin)
    ensures r.Ok? ==> history <= r.value.transcript
    ensures r.Ok? ==> ProperSuffix(r.value.transcript[|history|..], r.value.outcome)
    ensures r.Ok? ==> AllFrom(r.value.transcript[|history|..], origin)
  {
    hide Chained;
    hide RequestOk;
    hide Ends;
    hide ProperSuffix;
    hide AllFrom;
    forall k | 0 <= k < |requests|
      ensures RequestOk(history, requests[k], k, origin)
    {
      RequestsKeepShape(world, origin, history, requests, k);
    }
    if r.Ok? {
      EndKeepsShape(world, origin, history, |requests| - 1, requests[|requests| - 1], r);
    }
  }

  lemma RefusalTextIs(content: seq<Block>)
    ensures var reason := JoinLines(RefusalLines(content));
      RefusalText(content) == if Blank(reason) then "Provider refused the request." else reason
  {
  }

  lemma AnswersAll(assistant: Message, world: World, round: nat)
    ensures Answers(assistant, AnswerOf(world, round, Calls(assistant.content)))
  {
    var calls := Calls(assistant.content);
    hide Calls;
    var answer := AnswerOf(world, round, calls);
    assert forall i :: 0 <= i < |calls| ==> answer.content[i] == ResultBlock(calls[i], world.tool(round, i, calls[i]));
  }

  /** The `k`th request: the input transcript and `k` whole rounds. */
  ghost predicate RequestOk(history: seq<Message>, request: seq<Message>, k: nat, origin: Origin) {
    && |request| == |history| + 2 * k && history <= request
    && Rounds(request[|history|..]) && AllFrom(request[|history|..], origin)
  }

  lemma RoundAdded(added: seq<Message>, assistant: Message, answer: Message, origin: Origin)
    requires Rounds(added) && AllFrom(added, origin) && AllFrom([assistant], origin)
    requires assistant.role == Assistant && Calls(assistant.content) != [] && !HasRefusal(assistant.content)
    requires Answers(assistant, answer)
    ensures Rounds(added + [assistant, answer]) && AllFrom(added + [assistant, answer], origin)
  {
    var all := added + [assistant, answer];
    forall i | 0 <= i < |all| / 2
      ensures all[2 * i].role == Assistant && Calls(all[2 * i].content) != [] && !HasRefusal(all[2 * i].content)
      ensures Answers(all[2 * i], all[2 * i + 1])
    {
      if i < |added| / 2 {
        assert all[2 * i] == added[2 * i] && all[2 * i + 1] == added[2 * i + 1];
      }
    }
  }

  /** Only the closing message of a refusal can leave calls unanswered: any other assistant message
      that calls tools is directly followed by the message that answers it. */
  lemma OnlyARefusalLeavesCallsOpen(added: seq<Message>, outcome: Outcome, i: nat)
    requires ProperSuffix(added, outcome) && i < |added|
    requires added[i].role == Assistant && Calls(added[i].content) != []
    ensures (i + 1 < |added| && Answers(added[i], added[i + 1]) && !HasRefusal(added[i].content))
         || (outcome == Refused && i == |added| - 1 && HasRefusal(added[i].content))
  {
    var whole := if outcome.Completed? || outcome.Refused? then added[..|added| - 1] else added;
    if i < |whole| {
      assert whole[2 * (i / 2)] == added[2 * (i / 2)];
      assert whole[2 * (i / 2) + 1] == added[2 * (i / 2) + 1];
    }
  }
}
