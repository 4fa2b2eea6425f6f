// Provider segments and the messages stored in them: opaque provider state
// never leaves the target and profile revision that produced it
// (crates/hub-runtime/src/api_sessions.rs, crates/hub-db/src/lib.rs).
module Sessions {
  import opened Common
  import opened AgentLoop

  datatype ThreadId = Thread(n: int)

  datatype SegmentId = Segment(n: int)

  datatype SegmentRow = SegmentRow(id: SegmentId, thread: ThreadId, target: Target, revision: nat, ended: bool)

  datatype MessageRow = MessageRow(
    thread: ThreadId, segment: Option<SegmentId>, role: Role, content: seq<Block>, state: Option<Opaque>)

  datatype Policy = Policy(target: Target, allowOverride: bool)

  datatype Profile = Profile(revision: nat, enabled: bool)

  /** A turn between its start and its finish. */
  datatype Turn = Turn(segment: SegmentId, origin: Origin, history: seq<Message>)

  datatype State = State(
    segments: seq<SegmentRow>, messages: seq<MessageRow>, policies: map<ThreadId, Policy>,
    profiles: map<string, Profile>, running: map<ThreadId, Turn>)

  datatype SessionError =
    | EmptyInput
    | AlreadyRunning
    | UnknownSession
    | ProfileUnavailable
    | ProfileDisabled
    | OverrideNotAllowed

  // ---- Segments ----

  function EndOpen(segments: seq<SegmentRow>, thread: ThreadId): (r: seq<SegmentRow>)
    ensures |r| == |segments|
    ensures forall i :: 0 <= i < |segments| ==>
      r[i] == segments[i].(ended := segments[i].ended || segments[i].thread == thread)
  {
    seq(|segments|, i requires 0 <= i < |segments| =>
      segments[i].(ended := segments[i].ended || segments[i].thread == thread))
  }

  /** Ends every open segment of the thread and opens the new one, in one transaction. */
  function StartSegment(segments: seq<SegmentRow>, row: SegmentRow): seq<SegmentRow> {
    EndOpen(segments, row.thread) + [row]
  }

  /** The latest open segment of the thread. */
  function ActiveSegment(segments: seq<SegmentRow>, thread: ThreadId): (r: Option<SegmentRow>)
    ensures r.Some? ==> r.value in segments && r.value.thread == thread && !r.value.ended
  {
    if segments == [] then None
    else
      var last := segments[|segments| - 1];
      if last.thread == thread && !last.ended then Some(last)
      else ActiveSegment(segments[..|segments| - 1], thread)
  }

  // ---- Messages ----

  function OfThread(messages: seq<MessageRow>, thread: ThreadId): seq<MessageRow> {
    if messages == [] then []
    else
      var last := messages[|messages| - 1];
      OfThread(messages[..|messages| - 1], thread) + if last.thread == thread then [last] else []
  }

  /** A stored message as a request for `segment` carries it. */
  function AsRequested(row: MessageRow, segment: SegmentId): (m: Message)
    ensures m.role == row.role && m.content == row.content
    ensures m.state == row.state || (m.state.None? && row.segment != Some(segment))
    ensures m.state.Some? ==> row.segment == Some(segment)
  {
    Message(row.role, row.content, if row.segment == Some(segment) then row.state else None)
  }

  function TranscriptFor(rows: seq<MessageRow>, segment: SegmentId): (r: seq<Message>)
    ensures |r| == |rows| && forall i :: 0 <= i < |rows| ==> r[i] == AsRequested(rows[i], segment)
  {
    seq(|rows|, i requires 0 <= i < |rows| => AsRequested(rows[i], segment))
  }

  function RowsFor(messages: seq<Message>, thread: ThreadId, segment: SegmentId): (r: seq<MessageRow>)
    ensures |r| == |messages|
    ensures forall i :: 0 <= i < |messages| ==>
      r[i] == MessageRow(thread, Some(segment), messages[i].role, messages[i].content, messages[i].state)
  {
    seq(|messages|, i requires 0 <= i < |messages| =>
      MessageRow(thread, Some(segment), messages[i].role, messages[i].content, messages[i].state))
  }

  // ---- The operations ----

  function SetTarget(s: State, thread: ThreadId, target: Target): Result<State, SessionError> {
    if thread in s.running then Err(AlreadyRunning)
    else if thread !in s.policies then Err(UnknownSession)
    else if target.profile !in s.profiles then Err(ProfileUnavailable)
    else if !s.profiles[target.profile].enabled then Err(ProfileDisabled)
    else if !s.policies[thread].allowOverride then Err(OverrideNotAllowed)
    else Ok(s.(policies := s.policies[thread := s.policies[thread].(target := target)]))
  }

  /** The segment a turn runs in: the active one if it has this target and revision, else a new one. */
  function SegmentForTurn(segments: seq<SegmentRow>, thread: ThreadId, origin: Origin, id: SegmentId)
    : (r: (seq<SegmentRow>, SegmentId))
  {
    var active := ActiveSegment(segments, thread);
    if active.Some? && active.value.target == origin.target && active.value.revision == origin.revision
    then (segments, active.value.id)
    else (StartSegment(segments, SegmentRow(id, thread, origin.target, origin.revision, false)), id)
  }

  function Start(s: State, thread: ThreadId, text: string, id: SegmentId): Result<State, SessionError> {
    if Blank(text) then Err(EmptyInput)
    else if thread in s.running then Err(AlreadyRunning)
    else if thread !in s.policies then Err(UnknownSession)
    else if s.policies[thread].target.profile !in s.profiles then Err(ProfileUnavailable)
    else
      var target := s.policies[thread].target;
      var origin := Origin(target, s.profiles[target.profile].revision);
      var (segments, segment) := SegmentForTurn(s.segments, thread, origin, id);
      var asked := Message(User, [Text(text)], None);
      var history := TranscriptFor(OfThread(s.messages, thread), segment) + [asked];
      Ok(State(segments, s.messages + RowsFor([asked], thread, segment), s.policies, s.profiles,
               s.running[thread := Turn(segment, origin, history)]))
  }

  /** Stores what the turn added, past the rows the thread already has; a failed turn adds nothing. */
  function Finish(s: State, thread: ThreadId, result: Result<seq<Message>, AgentError>): State
    requires thread in s.running
  {
    var turn := s.running[thread];
    var persisted := |OfThread(s.messages, thread)|;
    var added := if result.Ok? && persisted <= |result.value| then result.value[persisted..] else [];
    s.(messages := s.messages + RowsFor(added, thread, turn.segment), running := s.running - {thread})
  }

  // ---- The invariant ----

  ghost predicate SegmentsOk(segments: seq<SegmentRow>) {
    && (forall i, j :: 0 <= i < j < |segments| ==> segments[i].id != segments[j].id)
    && forall i, j :: 0 <= i < j < |segments| && !segments[i].ended && !segments[j].ended ==>
      segments[i].thread != segments[j].thread
  }

  /** Segment `id` exists, belongs to `thread` and was opened for `origin`. */
  ghost predicate OpenedFor(segments: seq<SegmentRow>, id: SegmentId, thread: ThreadId, origin: Origin) {
    exists i :: 0 <= i < |segments| && segments[i].id == id && segments[i].thread == thread
      && origin == Origin(segments[i].target, segments[i].revision)
  }

  /** A message's opaque state was produced under its segment's target and revision. */
  ghost predicate RowOk(segments: seq<SegmentRow>, row: MessageRow) {
    row.state.Some? ==>
      row.segment.Some? && OpenedFor(segments, row.segment.value, row.thread, row.state.value.origin)
  }

  /** A running turn's transcript is what the thread holds, as its own segment may see it. */
  ghost predicate TurnOk(s: State, thread: ThreadId)
    requires thread in s.running
  {
    var turn := s.running[thread];
    && OpenedFor(s.segments, turn.segment, thread, turn.origin)
    && turn.history == TranscriptFor(OfThread(s.messages, thread), turn.segment) && turn.history != []
  }

  ghost predicate Valid(s: State) {
    && SegmentsOk(s.segments)
    && (forall i :: 0 <= i < |s.messages| ==> RowOk(s.segments, s.messages[i]))
    && forall t :: t in s.running ==> TurnOk(s, t)
  }

  // ---- Keeping it ----

  lemma StartSegmentOk(segments: seq<SegmentRow>, row: SegmentRow)
    requires SegmentsOk(segments) && !row.ended && forall i :: 0 <= i < |segments| ==> segments[i].id != row.id
    ensures SegmentsOk(StartSegment(segments, row))
  {
    var next := StartSegment(segments, row);
    assert forall i :: 0 <= i < |segments| ==> next[i].id == segments[i].id && next[i].thread == segments[i].thread;
  }

  lemma OpenedForSurvives(segments: seq<SegmentRow>, row: SegmentRow, id: SegmentId, thread: ThreadId, origin: Origin)
    requires OpenedFor(segments, id, thread, origin)
    ensures OpenedFor(StartSegment(segments, row), id, thread, origin)
  {
    var i :| 0 <= i < |segments| && segments[i].id == id && segments[i].thread == thread
      && origin == Origin(segments[i].target, segments[i].revision);
    assert StartSegment(segments, row)[i].id == id;
  }

  lemma OpenedForIsUnique(segments: seq<SegmentRow>, id: SegmentId, t: ThreadId, a: Origin, u: ThreadId, b: Origin)
    requires SegmentsOk(segments) && OpenedFor(segments, id, t, a) && OpenedFor(segments, id, u, b)
    ensures t == u && a == b
  {
  }

  /** The turn's segment is in the table, opened for the turn's origin, and nothing else is lost. */
  lemma SegmentForTurnOk(segments: seq<SegmentRow>, thread: ThreadId, origin: Origin, id: SegmentId)
    requires SegmentsOk(segments) && forall i :: 0 <= i < |segments| ==> segments[i].id != id
    ensures var (next, segment) := SegmentForTurn(segments, thread, origin, id);
      && SegmentsOk(next) && OpenedFor(next, segment, thread, origin)
      && forall i, t, o :: OpenedFor(segments, i, t, o) ==> OpenedFor(next, i, t, o)
  {
    var active := ActiveSegment(segments, thread);
    if active.Some? && active.value.target == origin.target && active.value.revision == origin.revision {
      assert OpenedFor(segments, active.value.id, thread, origin);
    } else {
      var row := SegmentRow(id, thread, origin.target, origin.revision, false);
      StartSegmentOk(segments, row);
      var next := StartSegment(segments, row);
      assert next[|next| - 1] == row;
      forall i, t, o | OpenedFor(segments, i, t, o)
        ensures OpenedFor(next, i, t, o)
      {
        OpenedForSurvives(segments, row, i, t, o);
      }
    }
  }

  lemma {:induction false} OfThreadAppend(messages: seq<MessageRow>, more: seq<MessageRow>, thread: ThreadId)
    ensures OfThread(messages + more, thread) == OfThread(messages, thread) + OfThread(more, thread)
  {
    if more == [] {
      assert messages + more == messages;
    } else {
      var init := more[..|more| - 1];
      assert (messages + more)[..|messages + more| - 1] == messages + init;
      OfThreadAppend(messages, init, thread);
    }
  }

  lemma {:induction false} OfThreadAll(rows: seq<MessageRow>, of: ThreadId, thread: ThreadId)
    requires forall i :: 0 <= i < |rows| ==> rows[i].thread == of
    ensures OfThread(rows, thread) == if of == thread then rows else []
  {
    if rows != [] {
      OfThreadAll(rows[..|rows| - 1], of, thread);
    }
  }

  lemma {:induction false} OfThreadMembers(messages: seq<MessageRow>, thread: ThreadId)
    ensures forall row :: row in OfThread(messages, thread) ==> row in messages && row.thread == thread
  {
    if messages != [] {
      OfThreadMembers(messages[..|messages| - 1], thread);
    }
  }

  /** Rows of one thread are appended: other threads see nothing, this one sees exactly them. */
  lemma AppendRows(messages: seq<MessageRow>, rows: seq<MessageRow>, of: ThreadId, thread: ThreadId)
    requires forall i :: 0 <= i < |rows| ==> rows[i].thread == of
    ensures OfThread(messages + rows, thread) == OfThread(messages, thread) + if of == thread then rows else []
  {
    OfThreadAppend(messages, rows, thread);
    OfThreadAll(rows, of, thread);
  }

  lemma TranscriptAppend(rows: seq<MessageRow>, more: seq<MessageRow>, segment: SegmentId)
    ensures TranscriptFor(rows + more, segment) == TranscriptFor(rows, segment) + TranscriptFor(more, segment)
  {
  }

  lemma StartKeepsValid(s: State, thread: ThreadId, text: string, id: SegmentId)
    requires Valid(s) && Start(s, thread, text, id).Ok?
    requires forall i :: 0 <= i < |s.segments| ==> s.segments[i].id != id
    ensures Valid(Start(s, thread, text, id).value)
  {
    hide OpenedFor;
    hide SegmentsOk;
    hide SegmentForTurn;
    hide TurnOk;
    hide RowOk;
    var s' := Start(s, thread, text, id).value;
    var target := s.policies[thread].target;
    SegmentForTurnOk(s.segments, thread, Origin(target, s.profiles[target.profile].revision), id);
    var turn := s'.running[thread];
    var asked := RowsFor([Message(User, [Text(text)], None)], thread, turn.segment);
    assert s'.messages == s.messages + asked;
    StartKeepsRows(s, s', asked);
    forall t | t in s'.running
      ensures TurnOk(s', t)
    {
      if t == thread {
        TranscriptAppend(OfThread(s.messages, thread), asked, turn.segment);
        StartedTurnOk(s, s', thread, asked);
      } else {
        AppendRows(s.messages, asked, thread, t);
        OtherTurnOk(s, s', t);
      }
    }
  }

  /** The segments a state has stay opened for what they were opened for. */
  ghost predicate SegmentsSurvive(segments: seq<SegmentRow>, next: seq<SegmentRow>) {
    forall i, t, o :: OpenedFor(segments, i, t, o) ==> OpenedFor(next, i, t, o)
  }

  lemma StartKeepsRows(s: State, s': State, asked: seq<MessageRow>)
    requires Valid(s) && SegmentsSurvive(s.segments, s'.segments) && s'.messages == s.messages + asked
    requires forall i :: 0 <= i < |asked| ==> asked[i].state.None?
    ensures forall i :: 0 <= i < |s'.messages| ==> RowOk(s'.segments, s'.messages[i])
  {
    hide OpenedFor;
    hide TurnOk;
    forall i | 0 <= i < |s'.messages|
      ensures RowOk(s'.segments, s'.messages[i])
    {
      if i < |s.messages| {
        assert RowOk(s.segments, s.messages[i]);
      }
    }
  }

  lemma StartedTurnOk(s: State, s': State, thread: ThreadId, asked: seq<MessageRow>)
    requires thread in s'.running && s'.messages == s.messages + asked && asked != []
    requires forall i :: 0 <= i < |asked| ==> asked[i].thread == thread
    requires var turn := s'.running[thread];
      && OpenedFor(s'.segments, turn.segment, thread, turn.origin)
      && turn.history == TranscriptFor(OfThread(s.messages, thread) + asked, turn.segment)
    ensures TurnOk(s', thread)
  {
    hide OpenedFor;
    AppendRows(s.messages, asked, thread, thread);
  }

  lemma OtherTurnOk(s: State, s': State, t: ThreadId)
    requires t in s.running && t in s'.running && s'.running[t] == s.running[t] && TurnOk(s, t)
    requires SegmentsSurvive(s.segments, s'.segments) && OfThread(s'.messages, t) == OfThread(s.messages, t)
    ensures TurnOk(s', t)
  {
    hide OpenedFor;
  }

  /** What a turn may hand to `Finish`: its own history, extended by messages of its own origin. */
  ghost predicate ResultOf(turn: Turn, result: Result<seq<Message>, AgentError>) {
    result.Ok? ==> turn.history <= result.value && AllFrom(result.value[|turn.history|..], turn.origin)
  }

  lemma FinishAdds(s: State, thread: ThreadId, result: Result<seq<Message>, AgentError>)
    requires Valid(s) && thread in s.running && ResultOf(s.running[thread], result)
    ensures var turn := s.running[thread];
      Finish(s, thread, result).messages ==
        s.messages + RowsFor(if result.Ok? then result.value[|turn.history|..] else [], thread, turn.segment)
  {
    assert TurnOk(s, thread);
  }

  lemma FinishKeepsValid(s: State, thread: ThreadId, result: Result<seq<Message>, AgentError>)
    requires Valid(s) && thread in s.running && ResultOf(s.running[thread], result)
    ensures Valid(Finish(s, thread, result))
  {
    var s' := Finish(s, thread, result);
    var turn := s.running[thread];
    var rows := RowsFor(if result.Ok? then result.value[|turn.history|..] else [], thread, turn.segment);
    FinishAdds(s, thread, result);
    AddedRowsOk(s, thread, result);
    assert s'.segments == s.segments && s'.messages == s.messages + rows && s'.running == s.running - {thread};
    hide *;
    BookedKeepsValid(s, s', thread, rows);
  }

  lemma BookedKeepsValid(s: State, s': State, thread: ThreadId, rows: seq<MessageRow>)
    requires Valid(s) && s'.segments == s.segments && s'.messages == s.messages + rows
    requires s'.running == s.running - {thread} && forall i :: 0 <= i < |rows| ==> rows[i].thread == thread
    requires forall i :: 0 <= i < |rows| ==> RowOk(s.segments, rows[i])
    ensures Valid(s')
  {
    hide OpenedFor;
    hide SegmentsOk;
    hide RowOk;
    hide TurnOk;
    forall i | 0 <= i < |s'.messages|
      ensures RowOk(s'.segments, s'.messages[i])
    {
      if i >= |s.messages| {
        assert s'.messages[i] == rows[i - |s.messages|];
      }
    }
    forall t | t in s'.running
      ensures TurnOk(s', t)
    {
      AppendRows(s.messages, rows, thread, t);
      OtherTurnOk(s, s', t);
    }
  }

  /** What a turn adds carries its own origin, for which its segment was opened. */
  lemma AddedRowsOk(s: State, thread: ThreadId, result: Result<seq<Message>, AgentError>)
    requires Valid(s) && thread in s.running && ResultOf(s.running[thread], result)
    ensures var turn := s.running[thread];
      var rows := RowsFor(if result.Ok? then result.value[|turn.history|..] else [], thread, turn.segment);
      forall i :: 0 <= i < |rows| ==> RowOk(s.segments, rows[i])
  {
    assert TurnOk(s, thread);
    hide OpenedFor;
    hide SegmentsOk;
    hide TranscriptFor;
    hide OfThread;
  }

  /** Rows and a transcript that say the same. */
  ghost predicate SameWords(rows: seq<MessageRow>, transcript: seq<Message>) {
    && |rows| == |transcript|
    && forall i :: 0 <= i < |rows| ==> rows[i].role == transcript[i].role && rows[i].content == transcript[i].content
  }

  lemma RowsSayTheSame(rows: seq<MessageRow>, thread: ThreadId, segment: SegmentId, transcript: seq<Message>)
    requires TranscriptFor(rows, segment) <= transcript
    ensures |rows| <= |transcript|
    ensures SameWords(rows + RowsFor(transcript[|rows|..], thread, segment), transcript)
  {
    var all := rows + RowsFor(transcript[|rows|..], thread, segment);
    forall i | 0 <= i < |all|
      ensures all[i].role == transcript[i].role && all[i].content == transcript[i].content
    {
      if i < |rows| {
        assert TranscriptFor(rows, segment)[i] == transcript[i];
      }
    }
  }

  lemma FinishedRows(s: State, thread: ThreadId, result: Result<seq<Message>, AgentError>)
    requires Valid(s) && thread in s.running && ResultOf(s.running[thread], result) && result.Ok?
    ensures var turn, rows := s.running[thread], OfThread(s.messages, thread);
      && TranscriptFor(rows, turn.segment) == turn.history && |rows| == |turn.history| <= |result.value|
      && OfThread(Finish(s, thread, result).messages, thread) ==
        rows + RowsFor(result.value[|rows|..], thread, turn.segment)
  {
    hide OpenedFor;
    hide SegmentsOk;
    hide RowOk;
    hide AllFrom;
    FinishAdds(s, thread, result);
    hide Finish;
    assert TurnOk(s, thread);
    hide OfThread;
    var turn := s.running[thread];
    AppendRows(s.messages, RowsFor(result.value[|turn.history|..], thread, turn.segment), thread, thread);
  }

  /** After `finish` the thread's stored roles and contents are exactly the returned transcript's. */
  lemma StoredEqualsReturned(s: State, thread: ThreadId, result: Result<seq<Message>, AgentError>)
    requires Valid(s) && thread in s.running && ResultOf(s.running[thread], result) && result.Ok?
    ensures SameWords(OfThread(Finish(s, thread, result).messages, thread), result.value)
  {
    FinishedRows(s, thread, result);
    hide Valid;
    hide Finish;
    hide OfThread;
    hide TranscriptFor;
    hide RowsFor;
    hide SameWords;
    hide AllFrom;
    var turn := s.running[thread];
    RowsSayTheSame(OfThread(s.messages, thread), thread, turn.segment, result.value);
  }

  // ---- Isolation ----

  /** Every opaque state in a running turn's history comes from the turn's own segment. */
  lemma HistoryIsIsolated(s: State, thread: ThreadId)
    requires Valid(s) && thread in s.running
    ensures AllFrom(s.running[thread].history, s.running[thread].origin)
    ensures forall i :: 0 <= i < |s.running[thread].history| && s.running[thread].history[i].state.Some? ==>
      && i < |OfThread(s.messages, thread)|
      && OfThread(s.messages, thread)[i].segment == Some(s.running[thread].segment)
  {
    hide SegmentsOk;
    hide OpenedFor;
    var turn, rows := s.running[thread], OfThread(s.messages, thread);
    assert TurnOk(s, thread);
    OfThreadMembers(s.messages, thread);
    forall i | 0 <= i < |turn.history| && turn.history[i].state.Some?
      ensures rows[i].segment == Some(turn.segment) && turn.history[i].state.value.origin == turn.origin
    {
      assert rows[i] in s.messages && rows[i].thread == thread;
      assert RowOk(s.segments, rows[i]);
      OpenedForIsUnique(s.segments, turn.segment, thread, turn.origin, thread, rows[i].state.value.origin);
    }
  }

  datatype Action =
    | Retarget(thread: ThreadId, target: Target)
    | SaveProfile(id: string, profile: Profile)
    | Begin(thread: ThreadId, text: string, segment: SegmentId)
    | End(thread: ThreadId, result: Result<seq<Message>, AgentError>)

  /** Target changes, profile changes, and starts and finishes of turns; a refused operation changes nothing. */
  ghost predicate Step(s: State, a: Action, s': State) {
    match a
    case Retarget(t, target) => s' == if SetTarget(s, t, target).Ok? then SetTarget(s, t, target).value else s
    case SaveProfile(id, profile) => s' == s.(profiles := s.profiles[id := profile])
    case Begin(t, text, id) =>
      && (forall i :: 0 <= i < |s.segments| ==> s.segments[i].id != id)
      && s' == if Start(s, t, text, id).Ok? then Start(s, t, text, id).value else s
    case End(t, result) => t in s.running && ResultOf(s.running[t], result) && s' == Finish(s, t, result)
  }

  ghost predicate IsRun(ss: seq<State>, actions: seq<Action>) {
    && |ss| == |actions| + 1
    && forall i, j :: 0 <= i < j < |ss| && j == i + 1 ==> Step(ss[i], actions[i], ss[j])
  }

  lemma KeepsValid(s: State, s': State)
    requires Valid(s) && s'.segments == s.segments && s'.messages == s.messages && s'.running == s.running
    ensures Valid(s')
  {
    forall t | t in s'.running
      ensures TurnOk(s', t)
    {
      assert TurnOk(s, t);
    }
  }

  lemma StepKeepsValid(s: State, a: Action, s': State)
    requires Valid(s) && Step(s, a, s')
    ensures Valid(s')
  {
    hide Valid;
    match a
    case Retarget(t, target) => KeepsValid(s, s');
    case SaveProfile(id, profile) => KeepsValid(s, s');
    case Begin(t, text, id) =>
      if Start(s, t, text, id).Ok? {
        StartKeepsValid(s, t, text, id);
      }
    case End(t, result) => FinishKeepsValid(s, t, result);
  }

  lemma {:induction false} RunStaysValid(ss: seq<State>, actions: seq<Action>, k: nat)
    requires IsRun(ss, actions) && Valid(ss[0]) && k < |ss|
    ensures Valid(ss[k])
  {
    hide Valid;
    if k > 0 {
      RunStaysValid(ss, actions, k - 1);
      StepKeepsValid(ss[k - 1], actions[k - 1], ss[k]);
    }
  }

  /** Over any run, in any request of any running turn, every opaque state was produced under the very
      target and profile revision the request goes to. */
  lemma RequestsAreIsolated(
    ss: seq<State>, actions: seq<Action>, k: nat, thread: ThreadId, request: seq<Message>, n: nat)
    requires IsRun(ss, actions) && Valid(ss[0]) && k < |ss| && thread in ss[k].running
    requires RequestOk(ss[k].running[thread].history, request, n, ss[k].running[thread].origin)
    ensures AllFrom(request, ss[k].running[thread].origin)
  {
    RunStaysValid(ss, actions, k);
    HistoryIsIsolated(ss[k], thread);
    var turn := ss[k].running[thread];
    forall i | 0 <= i < |request| && request[i].state.Some?
      ensures request[i].state.value.origin == turn.origin
    {
      if i < |turn.history| {
        assert request[i] == turn.history[i];
      } else {
        assert request[i] == request[|turn.history|..][i - |turn.history|];
      }
    }
  }

  /** Over any run, a thread never has two open segments. */
  lemma OneOpenSegment(ss: seq<State>, actions: seq<Action>, k: nat, i: nat, j: nat)
    requires IsRun(ss, actions) && Valid(ss[0]) && k < |ss|
    requires i < |ss[k].segments| && j < |ss[k].segments|
    requires ss[k].segments[i].thread == ss[k].segments[j].thread
    requires !ss[k].segments[i].ended && !ss[k].segments[j].ended
    ensures i == j
  {
    RunStaysValid(ss, actions, k);
  }

  /** A thread that keeps its target and revision keeps its segment; any change opens a new one. */
  lemma SegmentChangesIff(segments: seq<SegmentRow>, thread: ThreadId, origin: Origin, id: SegmentId)
    requires SegmentsOk(segments) && forall i :: 0 <= i < |segments| ==> segments[i].id != id
    ensures SegmentForTurn(segments, thread, origin, id).0 == segments <==>
      exists i :: 0 <= i < |segments| && segments[i].thread == thread && !segments[i].ended
        && origin == Origin(segments[i].target, segments[i].revision)
  {
    ActiveIsOpen(segments, thread);
  }

  lemma {:induction false} ActiveIsOpen(segments: seq<SegmentRow>, thread: ThreadId)
    requires SegmentsOk(segments)
    ensures forall i :: 0 <= i < |segments| && segments[i].thread == thread && !segments[i].ended ==>
      ActiveSegment(segments, thread) == Some(segments[i])
  {
    if segments != [] {
      var init := segments[..|segments| - 1];
      assert forall i :: 0 <= i < |init| ==> init[i] == segments[i];
      ActiveIsOpen(init, thread);
    }
  }

  // ---- The sessions object ----

  class ApiSessions {
    var segments: seq<SegmentRow>
    var messages: seq<MessageRow>
    var policies: map<ThreadId, Policy>
    var profiles: map<string, Profile>
    var running: map<ThreadId, Turn>

    constructor (policies: map<ThreadId, Policy>, profiles: map<string, Profile>)
      ensures Valid(Now()) && Now() == State([], [], policies, profiles, map[])
    {
      this.segments, this.messages, this.running := [], [], map[];
      this.policies, this.profiles := policies, profiles;
    }

    function Now(): State
      reads this
    {
      State(segments, messages, policies, profiles, running)
    }

    method StartProviderSegment(row: SegmentRow)
      requires !row.ended
      modifies this`segments
      ensures segments == StartSegment(old(segments), row)
    {
      for i := 0 to |segments|
        invariant |segments| == |old(segments)|
        invariant forall k :: 0 <= k < i ==>
          segments[k] == old(segments)[k].(ended := old(segments)[k].ended || old(segments)[k].thread == row.thread)
        invariant forall k :: i <= k < |segments| ==> segments[k] == old(segments)[k]
      {
        if segments[i].thread == row.thread && !segments[i].ended {
          segments := segments[i := segments[i].(ended := true)];
        }
      }
      assert segments == EndOpen(old(segments), row.thread);
      segments := segments + [row];
    }

    method AppendMessages(thread: ThreadId, segment: SegmentId, added: seq<Message>)
      modifies this`messages
      ensures messages == old(messages) + RowsFor(added, thread, segment)
    {
      for i := 0 to |added|
        invariant messages == old(messages) + RowsFor(added[..i], thread, segment)
      {
        assert RowsFor(added[..i + 1], thread, segment) == RowsFor(added[..i], thread, segment)
          + [MessageRow(thread, Some(segment), added[i].role, added[i].content, added[i].state)];
        messages := messages + [MessageRow(thread, Some(segment), added[i].role, added[i].content, added[i].state)];
      }
      assert added[..|added|] == added;
    }

    method ChangeTarget(thread: ThreadId, target: Target) returns (e: Option<SessionError>)
      requires Valid(Now())
      modifies this`policies
      ensures Valid(Now())
      ensures e.None? <==> SetTarget(old(Now()), thread, target).Ok?
      ensures Now() == if e.None? then SetTarget(old(Now()), thread, target).value else old(Now())
      ensures e.Some? ==> SetTarget(old(Now()), thread, target) == Err(e.value)
      // it succeeds exactly for an idle session that allows it and a profile that may be used
      ensures e.None? <==>
        && thread !in running && thread in old(policies) && old(policies)[thread].allowOverride
        && target.profile in profiles && profiles[target.profile].enabled
      ensures e.None? ==> policies == old(policies)[thread := Policy(target, true)]
    {
      ghost var was := Now();
      if thread in running {
        return Some(AlreadyRunning);
      }
      if thread !in policies {
        return Some(UnknownSession);
      }
      if target.profile !in profiles {
        return Some(ProfileUnavailable);
      }
      if !profiles[target.profile].enabled {
        return Some(ProfileDisabled);
      }
      if !policies[thread].allowOverride {
        return Some(OverrideNotAllowed);
      }
      policies := policies[thread := policies[thread].(target := target)];
      KeepsValid(was, Now());
      return None;
    }

    method StartTurn(thread: ThreadId, text: string, id: SegmentId) returns (e: Option<SessionError>)
      requires Valid(Now()) && forall i :: 0 <= i < |segments| ==> segments[i].id != id
      modifies this
      ensures Valid(Now())
      ensures e.None? <==> Start(old(Now()), thread, text, id).Ok?
      ensures Now() == if e.None? then Start(old(Now()), thread, text, id).value else old(Now())
      ensures e.Some? ==> Start(old(Now()), thread, text, id) == Err(e.value)
      // it succeeds exactly for an idle session with something to say and a profile to say it to
      ensures e.None? <==>
        && !Blank(text) && thread !in old(running) && thread in policies
        && policies[thread].target.profile in profiles
      // the question is stored last, and the turn runs under the present target and revision
      ensures e.None? ==>
        && thread in running && |messages| == |old(messages)| + 1 && old(messages) <= messages
        && messages[|old(messages)|] ==
          MessageRow(thread, Some(running[thread].segment), User, [Text(text)], None)
        && running[thread].origin == Origin(policies[thread].target, profiles[policies[thread].target.profile].revision)
        && running == old(running)[thread := running[thread]]
    {
      hide Valid;
      ghost var was := Now();
      if Blank(text) {
        return Some(EmptyInput);
      }
      if thread in running {
        return Some(AlreadyRunning);
      }
      if thread !in policies {
        return Some(UnknownSession);
      }
      var target := policies[thread].target;
      if target.profile !in profiles {
        return Some(ProfileUnavailable);
      }
      var origin := Origin(target, profiles[target.profile].revision);
      var active := ActiveSegment(segments, thread);
      var segment: SegmentId;
      if active.Some? && active.value.target == target && active.value.revision == origin.revision {
        segment := active.value.id;
      } else {
        StartProviderSegment(SegmentRow(id, thread, target, origin.revision, false));
        segment := id;
      }
      assert (segments, segment) == SegmentForTurn(was.segments, thread, origin, id);
      var asked := Message(User, [Text(text)], None);
      var history := TranscriptFor(OfThread(messages, thread), segment) + [asked];
      AppendMessages(thread, segment, [asked]);
      running := running[thread := Turn(segment, origin, history)];
      assert Now() == Start(was, thread, text, id).value;
      StartKeepsValid(was, thread, text, id);
      return None;
    }

    method FinishTurn(thread: ThreadId, result: Result<seq<Message>, AgentError>)
      requires Valid(Now()) && thread in running && ResultOf(running[thread], result)
      modifies this
      ensures Valid(Now()) && Now() == Finish(old(Now()), thread, result)
    {
      hide Valid;
      ghost var was := Now();
      if result.Ok? {
        var persisted := |OfThread(messages, thread)|;
        var added := if persisted <= |result.value| then result.value[persisted..] else [];
        AppendMessages(thread, running[thread].segment, added);
      }
      running := running - {thread};
      FinishKeepsValid(was, thread, result);
      assert result.Err? ==> messages == was.messages + RowsFor([], thread, was.running[thread].segment);
      assert Now() == Finish(was, thread, result);
    }

    /** The agent's run of a started turn, booked: the run unfolds from the turn's history, the thread ends
        up holding the returned transcript, and no request mixes origins. */
    method RunTurn(world: World, thread: ThreadId)
      returns (result: Result<AgentResult, AgentError>, ghost requests: seq<seq<Message>>)
      requires Valid(Now()) && thread in running
      modifies this
      ensures Unfolds(world, old(running)[thread].origin, old(running)[thread].history, requests, result)
      ensures Valid(Now()) && Now() == Finish(old(Now()), thread, TranscriptOf(result))
      ensures forall k :: 0 <= k < |requests| ==> AllFrom(requests[k], old(running)[thread].origin)
      ensures result.Ok? ==> SameWords(OfThread(messages, thread), result.value.transcript)
      ensures result.Err? ==> messages == old(messages)
    {
      hide ProperSuffix;
      hide Unfolds;
      ghost var was := Now();
      assert TurnOk(was, thread);
      hide Valid;
      hide Finish;
      hide SameWords;
      var turn := running[thread];
      result, requests := RunWithHistory(world, turn.origin, turn.history);
      forall k | 0 <= k < |requests|
        ensures AllFrom(requests[k], turn.origin)
      {
        RequestsAreIsolated([was], [], 0, thread, requests[k], k);
      }
      var transcript := TranscriptOf(result);
      if transcript.Ok? {
        StoredEqualsReturned(was, thread, transcript);
      } else {
        FailedAddsNothing(was, thread, transcript);
      }
      FinishTurn(thread, transcript);
    }
  }

  function TranscriptOf(result: Result<AgentResult, AgentError>): Result<seq<Message>, AgentError> {
    match result
    case Ok(r) => Ok(r.transcript)
    case Err(e) => Err(e)
  }

  lemma FailedAddsNothing(s: State, thread: ThreadId, result: Result<seq<Message>, AgentError>)
    requires thread in s.running && result.Err?
    ensures Finish(s, thread, result).messages == s.messages
  {
    assert RowsFor([], thread, s.running[thread].segment) == [];
  }
}
