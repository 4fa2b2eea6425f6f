// Turning a local model's draft into a handoff: everything the draft claims is
// checked against the visible conversation first
// (crates/hub-context/src/handoff.rs, `from_conversation_draft`).
module Drafts {
  import opened Common
  import opened Evidence
  import opened Handoffs
  import opened Selections
  import Closures
  import Rendering

  datatype Message = Message(
    id: Id, role: Role, text: string, callId: Option<Id>, completed: Option<bool>, exitCode: Option<int>)

  /** A confidence is a floating-point number; only finite ones have a value. */
  datatype Confidence = NotFinite | Finite(value: real)

  datatype Candidate = Candidate(
    id: Id, sourceMessageId: Id, quote: string, section: string,
    dependsOn: seq<Id>, corrects: seq<Id>, confidence: Confidence)

  datatype DraftError =
    | MessageCount
    | ConversationTooLong
    | InvalidMessage
    | ToolWithoutCall
    | UnexpectedOutcome
    | CandidateCount
    | InvalidCandidate
    | UnknownMessage
    | QuoteMismatch
    | CorrectionTargetMissing
    | CorrectionNotEarlier
    | ConflictingOutcomes
    | UnknownSection
    | Rejected(error: SelectError)

  const MAX_CONVERSATION_BYTES := 20_000
  const MIN_EXTRACTION_CONFIDENCE := 0.75

  // ---- The conversation ----

  function MessageIds(messages: seq<Message>): (ids: seq<Id>)
    ensures |ids| == |messages| && forall i :: 0 <= i < |messages| ==> ids[i] == messages[i].id
  {
    seq(|messages|, i requires 0 <= i < |messages| => messages[i].id)
  }

  function MessageBytes(m: Message): nat {
    |"{\"id\":,\"role\":,\"text\":,\"call_id\":,\"completed\":,\"exit_code\":}"|
    + IdBytes(m.id) + RoleBytes(m.role) + StringBytes(m.text) + OptionalIdBytes(m.callId)
    + (if m.completed.Some? then BoolBytes(m.completed.value) else |"null"|)
    + if m.exitCode.Some? then IntBytes(m.exitCode.value) else |"null"|
  }

  function MessageText(m: Message): string {
    Rendering.ObjectText([
      Rendering.Field("id", Rendering.IdText(m.id)),
      Rendering.Field("role", Rendering.RoleText(m.role)),
      Rendering.Field("text", Rendering.StringText(m.text)),
      Rendering.Field("call_id", Rendering.OptionalIdText(m.callId)),
      Rendering.Field("completed", if m.completed.Some? then Rendering.BoolText(m.completed.value) else "null"),
      Rendering.Field("exit_code", Rendering.OptionalIntText(m.exitCode))])
  }

  /** A message's measured size is that of its JSON text. */
  lemma MessageSize(m: Message)
    ensures TextBytes(MessageText(m)) == MessageBytes(m)
  {
    hide TextBytes;
    hide Sum;
    hide Rendering.FieldBytes;
    hide Rendering.Joined;
    hide Rendering.Texts;
    hide Rendering.IdText;
    hide Rendering.StringText;
    hide Rendering.Plain;
    hide Rendering.ObjectText;
    hide StringBytes;
    Rendering.PlainNames();
    Rendering.NoFields();
    Rendering.IdSize(m.id);
    Rendering.RoleSize(m.role);
    Rendering.StringSize(m.text);
    Rendering.OptionalIdSize(m.callId);
    Rendering.OptionalIntSize(m.exitCode);
    var completed := if m.completed.Some? then Rendering.BoolText(m.completed.value) else "null";
    CompletedSize(m.completed);
    var f6 := [Rendering.Field("exit_code", Rendering.OptionalIntText(m.exitCode))] + [];
    Rendering.OneField("exit_code", Rendering.OptionalIntText(m.exitCode), []);
    var f5 := [Rendering.Field("completed", completed)] + f6;
    Rendering.OneField("completed", completed, f6);
    var f4 := [Rendering.Field("call_id", Rendering.OptionalIdText(m.callId))] + f5;
    Rendering.OneField("call_id", Rendering.OptionalIdText(m.callId), f5);
    var f3 := [Rendering.Field("text", Rendering.StringText(m.text))] + f4;
    Rendering.OneField("text", Rendering.StringText(m.text), f4);
    var f2 := [Rendering.Field("role", Rendering.RoleText(m.role))] + f3;
    Rendering.OneField("role", Rendering.RoleText(m.role), f3);
    var f1 := [Rendering.Field("id", Rendering.IdText(m.id))] + f2;
    Rendering.OneField("id", Rendering.IdText(m.id), f2);
    assert MessageText(m) == Rendering.ObjectText(f1) by {
      assert f1 == [
        Rendering.Field("id", Rendering.IdText(m.id)), Rendering.Field("role", Rendering.RoleText(m.role)),
        Rendering.Field("text", Rendering.StringText(m.text)),
        Rendering.Field("call_id", Rendering.OptionalIdText(m.callId)), Rendering.Field("completed", completed),
        Rendering.Field("exit_code", Rendering.OptionalIntText(m.exitCode))];
    }
    Rendering.ObjectSize(f1);
  }

  lemma CompletedSize(completed: Option<bool>)
    ensures TextBytes(if completed.Some? then Rendering.BoolText(completed.value) else "null")
      == if completed.Some? then BoolBytes(completed.value) else 4
  {
    if completed.Some? {
      Rendering.BoolSize(completed.value);
    } else {
      OneByteEach("null");
    }
  }

  /** A conversation is measured by the JSON text of its messages. */
  lemma ConversationSize(messages: seq<Message>)
    ensures TextBytes(Rendering.ArrayText(messages, MessageText)) == ArrayBytes(messages, MessageBytes)
  {
    hide *;
    forall m: Message
      ensures TextBytes(MessageText(m)) == MessageBytes(m)
    {
      MessageSize(m);
    }
    Rendering.ArraySize(messages, MessageText, MessageBytes);
  }

  predicate MessageNamed(m: Message) {
    !Blank(m.id.text) && TextBytes(m.id.text) <= 500 && !Blank(m.text)
  }

  /** Only tool messages carry call metadata, and they always name their call. */
  predicate MetadataFits(m: Message) {
    if m.role.Tool? then m.callId.Some? && m.callId.value.text != ""
    else m.callId.None? && m.completed.None? && m.exitCode.None?
  }

  ghost predicate ConversationOk(messages: seq<Message>) {
    && 1 <= |messages| <= 256
    && ArrayBytes(messages, MessageBytes) <= MAX_CONVERSATION_BYTES
    && Distinct(MessageIds(messages))
    && forall i :: 0 <= i < |messages| ==> MessageNamed(messages[i]) && MetadataFits(messages[i])
  }

  method ValidateConversation(messages: seq<Message>) returns (e: Option<DraftError>)
    ensures e.None? <==> ConversationOk(messages)
    ensures e.Some? ==> !e.value.Rejected?
  {
    hide MessageBytes;
    hide Blank;
    hide TextBytes;
    if messages == [] || |messages| > 256 {
      return Some(MessageCount);
    }
    if ArrayBytes(messages, MessageBytes) > 20_000 {
      return Some(ConversationTooLong);
    }
    var ids: set<Id> := {};
    for i := 0 to |messages|
      invariant ids == Elements(MessageIds(messages)[..i]) && Distinct(MessageIds(messages)[..i])
      invariant forall k :: 0 <= k < i ==> MessageNamed(messages[k]) && MetadataFits(messages[k])
    {
      var m := messages[i];
      assert MessageIds(messages)[..i + 1] == MessageIds(messages)[..i] + [m.id];
      if Blank(m.id.text) || TextBytes(m.id.text) > 500 || Blank(m.text) || m.id in ids {
        return Some(InvalidMessage);
      }
      ids := ids + {m.id};
      if m.role.Tool? {
        if m.callId.None? || m.callId.value.text == "" {
          return Some(ToolWithoutCall);
        }
      } else if m.callId.Some? || m.completed.Some? || m.exitCode.Some? {
        return Some(UnexpectedOutcome);
      }
    }
    assert MessageIds(messages)[..|messages|] == MessageIds(messages);
    return None;
  }

  // ---- The candidates ----

  function CandidateIds(candidates: seq<Candidate>): (ids: seq<Id>)
    ensures |ids| == |candidates| && forall i :: 0 <= i < |candidates| ==> ids[i] == candidates[i].id
  {
    seq(|candidates|, i requires 0 <= i < |candidates| => candidates[i].id)
  }

  predicate Confident(c: Confidence) {
    c.Finite? && MIN_EXTRACTION_CONFIDENCE <= c.value <= 1.0
  }

  predicate CandidateNamed(c: Candidate) {
    !Blank(c.id.text) && TextBytes(c.id.text) <= 120 && Confident(c.confidence)
  }

  /** The message a candidate quotes. */
  function MessageOf(messages: seq<Message>, c: Candidate): (m: Message)
    requires c.sourceMessageId in MessageIds(messages)
    ensures m in messages && m.id == c.sourceMessageId
  {
    messages[Position(MessageIds(messages), c.sourceMessageId)]
  }

  predicate Quoted(messages: seq<Message>, c: Candidate) {
    && c.sourceMessageId in MessageIds(messages)
    && !Blank(c.quote) && Occurs(c.quote, MessageOf(messages, c).text)
  }

  /** The corrected candidate exists and quotes an earlier message. */
  predicate CorrectsBack(messages: seq<Message>, candidates: seq<Candidate>, c: Candidate, prior: Id)
    requires c.sourceMessageId in MessageIds(messages)
  {
    && prior in CandidateIds(candidates)
    && var target := candidates[Position(CandidateIds(candidates), prior)];
    && target.sourceMessageId in MessageIds(messages)
    && Position(MessageIds(messages), target.sourceMessageId) < Position(MessageIds(messages), c.sourceMessageId)
  }

  predicate CandidateOk(messages: seq<Message>, candidates: seq<Candidate>, c: Candidate) {
    && CandidateNamed(c) && Quoted(messages, c)
    && forall prior :: prior in c.corrects ==> CorrectsBack(messages, candidates, c, prior)
  }

  ghost predicate CandidatesOk(messages: seq<Message>, candidates: seq<Candidate>) {
    && 6 <= |candidates| <= 64
    && Distinct(CandidateIds(candidates))
    && forall i :: 0 <= i < |candidates| ==> CandidateOk(messages, candidates, candidates[i])
  }

  method ValidateCandidates(messages: seq<Message>, candidates: seq<Candidate>) returns (e: Option<DraftError>)
    ensures e.None? <==> CandidatesOk(messages, candidates)
    ensures e.Some? ==> !e.value.Rejected?
  {
    hide Occurs;
    hide Blank;
    hide TextBytes;
    if |candidates| < 6 || |candidates| > 64 {
      return Some(CandidateCount);
    }
    var ids: set<Id> := {};
    for i := 0 to |candidates|
      invariant ids == Elements(CandidateIds(candidates)[..i]) && Distinct(CandidateIds(candidates)[..i])
      invariant forall k :: 0 <= k < i ==> CandidateOk(messages, candidates, candidates[k])
    {
      var c := candidates[i];
      assert CandidateIds(candidates)[..i + 1] == CandidateIds(candidates)[..i] + [c.id];
      if Blank(c.id.text) || TextBytes(c.id.text) > 120 || c.id in ids
        || c.confidence.NotFinite? || c.confidence.value < 0.75 || c.confidence.value > 1.0
      {
        return Some(InvalidCandidate);
      }
      ids := ids + {c.id};
      if c.sourceMessageId !in MessageIds(messages) {
        return Some(UnknownMessage);
      }
      if Blank(c.quote) || !Occurs(c.quote, MessageOf(messages, c).text) {
        return Some(QuoteMismatch);
      }
      var bad := CorrectionError(messages, candidates, c);
      if bad.Some? {
        return bad;
      }
    }
    assert CandidateIds(candidates)[..|candidates|] == CandidateIds(candidates);
    return None;
  }

  method CorrectionError(messages: seq<Message>, candidates: seq<Candidate>, c: Candidate)
    returns (e: Option<DraftError>)
    requires c.sourceMessageId in MessageIds(messages)
    ensures e.None? <==> forall prior :: prior in c.corrects ==> CorrectsBack(messages, candidates, c, prior)
    ensures e.Some? ==> !e.value.Rejected?
  {
    var at := Position(MessageIds(messages), c.sourceMessageId);
    for j := 0 to |c.corrects|
      invariant forall k :: 0 <= k < j ==> CorrectsBack(messages, candidates, c, c.corrects[k])
    {
      if c.corrects[j] !in CandidateIds(candidates) {
        assert !CorrectsBack(messages, candidates, c, c.corrects[j]);
        return Some(CorrectionTargetMissing);
      }
      var target := candidates[Position(CandidateIds(candidates), c.corrects[j])];
      if target.sourceMessageId !in MessageIds(messages) {
        assert !CorrectsBack(messages, candidates, c, c.corrects[j]);
        return Some(UnknownMessage);
      }
      if Position(MessageIds(messages), target.sourceMessageId) >= at {
        assert !CorrectsBack(messages, candidates, c, c.corrects[j]);
        return Some(CorrectionNotEarlier);
      }
    }
    return None;
  }

  // ---- The stable sort by message position ----

  predicate AllQuoted(messages: seq<Message>, candidates: seq<Candidate>) {
    forall c :: c in candidates ==> c.sourceMessageId in MessageIds(messages)
  }

  function Key(messages: seq<Message>, c: Candidate): nat
    requires c.sourceMessageId in MessageIds(messages)
  {
    Position(MessageIds(messages), c.sourceMessageId)
  }

  function Insert(messages: seq<Message>, c: Candidate, sorted: seq<Candidate>): (r: seq<Candidate>)
    requires c.sourceMessageId in MessageIds(messages) && AllQuoted(messages, sorted)
    ensures multiset(r) == multiset(sorted) + multiset{c}
    ensures AllQuoted(messages, r)
  {
    if sorted == [] || Key(messages, c) <= Key(messages, sorted[0]) then [c] + sorted
    else
      var r := [sorted[0]] + Insert(messages, c, sorted[1..]);
      assert sorted == [sorted[0]] + sorted[1..];
      assert forall x :: x in r ==> x in multiset(r);
      assert forall x :: x in multiset(r) ==> x in sorted || x == c;
      r
  }

  function Sorted(messages: seq<Message>, candidates: seq<Candidate>): (r: seq<Candidate>)
    requires AllQuoted(messages, candidates)
    ensures multiset(r) == multiset(candidates)
    ensures AllQuoted(messages, r)
  {
    if candidates == [] then []
    else
      assert candidates == [candidates[0]] + candidates[1..];
      Insert(messages, candidates[0], Sorted(messages, candidates[1..]))
  }

  ghost predicate InKeyOrder(messages: seq<Message>, candidates: seq<Candidate>)
    requires AllQuoted(messages, candidates)
  {
    forall i, j :: 0 <= i < j < |candidates| ==> Key(messages, candidates[i]) <= Key(messages, candidates[j])
  }

  lemma {:induction false} InsertKeepsOrder(messages: seq<Message>, c: Candidate, sorted: seq<Candidate>)
    requires c.sourceMessageId in MessageIds(messages) && AllQuoted(messages, sorted) && InKeyOrder(messages, sorted)
    ensures InKeyOrder(messages, Insert(messages, c, sorted))
  {
    hide Position;
    if sorted != [] && Key(messages, c) > Key(messages, sorted[0]) {
      var rest := Insert(messages, c, sorted[1..]);
      InsertKeepsOrder(messages, c, sorted[1..]);
      InsertMembers(messages, c, sorted[1..]);
      ConsKeepsOrder(messages, sorted[0], rest);
    }
  }

  lemma ConsKeepsOrder(messages: seq<Message>, first: Candidate, rest: seq<Candidate>)
    requires first.sourceMessageId in MessageIds(messages) && AllQuoted(messages, rest) && InKeyOrder(messages, rest)
    requires forall c :: c in rest ==> Key(messages, first) <= Key(messages, c)
    ensures InKeyOrder(messages, [first] + rest)
  {
    hide Position;
  }

  lemma {:induction false} InsertMembers(messages: seq<Message>, c: Candidate, sorted: seq<Candidate>)
    requires c.sourceMessageId in MessageIds(messages) && AllQuoted(messages, sorted)
    ensures forall x :: x in Insert(messages, c, sorted) <==> x in sorted || x == c
  {
    hide Insert;
    var r := Insert(messages, c, sorted);
    assert forall x :: x in r <==> x in multiset(r);
  }

  lemma {:induction false} SortedIsInOrder(messages: seq<Message>, candidates: seq<Candidate>)
    requires AllQuoted(messages, candidates)
    ensures InKeyOrder(messages, Sorted(messages, candidates))
  {
    if candidates != [] {
      SortedIsInOrder(messages, candidates[1..]);
      InsertKeepsOrder(messages, candidates[0], Sorted(messages, candidates[1..]));
    }
  }

  function Quotes(messages: seq<Message>, at: nat): Candidate -> bool {
    (c: Candidate) => c.sourceMessageId in MessageIds(messages) && Key(messages, c) == at
  }

  lemma {:induction false} InsertIsStable(messages: seq<Message>, c: Candidate, sorted: seq<Candidate>, at: nat)
    requires c.sourceMessageId in MessageIds(messages) && AllQuoted(messages, sorted) && InKeyOrder(messages, sorted)
    ensures Filter(Insert(messages, c, sorted), Quotes(messages, at)) == Filter([c] + sorted, Quotes(messages, at))
  {
    assert ([c] + sorted)[1..] == sorted;
    if sorted != [] && Key(messages, c) > Key(messages, sorted[0]) {
      var rest := Insert(messages, c, sorted[1..]);
      InsertIsStable(messages, c, sorted[1..], at);
      assert ([c] + sorted[1..])[1..] == sorted[1..];
      assert ([sorted[0]] + rest)[1..] == rest;
    }
  }

  /** Candidates that quote the same message keep their order. */
  lemma {:induction false} SortIsStable(messages: seq<Message>, candidates: seq<Candidate>, at: nat)
    requires AllQuoted(messages, candidates)
    ensures Filter(Sorted(messages, candidates), Quotes(messages, at)) == Filter(candidates, Quotes(messages, at))
  {
    if candidates != [] {
      var rest := Sorted(messages, candidates[1..]);
      SortIsStable(messages, candidates[1..], at);
      SortedIsInOrder(messages, candidates[1..]);
      InsertIsStable(messages, candidates[0], rest, at);
      assert ([candidates[0]] + rest)[1..] == rest;
    }
  }

  // ---- Building the handoff ----

  function EvidenceId(c: Candidate): Id {
    Id("evidence:" + c.id.text)
  }

  function SourceFor(messages: seq<Message>, c: Candidate): Source
    requires c.sourceMessageId in MessageIds(messages)
  {
    var m := MessageOf(messages, c);
    Source(EvidenceId(c), m.role, "message:" + m.id.text, c.quote, m.callId)
  }

  function SectionNamed(name: string): Option<Section> {
    if name == "purpose" then Some(Purpose)
    else if name == "constraints" then Some(Constraints)
    else if name == "decisions" then Some(Decisions)
    else if name == "current_state" then Some(CurrentState)
    else if name == "unresolved" then Some(Unresolved)
    else if name == "completion" then Some(Completion)
    else if name == "background" then Some(Background)
    else None
  }

  predicate Succeeded(m: Message) {
    m.role.Tool? && m.completed == Some(true) && m.exitCode == Some(0)
  }

  function GroupFor(messages: seq<Message>, c: Candidate): Group
    requires c.sourceMessageId in MessageIds(messages) && SectionNamed(c.section).Some?
  {
    Group(c.id, SectionNamed(c.section).value, [EvidenceId(c)], c.dependsOn, c.corrects,
          Succeeded(MessageOf(messages, c)))
  }

  function OutcomeFor(m: Message): CallOutcome
    requires m.callId.Some?
  {
    CallOutcome(m.callId.value, m.completed == Some(true), m.exitCode)
  }

  /** Outcomes are kept by call id, in the order of the ids' text. */
  function TextBefore(a: string, b: string): bool {
    if b == "" then false else if a == "" then true
    else a[0] < b[0] || (a[0] == b[0] && TextBefore(a[1..], b[1..]))
  }

  /** The order of texts is that of a dictionary: at the first difference, or the shorter one first. */
  lemma {:induction false} TextBeforeIff(a: string, b: string)
    ensures TextBefore(a, b) <==> exists i :: 0 <= i <= |a| && i < |b| && FirstDifference(a, b, i)
  {
    if a != "" && b != "" && a[0] == b[0] {
      TextBeforeIff(a[1..], b[1..]);
      forall i | 0 <= i < |a| && i + 1 < |b|
        ensures FirstDifference(a[1..], b[1..], i) <==> FirstDifference(a, b, i + 1)
      {
        assert a[..i + 1] == [a[0]] + a[1..][..i] && b[..i + 1] == [b[0]] + b[1..][..i];
      }
      if i :| 0 <= i <= |a| && i < |b| && FirstDifference(a, b, i) {
        assert i > 0;
        assert FirstDifference(a[1..], b[1..], i - 1);
      }
      if i :| 0 <= i <= |a[1..]| && i < |b[1..]| && FirstDifference(a[1..], b[1..], i) {
        assert FirstDifference(a, b, i + 1);
      }
    } else {
      assert b != "" ==> (FirstDifference(a, b, 0) <==> a == "" || a[0] < b[0]);
      forall i | 0 < i <= |a| && i < |b|
        ensures !FirstDifference(a, b, i)
      {
        assert a[..i][0] == a[0] && b[..i][0] == b[0];
      }
    }
  }

  predicate FirstDifference(a: string, b: string, i: nat)
    requires i <= |a| && i < |b|
  {
    a[..i] == b[..i] && (i == |a| || a[i] < b[i])
  }

  lemma {:induction false} TextOrder(a: string, b: string)
    ensures TextBefore(a, b) ==> a != b && !TextBefore(b, a)
    ensures a == b || TextBefore(a, b) || TextBefore(b, a)
  {
    if a != "" && b != "" && a[0] == b[0] {
      TextOrder(a[1..], b[1..]);
      assert a == [a[0]] + a[1..] && b == [b[0]] + b[1..];
    }
  }

  lemma {:induction false} TextTransitive(a: string, b: string, c: string)
    requires TextBefore(a, b) && TextBefore(b, c)
    ensures TextBefore(a, c)
  {
    if a != "" && a[0] == b[0] == c[0] {
      TextTransitive(a[1..], b[1..], c[1..]);
    }
  }

  predicate CallBefore(a: CallOutcome, b: CallOutcome) {
    TextBefore(a.callId.text, b.callId.text)
  }

  ghost predicate CallsInOrder(outcomes: seq<CallOutcome>) {
    forall i, j :: 0 <= i < j < |outcomes| ==> CallBefore(outcomes[i], outcomes[j])
  }

  lemma {:induction false} InsertCallInOrder(outcomes: seq<CallOutcome>, o: CallOutcome)
    requires CallsInOrder(outcomes) && o.callId !in CallIds(outcomes)
    ensures CallsInOrder(InsertCall(outcomes, o))
  {
    hide TextBefore;
    if outcomes != [] {
      assert CallIds(outcomes) == [outcomes[0].callId] + CallIds(outcomes[1..]);
      TextOrder(o.callId.text, outcomes[0].callId.text);
      if TextBefore(o.callId.text, outcomes[0].callId.text) {
        forall j | 1 <= j < |outcomes|
          ensures CallBefore(o, outcomes[j])
        {
          assert CallBefore(outcomes[0], outcomes[j]);
          TextTransitive(o.callId.text, outcomes[0].callId.text, outcomes[j].callId.text);
        }
      } else {
        InsertCallInOrder(outcomes[1..], o);
        InsertCallHolds(outcomes[1..], o);
        FirstComesFirst(outcomes[0], outcomes[1..], o);
      }
    }
  }

  lemma FirstComesFirst(first: CallOutcome, rest: seq<CallOutcome>, o: CallOutcome)
    requires CallBefore(first, o) && forall x :: x in rest ==> CallBefore(first, x)
    ensures forall x :: x in InsertCall(rest, o) ==> CallBefore(first, x)
  {
    hide CallBefore;
    InsertCallHolds(rest, o);
  }

  /** Only one list in this order has given members. */
  lemma {:induction false} CallOrderIsUnique(a: seq<CallOutcome>, b: seq<CallOutcome>)
    requires CallsInOrder(a) && CallsInOrder(b) && forall o :: o in a <==> o in b
    ensures a == b
  {
    EmptyTogether(a, b);
    if a != [] {
      hide TextBefore;
      FirstIsFirst(a, b);
      assert a == [a[0]] + a[1..] && b == [b[0]] + b[1..];
      FirstIsOnce(a);
      FirstIsOnce(b);
      assert forall o :: o in a[1..] <==> o in a && o != a[0];
      assert forall o :: o in b[1..] <==> o in b && o != b[0];
      CallOrderIsUnique(a[1..], b[1..]);
    }
  }

  lemma EmptyTogether(a: seq<CallOutcome>, b: seq<CallOutcome>)
    requires forall o :: o in a <==> o in b
    ensures a == [] <==> b == []
  {
    if a != [] {
      assert a[0] in b;
    }
    if b != [] {
      assert b[0] in a;
    }
  }

  lemma FirstIsOnce(a: seq<CallOutcome>)
    requires CallsInOrder(a) && a != []
    ensures a[0] !in a[1..]
  {
    hide TextBefore;
    if a[0] in a[1..] {
      var j :| 1 <= j < |a| && a[j] == a[0];
      assert CallBefore(a[0], a[j]);
      TextOrder(a[0].callId.text, a[0].callId.text);
    }
  }

  lemma FirstIsFirst(a: seq<CallOutcome>, b: seq<CallOutcome>)
    requires CallsInOrder(a) && CallsInOrder(b) && (forall o :: o in a <==> o in b) && a != [] && b != []
    ensures a[0] == b[0]
  {
    hide TextBefore;
    if a[0] != b[0] {
      assert a[0] in b && b[0] in a;
      var i :| 0 <= i < |b| && b[i] == a[0];
      var j :| 0 <= j < |a| && a[j] == b[0];
      assert CallBefore(b[0], a[0]) && CallBefore(a[0], b[0]);
      TextOrder(a[0].callId.text, b[0].callId.text);
    }
  }

  function FindCall(outcomes: seq<CallOutcome>, callId: Id): (r: Option<CallOutcome>)
    ensures r.Some? ==> r.value in outcomes && r.value.callId == callId
    ensures r.None? <==> callId !in CallIds(outcomes)
  {
    if outcomes == [] then None
    else if outcomes[0].callId == callId then Some(outcomes[0])
    else
      assert CallIds(outcomes) == [outcomes[0].callId] + CallIds(outcomes[1..]);
      FindCall(outcomes[1..], callId)
  }

  function InsertCall(outcomes: seq<CallOutcome>, o: CallOutcome): seq<CallOutcome> {
    if outcomes == [] || TextBefore(o.callId.text, outcomes[0].callId.text) then [o] + outcomes
    else [outcomes[0]] + InsertCall(outcomes[1..], o)
  }

  lemma {:induction false} InsertCallHolds(outcomes: seq<CallOutcome>, o: CallOutcome)
    ensures forall x :: x in InsertCall(outcomes, o) <==> x in outcomes || x == o
    ensures forall id :: id in CallIds(InsertCall(outcomes, o)) <==> id in CallIds(outcomes) || id == o.callId
    ensures o.callId !in CallIds(outcomes) && Distinct(CallIds(outcomes)) ==> Distinct(CallIds(InsertCall(outcomes, o)))
  {
    hide TextBefore;
    if outcomes == [] || TextBefore(o.callId.text, outcomes[0].callId.text) {
      assert CallIds([o] + outcomes) == [o.callId] + CallIds(outcomes);
    } else {
      InsertCallHolds(outcomes[1..], o);
      var rest := InsertCall(outcomes[1..], o);
      assert CallIds(outcomes) == [outcomes[0].callId] + CallIds(outcomes[1..]);
      assert CallIds([outcomes[0]] + rest) == [outcomes[0].callId] + CallIds(rest);
      DistinctTail(CallIds(outcomes));
      DistinctCons(outcomes[0].callId, CallIds(rest));
    }
  }

  lemma DistinctTail(ids: seq<Id>)
    requires ids != []
    ensures Distinct(ids) ==> Distinct(ids[1..]) && ids[0] !in ids[1..]
  {
  }

  lemma DistinctCons(id: Id, ids: seq<Id>)
    ensures Distinct(ids) && id !in ids ==> Distinct([id] + ids)
  {
  }

  /** `h` lists, in the order of the sorted candidates, one source and one group for each. */
  ghost predicate FromOrdered(messages: seq<Message>, ordered: seq<Candidate>, h: Handoff) {
    && AllQuoted(messages, ordered)
    && |h.sources| == |ordered| && |h.groups| == |ordered|
    && Distinct(CallIds(h.outcomes))
    && forall i :: 0 <= i < |ordered| ==>
      && SectionNamed(ordered[i].section).Some?
      && h.sources[i] == SourceFor(messages, ordered[i])
      && h.groups[i] == GroupFor(messages, ordered[i])
      && (MessageOf(messages, ordered[i]).callId.Some? ==> OutcomeFor(MessageOf(messages, ordered[i])) in h.outcomes)
  }

  /** A candidate quotes a message with this call outcome. */
  ghost predicate Cites(messages: seq<Message>, ordered: seq<Candidate>, o: CallOutcome)
    requires AllQuoted(messages, ordered)
  {
    exists i :: 0 <= i < |ordered| && CitesAt(messages, ordered[i], o)
  }

  ghost predicate CitesAt(messages: seq<Message>, c: Candidate, o: CallOutcome)
    requires c.sourceMessageId in MessageIds(messages)
  {
    MessageOf(messages, c).callId.Some? && OutcomeFor(MessageOf(messages, c)) == o
  }

  /** Messages about one call report one outcome. */
  ghost predicate Agreeing(messages: seq<Message>, ordered: seq<Candidate>)
    requires AllQuoted(messages, ordered)
  {
    forall a, b :: Cites(messages, ordered, a) && Cites(messages, ordered, b) && a.callId == b.callId ==> a == b
  }

  ghost predicate SectionsKnown(ordered: seq<Candidate>) {
    forall i :: 0 <= i < |ordered| ==> SectionNamed(ordered[i].section).Some?
  }

  /** The outcomes are those the candidates cite and no others. */
  ghost predicate OutcomesFrom(messages: seq<Message>, ordered: seq<Candidate>, outcomes: seq<CallOutcome>)
    requires AllQuoted(messages, ordered)
  {
    forall o :: o in outcomes <==> Cites(messages, ordered, o)
  }

  lemma CitesAppend(messages: seq<Message>, ordered: seq<Candidate>, c: Candidate, o: CallOutcome)
    requires AllQuoted(messages, ordered) && c.sourceMessageId in MessageIds(messages)
    ensures AllQuoted(messages, ordered + [c])
    ensures Cites(messages, ordered + [c], o) <==> Cites(messages, ordered, o) || CitesAt(messages, c, o)
  {
    hide CitesAt;
    var all := ordered + [c];
    assert all[|ordered|] == c;
    if Cites(messages, ordered, o) {
      var i :| 0 <= i < |ordered| && CitesAt(messages, ordered[i], o);
      assert all[i] == ordered[i];
    }
  }

  lemma OutcomesAgree(messages: seq<Message>, ordered: seq<Candidate>, outcomes: seq<CallOutcome>)
    requires AllQuoted(messages, ordered) && OutcomesFrom(messages, ordered, outcomes) && Distinct(CallIds(outcomes))
    ensures Agreeing(messages, ordered)
  {
    hide Cites;
    forall a, b | a in outcomes && b in outcomes && a.callId == b.callId
      ensures a == b
    {
      var i :| 0 <= i < |outcomes| && outcomes[i] == a;
      var j :| 0 <= j < |outcomes| && outcomes[j] == b;
      assert CallIds(outcomes)[i] == CallIds(outcomes)[j];
    }
  }

  /** The next candidate cites another outcome for a call already cited. */
  lemma Disagreement(messages: seq<Message>, ordered: seq<Candidate>, i: nat, existing: CallOutcome)
    requires AllQuoted(messages, ordered) && i < |ordered|
    requires AllQuoted(messages, ordered[..i]) && Cites(messages, ordered[..i], existing)
    requires MessageOf(messages, ordered[i]).callId == Some(existing.callId)
    requires OutcomeFor(MessageOf(messages, ordered[i])) != existing
    ensures !Agreeing(messages, ordered)
  {
    var other := OutcomeFor(MessageOf(messages, ordered[i]));
    assert CitesAt(messages, ordered[i], other);
    hide CitesAt;
    var k :| 0 <= k < i && CitesAt(messages, ordered[..i][k], existing);
    assert ordered[..i][k] == ordered[k];
    assert Cites(messages, ordered, existing) && Cites(messages, ordered, other);
  }

  lemma OutcomesGrow(
    messages: seq<Message>, ordered: seq<Candidate>, c: Candidate, was: seq<CallOutcome>, outcomes: seq<CallOutcome>)
    requires AllQuoted(messages, ordered) && OutcomesFrom(messages, ordered, was)
    requires c.sourceMessageId in MessageIds(messages)
    requires forall o :: o in outcomes <==> o in was || CitesAt(messages, c, o)
    ensures AllQuoted(messages, ordered + [c]) && OutcomesFrom(messages, ordered + [c], outcomes)
  {
    hide CitesAt;
    hide Cites;
    forall o
      ensures AllQuoted(messages, ordered + [c])
      ensures o in outcomes <==> Cites(messages, ordered + [c], o)
    {
      CitesAppend(messages, ordered, c, o);
    }
  }

  /** The outcome of the next candidate joins the others, unless it contradicts one. */
  method AddOutcome(messages: seq<Message>, ghost ordered: seq<Candidate>, c: Candidate, outcomes: seq<CallOutcome>)
    returns (r: Option<seq<CallOutcome>>, ghost existing: CallOutcome)
    requires AllQuoted(messages, ordered) && OutcomesFrom(messages, ordered, outcomes)
    requires c.sourceMessageId in MessageIds(messages) && Distinct(CallIds(outcomes)) && CallsInOrder(outcomes)
    ensures r.Some? ==> CallsInOrder(r.value)
    ensures r.Some? ==> AllQuoted(messages, ordered + [c]) && OutcomesFrom(messages, ordered + [c], r.value)
    ensures r.Some? ==> Distinct(CallIds(r.value)) && forall o :: o in outcomes ==> o in r.value
    ensures r.Some? && MessageOf(messages, c).callId.Some? ==> OutcomeFor(MessageOf(messages, c)) in r.value
    ensures r.None? ==>
      && Cites(messages, ordered, existing) && MessageOf(messages, c).callId == Some(existing.callId)
      && OutcomeFor(MessageOf(messages, c)) != existing
  {
    hide Cites;
    hide Distinct;
    hide MessageOf;
    hide CallBefore;
    hide TextBefore;
    existing := CallOutcome(c.id, false, None);
    var m := MessageOf(messages, c);
    var now := outcomes;
    if m.callId.Some? {
      var outcome := OutcomeFor(m);
      var found := FindCall(outcomes, m.callId.value);
      if found.Some? {
        existing := found.value;
        if found.value.completed != outcome.completed || found.value.exitCode != outcome.exitCode {
          return None, existing;
        }
      } else {
        InsertCallHolds(outcomes, outcome);
        InsertCallInOrder(outcomes, outcome);
        now := InsertCall(outcomes, outcome);
      }
    }
    OutcomesGrow(messages, ordered, c, outcomes, now);
    r := Some(now);
  }

  /** One source and one group for each candidate; fails exactly when a section is unknown or two
      messages disagree about a call. */
  method Build(messages: seq<Message>, ordered: seq<Candidate>, maxBytes: nat) returns (r: Result<Handoff, DraftError>)
    requires AllQuoted(messages, ordered)
    ensures r.Ok? <==> SectionsKnown(ordered) && Agreeing(messages, ordered)
    ensures r.Err? ==> r.error == ConflictingOutcomes || r.error == UnknownSection
    ensures r.Ok? ==> FromOrdered(messages, ordered, r.value) && r.value.maxBytes == maxBytes
    ensures r.Ok? ==> OutcomesFrom(messages, ordered, r.value.outcomes) && CallsInOrder(r.value.outcomes)
  {
    hide Position;
    hide SectionNamed;
    hide Agreeing;
    hide Cites;
    hide Distinct;
    hide CallsInOrder;
    var outcomes: seq<CallOutcome> := [];
    var sources: seq<Source> := [];
    var groups: seq<Group> := [];
    NothingCited(messages, maxBytes);
    for i := 0 to |ordered|
      invariant FromOrdered(messages, ordered[..i], Handoff(sources, groups, outcomes, maxBytes))
      invariant OutcomesFrom(messages, ordered[..i], outcomes) && CallsInOrder(outcomes)
    {
      var c := ordered[i];
      ghost var was := outcomes;
      var added, existing := AddOutcome(messages, ordered[..i], c, outcomes);
      if added.None? {
        Disagreement(messages, ordered, i, existing);
        return Err(ConflictingOutcomes);
      }
      outcomes := added.value;
      if SectionNamed(c.section).None? {
        return Err(UnknownSection);
      }
      sources := sources + [SourceFor(messages, c)];
      groups := groups + [GroupFor(messages, c)];
      assert ordered[..i + 1] == ordered[..i] + [c];
      OrderedGrows(messages, ordered[..i], c, Handoff(sources[..i], groups[..i], was, maxBytes),
                   Handoff(sources, groups, outcomes, maxBytes));
    }
    assert ordered[..|ordered|] == ordered;
    OutcomesAgree(messages, ordered, outcomes);
    r := Ok(Handoff(sources, groups, outcomes, maxBytes));
  }

  lemma NothingCited(messages: seq<Message>, maxBytes: nat)
    ensures FromOrdered(messages, [], Handoff([], [], [], maxBytes))
    ensures OutcomesFrom(messages, [], []) && CallsInOrder([])
  {
  }

  lemma OrderedGrows(messages: seq<Message>, ordered: seq<Candidate>, c: Candidate, h: Handoff, h': Handoff)
    requires FromOrdered(messages, ordered, h)
    requires c.sourceMessageId in MessageIds(messages) && SectionNamed(c.section).Some?
    requires h'.sources == h.sources + [SourceFor(messages, c)] && h'.groups == h.groups + [GroupFor(messages, c)]
    requires Distinct(CallIds(h'.outcomes)) && forall o :: o in h.outcomes ==> o in h'.outcomes
    requires MessageOf(messages, c).callId.Some? ==> OutcomeFor(MessageOf(messages, c)) in h'.outcomes
    ensures FromOrdered(messages, ordered + [c], h')
  {
    hide Position;
    hide Distinct;
  }

  // ---- The sort keeps the candidates ----

  lemma CandidateIdsCons(c: Candidate, rest: seq<Candidate>)
    ensures CandidateIds([c] + rest) == [c.id] + CandidateIds(rest)
    ensures Distinct(CandidateIds([c] + rest)) <==> Distinct(CandidateIds(rest)) && c.id !in CandidateIds(rest)
    ensures forall id :: id in CandidateIds([c] + rest) <==> id == c.id || id in CandidateIds(rest)
  {
    hide Distinct;
    assert CandidateIds([c] + rest) == [c.id] + CandidateIds(rest);
    assert ([c.id] + CandidateIds(rest))[1..] == CandidateIds(rest);
    DistinctTail([c.id] + CandidateIds(rest));
    DistinctCons(c.id, CandidateIds(rest));
  }

  lemma {:induction false} InsertIds(messages: seq<Message>, c: Candidate, sorted: seq<Candidate>)
    requires c.sourceMessageId in MessageIds(messages) && AllQuoted(messages, sorted)
    ensures forall id :: id in CandidateIds(Insert(messages, c, sorted)) <==> id in CandidateIds(sorted) || id == c.id
    ensures c.id !in CandidateIds(sorted) && Distinct(CandidateIds(sorted)) ==>
      Distinct(CandidateIds(Insert(messages, c, sorted)))
  {
    hide Key;
    hide Distinct;
    hide CandidateIds;
    if sorted == [] || Key(messages, c) <= Key(messages, sorted[0]) {
      CandidateIdsCons(c, sorted);
    } else {
      var tail := sorted[1..];
      InsertIds(messages, c, tail);
      assert sorted == [sorted[0]] + tail;
      CandidateIdsCons(sorted[0], tail);
      CandidateIdsCons(sorted[0], Insert(messages, c, tail));
    }
  }

  lemma {:induction false} SortedIds(messages: seq<Message>, candidates: seq<Candidate>)
    requires AllQuoted(messages, candidates)
    ensures forall id :: id in CandidateIds(Sorted(messages, candidates)) <==> id in CandidateIds(candidates)
    ensures Distinct(CandidateIds(candidates)) ==> Distinct(CandidateIds(Sorted(messages, candidates)))
  {
    hide Distinct;
    hide Insert;
    hide CandidateIds;
    if candidates != [] {
      var tail := candidates[1..];
      SortedIds(messages, tail);
      InsertIds(messages, candidates[0], Sorted(messages, tail));
      assert candidates == [candidates[0]] + tail;
      CandidateIdsCons(candidates[0], tail);
    }
  }

  lemma SortedHolds(messages: seq<Message>, candidates: seq<Candidate>)
    requires AllQuoted(messages, candidates)
    ensures forall x :: x in Sorted(messages, candidates) <==> x in candidates
    ensures Distinct(CandidateIds(candidates)) ==> Distinct(CandidateIds(Sorted(messages, candidates)))
  {
    hide Sorted;
    var r := Sorted(messages, candidates);
    SortedIds(messages, candidates);
    assert forall x :: x in r <==> x in multiset(r);
  }

  // ---- What the draft checks guarantee ----

  lemma EvidenceIdInjective(a: Candidate, b: Candidate)
    requires EvidenceId(a) == EvidenceId(b)
    ensures a.id == b.id
  {
    assert EvidenceId(a).text[|"evidence:"|..] == a.id.text;
    assert EvidenceId(b).text[|"evidence:"|..] == b.id.text;
  }

  lemma NotBlankPrefix(prefix: string, s: string)
    requires prefix != "" && !IsWhitespace(prefix[0])
    ensures !Blank(prefix + s)
  {
    assert (prefix + s)[0] == prefix[0];
  }

  lemma DraftIds(messages: seq<Message>, ordered: seq<Candidate>, h: Handoff)
    requires FromOrdered(messages, ordered, h) && Distinct(CandidateIds(ordered))
    ensures Distinct(SourceIds(h.sources)) && Distinct(GroupIds(h.groups)) && Distinct(CallIds(h.outcomes))
  {
    hide Position;
    hide SectionNamed;
    assert GroupIds(h.groups) == CandidateIds(ordered);
    forall i, j | 0 <= i < j < |ordered|
      ensures SourceIds(h.sources)[i] != SourceIds(h.sources)[j]
    {
      assert CandidateIds(ordered)[i] != CandidateIds(ordered)[j];
      if EvidenceId(ordered[i]) == EvidenceId(ordered[j]) {
        EvidenceIdInjective(ordered[i], ordered[j]);
      }
    }
  }

  lemma DraftSources(messages: seq<Message>, candidates: seq<Candidate>, ordered: seq<Candidate>, h: Handoff)
    requires FromOrdered(messages, ordered, h)
    requires forall i :: 0 <= i < |ordered| ==> CandidateOk(messages, candidates, ordered[i])
    ensures forall s :: s in h.sources ==> SourceComplete(s)
    ensures forall g :: g in h.groups ==> SourcesResolve(h, g)
    ensures AllGrouped(h)
  {
    hide Position;
    hide SectionNamed;
    hide CorrectsBack;
    hide Occurs;
    forall i | 0 <= i < |ordered|
      ensures SourceComplete(h.sources[i]) && SourcesResolve(h, h.groups[i])
      ensures h.groups[i] in h.groups && h.sources[i].id in h.groups[i].sourceIds
    {
      NotBlankPrefix("evidence:", ordered[i].id.text);
      NotBlankPrefix("message:", MessageOf(messages, ordered[i]).id.text);
      assert SourceIds(h.sources)[i] == EvidenceId(ordered[i]);
    }
  }

  lemma DraftPositions(messages: seq<Message>, ordered: seq<Candidate>, h: Handoff, i: nat)
    requires FromOrdered(messages, ordered, h) && Distinct(CandidateIds(ordered)) && i < |ordered|
    ensures h.groups[i].sourceIds == [EvidenceId(ordered[i])] && h.sources[i].id == EvidenceId(ordered[i])
    ensures EvidenceId(ordered[i]) in SourceIds(h.sources)
    ensures Position(SourceIds(h.sources), EvidenceId(ordered[i])) == i
    ensures SourceOf(h, EvidenceId(ordered[i])) == h.sources[i]
    ensures Earliest(SourceIds(h.sources), h.groups[i].sourceIds) == i
    ensures Latest(SourceIds(h.sources), h.groups[i].sourceIds) == i
    ensures ordered[i].id in GroupIds(h.groups) && GroupOf(h, ordered[i].id) == h.groups[i]
  {
    hide SectionNamed;
    DraftIds(messages, ordered, h);
    assert SourceIds(h.sources)[i] == EvidenceId(ordered[i]);
    assert GroupIds(h.groups)[i] == ordered[i].id;
    PositionInDistinct(SourceIds(h.sources), i);
    PositionInDistinct(GroupIds(h.groups), i);
  }

  lemma DraftCorrections(
    messages: seq<Message>, candidates: seq<Candidate>, h: Handoff, i: nat, j: nat)
    requires CandidatesOk(messages, candidates) && AllQuoted(messages, candidates)
    requires i < |Sorted(messages, candidates)| && j < |Sorted(messages, candidates)|
    requires Sorted(messages, candidates)[j].id in Sorted(messages, candidates)[i].corrects
    ensures j < i
  {
    hide Position;
    hide CandidateNamed;
    hide Occurs;
    hide Insert;
    var ordered := Sorted(messages, candidates);
    SortedHolds(messages, candidates);
    SortedIsInOrder(messages, candidates);
    hide Sorted;
    var c, prior := ordered[i], ordered[j];
    assert c in candidates && prior in candidates;
    assert CandidateOk(messages, candidates, c);
    assert CorrectsBack(messages, candidates, c, prior.id);
    var k :| 0 <= k < |candidates| && candidates[k] == prior;
    assert CandidateIds(candidates)[k] == prior.id;
    PositionInDistinct(CandidateIds(candidates), k);
  }

  lemma DraftOutcomes(messages: seq<Message>, ordered: seq<Candidate>, h: Handoff, i: nat)
    requires ConversationOk(messages) && FromOrdered(messages, ordered, h) && Distinct(CandidateIds(ordered))
    requires i < |ordered| && SourcesResolve(h, h.groups[i])
    ensures OutcomeVerified(h, h.groups[i])
  {
    hide SectionNamed;
    DraftPositions(messages, ordered, h, i);
    var m := MessageOf(messages, ordered[i]);
    assert MetadataFits(m);
    if Succeeded(m) {
      assert OutcomeFor(m) in h.outcomes;
    }
  }

  /** A draft that passed its own checks passes the handoff's checks on ids, sources, grouping, the
      order of corrections and verified outcomes. */
  lemma DraftPasses(messages: seq<Message>, candidates: seq<Candidate>, h: Handoff)
    requires ConversationOk(messages) && CandidatesOk(messages, candidates) && AllQuoted(messages, candidates)
    requires FromOrdered(messages, Sorted(messages, candidates), h)
    ensures AllDistinct(h) && AllGrouped(h)
    ensures forall s :: s in h.sources ==> SourceComplete(s)
    ensures forall g :: g in h.groups ==> SourcesResolve(h, g)
    ensures Resolved(h) ==> forall g :: g in h.groups ==> CorrectsEarlier(h, g) && OutcomeVerified(h, g)
  {
    hide Position;
    hide CandidateOk;
    hide ConversationOk;
    hide SectionNamed;
    hide Insert;
    hide CorrectsEarlier;
    hide OutcomeVerified;
    hide SourceComplete;
    hide AllGrouped;
    var ordered := Sorted(messages, candidates);
    SortedHolds(messages, candidates);
    hide Sorted;
    DraftIds(messages, ordered, h);
    DistinctByCount(h);
    hide AllDistinct;
    DraftSources(messages, candidates, ordered, h);
    if Resolved(h) {
      forall i | 0 <= i < |ordered|
        ensures CorrectsEarlier(h, h.groups[i]) && OutcomeVerified(h, h.groups[i])
      {
        DraftOutcomes(messages, ordered, h, i);
        DraftCorrectsEarlier(messages, candidates, h, i);
      }
    }
  }

  lemma DraftCorrectsEarlier(messages: seq<Message>, candidates: seq<Candidate>, h: Handoff, i: nat)
    requires CandidatesOk(messages, candidates) && AllQuoted(messages, candidates) && Resolved(h)
    requires FromOrdered(messages, Sorted(messages, candidates), h) && i < |h.groups|
    ensures CorrectsEarlier(h, h.groups[i])
  {
    hide CandidatesOk;
    hide FromOrdered;
    hide Earliest;
    hide Latest;
    hide Position;
    var g := h.groups[i];
    assert g in h.groups;
    assert SourcesResolve(h, g) && LinksResolve(h, g);
    forall prior | prior in h.groups[i].corrects
      ensures Earliest(SourceIds(h.sources), h.groups[i].sourceIds)
            > Latest(SourceIds(h.sources), GroupOf(h, prior).sourceIds)
    {
      DraftCorrectsOne(messages, candidates, h, i, prior);
    }
  }

  lemma DraftCorrectsOne(messages: seq<Message>, candidates: seq<Candidate>, h: Handoff, i: nat, prior: Id)
    requires CandidatesOk(messages, candidates) && AllQuoted(messages, candidates) && Resolved(h)
    requires FromOrdered(messages, Sorted(messages, candidates), h) && i < |h.groups| && prior in h.groups[i].corrects
    ensures prior in GroupIds(h.groups) && SourcesResolve(h, h.groups[i]) && SourcesResolve(h, GroupOf(h, prior))
    ensures Earliest(SourceIds(h.sources), h.groups[i].sourceIds)
          > Latest(SourceIds(h.sources), GroupOf(h, prior).sourceIds)
  {
    hide CandidateOk;
    hide SectionNamed;
    hide Earliest;
    hide Latest;
    hide Position;
    var ordered := Sorted(messages, candidates);
    SortedHolds(messages, candidates);
    DraftPositions(messages, ordered, h, i);
    assert h.groups[i] in h.groups;
    var j :| 0 <= j < |h.groups| && GroupIds(h.groups)[j] == prior;
    DraftPositions(messages, ordered, h, j);
    DraftCorrections(messages, candidates, h, i, j);
  }

  /** The complaints a checked draft can no longer cause. */
  predicate RuledOut(e: SelectError) {
    e in {DuplicateIds, IncompleteSource, UnresolvedSource, UngroupedSource, CorrectionOrder, UnverifiedOutcome}
  }

  lemma DraftComplaint(h: Handoff)
    requires AllDistinct(h) && AllGrouped(h)
    requires forall s :: s in h.sources ==> SourceComplete(s)
    requires forall g :: g in h.groups ==> SourcesResolve(h, g)
    requires Resolved(h) ==> forall g :: g in h.groups ==> CorrectsEarlier(h, g) && OutcomeVerified(h, g)
    ensures Check(h).Some? ==> !RuledOut(Check(h).value)
  {
    hide AllDistinct;
    hide AllGrouped;
    hide SourceComplete;
    hide SourcesResolve;
    hide CorrectsEarlier;
    hide OutcomeVerified;
    hide HandoffBytes;
    hide SectionsPresent;
    if FirstUnresolved(h, 0).None? {
      assert Resolved(h);
    }
  }

  lemma CandidatesQuoted(messages: seq<Message>, candidates: seq<Candidate>)
    requires CandidatesOk(messages, candidates)
    ensures AllQuoted(messages, candidates)
  {
    hide Position;
    hide Occurs;
    forall c | c in candidates
      ensures c.sourceMessageId in MessageIds(messages)
    {
      var i :| 0 <= i < |candidates| && candidates[i] == c;
      assert CandidateOk(messages, candidates, candidates[i]);
    }
  }

  /** The handoff a draft stands for: the sorted candidates' sources and groups and the outcomes they
      cite, in the order of the call ids. */
  ghost predicate DraftOf(messages: seq<Message>, candidates: seq<Candidate>, maxBytes: nat, h: Handoff) {
    && AllQuoted(messages, candidates)
    && var ordered := Sorted(messages, candidates);
       && FromOrdered(messages, ordered, h) && h.maxBytes == maxBytes
       && OutcomesFrom(messages, ordered, h.outcomes) && CallsInOrder(h.outcomes)
  }

  lemma DraftIsUnique(messages: seq<Message>, candidates: seq<Candidate>, maxBytes: nat, h: Handoff, h': Handoff)
    requires DraftOf(messages, candidates, maxBytes, h) && DraftOf(messages, candidates, maxBytes, h')
    ensures h == h'
  {
    hide CallsInOrder;
    hide Cites;
    hide SourceFor;
    hide GroupFor;
    hide MessageOf;
    hide SectionNamed;
    hide Distinct;
    hide Sorted;
    CallOrderIsUnique(h.outcomes, h'.outcomes);
    assert h.sources == h'.sources;
    assert h.groups == h'.groups;
  }

  lemma DraftNeeds(messages: seq<Message>, candidates: seq<Candidate>, maxBytes: nat, h: Handoff)
    requires DraftOf(messages, candidates, maxBytes, h)
    ensures SectionsKnown(Sorted(messages, candidates)) && Agreeing(messages, Sorted(messages, candidates))
  {
    hide CallsInOrder;
    hide Cites;
    hide SourceFor;
    hide GroupFor;
    hide MessageOf;
    hide SectionNamed;
    hide Distinct;
    hide Agreeing;
    hide Sorted;
    OutcomesAgree(messages, Sorted(messages, candidates), h.outcomes);
  }

  /** The name of a section in a draft. */
  function SectionName(s: Section): string {
    match s
    case Purpose => "purpose"
    case Constraints => "constraints"
    case Decisions => "decisions"
    case CurrentState => "current_state"
    case Unresolved => "unresolved"
    case Completion => "completion"
    case Background => "background"
  }

  /** Reading and writing section names are inverse. */
  lemma SectionNamedIff(name: string, s: Section)
    ensures SectionNamed(name) == Some(s) <==> name == SectionName(s)
  {
  }

  /** What a handoff says for a candidate, field by field: a group with its id and links, in the section it
      names, resting on one source; the source quotes the message the candidate quotes, in that message's
      name; the group counts as verified exactly if the message is of a tool call that completed with 0. */
  ghost predicate StandsFor(messages: seq<Message>, c: Candidate, g: Group, x: Source) {
    && g.id == c.id && g.dependsOn == c.dependsOn && g.corrects == c.corrects
    && SectionName(g.section) == c.section && g.sourceIds == [x.id]
    && x.id == Id("evidence:" + c.id.text) && x.text == c.quote
    && exists m :: m in messages && m.id == c.sourceMessageId && Attests(m, g, x)
  }

  predicate Attests(m: Message, g: Group, x: Source) {
    && x.role == m.role && x.callId == m.callId && x.reference == "message:" + m.id.text
    && (g.verifiedOutcome <==> m.role.Tool? && m.completed == Some(true) && m.exitCode == Some(0))
  }

  /** The outcome of a call that some candidate's message reports. */
  ghost predicate Reported(messages: seq<Message>, candidates: seq<Candidate>, o: CallOutcome) {
    exists c, m :: c in candidates && m in messages && m.id == c.sourceMessageId && Reports(m, o)
  }

  predicate Reports(m: Message, o: CallOutcome) {
    m.callId == Some(o.callId) && (o.completed <==> m.completed == Some(true)) && o.exitCode == m.exitCode
  }

  ghost predicate HasGroup(messages: seq<Message>, h: Handoff, c: Candidate) {
    exists i :: 0 <= i < |h.groups| && i < |h.sources| && StandsFor(messages, c, h.groups[i], h.sources[i])
  }

  ghost predicate HasCandidate(messages: seq<Message>, candidates: seq<Candidate>, g: Group, x: Source) {
    exists c :: c in candidates && StandsFor(messages, c, g, x)
  }

  /** The handoff has a group and a source for every candidate and none besides, and the outcomes their
      messages report and none besides. */
  ghost predicate Carries(messages: seq<Message>, candidates: seq<Candidate>, h: Handoff) {
    && |h.groups| == |h.sources| == |candidates|
    && (forall c :: c in candidates ==> HasGroup(messages, h, c))
    && (forall i :: 0 <= i < |h.groups| ==> HasCandidate(messages, candidates, h.groups[i], h.sources[i]))
    && forall o :: o in h.outcomes <==> Reported(messages, candidates, o)
  }

  /** Every link of a candidate leads to another candidate. */
  ghost predicate LinksInside(candidates: seq<Candidate>) {
    forall c, d :: c in candidates && LinksTo(c, d) ==> d != c.id && IsCandidate(candidates, d)
  }

  predicate LinksTo(c: Candidate, d: Id) {
    d in c.dependsOn || d in c.corrects
  }

  ghost predicate IsCandidate(candidates: seq<Candidate>, id: Id) {
    exists c :: c in candidates && c.id == id
  }

  lemma CandidateStands(messages: seq<Message>, c: Candidate)
    requires c.sourceMessageId in MessageIds(messages) && SectionNamed(c.section).Some?
    ensures StandsFor(messages, c, GroupFor(messages, c), SourceFor(messages, c))
  {
    SectionNamedIff(c.section, SectionNamed(c.section).value);
    hide SectionNamed;
    hide SectionName;
    var m := MessageOf(messages, c);
    assert Attests(m, GroupFor(messages, c), SourceFor(messages, c));
  }

  lemma OrderedStand(messages: seq<Message>, ordered: seq<Candidate>, h: Handoff, i: nat)
    requires FromOrdered(messages, ordered, h) && i < |ordered|
    ensures StandsFor(messages, ordered[i], h.groups[i], h.sources[i])
  {
    hide StandsFor;
    hide SourceFor;
    hide GroupFor;
    hide SectionNamed;
    hide MessageOf;
    hide OutcomeFor;
    hide Distinct;
    CandidateStands(messages, ordered[i]);
  }

  lemma OrderedGroups(messages: seq<Message>, ordered: seq<Candidate>, h: Handoff)
    requires FromOrdered(messages, ordered, h)
    ensures |h.groups| == |h.sources| == |ordered|
    ensures forall c :: c in ordered ==> HasGroup(messages, h, c)
    ensures forall i :: 0 <= i < |h.groups| ==> HasCandidate(messages, ordered, h.groups[i], h.sources[i])
  {
    assert |h.groups| == |h.sources| == |ordered|;
    hide StandsFor;
    forall i | 0 <= i < |ordered|
      ensures StandsFor(messages, ordered[i], h.groups[i], h.sources[i])
    {
      OrderedStand(messages, ordered, h, i);
    }
    hide FromOrdered;
    assert forall i :: 0 <= i < |ordered| ==> ordered[i] in ordered;
  }

  lemma SameCandidate(messages: seq<Message>, a: seq<Candidate>, b: seq<Candidate>, g: Group, x: Source)
    requires (forall c :: c in a ==> c in b) && HasCandidate(messages, a, g, x)
    ensures HasCandidate(messages, b, g, x)
  {
    hide StandsFor;
  }

  lemma SameMembers(messages: seq<Message>, ordered: seq<Candidate>, candidates: seq<Candidate>, h: Handoff)
    requires FromOrdered(messages, ordered, h) && |ordered| == |candidates|
    requires forall c :: c in ordered <==> c in candidates
    ensures |h.groups| == |h.sources| == |candidates|
    ensures forall c :: c in candidates ==> HasGroup(messages, h, c)
    ensures forall i :: 0 <= i < |h.groups| ==> HasCandidate(messages, candidates, h.groups[i], h.sources[i])
  {
    hide HasGroup;
    hide HasCandidate;
    OrderedGroups(messages, ordered, h);
    hide FromOrdered;
    forall i | 0 <= i < |h.groups|
      ensures HasCandidate(messages, candidates, h.groups[i], h.sources[i])
    {
      SameCandidate(messages, ordered, candidates, h.groups[i], h.sources[i]);
    }
  }

  lemma SortedCount(messages: seq<Message>, candidates: seq<Candidate>)
    requires AllQuoted(messages, candidates)
    ensures |Sorted(messages, candidates)| == |candidates|
  {
    hide Sorted;
    assert |multiset(Sorted(messages, candidates))| == |multiset(candidates)|;
  }

  lemma CitedIsReported(messages: seq<Message>, ordered: seq<Candidate>, o: CallOutcome)
    requires Distinct(MessageIds(messages)) && AllQuoted(messages, ordered)
    ensures Cites(messages, ordered, o) <==> Reported(messages, ordered, o)
  {
    forall c | c in ordered
      ensures CitesAt(messages, c, o) <==> Reports(MessageOf(messages, c), o)
    {
      hide MessageOf;
    }
    forall c, m | c in ordered && m in messages && m.id == c.sourceMessageId
      ensures MessageOf(messages, c) == m
    {
      OnlyMessage(messages, c, m);
    }
    hide MessageOf;
    hide CitesAt;
    hide Reports;
    hide Distinct;
    if Cites(messages, ordered, o) {
      var i :| 0 <= i < |ordered| && CitesAt(messages, ordered[i], o);
      assert ordered[i] in ordered;
    }
    if Reported(messages, ordered, o) {
      var c, m :| c in ordered && m in messages && m.id == c.sourceMessageId && Reports(m, o);
      var i :| 0 <= i < |ordered| && ordered[i] == c;
      assert CitesAt(messages, ordered[i], o);
    }
  }

  lemma OnlyMessage(messages: seq<Message>, c: Candidate, m: Message)
    requires Distinct(MessageIds(messages)) && c.sourceMessageId in MessageIds(messages)
    requires m in messages && m.id == c.sourceMessageId
    ensures MessageOf(messages, c) == m
  {
    var i :| 0 <= i < |messages| && messages[i] == m;
    var n := Position(MessageIds(messages), c.sourceMessageId);
    assert MessageIds(messages)[i] == MessageIds(messages)[n];
  }

  lemma SortedReports(messages: seq<Message>, candidates: seq<Candidate>, o: CallOutcome)
    requires AllQuoted(messages, candidates)
    ensures Reported(messages, Sorted(messages, candidates), o) <==> Reported(messages, candidates, o)
  {
    SortedHolds(messages, candidates);
    hide Sorted;
    hide Reports;
    hide Distinct;
  }

  lemma DraftCarries(messages: seq<Message>, candidates: seq<Candidate>, maxBytes: nat, h: Handoff)
    requires DraftOf(messages, candidates, maxBytes, h) && Distinct(MessageIds(messages))
    ensures Carries(messages, candidates, h)
  {
    hide FromOrdered;
    hide CallsInOrder;
    hide Distinct;
    hide AllQuoted;
    hide Cites;
    hide Reported;
    hide HasGroup;
    hide HasCandidate;
    hide Sorted;
    var ordered := Sorted(messages, candidates);
    SortedHolds(messages, candidates);
    SortedCount(messages, candidates);
    SameMembers(messages, ordered, candidates, h);
    forall o
      ensures o in h.outcomes <==> Reported(messages, candidates, o)
    {
      CitedIsReported(messages, ordered, o);
      SortedReports(messages, candidates, o);
    }
  }

  lemma StandsLinks(messages: seq<Message>, c: Candidate, g: Group, x: Source)
    requires StandsFor(messages, c, g, x)
    ensures g.id == c.id && g.dependsOn == c.dependsOn && g.corrects == c.corrects
  {
  }

  lemma LinkIsGroup(messages: seq<Message>, h: Handoff, c: Candidate, d: Id)
    requires HasGroup(messages, h, c) && Resolved(h) && LinksTo(c, d)
    ensures d != c.id && exists j :: 0 <= j < |h.groups| && h.groups[j].id == d
  {
    hide StandsFor;
    hide SourcesResolve;
    var i :| 0 <= i < |h.groups| && i < |h.sources| && StandsFor(messages, c, h.groups[i], h.sources[i]);
    StandsLinks(messages, c, h.groups[i], h.sources[i]);
    assert LinksResolve(h, h.groups[i]);
    hide Resolved;
    var j :| 0 <= j < |h.groups| && GroupIds(h.groups)[j] == d;
  }

  lemma GroupIsCandidate(messages: seq<Message>, candidates: seq<Candidate>, g: Group, x: Source)
    requires HasCandidate(messages, candidates, g, x)
    ensures IsCandidate(candidates, g.id)
  {
    hide StandsFor;
    var other :| other in candidates && StandsFor(messages, other, g, x);
    StandsLinks(messages, other, g, x);
  }

  lemma LinkIsCandidate(messages: seq<Message>, candidates: seq<Candidate>, h: Handoff, c: Candidate, d: Id)
    requires Carries(messages, candidates, h) && Resolved(h) && c in candidates && LinksTo(c, d)
    ensures d != c.id && IsCandidate(candidates, d)
  {
    hide Reported;
    hide HasGroup;
    hide HasCandidate;
    hide IsCandidate;
    LinkIsGroup(messages, h, c, d);
    hide Resolved;
    var j :| 0 <= j < |h.groups| && h.groups[j].id == d;
    GroupIsCandidate(messages, candidates, h.groups[j], h.sources[j]);
  }

  ghost predicate Selectable(h: Handoff) {
    Accepted(h) && PackedBytes(h, Closures.Closure(h.groups, Mandatory(h))) <= h.maxBytes
  }

  /** Everything a draft claims is checked before it is packed.  It is accepted exactly when its
      conversation and candidates are in order and the handoff it stands for can be selected from; and
      when the selection refuses a checked draft it is for its limits, its links, who said what, a
      missing section or the budget, never for ids, sources, order or outcomes. */
  method FromConversationDraft(messages: seq<Message>, candidates: seq<Candidate>, maxBytes: nat)
    returns (r: Result<Handoff, DraftError>)
    ensures r.Ok? <==>
      && ConversationOk(messages) && CandidatesOk(messages, candidates)
      && exists h :: DraftOf(messages, candidates, maxBytes, h) && Selectable(h)
    // nothing a candidate says is lost or added, and its links lead to other candidates
    ensures match r
      case Ok(h) =>
        && DraftOf(messages, candidates, maxBytes, h) && Selectable(h)
        && Carries(messages, candidates, h) && LinksInside(candidates)
      case Err(Rejected(e)) => !RuledOut(e)
      case Err(_) => true
  {
    hide *;
    var bad := ValidateConversation(messages);
    if bad.Some? {
      return Err(bad.value);
    }
    bad := ValidateCandidates(messages, candidates);
    if bad.Some? {
      return Err(bad.value);
    }
    CandidatesQuoted(messages, candidates);
    var ordered := Sorted(messages, candidates);
    var built := Build(messages, ordered, maxBytes);
    if built.Err? {
      NoDraft(messages, candidates, maxBytes);
      return Err(built.error);
    }
    var selection, s := Select(built.value);
    OnlyDraft(messages, candidates, maxBytes, built.value);
    Judged(messages, candidates, built.value);
    if selection.Err? {
      return Err(Rejected(selection.error));
    }
    AcceptedDraft(messages, candidates, maxBytes, built.value);
    return Ok(built.value);
  }

  /** Why `Select` may refuse the handoff of a checked draft. */
  lemma Judged(messages: seq<Message>, candidates: seq<Candidate>, h: Handoff)
    requires ConversationOk(messages) && CandidatesOk(messages, candidates) && AllQuoted(messages, candidates)
    requires FromOrdered(messages, Sorted(messages, candidates), h)
    ensures Check(h).Some? ==> !RuledOut(Check(h).value)
    ensures !RuledOut(MandatoryTooLarge)
    ensures Selectable(h) <==> Accepted(h) && PackedBytes(h, Closures.Closure(h.groups, Mandatory(h))) <= h.maxBytes
  {
    hide *;
    DraftPasses(messages, candidates, h);
    DraftComplaint(h);
    NotRuledOut();
    SelectableIff(h);
  }

  lemma AcceptedDraft(messages: seq<Message>, candidates: seq<Candidate>, maxBytes: nat, h: Handoff)
    requires ConversationOk(messages) && DraftOf(messages, candidates, maxBytes, h) && Selectable(h)
    ensures Carries(messages, candidates, h) && LinksInside(candidates)
  {
    hide *;
    DistinctMessages(messages);
    SelectableResolves(h);
    DraftCarries(messages, candidates, maxBytes, h);
    LinksStayInside(messages, candidates, h);
  }

  lemma DistinctMessages(messages: seq<Message>)
    requires ConversationOk(messages)
    ensures Distinct(MessageIds(messages))
  {
    hide Distinct;
  }

  lemma SelectableResolves(h: Handoff)
    requires Selectable(h)
    ensures Resolved(h)
  {
    hide Accepted;
    hide Resolved;
    AcceptedResolves(h);
  }

  lemma LinksStayInside(messages: seq<Message>, candidates: seq<Candidate>, h: Handoff)
    requires Carries(messages, candidates, h) && Resolved(h)
    ensures LinksInside(candidates)
  {
    hide Carries;
    hide Resolved;
    hide IsCandidate;
    forall c, d | c in candidates && LinksTo(c, d)
      ensures d != c.id && IsCandidate(candidates, d)
    {
      LinkIsCandidate(messages, candidates, h, c, d);
    }
  }

  lemma NoDraft(messages: seq<Message>, candidates: seq<Candidate>, maxBytes: nat)
    requires AllQuoted(messages, candidates)
    requires AllQuoted(messages, Sorted(messages, candidates)) ==>
      !SectionsKnown(Sorted(messages, candidates)) || !Agreeing(messages, Sorted(messages, candidates))
    ensures forall h :: !DraftOf(messages, candidates, maxBytes, h)
  {
    hide *;
    forall h | DraftOf(messages, candidates, maxBytes, h)
      ensures false
    {
      DraftNeeds(messages, candidates, maxBytes, h);
    }
  }

  lemma OnlyDraft(messages: seq<Message>, candidates: seq<Candidate>, maxBytes: nat, h: Handoff)
    requires AllQuoted(messages, candidates) && AllQuoted(messages, Sorted(messages, candidates))
    requires FromOrdered(messages, Sorted(messages, candidates), h) && h.maxBytes == maxBytes
    requires OutcomesFrom(messages, Sorted(messages, candidates), h.outcomes) && CallsInOrder(h.outcomes)
    ensures DraftOf(messages, candidates, maxBytes, h)
    ensures forall other :: DraftOf(messages, candidates, maxBytes, other) ==> other == h
  {
    assert DraftOf(messages, candidates, maxBytes, h) by {
      hide FromOrdered;
      hide OutcomesFrom;
      hide CallsInOrder;
      hide AllQuoted;
    }
    hide *;
    forall other | DraftOf(messages, candidates, maxBytes, other)
      ensures other == h
    {
      DraftIsUnique(messages, candidates, maxBytes, other, h);
    }
  }

  lemma SelectableIff(h: Handoff)
    ensures Selectable(h) <==> Accepted(h) && PackedBytes(h, Closures.Closure(h.groups, Mandatory(h))) <= h.maxBytes
  {
    hide Accepted;
    hide PackedBytes;
    hide Mandatory;
  }

  lemma NotRuledOut()
    ensures !RuledOut(MandatoryTooLarge)
  {
  }
}
