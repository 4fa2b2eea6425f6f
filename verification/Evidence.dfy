// The handoff's data and the length of its JSON text
// (crates/hub-context/src/handoff.rs, crates/protocol-types/src/local.rs).
module Evidence {
  import opened Common
  import Utf8

  datatype Id = Id(text: string)

  datatype Section = Purpose | Constraints | Decisions | CurrentState | Unresolved | Completion | Background

  datatype Role = User | Assistant | Tool

  datatype Source = Source(id: Id, role: Role, reference: string, text: string, callId: Option<Id>)

  datatype CallOutcome = CallOutcome(callId: Id, completed: bool, exitCode: Option<int>)

  datatype Group = Group(
    id: Id, section: Section, sourceIds: seq<Id>, dependsOn: seq<Id>, corrects: seq<Id>, verifiedOutcome: bool)

  datatype Handoff = Handoff(sources: seq<Source>, groups: seq<Group>, outcomes: seq<CallOutcome>, maxBytes: nat)

  /** `profile` and `authority` are constants of the format and only show up in the length. */
  datatype Selection = Selection(
    sources: seq<Source>, groups: seq<Group>, outcomes: seq<CallOutcome>, omitted: seq<Id>)

  // ---- UTF-8 and JSON lengths ----

  function Utf8Bytes(c: char): (n: nat)
    ensures 1 <= n <= 4
  {
    var code := c as int;
    if code < 0x80 then 1 else if code < 0x800 then 2 else if code < 0x10000 then 3 else 4
  }

  function TextBytes(s: string): nat {
    if s == [] then 0 else Utf8Bytes(s[0]) + TextBytes(s[1..])
  }

  lemma {:induction false} TextBytesAppend(a: string, b: string)
    ensures TextBytes(a + b) == TextBytes(a) + TextBytes(b)
  {
    if a == [] {
      assert a + b == b;
    } else {
      TextBytesAppend(a[1..], b);
      assert (a + b)[1..] == a[1..] + b;
    }
  }

  lemma {:induction false} OneByteEach(s: string)
    requires forall i :: 0 <= i < |s| ==> (s[i] as int) < 0x80
    ensures TextBytes(s) == |s|
  {
    if s != "" {
      assert Utf8Bytes(s[0]) == 1;
      OneByteEach(s[1..]);
    }
  }

  /** A text takes as many bytes as its UTF-8 encoding has. */
  lemma {:induction false} TextBytesIsEncoding(s: string)
    ensures TextBytes(s) == |Utf8.Encoded(s)|
  {
    if s != "" {
      TextBytesIsEncoding(s[1..]);
    }
  }

  /** Escaped length inside a JSON string. */
  function CharBytes(c: char): (n: nat)
    ensures 1 <= n
  {
    if c in "\"\\\n\r\t" || c as int == 8 || c as int == 12 then 2
    else if c as int < 32 then 6
    else Utf8Bytes(c)
  }

  function EscapedBytes(s: string): nat {
    if s == [] then 0 else CharBytes(s[0]) + EscapedBytes(s[1..])
  }

  function StringBytes(s: string): nat {
    2 + EscapedBytes(s)
  }

  function IdBytes(id: Id): nat {
    StringBytes(id.text)
  }

  function OptionalIdBytes(id: Option<Id>): nat {
    if id.Some? then IdBytes(id.value) else |"null"|
  }

  function DigitCount(n: nat): nat {
    if n < 10 then 1 else 1 + DigitCount(n / 10)
  }

  function IntBytes(n: int): nat {
    if n < 0 then 1 + DigitCount(-n) else DigitCount(n)
  }

  function BoolBytes(b: bool): nat {
    if b then |"true"| else |"false"|
  }

  function Sum<T>(items: seq<T>, size: T -> nat): nat {
    if items == [] then 0 else size(items[0]) + Sum(items[1..], size)
  }

  function Commas(n: nat): nat {
    if n == 0 then 0 else n - 1
  }

  function ArrayBytes<T>(items: seq<T>, size: T -> nat): nat {
    2 + Sum(items, size) + Commas(|items|)
  }

  function RoleBytes(r: Role): nat {
    match r
    case User => |"\"user\""|
    case Assistant => |"\"assistant\""|
    case Tool => |"\"tool\""|
  }

  function SectionBytes(s: Section): nat {
    match s
    case Purpose => |"\"purpose\""|
    case Constraints => |"\"constraints\""|
    case Decisions => |"\"decisions\""|
    case CurrentState => |"\"current_state\""|
    case Unresolved => |"\"unresolved\""|
    case Completion => |"\"completion\""|
    case Background => |"\"background\""|
  }

  function SourceBytes(s: Source): nat {
    |"{\"id\":,\"role\":,\"reference\":,\"text\":,\"call_id\":}"|
    + IdBytes(s.id) + RoleBytes(s.role) + StringBytes(s.reference) + StringBytes(s.text) + OptionalIdBytes(s.callId)
  }

  function OutcomeBytes(o: CallOutcome): nat {
    |"{\"call_id\":,\"completed\":,\"exit_code\":}"|
    + IdBytes(o.callId) + BoolBytes(o.completed) + if o.exitCode.Some? then IntBytes(o.exitCode.value) else |"null"|
  }

  /** A group's text holds its own id and more. */
  function GroupBytes(g: Group): (n: nat)
    ensures n >= IdBytes(g.id) + 2
  {
    |"{\"id\":,\"section\":,\"source_ids\":,\"depends_on\":,\"corrects\":,\"verified_outcome\":}"|
    + IdBytes(g.id) + SectionBytes(g.section) + ArrayBytes(g.sourceIds, IdBytes)
    + ArrayBytes(g.dependsOn, IdBytes) + ArrayBytes(g.corrects, IdBytes) + BoolBytes(g.verifiedOutcome)
  }

  /** Braces, field names, profile and authority text. */
  const SELECTION_FRAME: nat := 373

  function SelectionBytes(s: Selection): nat {
    SELECTION_FRAME + ArrayBytes(s.sources, SourceBytes) + ArrayBytes(s.groups, GroupBytes)
    + ArrayBytes(s.outcomes, OutcomeBytes) + ArrayBytes(s.omitted, IdBytes)
  }

  function HandoffBytes(h: Handoff): nat {
    |"{\"sources\":,\"groups\":,\"outcomes\":,\"max_bytes\":}"|
    + ArrayBytes(h.sources, SourceBytes) + ArrayBytes(h.groups, GroupBytes)
    + ArrayBytes(h.outcomes, OutcomeBytes) + IntBytes(h.maxBytes)
  }

  // ---- Filtering and its length ----

  function Filter<T(!new)>(items: seq<T>, p: T -> bool): (r: seq<T>)
    ensures |r| <= |items|
    ensures forall x :: x in r <==> x in items && p(x)
  {
    if items == [] then []
    else if p(items[0]) then [items[0]] + Filter(items[1..], p)
    else Filter(items[1..], p)
  }

  /** A weaker test keeps more, so the array gets no shorter. */
  lemma {:induction false} FilterGrows<T(!new)>(items: seq<T>, p: T -> bool, q: T -> bool, size: T -> nat)
    requires forall x :: x in items && p(x) ==> q(x)
    ensures |Filter(items, p)| <= |Filter(items, q)|
    ensures Sum(Filter(items, p), size) <= Sum(Filter(items, q), size)
  {
    if items != [] {
      FilterGrows(items[1..], p, q, size);
    }
  }

  lemma ArrayGrows<T(!new)>(items: seq<T>, p: T -> bool, q: T -> bool, size: T -> nat)
    requires forall x :: x in items && p(x) ==> q(x)
    ensures ArrayBytes(Filter(items, p), size) <= ArrayBytes(Filter(items, q), size)
  {
    FilterGrows(items, p, q, size);
  }
}
