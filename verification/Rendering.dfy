// The JSON text that the source measures, and that it is as long as `Evidence` says
// (crates/hub-context/src/handoff.rs, crates/protocol-types/src/local.rs).
module Rendering {
  import opened Common
  import opened Evidence

  // ---- Strings ----

  function HexDigit(n: nat): char
    requires n < 16
  {
    if n < 10 then '0' + n as char else 'a' + (n - 10) as char
  }

  /** How a character is written inside a JSON string. */
  function EscapedChar(c: char): string {
    if c == '"' then "\\\""
    else if c == '\\' then "\\\\"
    else if c == '\n' then "\\n"
    else if c == '\r' then "\\r"
    else if c == '\t' then "\\t"
    else if c as int == 8 then "\\b"
    else if c as int == 12 then "\\f"
    else if c as int < 32 then "\\u00" + [HexDigit(c as int / 16), HexDigit(c as int % 16)]
    else [c]
  }

  function Escaped(s: string): string {
    if s == "" then "" else EscapedChar(s[0]) + Escaped(s[1..])
  }

  function StringText(s: string): string {
    "\"" + Escaped(s) + "\""
  }

  function HexValue(c: char): nat {
    if '0' <= c <= '9' then c as int - '0' as int
    else if 'a' <= c <= 'f' then c as int - 'a' as int + 10
    else 0
  }

  /** One character of escaped text, and how long it is. */
  function ReadChar(s: string): (r: (char, nat))
    requires s != ""
    ensures 0 < r.1 <= |s|
  {
    if s[0] != '\\' || |s| < 2 then (s[0], 1)
    else if s[1] == 'n' then ('\n', 2)
    else if s[1] == 'r' then ('\r', 2)
    else if s[1] == 't' then ('\t', 2)
    else if s[1] == 'b' then (8 as char, 2)
    else if s[1] == 'f' then (12 as char, 2)
    else if s[1] == 'u' && |s| >= 6 then ((HexValue(s[4]) * 16 + HexValue(s[5])) as char, 6)
    else (s[1], 2)
  }

  function Unescaped(s: string): string {
    if s == "" then "" else [ReadChar(s).0] + Unescaped(s[ReadChar(s).1..])
  }

  lemma EscapedCharReads(c: char, rest: string)
    ensures ReadChar(EscapedChar(c) + rest) == (c, |EscapedChar(c)|)
  {
    var s := EscapedChar(c) + rest;
    assert s[0] == EscapedChar(c)[0];
    if |EscapedChar(c)| == 6 {
      assert s[1] == 'u' && s[4] == HexDigit(c as int / 16) && s[5] == HexDigit(c as int % 16);
    }
  }

  /** Nothing is lost by escaping. */
  lemma {:induction false} UnescapingUndoes(s: string)
    ensures Unescaped(Escaped(s)) == s
  {
    if s != "" {
      var rest := Escaped(s[1..]);
      EscapedCharReads(s[0], rest);
      assert (EscapedChar(s[0]) + rest)[|EscapedChar(s[0])|..] == rest;
      UnescapingUndoes(s[1..]);
    }
  }

  lemma EscapedCharSize(c: char)
    ensures TextBytes(EscapedChar(c)) == CharBytes(c)
  {
    if EscapedChar(c) == [c] {
      assert TextBytes([c]) == Utf8Bytes(c) + TextBytes([c][1..]);
    } else {
      OneByteEach(EscapedChar(c));
    }
  }

  lemma {:induction false} EscapedSize(s: string)
    ensures TextBytes(Escaped(s)) == EscapedBytes(s)
  {
    hide EscapedChar;
    if s != "" {
      EscapedCharSize(s[0]);
      EscapedSize(s[1..]);
      TextBytesAppend(EscapedChar(s[0]), Escaped(s[1..]));
    }
  }

  lemma StringSize(s: string)
    ensures TextBytes(StringText(s)) == StringBytes(s)
  {
    EscapedSize(s);
    OneByteEach("\"");
    TextBytesAppend("\"", Escaped(s));
    TextBytesAppend("\"" + Escaped(s), "\"");
  }

  lemma {:induction false} EscapedBytesAppend(a: string, b: string)
    ensures EscapedBytes(a + b) == EscapedBytes(a) + EscapedBytes(b)
  {
    if a == "" {
      assert a + b == b;
    } else {
      EscapedBytesAppend(a[1..], b);
      assert (a + b)[1..] == a[1..] + b;
    }
  }

  /** Escaping makes a text no shorter, and at most six times as long as it has characters. */
  lemma {:induction false} EscapedBytesBounds(s: string)
    ensures TextBytes(s) <= EscapedBytes(s) <= 6 * |s|
  {
    if s != "" {
      EscapedBytesBounds(s[1..]);
    }
  }

  // ---- Numbers ----

  function Digits(n: nat): (s: string)
    ensures |s| == DigitCount(n) && forall i :: 0 <= i < |s| ==> '0' <= s[i] <= '9'
  {
    if n < 10 then ['0' + n as char] else Digits(n / 10) + ['0' + (n % 10) as char]
  }

  function IntText(n: int): string {
    if n < 0 then "-" + Digits(-n) else Digits(n)
  }

  function DigitsValue(s: string): nat
    requires forall i :: 0 <= i < |s| ==> '0' <= s[i] <= '9'
  {
    if s == "" then 0 else DigitsValue(s[..|s| - 1]) * 10 + (s[|s| - 1] as int - '0' as int)
  }

  lemma {:induction false} DigitsRead(n: nat)
    ensures DigitsValue(Digits(n)) == n
  {
    if n >= 10 {
      DigitsRead(n / 10);
      assert Digits(n)[..|Digits(n)| - 1] == Digits(n / 10);
    } else {
      assert Digits(n)[..0] == "";
    }
  }

  lemma IntSize(n: int)
    ensures TextBytes(IntText(n)) == IntBytes(n)
  {
    OneByteEach(IntText(n));
  }

  function BoolText(b: bool): string {
    if b then "true" else "false"
  }

  lemma BoolSize(b: bool)
    ensures TextBytes(BoolText(b)) == BoolBytes(b)
  {
    OneByteEach(BoolText(b));
  }

  function OptionalIdText(id: Option<Id>): string {
    if id.Some? then StringText(id.value.text) else "null"
  }

  lemma OptionalIdSize(id: Option<Id>)
    ensures TextBytes(OptionalIdText(id)) == OptionalIdBytes(id)
  {
    if id.Some? {
      StringSize(id.value.text);
    } else {
      OneByteEach("null");
    }
  }

  function OptionalIntText(n: Option<int>): string {
    if n.Some? then IntText(n.value) else "null"
  }

  lemma OptionalIntSize(n: Option<int>)
    ensures TextBytes(OptionalIntText(n)) == if n.Some? then IntBytes(n.value) else 4
  {
    if n.Some? {
      IntSize(n.value);
    } else {
      OneByteEach("null");
    }
  }

  // ---- Lists and objects ----

  /** The parts with commas between them. */
  function Joined(parts: seq<string>): string {
    if parts == [] then ""
    else if |parts| == 1 then parts[0]
    else parts[0] + "," + Joined(parts[1..])
  }

  lemma {:induction false} JoinedSize(parts: seq<string>)
    ensures TextBytes(Joined(parts)) == Sum(parts, TextBytes) + Commas(|parts|)
  {
    if |parts| == 1 {
      assert Sum(parts, TextBytes) == TextBytes(parts[0]) + Sum(parts[1..], TextBytes);
    } else if |parts| > 1 {
      JoinedSize(parts[1..]);
      OneByteEach(",");
      TextBytesAppend(parts[0], ",");
      TextBytesAppend(parts[0] + ",", Joined(parts[1..]));
    }
  }

  function Texts<T>(items: seq<T>, text: T -> string): (r: seq<string>)
    ensures |r| == |items| && forall i :: 0 <= i < |r| ==> r[i] == text(items[i])
  {
    seq(|items|, i requires 0 <= i < |items| => text(items[i]))
  }

  function ArrayText<T>(items: seq<T>, text: T -> string): string {
    "[" + Joined(Texts(items, text)) + "]"
  }

  lemma {:induction false} TextsSize<T(!new)>(items: seq<T>, text: T -> string, size: T -> nat)
    requires forall x :: TextBytes(text(x)) == size(x)
    ensures Sum(Texts(items, text), TextBytes) == Sum(items, size)
  {
    if items != [] {
      TextsSize(items[1..], text, size);
      assert Texts(items, text)[1..] == Texts(items[1..], text);
    }
  }

  lemma BracketsSize(open: string, inner: string, close: string)
    requires |open| == |close| == 1 && open[0] as int < 0x80 && close[0] as int < 0x80
    ensures TextBytes(open + inner + close) == 2 + TextBytes(inner)
  {
    OneByteEach(open);
    OneByteEach(close);
    TextBytesAppend(open, inner);
    TextBytesAppend(open + inner, close);
  }

  lemma ArraySize<T(!new)>(items: seq<T>, text: T -> string, size: T -> nat)
    requires forall x :: TextBytes(text(x)) == size(x)
    ensures TextBytes(ArrayText(items, text)) == ArrayBytes(items, size)
  {
    TextsSize(items, text, size);
    JoinedSize(Texts(items, text));
    BracketsSize("[", Joined(Texts(items, text)), "]");
  }

  datatype Field = Field(name: string, value: string)

  function FieldText(f: Field): string {
    "\"" + f.name + "\":" + f.value
  }

  function ObjectText(fields: seq<Field>): string {
    "{" + Joined(Texts(fields, FieldText)) + "}"
  }

  predicate Plain(s: string) {
    forall i :: 0 <= i < |s| ==> (s[i] as int) < 0x80
  }

  function FieldBytes(f: Field): nat {
    TextBytes(FieldText(f))
  }

  lemma FieldSize(f: Field)
    requires Plain(f.name)
    ensures FieldBytes(f) == |f.name| + 3 + TextBytes(f.value)
  {
    var head := "\"" + f.name + "\":";
    OneByteEach(head);
    TextBytesAppend(head, f.value);
  }

  lemma ObjectSize(fields: seq<Field>)
    ensures TextBytes(ObjectText(fields)) == 2 + Sum(fields, FieldBytes) + Commas(|fields|)
  {
    assert forall f: Field :: TextBytes(FieldText(f)) == FieldBytes(f);
    TextsSize(fields, FieldText, FieldBytes);
    JoinedSize(Texts(fields, FieldText));
    BracketsSize("{", Joined(Texts(fields, FieldText)), "}");
  }

  lemma SumCons<T>(x: T, rest: seq<T>, size: T -> nat)
    ensures Sum([x] + rest, size) == size(x) + Sum(rest, size)
  {
    assert ([x] + rest)[1..] == rest;
  }

  /** What a field adds to an object of `n` further fields. */
  lemma OneField(name: string, value: string, rest: seq<Field>)
    requires Plain(name)
    ensures Sum([Field(name, value)] + rest, FieldBytes) == |name| + 3 + TextBytes(value) + Sum(rest, FieldBytes)
  {
    FieldSize(Field(name, value));
    SumCons(Field(name, value), rest, FieldBytes);
  }

  // ---- Handoffs and selections ----

  function IdText(id: Id): string {
    StringText(id.text)
  }

  lemma IdSize(id: Id)
    ensures TextBytes(IdText(id)) == IdBytes(id)
  {
    StringSize(id.text);
  }

  lemma IdSizes()
    ensures forall id: Id :: TextBytes(IdText(id)) == IdBytes(id)
  {
    forall id: Id
      ensures TextBytes(IdText(id)) == IdBytes(id)
    {
      IdSize(id);
    }
  }

  lemma IdsSize(ids: seq<Id>)
    ensures TextBytes(ArrayText(ids, IdText)) == ArrayBytes(ids, IdBytes)
  {
    IdSizes();
    ArraySize(ids, IdText, IdBytes);
  }

  function RoleText(r: Role): string {
    match r
    case User => "\"user\""
    case Assistant => "\"assistant\""
    case Tool => "\"tool\""
  }

  lemma RoleSize(r: Role)
    ensures TextBytes(RoleText(r)) == RoleBytes(r)
  {
    hide TextBytes;
    match r
    case User => OneByteEach("\"user\"");
    case Assistant => OneByteEach("\"assistant\"");
    case Tool => OneByteEach("\"tool\"");
  }

  function SectionText(s: Section): string {
    match s
    case Purpose => "\"purpose\""
    case Constraints => "\"constraints\""
    case Decisions => "\"decisions\""
    case CurrentState => "\"current_state\""
    case Unresolved => "\"unresolved\""
    case Completion => "\"completion\""
    case Background => "\"background\""
  }

  lemma SectionSize(s: Section)
    ensures TextBytes(SectionText(s)) == SectionBytes(s)
  {
    hide TextBytes;
    match s
    case Purpose => OneByteEach("\"purpose\"");
    case Constraints => OneByteEach("\"constraints\"");
    case Decisions => OneByteEach("\"decisions\"");
    case CurrentState => OneByteEach("\"current_state\"");
    case Unresolved => OneByteEach("\"unresolved\"");
    case Completion => OneByteEach("\"completion\"");
    case Background => OneByteEach("\"background\"");
  }

  function SourceText(x: Source): string {
    ObjectText([
      Field("id", IdText(x.id)),
      Field("role", RoleText(x.role)),
      Field("reference", StringText(x.reference)),
      Field("text", StringText(x.text)),
      Field("call_id", OptionalIdText(x.callId))])
  }

  lemma SourceSize(x: Source)
    ensures TextBytes(SourceText(x)) == SourceBytes(x)
  {
    hide TextBytes;
    hide Sum;
    hide FieldBytes;
    hide Joined;
    hide Texts;
    hide ArrayText;
    hide ArrayBytes;
    hide IdText;
    hide StringText;
    hide StringBytes;
    hide Plain;
    hide ObjectText;
    PlainNames();
    NoFields();
    IdSize(x.id);
    RoleSize(x.role);
    StringSize(x.reference);
    StringSize(x.text);
    OptionalIdSize(x.callId);
    var v1 := IdText(x.id);
    var v2 := RoleText(x.role);
    var v3 := StringText(x.reference);
    var v4 := StringText(x.text);
    var v5 := OptionalIdText(x.callId);
    var f5 := [Field("call_id", v5)] + [];
    OneField("call_id", v5, []);
    var f4 := [Field("text", v4)] + f5;
    OneField("text", v4, f5);
    var f3 := [Field("reference", v3)] + f4;
    OneField("reference", v3, f4);
    var f2 := [Field("role", v2)] + f3;
    OneField("role", v2, f3);
    var f1 := [Field("id", v1)] + f2;
    OneField("id", v1, f2);
    assert f1 == [Field("id", v1), Field("role", v2), Field("reference", v3), Field("text", v4), Field("call_id", v5)];
    ObjectSize(f1);
  }

  function OutcomeText(o: CallOutcome): string {
    ObjectText([
      Field("call_id", IdText(o.callId)),
      Field("completed", BoolText(o.completed)),
      Field("exit_code", OptionalIntText(o.exitCode))])
  }

  lemma OutcomeSize(o: CallOutcome)
    ensures TextBytes(OutcomeText(o)) == OutcomeBytes(o)
  {
    hide TextBytes;
    hide Sum;
    hide FieldBytes;
    hide Joined;
    hide Texts;
    hide ArrayText;
    hide ArrayBytes;
    hide IdText;
    hide StringText;
    hide StringBytes;
    hide Plain;
    hide ObjectText;
    PlainNames();
    NoFields();
    IdSize(o.callId);
    BoolSize(o.completed);
    OptionalIntSize(o.exitCode);
    var v1 := IdText(o.callId);
    var v2 := BoolText(o.completed);
    var v3 := OptionalIntText(o.exitCode);
    var f3 := [Field("exit_code", v3)] + [];
    OneField("exit_code", v3, []);
    var f2 := [Field("completed", v2)] + f3;
    OneField("completed", v2, f3);
    var f1 := [Field("call_id", v1)] + f2;
    OneField("call_id", v1, f2);
    assert f1 == [Field("call_id", v1), Field("completed", v2), Field("exit_code", v3)];
    ObjectSize(f1);
  }

  function GroupText(g: Group): string {
    ObjectText([
      Field("id", IdText(g.id)),
      Field("section", SectionText(g.section)),
      Field("source_ids", ArrayText(g.sourceIds, IdText)),
      Field("depends_on", ArrayText(g.dependsOn, IdText)),
      Field("corrects", ArrayText(g.corrects, IdText)),
      Field("verified_outcome", BoolText(g.verifiedOutcome))])
  }

  lemma GroupSize(g: Group)
    ensures TextBytes(GroupText(g)) == GroupBytes(g)
  {
    hide TextBytes;
    hide Sum;
    hide FieldBytes;
    hide Joined;
    hide Texts;
    hide ArrayText;
    hide ArrayBytes;
    hide IdText;
    hide StringText;
    hide StringBytes;
    hide Plain;
    hide ObjectText;
    PlainNames();
    NoFields();
    IdSize(g.id);
    SectionSize(g.section);
    IdsSize(g.sourceIds);
    IdsSize(g.dependsOn);
    IdsSize(g.corrects);
    BoolSize(g.verifiedOutcome);
    var v1 := IdText(g.id);
    var v2 := SectionText(g.section);
    var v3 := ArrayText(g.sourceIds, IdText);
    var v4 := ArrayText(g.dependsOn, IdText);
    var v5 := ArrayText(g.corrects, IdText);
    var v6 := BoolText(g.verifiedOutcome);
    var f6 := [Field("verified_outcome", v6)] + [];
    OneField("verified_outcome", v6, []);
    var f5 := [Field("corrects", v5)] + f6;
    OneField("corrects", v5, f6);
    var f4 := [Field("depends_on", v4)] + f5;
    OneField("depends_on", v4, f5);
    var f3 := [Field("source_ids", v3)] + f4;
    OneField("source_ids", v3, f4);
    var f2 := [Field("section", v2)] + f3;
    OneField("section", v2, f3);
    var f1 := [Field("id", v1)] + f2;
    OneField("id", v1, f2);
    assert f1 == [
      Field("id", v1), Field("section", v2), Field("source_ids", v3), Field("depends_on", v4),
      Field("corrects", v5), Field("verified_outcome", v6)];
    ObjectSize(f1);
  }

  lemma PlainNames()
    ensures Plain("id") && Plain("role") && Plain("reference") && Plain("text") && Plain("call_id")
    ensures Plain("completed") && Plain("exit_code") && Plain("section") && Plain("source_ids")
    ensures Plain("depends_on") && Plain("corrects") && Plain("verified_outcome") && Plain("profile")
    ensures Plain("authority") && Plain("sources") && Plain("groups") && Plain("outcomes")
    ensures Plain("omitted_background_groups") && Plain("max_bytes")
  {
  }

  lemma NoFields()
    ensures Sum([], FieldBytes) == 0
  {
  }

  lemma PartSizes()
    ensures forall x: Source :: TextBytes(SourceText(x)) == SourceBytes(x)
    ensures forall g: Group :: TextBytes(GroupText(g)) == GroupBytes(g)
    ensures forall o: CallOutcome :: TextBytes(OutcomeText(o)) == OutcomeBytes(o)
  {
    hide *;
    forall x: Source
      ensures TextBytes(SourceText(x)) == SourceBytes(x)
    {
      SourceSize(x);
    }
    forall g: Group
      ensures TextBytes(GroupText(g)) == GroupBytes(g)
    {
      GroupSize(g);
    }
    forall o: CallOutcome
      ensures TextBytes(OutcomeText(o)) == OutcomeBytes(o)
    {
      OutcomeSize(o);
    }
  }

  const PROFILE := "handoff/v1"

  /** The length of the sentences that say what a selection may be used for; their wording is a parameter. */
  const AUTHORITY_BYTES := 272

  function SelectionText(s: Selection, authority: string): string {
    ObjectText([
      Field("profile", StringText(PROFILE)),
      Field("authority", StringText(authority)),
      Field("sources", ArrayText(s.sources, SourceText)),
      Field("groups", ArrayText(s.groups, GroupText)),
      Field("outcomes", ArrayText(s.outcomes, OutcomeText)),
      Field("omitted_background_groups", ArrayText(s.omitted, IdText))])
  }

  lemma SelectionSize(s: Selection, authority: string)
    requires EscapedBytes(authority) == AUTHORITY_BYTES
    ensures TextBytes(SelectionText(s, authority)) == SelectionBytes(s)
  {
    hide TextBytes;
    hide Sum;
    hide FieldBytes;
    hide Joined;
    hide Texts;
    hide ArrayText;
    hide ArrayBytes;
    hide IdText;
    hide StringText;
    hide Plain;
    hide ObjectText;
    PlainNames();
    NoFields();
    PartSizes();
    ProfileSize();
    StringSize(authority);
    assert StringBytes(authority) == 2 + AUTHORITY_BYTES;
    ArraySize(s.sources, SourceText, SourceBytes);
    ArraySize(s.groups, GroupText, GroupBytes);
    ArraySize(s.outcomes, OutcomeText, OutcomeBytes);
    IdsSize(s.omitted);
    var v1 := StringText(PROFILE);
    var v2 := StringText(authority);
    var v3 := ArrayText(s.sources, SourceText);
    var v4 := ArrayText(s.groups, GroupText);
    var v5 := ArrayText(s.outcomes, OutcomeText);
    var v6 := ArrayText(s.omitted, IdText);
    var f6 := [Field("omitted_background_groups", v6)] + [];
    OneField("omitted_background_groups", v6, []);
    var f5 := [Field("outcomes", v5)] + f6;
    OneField("outcomes", v5, f6);
    var f4 := [Field("groups", v4)] + f5;
    OneField("groups", v4, f5);
    var f3 := [Field("sources", v3)] + f4;
    OneField("sources", v3, f4);
    var f2 := [Field("authority", v2)] + f3;
    OneField("authority", v2, f3);
    var f1 := [Field("profile", v1)] + f2;
    OneField("profile", v1, f2);
    assert f1 == [
      Field("profile", v1), Field("authority", v2), Field("sources", v3), Field("groups", v4),
      Field("outcomes", v5), Field("omitted_background_groups", v6)];
    ObjectSize(f1);
  }

  function HandoffText(h: Handoff): string {
    ObjectText([
      Field("sources", ArrayText(h.sources, SourceText)),
      Field("groups", ArrayText(h.groups, GroupText)),
      Field("outcomes", ArrayText(h.outcomes, OutcomeText)),
      Field("max_bytes", IntText(h.maxBytes))])
  }

  lemma HandoffSize(h: Handoff)
    ensures TextBytes(HandoffText(h)) == HandoffBytes(h)
  {
    hide TextBytes;
    hide Sum;
    hide FieldBytes;
    hide Joined;
    hide Texts;
    hide ArrayText;
    hide ArrayBytes;
    hide IdText;
    hide StringText;
    hide StringBytes;
    hide Plain;
    hide ObjectText;
    PlainNames();
    NoFields();
    PartSizes();
    ArraySize(h.sources, SourceText, SourceBytes);
    ArraySize(h.groups, GroupText, GroupBytes);
    ArraySize(h.outcomes, OutcomeText, OutcomeBytes);
    IntSize(h.maxBytes);
    var v1 := ArrayText(h.sources, SourceText);
    var v2 := ArrayText(h.groups, GroupText);
    var v3 := ArrayText(h.outcomes, OutcomeText);
    var v4 := IntText(h.maxBytes);
    var f4 := [Field("max_bytes", v4)] + [];
    OneField("max_bytes", v4, []);
    var f3 := [Field("outcomes", v3)] + f4;
    OneField("outcomes", v3, f4);
    var f2 := [Field("groups", v2)] + f3;
    OneField("groups", v2, f3);
    var f1 := [Field("sources", v1)] + f2;
    OneField("sources", v1, f2);
    assert f1 == [Field("sources", v1), Field("groups", v2), Field("outcomes", v3), Field("max_bytes", v4)];
    ObjectSize(f1);
  }

  /** Text that needs no escape is as long as it looks. */
  lemma {:induction false} UnescapedSize(s: string)
    requires NeedsNoEscape(s)
    ensures EscapedBytes(s) == |s|
  {
    if s != "" {
      UnescapedSize(s[1..]);
    }
  }

  predicate NeedsNoEscape(s: string) {
    forall i :: 0 <= i < |s| ==> 0x20 <= s[i] as int < 0x7F && s[i] != '"' && s[i] != '\\'
  }

  lemma ProfileSize()
    ensures TextBytes(StringText(PROFILE)) == 2 + |PROFILE|
  {
    hide TextBytes;
    hide EscapedBytes;
    hide StringText;
    StringSize(PROFILE);
    assert NeedsNoEscape(PROFILE);
    UnescapedSize(PROFILE);
  }
}
