// Which parts of a Git diff may be shown
// (crates/localoud-mcp/src/lib.rs: `git_header_path`, `filter_diff`, `safe_path`).
//
// Text is modelled by its UTF-8 bytes, each written as the character of that
// code, so every string here holds characters below 256 only.
module Diffs {
  import opened Common
  import opened Utf8

  // ---- Git's path quoting ----

  predicate IsOctal(c: char) {
    '0' <= c <= '7'
  }

  function Byte(n: int): char
    requires 0 <= n < 256
  {
    n as char
  }

  function OctalValue(a: char, b: char, c: char): char
    requires '0' <= a <= '3' && IsOctal(b) && IsOctal(c)
  {
    Byte((a as int - '0' as int) * 64 + (b as int - '0' as int) * 8 + (c as int - '0' as int))
  }

  function NamedEscape(c: char): Option<char> {
    match c
    case '\\' => Some('\\')
    case '"' => Some('"')
    case 't' => Some('\t')
    case 'n' => Some('\n')
    case 'r' => Some('\r')
    case _ => None
  }

  /** One unit of quoted text: the byte it stands for and how long it is. */
  function Unit(s: string): (r: Option<(char, nat)>)
    requires s != ""
    ensures r.Some? ==> 0 < r.value.1 <= |s|
  {
    if s[0] != '\\' then Some((s[0], 1))
    else if |s| < 2 then None
    else if '0' <= s[1] <= '3' then
      if |s| >= 4 && IsOctal(s[2]) && IsOctal(s[3]) then Some((OctalValue(s[1], s[2], s[3]), 4)) else None
    else if NamedEscape(s[1]).Some? then Some((NamedEscape(s[1]).value, 2))
    else None
  }

  function Decode(s: string): Option<string> {
    if s == "" then Some("")
    else
      var unit := Unit(s);
      if unit.None? then None
      else
        var rest := Decode(s[unit.value.1..]);
        if rest.None? then None else Some([unit.value.0] + rest.value)
  }

  function TrimTabs(s: string): string {
    if s != "" && s[|s| - 1] == '\t' then TrimTabs(s[..|s| - 1]) else s
  }

  /** The path a header line names. */
  function HeaderPath(line: string): Option<string> {
    var raw := TrimTabs(line);
    if raw == "" || raw[0] != '"' then Some(raw)
    else if |raw| < 2 || raw[|raw| - 1] != '"' then None
    else
      var path := Decode(raw[1..|raw| - 1]);
      if path.Some? && ValidUtf8(path.value) then path else None
  }

  /** Three octal digits of a byte. */
  function OctalDigits(c: char): (s: string)
    requires c as int < 256
    ensures |s| == 3
  {
    var n := c as int;
    [('0' as int + n / 64) as char, ('0' as int + n / 8 % 8) as char, ('0' as int + n % 8) as char]
  }

  /** The quoting of one byte that the decoder knows: a named escape, three octal digits, or the byte itself. */
  function QuoteByte(c: char): string
    requires c as int < 256
  {
    if c == '\\' then "\\\\" else if c == '"' then "\\\""
    else if c == '\t' then "\\t" else if c == '\n' then "\\n" else if c == '\r' then "\\r"
    else if c as int < 0x20 || c as int >= 0x7F then "\\" + OctalDigits(c)
    else [c]
  }

  function Quote(path: string): string
    requires IsBytes(path)
  {
    if path == "" then "" else QuoteByte(path[0]) + Quote(path[1..])
  }

  lemma QuotedByteDecodes(c: char, rest: string)
    requires c as int < 256
    ensures Unit(QuoteByte(c) + rest) == Some((c, |QuoteByte(c)|))
  {
    var s := QuoteByte(c) + rest;
    if (c as int < 0x20 || c as int >= 0x7F) && c !in "\t\n\r" {
      var digits := OctalDigits(c);
      OctalValueOfDigits(c);
      assert s[0] == '\\' && s[1] == digits[0] && s[2] == digits[1] && s[3] == digits[2];
    }
  }

  lemma OctalValueOfDigits(c: char)
    requires c as int < 256
    ensures var d := OctalDigits(c);
      '0' <= d[0] <= '3' && IsOctal(d[1]) && IsOctal(d[2]) && OctalValue(d[0], d[1], d[2]) == c
  {
    var n := c as int;
    assert n == (n / 64) * 64 + (n / 8 % 8) * 8 + n % 8;
  }

  lemma {:induction false} DecodeUndoesQuote(path: string)
    requires IsBytes(path)
    ensures Decode(Quote(path)) == Some(path)
  {
    if path != "" {
      var rest := Quote(path[1..]);
      QuotedByteDecodes(path[0], rest);
      assert (QuoteByte(path[0]) + rest)[|QuoteByte(path[0])|..] == rest;
      DecodeUndoesQuote(path[1..]);
      assert path == [path[0]] + path[1..];
    }
  }

  lemma {:induction false} TrimTabsOfQuoted(quoted: string, tabs: string)
    requires (quoted != "" ==> quoted[|quoted| - 1] != '\t') && forall i :: 0 <= i < |tabs| ==> tabs[i] == '\t'
    ensures TrimTabs(quoted + tabs) == quoted
  {
    if tabs == "" {
      assert quoted + tabs == quoted;
    } else {
      assert (quoted + tabs)[..|quoted + tabs| - 1] == quoted + tabs[..|tabs| - 1];
      TrimTabsOfQuoted(quoted, tabs[..|tabs| - 1]);
    }
  }

  /** Decoding undoes the quoting, trailing tabs or not; a path that is not UTF-8 is refused. */
  lemma HeaderPathUndoesQuote(path: string, tabs: string)
    requires IsBytes(path) && forall i :: 0 <= i < |tabs| ==> tabs[i] == '\t'
    ensures HeaderPath("\"" + Quote(path) + "\"" + tabs) == if ValidUtf8(path) then Some(path) else None
  {
    var quoted := "\"" + Quote(path) + "\"";
    TrimTabsOfQuoted(quoted, tabs);
    assert quoted[1..|quoted| - 1] == Quote(path);
    DecodeUndoesQuote(path);
  }

  // ---- Git's own quoting ----

  /** The control bytes Git writes with the letters `a`, `b`, `v` and `f`. */
  function LetterEscape(c: char): Option<string> {
    match c as int
    case 7 => Some("\\a")
    case 8 => Some("\\b")
    case 11 => Some("\\v")
    case 12 => Some("\\f")
    case _ => None
  }

  function GitQuoteByte(c: char): string
    requires c as int < 256
  {
    if LetterEscape(c).Some? then LetterEscape(c).value else QuoteByte(c)
  }

  function GitQuote(path: string): string
    requires IsBytes(path)
  {
    if path == "" then "" else GitQuoteByte(path[0]) + GitQuote(path[1..])
  }

  predicate NeedsQuoting(path: string)
    requires IsBytes(path)
  {
    exists i :: 0 <= i < |path| && GitQuoteByte(path[i]) != [path[i]]
  }

  /** How Git writes a path in a header line: in quotes if some byte of it must be escaped. */
  function GitName(path: string): string
    requires IsBytes(path)
  {
    if NeedsQuoting(path) then "\"" + GitQuote(path) + "\"" else path
  }

  predicate NoLetterEscape(path: string) {
    forall i :: 0 <= i < |path| ==> LetterEscape(path[i]).None?
  }

  lemma {:induction false} DecodeGitQuote(path: string)
    requires IsBytes(path)
    ensures Decode(GitQuote(path)) == if NoLetterEscape(path) then Some(path) else None
  {
    if path != "" {
      var c, rest := path[0], GitQuote(path[1..]);
      DecodeGitQuote(path[1..]);
      assert NoLetterEscape(path) <==> LetterEscape(c).None? && NoLetterEscape(path[1..]);
      if LetterEscape(c).None? {
        QuotedByteDecodes(c, rest);
        assert (QuoteByte(c) + rest)[|QuoteByte(c)|..] == rest;
        assert path == [c] + path[1..];
      } else {
        LetterEscapeRefused(c, rest);
      }
    }
  }

  lemma LetterEscapeRefused(c: char, rest: string)
    requires LetterEscape(c).Some?
    ensures Unit(LetterEscape(c).value + rest) == None
  {
  }

  lemma {:induction false} PlainIsUtf8(path: string)
    requires forall i :: 0 <= i < |path| ==> (path[i] as int) < 0x80
    ensures ValidUtf8(path)
  {
    if path != "" {
      PlainIsUtf8(path[1..]);
    }
  }

  lemma PlainByte(c: char)
    requires c as int < 256 && GitQuoteByte(c) == [c]
    ensures 0x20 <= c as int < 0x7F && c != '"' && LetterEscape(c).None?
  {
  }

  lemma UnquotedName(path: string, tabs: string)
    requires IsBytes(path) && !NeedsQuoting(path) && forall i :: 0 <= i < |tabs| ==> tabs[i] == '\t'
    ensures HeaderPath(path + tabs) == Some(path) && ValidUtf8(path) && NoLetterEscape(path)
  {
    forall i | 0 <= i < |path|
      ensures 0x20 <= path[i] as int < 0x7F && path[i] != '"' && LetterEscape(path[i]).None?
    {
      assert GitQuoteByte(path[i]) == [path[i]];
      PlainByte(path[i]);
    }
    PlainIsUtf8(path);
    TrimTabsOfQuoted(path, tabs);
  }

  /** The decoder undoes what Git writes, trailing tabs or not, exactly on the UTF-8 paths without the
      bytes 7, 8, 11 and 12, and refuses every other path. */
  lemma HeaderPathUndoesGitIff(path: string, tabs: string)
    requires IsBytes(path) && forall i :: 0 <= i < |tabs| ==> tabs[i] == '\t'
    ensures HeaderPath(GitName(path) + tabs) == if ValidUtf8(path) && NoLetterEscape(path) then Some(path) else None
  {
    if NeedsQuoting(path) {
      var quoted := "\"" + GitQuote(path) + "\"";
      TrimTabsOfQuoted(quoted, tabs);
      assert quoted[1..|quoted| - 1] == GitQuote(path);
      DecodeGitQuote(path);
    } else {
      UnquotedName(path, tabs);
    }
  }

  /** A path with a bell in it, as Git writes it, is refused although it is UTF-8. */
  lemma BellIsRefused()
    ensures var path := "a/" + [7 as char];
      IsBytes(path) && ValidUtf8(path) && GitName(path) == "\"a/\\a\"" && HeaderPath(GitName(path)) == None
  {
    var path := "a/" + [7 as char];
    PlainIsUtf8(path);
    assert path[0] == 'a' && path[1] == '/' && path[2] == 7 as char;
    assert GitQuoteByte(path[2]) != [path[2]];
    assert path[1..][1..] == path[2..] && path[2..][1..] == "";
    assert GitQuote(path[2..]) == "\\a" + GitQuote("");
    assert GitQuote(path[1..]) == "/" + GitQuote(path[2..]);
    assert GitQuote(path) == "a" + GitQuote(path[1..]);
    HeaderPathUndoesGitIff(path, "");
    assert GitName(path) + "" == GitName(path);
    assert LetterEscape(path[2]).Some?;
  }

  /** Any other escape is refused, wherever it stands. */
  lemma {:induction false} OtherEscapesAreRefused(path: string, c: char, rest: string)
    requires IsBytes(path) && !('0' <= c <= '3') && NamedEscape(c).None?
    ensures Decode(Quote(path) + "\\" + [c] + rest) == None
  {
    var text := Quote(path) + "\\" + [c] + rest;
    if path == "" {
      assert text[0] == '\\' && text[1] == c;
    } else {
      var tail := Quote(path[1..]) + "\\" + [c] + rest;
      assert text == QuoteByte(path[0]) + tail;
      QuotedByteDecodes(path[0], tail);
      assert text[|QuoteByte(path[0])|..] == tail;
      OtherEscapesAreRefused(path[1..], c, rest);
    }
  }

  function Prefixed(out: string, rest: Option<string>): (r: Option<string>)
    ensures out == "" ==> r == rest
  {
    if rest.None? then None
    else
      assert out == "" ==> out + rest.value == rest.value;
      Some(out + rest.value)
  }

  lemma DecodeStep(bytes: string, i: nat, out: string)
    requires i < |bytes|
    ensures Unit(bytes[i..]).None? ==> Decode(bytes[i..]) == None
    ensures Unit(bytes[i..]).Some? ==>
      var (c, n) := Unit(bytes[i..]).value;
      Prefixed(out, Decode(bytes[i..])) == Prefixed(out + [c], Decode(bytes[i + n..]))
  {
    if Unit(bytes[i..]).Some? {
      var (c, n) := Unit(bytes[i..]).value;
      assert bytes[i..][n..] == bytes[i + n..];
      var rest := Decode(bytes[i + n..]);
      if rest.Some? {
        Regroup(out, [c], rest.value);
      }
    }
  }

  /** The decoding loop. */
  method GitHeaderPath(line: string) returns (r: Option<string>)
    ensures r == HeaderPath(line)
  {
    var raw := TrimTabs(line);
    if raw == "" || raw[0] != '"' {
      return Some(raw);
    }
    if |raw| < 2 || raw[|raw| - 1] != '"' {
      return None;
    }
    var bytes := raw[1..|raw| - 1];
    var out := "";
    var i := 0;
    assert bytes[0..] == bytes;
    while i < |bytes|
      invariant 0 <= i <= |bytes|
      invariant Decode(bytes) == Prefixed(out, Decode(bytes[i..]))
    {
      DecodeStep(bytes, i, out);
      if bytes[i] != '\\' {
        out := out + [bytes[i]];
        i := i + 1;
        continue;
      }
      i := i + 1;
      if i >= |bytes| {
        return None;
      }
      var c := bytes[i];
      if '0' <= c <= '3' {
        if i + 2 >= |bytes| {
          return None;
        }
        var b, d := bytes[i + 1], bytes[i + 2];
        if !IsOctal(b) || !IsOctal(d) {
          return None;
        }
        out := out + [OctalValue(c, b, d)];
        i := i + 3;
      } else {
        var named := NamedEscape(c);
        if named.None? {
          return None;
        }
        out := out + [named.value];
        i := i + 1;
      }
    }
    assert bytes[i..] == "" && out + "" == out;
    r := if ValidUtf8(out) then Some(out) else None;
  }

  // ---- Which paths may be shown ----

  function SplitAt(s: string, sep: char): (parts: seq<string>)
    ensures |parts| > 0
  {
    if s == "" then [""]
    else
      var rest := SplitAt(s[1..], sep);
      if s[0] == sep then [""] + rest else [[s[0]] + rest[0]] + rest[1..]
  }

  /** The parts with the separator between them. */
  function JoinWith(parts: seq<string>, sep: char): string
    requires parts != []
  {
    if |parts| == 1 then parts[0] else parts[0] + [sep] + JoinWith(parts[1..], sep)
  }

  /** The parts are what stands between the separators: put together they are the text, and none of them
      holds one. */
  lemma {:induction false} SplitAtHolds(s: string, sep: char)
    ensures JoinWith(SplitAt(s, sep), sep) == s
    ensures forall p :: p in SplitAt(s, sep) ==> sep !in p
  {
    if s != "" {
      var rest := SplitAt(s[1..], sep);
      SplitAtHolds(s[1..], sep);
      assert s == [s[0]] + s[1..];
      if s[0] == sep {
        assert ([""] + rest)[1..] == rest;
      } else {
        assert ([[s[0]] + rest[0]] + rest[1..])[1..] == rest[1..];
      }
    }
  }

  predicate StartsWith(s: string, prefix: string) {
    |prefix| <= |s| && s[..|prefix|] == prefix
  }

  predicate EndsWith(s: string, suffix: string) {
    |suffix| <= |s| && s[|s| - |suffix|..] == suffix
  }

  const HIDDEN_DIRECTORIES := ["node_modules", "target", "vendor", "__pycache__"]
  const SECRET_NAMES := [
    "id_rsa", "id_ed25519", "id_ecdsa", "auth.json", "tokens.json", "token.txt", "service-account.json"]

  predicate SafePart(part: string) {
    var p := Lower(part);
    && p != "" && p != "." && p != ".." && !StartsWith(p, ".")
    && p !in HIDDEN_DIRECTORIES && !Occurs("secret", p) && !Occurs("credential", p) && p !in SECRET_NAMES
    && !EndsWith(p, ".pem") && !EndsWith(p, ".key") && !EndsWith(p, ".p12") && !EndsWith(p, ".pfx")
  }

  predicate SafePath(path: string) {
    && path != ""
    && (forall c :: c in path ==> c !in "\\\0\n\r\t")
    && forall p :: p in SplitAt(path, '/') ==> SafePart(p)
  }

  predicate Publishable(path: string) {
    path == "/dev/null"
    || SafePath(if StartsWith(path, "a/") || StartsWith(path, "b/") then path[2..] else path)
  }

  /** No part of a publishable path leads upwards, hides, or is empty, so the path is relative and stays
      inside. */
  lemma PublishableStaysInside(path: string)
    requires Publishable(path) && path != "/dev/null"
    ensures var shown := if StartsWith(path, "a/") || StartsWith(path, "b/") then path[2..] else path;
      && shown != "" && shown[0] != '/'
      && forall p :: p in SplitAt(shown, '/') ==> p != "" && p != ".." && p[0] != '.' && '/' !in p
  {
    var shown := if StartsWith(path, "a/") || StartsWith(path, "b/") then path[2..] else path;
    SplitAtHolds(shown, '/');
    forall p | p in SplitAt(shown, '/')
      ensures p != "" && p[0] != '.'
    {
      SafePartShape(p);
    }
    hide SafePart;
    AbsoluteSplits(shown);
  }

  /** Which parts a publishable path may have, upper or lower case. */
  lemma SafePartIff(p: string)
    ensures SafePart(p) <==>
      && p != "" && p[0] != '.'
      && Lower(p) !in ["node_modules", "target", "vendor", "__pycache__"]
      && !Occurs("secret", Lower(p)) && !Occurs("credential", Lower(p))
      && Lower(p) !in [
        "id_rsa", "id_ed25519", "id_ecdsa", "auth.json", "tokens.json", "token.txt", "service-account.json"]
      && !EndsWith(Lower(p), ".pem") && !EndsWith(Lower(p), ".key")
      && !EndsWith(Lower(p), ".p12") && !EndsWith(Lower(p), ".pfx")
  {
    hide Occurs;
    hide EndsWith;
    DottedIff(p);
    hide StartsWith;
    hide Lower;
  }

  /** Parts that begin with a dot are `.`, `..` and hidden ones. */
  lemma DottedIff(p: string)
    ensures Lower(p) == "" <==> p == ""
    ensures p != "" ==> (StartsWith(Lower(p), ".") <==> p[0] == '.')
    ensures StartsWith(".", ".") && StartsWith("..", ".")
  {
    if p != "" {
      assert Lower(p)[..1] == [Lower(p)[0]];
    }
    assert "."[..1] == "." && ".."[..1] == ".";
  }

  /** A path is publishable exactly if it is `/dev/null` or, without Git's prefix, has no backslash or control
      character of the four and only parts like that. */
  lemma PublishableIff(path: string)
    ensures Publishable(path) <==>
      path == "/dev/null"
      || var shown := if StartsWith(path, "a/") || StartsWith(path, "b/") then path[2..] else path;
         && shown != "" && '\\' !in shown && '\0' !in shown && '\n' !in shown && '\r' !in shown && '\t' !in shown
         && forall p :: p in SplitAt(shown, '/') ==> SafePart(p)
  {
    hide SafePart;
  }

  lemma SafePartShape(p: string)
    requires SafePart(p)
    ensures p != "" && p[0] != '.'
  {
    var low := Lower(p);
    assert low != "" && low[..1] == [low[0]];
    assert !StartsWith(low, ".");
  }

  lemma AbsoluteSplits(s: string)
    ensures s != "" && s[0] == '/' ==> "" in SplitAt(s, '/')
  {
  }

  // ---- Lines and blocks ----

  /** Where the first line of a nonempty text ends, its newline included. */
  function LineEnd(s: string): (n: nat)
    requires s != ""
    ensures 0 < n <= |s|
    ensures forall i :: 0 <= i < n - 1 ==> s[i] != '\n'
    ensures n < |s| ==> s[n - 1] == '\n'
  {
    if s[0] == '\n' || |s| == 1 then 1 else 1 + LineEnd(s[1..])
  }

  /** `split_inclusive('\n')`. */
  function Lines(s: string): seq<string> {
    if s == "" then [] else [s[..LineEnd(s)]] + Lines(s[LineEnd(s)..])
  }

  function Join(lines: seq<string>): string {
    if lines == [] then "" else lines[0] + Join(lines[1..])
  }

  /** `lines()` drops a line's newline, and a carriage return before it. */
  function Bare(line: string): string {
    if line != "" && line[|line| - 1] == '\n' then
      var cut := line[..|line| - 1];
      if cut != "" && cut[|cut| - 1] == '\r' then cut[..|cut| - 1] else cut
    else line
  }

  predicate OpensBlock(line: string) {
    StartsWith(line, "diff --git ")
  }

  predicate EndsHeader(line: string) {
    StartsWith(line, "@@") || line == "GIT binary patch"
  }

  /** The raw paths of the header lines of a block. */
  function HeaderLines(lines: seq<string>): seq<string> {
    if lines == [] || EndsHeader(Bare(lines[0])) then []
    else
      var line := Bare(lines[0]);
      (if StartsWith(line, "+++ ") || StartsWith(line, "--- ") then [line[4..]] else []) + HeaderLines(lines[1..])
  }

  /** A line's text is the line without its end. */
  lemma BareIs(text: string)
    requires '\n' !in text
    ensures Bare(text) == text
    ensures Bare(text + "\r\n") == text
    ensures (text == "" || text[|text| - 1] != '\r') ==> Bare(text + "\n") == text
  {
    assert (text + "\r\n")[..|text| + 1] == text + "\r";
    assert (text + "\r")[..|text|] == text;
    assert (text + "\n")[..|text|] == text;
  }

  ghost predicate HasEnd(lines: seq<string>) {
    exists i :: 0 <= i < |lines| && EndsHeader(Bare(lines[i]))
  }

  lemma HasEndStep(lines: seq<string>)
    requires lines != []
    ensures HasEnd(lines) <==> EndsHeader(Bare(lines[0])) || HasEnd(lines[1..])
  {
    hide EndsHeader;
    hide Bare;
    if i :| 0 <= i < |lines| && EndsHeader(Bare(lines[i])) {
      assert i > 0 ==> lines[1..][i - 1] == lines[i];
    }
    if i :| 0 <= i < |lines[1..]| && EndsHeader(Bare(lines[1..][i])) {
      assert lines[i + 1] == lines[1..][i];
    }
  }

  /** The header lines of a block are those before the first line that ends the header, in order. */
  lemma {:induction false} HeaderLinesAppend(a: seq<string>, b: seq<string>)
    ensures HeaderLines(a + b) == if HasEnd(a) then HeaderLines(a) else HeaderLines(a) + HeaderLines(b)
  {
    hide EndsHeader;
    hide Bare;
    hide StartsWith;
    if a == [] {
      assert a + b == b;
    } else {
      var rest := a[1..];
      HasEndStep(a);
      hide HasEnd;
      HeaderLinesAppend(rest, b);
      HeaderLinesCons(a);
      assert (a + b)[1..] == rest + b && (a + b)[0] == a[0];
      HeaderLinesCons(a + b);
      hide HeaderLines;
      if !EndsHeader(Bare(a[0])) && !HasEnd(rest) {
        RegroupLists(HeaderLine(a[0]), HeaderLines(rest), HeaderLines(b));
      }
    }
  }

  lemma RegroupLists(a: seq<string>, b: seq<string>, c: seq<string>)
    ensures (a + b) + c == a + (b + c)
  {
  }

  /** The path on a line, if it is a header line. */
  function HeaderLine(line: string): seq<string> {
    if StartsWith(Bare(line), "+++ ") || StartsWith(Bare(line), "--- ") then [Bare(line)[4..]] else []
  }

  lemma HeaderLinesCons(lines: seq<string>)
    requires lines != []
    ensures HeaderLines(lines) ==
      if EndsHeader(Bare(lines[0])) then [] else HeaderLine(lines[0]) + HeaderLines(lines[1..])
  {
    hide EndsHeader;
    hide Bare;
  }

  lemma OneHeaderLine(line: string)
    ensures HeaderLines([line]) ==
      if !StartsWith(Bare(line), "@@") && Bare(line) != "GIT binary patch"
        && (StartsWith(Bare(line), "+++ ") || StartsWith(Bare(line), "--- "))
      then [Bare(line)[4..]] else []
  {
    assert [line][1..] == [];
  }

  /** A block is shown if it has header paths and every one decodes to a publishable path. */
  predicate Allowed(lines: seq<string>) {
    && HeaderLines(lines) != []
    && forall raw :: raw in HeaderLines(lines) ==> HeaderPath(raw).Some? && Publishable(HeaderPath(raw).value)
  }

  /** The lines before the first block, and the blocks. */
  function Split(lines: seq<string>): (seq<string>, seq<seq<string>>) {
    if lines == [] then ([], [])
    else
      var (lead, blocks) := Split(lines[1..]);
      if OpensBlock(lines[0]) then ([], [[lines[0]] + lead] + blocks) else ([lines[0]] + lead, blocks)
  }

  function Blocks(diff: string): seq<seq<string>> {
    Split(Lines(diff)).1
  }

  function KeepAllowed(blocks: seq<seq<string>>): seq<seq<string>> {
    if blocks == [] then []
    else if Allowed(blocks[0]) then [blocks[0]] + KeepAllowed(blocks[1..])
    else KeepAllowed(blocks[1..])
  }

  function JoinAll(blocks: seq<seq<string>>): string {
    if blocks == [] then "" else Join(blocks[0]) + JoinAll(blocks[1..])
  }

  // ---- Lines come back together ----

  lemma Regroup(a: string, b: string, c: string)
    ensures (a + b) + c == a + (b + c)
  {
  }

  lemma Middle(a: string, b: string, c: string)
    ensures (a + (b + c))[|a|..|a| + |b|] == b
  {
  }

  lemma {:induction false} JoinOfLines(s: string)
    ensures Join(Lines(s)) == s
  {
    if s != "" {
      JoinOfLines(s[LineEnd(s)..]);
    }
  }

  lemma {:induction false} JoinAppend(a: seq<string>, b: seq<string>)
    ensures Join(a + b) == Join(a) + Join(b)
  {
    if a == [] {
      assert a + b == b;
    } else {
      JoinAppend(a[1..], b);
      assert (a + b)[1..] == a[1..] + b && (a + b)[0] == a[0];
      Regroup(a[0], Join(a[1..]), Join(b));
    }
  }

  // ---- Where the blocks start ----

  /** The offsets of the lines that open a block, counted from `base`. */
  function Offsets(lines: seq<string>, base: nat): seq<nat> {
    if lines == [] then []
    else (if OpensBlock(lines[0]) then [base] else []) + Offsets(lines[1..], base + |lines[0]|)
  }

  lemma {:induction false} OffsetsAppend(lines: seq<string>, line: string, base: nat)
    ensures Offsets(lines + [line], base) ==
      Offsets(lines, base) + if OpensBlock(line) then [base + |Join(lines)|] else []
  {
    hide OpensBlock;
    var all := lines + [line];
    if lines == [] {
      assert all == [line] && all[1..] == [];
    } else {
      var rest := Offsets(lines[1..], base + |lines[0]|);
      assert all[1..] == lines[1..] + [line] && all[0] == lines[0];
      OffsetsAppend(lines[1..], line, base + |lines[0]|);
      assert |Join(lines)| == |lines[0]| + |Join(lines[1..])|;
      assert Offsets(all, base) == (if OpensBlock(lines[0]) then [base] else []) + Offsets(all[1..], base + |lines[0]|);
    }
  }

  /** Consecutive offsets bound exactly the blocks. */
  ghost predicate Bounds(text: string, offsets: seq<nat>, blocks: seq<seq<string>>) {
    && |offsets| == |blocks| + 1
    && (forall k :: 0 <= k < |offsets| ==> offsets[k] <= |text|)
    && forall k, l :: 0 <= k < l < |offsets| && l == k + 1 ==>
      offsets[k] <= offsets[l] && text[offsets[k]..offsets[l]] == Join(blocks[k])
  }

  lemma {:induction false} SplitJoins(lines: seq<string>)
    ensures Join(lines) == Join(Split(lines).0) + JoinAll(Split(lines).1)
  {
    hide OpensBlock;
    if lines != [] {
      var (lead, blocks) := Split(lines[1..]);
      SplitJoins(lines[1..]);
      assert ([lines[0]] + lead)[1..] == lead;
      Regroup(lines[0], Join(lead), JoinAll(blocks));
    }
  }

  /** The offsets of the opening lines, and of the end. */
  function Marks(lines: seq<string>, base: nat): (r: seq<nat>)
    ensures r != []
  {
    Offsets(lines, base) + [base + |Join(lines)|]
  }

  lemma MarksStep(lines: seq<string>, base: nat)
    requires lines != []
    ensures Marks(lines, base) ==
      (if OpensBlock(lines[0]) then [base] else []) + Marks(lines[1..], base + |lines[0]|)
  {
    hide OpensBlock;
    var rest := Offsets(lines[1..], base + |lines[0]|);
    assert |Join(lines)| == |lines[0]| + |Join(lines[1..])|;
  }

  lemma SplitStep(lines: seq<string>)
    requires lines != []
    ensures var (lead, blocks) := Split(lines[1..]);
      Split(lines) == if OpensBlock(lines[0]) then ([], [[lines[0]] + lead] + blocks) else ([lines[0]] + lead, blocks)
    ensures Join([lines[0]] + Split(lines[1..]).0) == lines[0] + Join(Split(lines[1..]).0)
  {
    var (lead, blocks) := Split(lines[1..]);
    assert ([lines[0]] + lead)[1..] == lead;
  }

  lemma NoBlocks(prefix: string)
    ensures Bounds(prefix + Join([]), Marks([], |prefix|), Split([]).1)
    ensures Marks([], |prefix|)[0] == |prefix| + |Join(Split([]).0)|
  {
  }

  lemma {:induction false} OffsetsBoundBlocks(prefix: string, lines: seq<string>)
    ensures Bounds(prefix + Join(lines), Marks(lines, |prefix|), Split(lines).1)
    ensures Marks(lines, |prefix|)[0] == |prefix| + |Join(Split(lines).0)|
    decreases lines
  {
    hide Bounds;
    hide Marks;
    hide OpensBlock;
    if lines == [] {
      NoBlocks(prefix);
    }
    if lines != [] {
      var line, rest := lines[0], lines[1..];
      var (lead, blocks) := Split(rest);
      Regroup(prefix, line, Join(rest));
      OffsetsBoundBlocks(prefix + line, rest);
      MarksStep(lines, |prefix|);
      SplitStep(lines);
      assert |prefix + line| == |prefix| + |line|;
      if OpensBlock(line) {
        SplitJoins(rest);
        OpenedBlock(prefix, line, lead, blocks, prefix + Join(lines), Marks(rest, |prefix + line|));
      } else {
        assert Marks(lines, |prefix|) == Marks(rest, |prefix + line|);
      }
    }
  }

  lemma OpenedBlock(
    prefix: string, line: string, lead: seq<string>, blocks: seq<seq<string>>, text: string, offsets: seq<nat>)
    requires text == prefix + (line + (Join(lead) + JoinAll(blocks)))
    requires Bounds(text, offsets, blocks) && offsets[0] == |prefix| + |line| + |Join(lead)|
    ensures Bounds(text, [|prefix|] + offsets, [[line] + lead] + blocks)
  {
    assert ([line] + lead)[1..] == lead;
    Regroup(line, Join(lead), JoinAll(blocks));
    Middle(prefix, line + Join(lead), JoinAll(blocks));
    BoundsCons(text, |prefix|, offsets, [line] + lead, blocks);
  }

  lemma BoundsCons(text: string, at: nat, offsets: seq<nat>, block: seq<string>, blocks: seq<seq<string>>)
    requires Bounds(text, offsets, blocks) && at <= offsets[0] && text[at..offsets[0]] == Join(block)
    ensures Bounds(text, [at] + offsets, [block] + blocks)
  {
    hide Join;
    var all, both := [at] + offsets, [block] + blocks;
    forall k, l | 0 <= k < l < |all| && l == k + 1
      ensures all[k] <= all[l] && text[all[k]..all[l]] == Join(both[k])
    {
      if k > 0 {
        assert all[k] == offsets[k - 1] && all[l] == offsets[k] && both[k] == blocks[k - 1];
      }
    }
  }

  // ---- Lines of joined lines ----

  /** One line: nothing after its newline, and a newline unless it is the last. */
  predicate IsLine(line: string, last: bool) {
    && line != "" && (forall i :: 0 <= i < |line| - 1 ==> line[i] != '\n')
    && (!last ==> line[|line| - 1] == '\n')
  }

  predicate AreLines(lines: seq<string>) {
    forall i :: 0 <= i < |lines| ==> IsLine(lines[i], i == |lines| - 1)
  }

  lemma {:induction false} LineEndOfLine(line: string, rest: string)
    requires IsLine(line, rest == "")
    ensures LineEnd(line + rest) == |line|
  {
    var s := line + rest;
    if |line| > 1 {
      assert s[0] != '\n' && s[1..] == line[1..] + rest;
      LineEndOfLine(line[1..], rest);
    }
  }

  lemma {:induction false} LinesOfJoin(lines: seq<string>)
    requires AreLines(lines)
    ensures Lines(Join(lines)) == lines
  {
    if lines != [] {
      var rest := Join(lines[1..]);
      JoinEmptyIff(lines[1..]);
      LineEndOfLine(lines[0], rest);
      assert AreLines(lines[1..]);
      LinesOfJoin(lines[1..]);
    }
  }

  lemma JoinEmptyIff(lines: seq<string>)
    requires forall i :: 0 <= i < |lines| ==> lines[i] != ""
    ensures Join(lines) == "" <==> lines == []
  {
  }

  lemma {:induction false} LinesAreLines(s: string)
    ensures AreLines(Lines(s))
  {
    if s != "" {
      var rest := s[LineEnd(s)..];
      LinesAreLines(rest);
      assert Lines(s) == [s[..LineEnd(s)]] + Lines(rest);
      assert Lines(rest) == [] <==> rest == "";
    }
  }

  function Concat(blocks: seq<seq<string>>): seq<string> {
    if blocks == [] then [] else blocks[0] + Concat(blocks[1..])
  }

  /** A block: its first line opens it and no other line opens one. */
  predicate IsBlock(lines: seq<string>) {
    && lines != [] && OpensBlock(lines[0])
    && forall i :: 0 < i < |lines| ==> !OpensBlock(lines[i])
  }

  /** `Split` is the decomposition into a lead without opening lines and blocks. */
  lemma {:induction false} SplitHolds(lines: seq<string>)
    ensures var (lead, blocks) := Split(lines);
      && lines == lead + Concat(blocks)
      && (forall i :: 0 <= i < |lead| ==> !OpensBlock(lead[i]))
      && forall k :: 0 <= k < |blocks| ==> IsBlock(blocks[k])
  {
    hide OpensBlock;
    if lines != [] {
      SplitHolds(lines[1..]);
      assert lines == [lines[0]] + lines[1..];
    }
  }

  /** There is only one such decomposition. */
  lemma {:induction false} SplitIsUnique(lead: seq<string>, blocks: seq<seq<string>>)
    requires forall i :: 0 <= i < |lead| ==> !OpensBlock(lead[i])
    requires forall k :: 0 <= k < |blocks| ==> IsBlock(blocks[k])
    ensures Split(lead + Concat(blocks)) == (lead, blocks)
    decreases |blocks|, |lead|
  {
    hide OpensBlock;
    var lines := lead + Concat(blocks);
    if lead != [] {
      assert lines[0] == lead[0] && lines[1..] == lead[1..] + Concat(blocks);
      SplitIsUnique(lead[1..], blocks);
      assert lead == [lead[0]] + lead[1..];
      assert !OpensBlock(lines[0]);
    } else if blocks != [] {
      var tail := blocks[0][1..];
      assert lines == blocks[0] + Concat(blocks[1..]);
      assert lines[0] == blocks[0][0] && lines[1..] == tail + Concat(blocks[1..]);
      SplitIsUnique(tail, blocks[1..]);
      assert blocks[0] == [blocks[0][0]] + tail && blocks == [blocks[0]] + blocks[1..];
    }
  }

  predicate Ended(lines: seq<string>) {
    forall i :: 0 <= i < |lines| ==> IsLine(lines[i], false)
  }

  /** Blocks made of lines, all but the last ended by a newline. */
  predicate GoodBlocks(blocks: seq<seq<string>>) {
    forall k :: 0 <= k < |blocks| ==>
      IsBlock(blocks[k]) && AreLines(blocks[k]) && (k < |blocks| - 1 ==> Ended(blocks[k]))
  }

  lemma {:induction false} LinesMakeGoodBlocks(lead: seq<string>, blocks: seq<seq<string>>)
    requires AreLines(lead + Concat(blocks)) && forall k :: 0 <= k < |blocks| ==> IsBlock(blocks[k])
    ensures GoodBlocks(blocks)
    decreases blocks
  {
    hide OpensBlock;
    if blocks != [] {
      var all := lead + Concat(blocks);
      var before := lead + blocks[0];
      assert all == before + Concat(blocks[1..]);
      forall i | 0 <= i < |blocks[0]|
        ensures IsLine(blocks[0][i], i == |blocks[0]| - 1)
        ensures |blocks| > 1 ==> IsLine(blocks[0][i], false)
      {
        assert all[|lead| + i] == blocks[0][i];
        if |blocks| > 1 {
          assert Concat(blocks[1..]) == blocks[1] + Concat(blocks[1..][1..]);
          assert IsBlock(blocks[1]);
        }
      }
      LinesMakeGoodBlocks(before, blocks[1..]);
      assert forall k :: 1 <= k < |blocks| ==> blocks[k] == blocks[1..][k - 1];
    }
  }

  lemma {:induction false} GoodBlocksMakeLines(blocks: seq<seq<string>>)
    requires GoodBlocks(blocks)
    ensures AreLines(Concat(blocks))
  {
    hide IsBlock;
    if blocks != [] {
      GoodBlocksMakeLines(blocks[1..]);
    }
  }

  lemma {:induction false} KeepsGoodBlocks(blocks: seq<seq<string>>)
    requires GoodBlocks(blocks)
    ensures GoodBlocks(KeepAllowed(blocks))
  {
    hide IsBlock;
    hide Allowed;
    hide AreLines;
    hide Ended;
    if blocks != [] {
      KeepsGoodBlocks(blocks[1..]);
    }
  }

  lemma BlocksAreGood(diff: string)
    ensures GoodBlocks(Blocks(diff))
  {
    LinesAreLines(diff);
    SplitHolds(Lines(diff));
    LinesMakeGoodBlocks(Split(Lines(diff)).0, Split(Lines(diff)).1);
  }

  lemma {:induction false} JoinOfConcat(blocks: seq<seq<string>>)
    ensures Join(Concat(blocks)) == JoinAll(blocks)
  {
    if blocks != [] {
      JoinOfConcat(blocks[1..]);
      JoinAppend(blocks[0], Concat(blocks[1..]));
    }
  }

  lemma BlockLines(diff: string, k: nat)
    requires k < |Blocks(diff)|
    ensures Lines(Join(Blocks(diff)[k])) == Blocks(diff)[k]
  {
    BlocksAreGood(diff);
    LinesOfJoin(Blocks(diff)[k]);
  }

  // ---- The filter ----

  lemma BoundsAt(text: string, offsets: seq<nat>, blocks: seq<seq<string>>, k: nat)
    requires Bounds(text, offsets, blocks) && k < |blocks|
    ensures |offsets| == |blocks| + 1 && offsets[k] <= offsets[k + 1] <= |text|
    ensures text[offsets[k]..offsets[k + 1]] == Join(blocks[k])
  {
  }

  lemma BoundsCount(text: string, offsets: seq<nat>, blocks: seq<seq<string>>)
    requires Bounds(text, offsets, blocks)
    ensures |offsets| == |blocks| + 1
  {
  }

  /** The offsets at which blocks start, and the end of the text. */
  method BlockStarts(diff: string) returns (starts: seq<nat>)
    ensures starts == Marks(Lines(diff), 0)
    ensures Bounds(diff, starts, Blocks(diff))
  {
    hide OpensBlock;
    starts := [];
    var offset := 0;
    var lines := Lines(diff);
    for i := 0 to |lines|
      invariant starts == Offsets(lines[..i], 0) && offset == |Join(lines[..i])|
    {
      assert lines[..i + 1] == lines[..i] + [lines[i]];
      OffsetsAppend(lines[..i], lines[i], 0);
      JoinAppend(lines[..i], [lines[i]]);
      assert Join([lines[i]]) == lines[i] + Join([]);
      if OpensBlock(lines[i]) {
        starts := starts + [offset];
      }
      offset := offset + |lines[i]|;
    }
    assert lines[..|lines|] == lines;
    starts := starts + [|diff|];
    JoinOfLines(diff);
    OffsetsBoundBlocks("", lines);
    assert "" + Join(lines) == diff;
  }

  /** Shows exactly the allowed blocks, in order, and says whether it held any back.  What stands
      before the first block is dropped without being counted as held back. */
  method FilterDiff(diff: string) returns (out: string, omitted: bool)
    ensures out == JoinAll(KeepAllowed(Blocks(diff)))
    ensures omitted <==> exists k :: 0 <= k < |Blocks(diff)| && !Allowed(Blocks(diff)[k])
    ensures !omitted ==> diff == Join(Split(Lines(diff)).0) + out
    ensures !omitted ==> (out == diff <==> diff == "" || StartsWith(diff, "diff --git "))
  {
    OpensBlockIs(diff);
    hide Allowed;
    hide OpensBlock;
    hide StartsWith;
    hide Blocks;
    hide Bounds;
    hide Join;
    out := "";
    omitted := false;
    var starts := BlockStarts(diff);
    ghost var blocks := Blocks(diff);
    BoundsCount(diff, starts, blocks);
    for k := 0 to |starts| - 1
      invariant out == JoinAll(KeepAllowed(blocks[..k]))
      invariant omitted <==> exists j :: 0 <= j < k && !Allowed(blocks[j])
    {
      BoundsAt(diff, starts, blocks, k);
      var block := diff[starts[k]..starts[k + 1]];
      BlockLines(diff, k);
      KeepAppend(blocks[..k], blocks[k]);
      assert blocks[..k + 1] == blocks[..k] + [blocks[k]];
      if Allowed(Lines(block)) {
        out := out + block;
      } else {
        omitted := true;
      }
    }
    assert blocks[..|blocks|] == blocks;
    if !omitted {
      AllShown(diff);
    }
  }

  lemma OpensBlockIs(line: string)
    ensures OpensBlock(line) <==> StartsWith(line, "diff --git ")
  {
    hide StartsWith;
  }

  lemma {:induction false} KeepAll(blocks: seq<seq<string>>)
    requires forall k :: 0 <= k < |blocks| ==> Allowed(blocks[k])
    ensures KeepAllowed(blocks) == blocks
  {
    hide Allowed;
    if blocks != [] {
      assert Allowed(blocks[0]) && forall k :: 0 <= k < |blocks[1..]| ==> blocks[1..][k] == blocks[k + 1];
      KeepAll(blocks[1..]);
    }
  }

  lemma LeadEmptyIff(diff: string)
    ensures Join(Split(Lines(diff)).0) == "" <==> diff == "" || OpensBlock(diff)
  {
    var lines := Lines(diff);
    LinesAreLines(diff);
    SplitHolds(lines);
    var lead := Split(lines).0;
    assert lead <= lines;
    assert forall i :: 0 <= i < |lead| ==> lead[i] == lines[i] && IsLine(lines[i], i == |lines| - 1);
    JoinEmptyIff(lead);
    if diff != "" {
      OpensFirstLine(diff);
      hide OpensBlock;
      assert lines[0] == diff[..LineEnd(diff)];
      assert lead == [] <==> OpensBlock(lines[0]);
    }
  }

  /** The opening words hold no newline. */
  lemma OpensFirstLine(diff: string)
    requires diff != ""
    ensures OpensBlock(diff[..LineEnd(diff)]) <==> OpensBlock(diff)
  {
    var n, words := LineEnd(diff), "diff --git ";
    assert forall i :: 0 <= i < |words| ==> words[i] != '\n';
    if n < |words| <= |diff| {
      assert diff[..|words|][n - 1] == diff[n - 1] == '\n';
    }
    if n >= |words| {
      assert diff[..n][..|words|] == diff[..|words|];
    }
  }

  /** With nothing held back, what is missing is what stands before the first block. */
  lemma AllShown(diff: string)
    requires forall k :: 0 <= k < |Blocks(diff)| ==> Allowed(Blocks(diff)[k])
    ensures diff == Join(Split(Lines(diff)).0) + JoinAll(KeepAllowed(Blocks(diff)))
    ensures JoinAll(KeepAllowed(Blocks(diff))) == diff <==> diff == "" || OpensBlock(diff)
  {
    hide Allowed;
    hide OpensBlock;
    KeepAll(Blocks(diff));
    JoinOfLines(diff);
    SplitJoins(Lines(diff));
    LeadEmptyIff(diff);
  }

  /** A lone line of text is dropped with nothing counted as held back. */
  lemma LeadIsDropped()
    ensures Blocks("x") == [] && JoinAll(KeepAllowed(Blocks("x"))) != "x"
  {
    assert LineEnd("x") == 1 && "x"[..1] == "x" && "x"[1..] == "";
    assert Lines("x") == ["x"] + Lines("");
    assert Split(["x"][1..]) == ([], []);
  }

  lemma {:induction false} JoinAllAppend(a: seq<seq<string>>, b: seq<seq<string>>)
    ensures JoinAll(a + b) == JoinAll(a) + JoinAll(b)
  {
    if a == [] {
      assert a + b == b;
    } else {
      JoinAllAppend(a[1..], b);
      assert (a + b)[1..] == a[1..] + b && (a + b)[0] == a[0];
      Regroup(Join(a[0]), JoinAll(a[1..]), JoinAll(b));
    }
  }

  lemma {:induction false} KeepAppend(blocks: seq<seq<string>>, block: seq<string>)
    ensures KeepAllowed(blocks + [block]) == KeepAllowed(blocks) + if Allowed(block) then [block] else []
    ensures JoinAll(KeepAllowed(blocks + [block])) ==
      JoinAll(KeepAllowed(blocks)) + if Allowed(block) then Join(block) else ""
  {
    hide Allowed;
    if blocks == [] {
      assert blocks + [block] == [block] && [block][1..] == [];
    } else {
      KeepAppend(blocks[1..], block);
      assert (blocks + [block])[1..] == blocks[1..] + [block];
    }
    JoinAllAppend(KeepAllowed(blocks), if Allowed(block) then [block] else []);
    assert Allowed(block) ==> JoinAll([block]) == Join(block) + JoinAll([]);
  }

  lemma {:induction false} KeepTwice(blocks: seq<seq<string>>)
    ensures KeepAllowed(KeepAllowed(blocks)) == KeepAllowed(blocks)
    ensures forall k :: 0 <= k < |KeepAllowed(blocks)| ==> Allowed(KeepAllowed(blocks)[k])
  {
    hide Allowed;
    if blocks != [] {
      KeepTwice(blocks[1..]);
    }
  }

  /** What the filter lets through is itself made of exactly the kept blocks: filtering it again
      changes nothing and holds nothing back. */
  lemma FilteringTwice(diff: string)
    ensures var shown := JoinAll(KeepAllowed(Blocks(diff)));
      && Blocks(shown) == KeepAllowed(Blocks(diff))
      && JoinAll(KeepAllowed(Blocks(shown))) == shown
      && forall k :: 0 <= k < |Blocks(shown)| ==> Allowed(Blocks(shown)[k])
  {
    hide Allowed;
    hide OpensBlock;
    var kept := KeepAllowed(Blocks(diff));
    BlocksAreGood(diff);
    KeepsGoodBlocks(Blocks(diff));
    GoodBlocksMakeLines(kept);
    JoinOfConcat(kept);
    LinesOfJoin(Concat(kept));
    SplitIsUnique([], kept);
    assert [] + Concat(kept) == Concat(kept);
    KeepTwice(Blocks(diff));
  }
}
