// UTF-8: how text is written in bytes, and which bytes are text.
//
// Bytes are written as the characters of their codes, so a string of bytes holds
// characters below 256 only.
module Utf8 {
  import opened Common

  predicate IsBytes(s: string) {
    forall i :: 0 <= i < |s| ==> s[i] as int < 256
  }

  /** A byte. */
  function Unit8(n: int): char
    requires 0 <= n < 256
  {
    n as char
  }

  /** One character in bytes. */
  function Encode(c: char): (bytes: string)
    ensures 1 <= |bytes| <= 4 && IsBytes(bytes)
  {
    var n := c as int;
    if n < 0x80 then [c]
    else if n < 0x800 then [Unit8(0xC0 + n / 64), Unit8(0x80 + n % 64)]
    else if n < 0x10000 then [Unit8(0xE0 + n / 4096), Unit8(0x80 + n / 64 % 64), Unit8(0x80 + n % 64)]
    else
      [Unit8(0xF0 + n / 262144), Unit8(0x80 + n / 4096 % 64), Unit8(0x80 + n / 64 % 64), Unit8(0x80 + n % 64)]
  }

  function Encoded(s: string): string {
    if s == "" then "" else Encode(s[0]) + Encoded(s[1..])
  }

  predicate Continuation(c: char) {
    0x80 <= c as int < 0xC0
  }

  /** The length of the well formed UTF-8 sequence at the start of a nonempty `s`, or 0. */
  function SequenceLength(s: string): (n: nat)
    requires s != ""
    ensures n <= |s| && n <= 4
  {
    var a := s[0] as int;
    if a < 0x80 then 1
    else if 0xC2 <= a < 0xE0 then if |s| >= 2 && Continuation(s[1]) then 2 else 0
    else if 0xE0 <= a < 0xF0 then
      if |s| >= 3 && Continuation(s[1]) && Continuation(s[2])
        && (a == 0xE0 ==> s[1] as int >= 0xA0) && (a == 0xED ==> s[1] as int < 0xA0) then 3 else 0
    else if 0xF0 <= a < 0xF5 then
      if |s| >= 4 && Continuation(s[1]) && Continuation(s[2]) && Continuation(s[3])
        && (a == 0xF0 ==> s[1] as int >= 0x90) && (a == 0xF4 ==> s[1] as int < 0x90) then 4 else 0
    else 0
  }

  predicate ValidUtf8(s: string) {
    s == "" || (SequenceLength(s) > 0 && ValidUtf8(s[SequenceLength(s)..]))
  }

  // ---- Exactly the encodings are valid ----

  lemma EncodedIsSequence(c: char, rest: string)
    ensures SequenceLength(Encode(c) + rest) == |Encode(c)|
  {
    var n, s := c as int, Encode(c) + rest;
    if n >= 0x80 {
      assert s[0] == Encode(c)[0] && s[1] == Encode(c)[1];
      if n >= 0x800 {
        assert s[2] == Encode(c)[2];
        if n >= 0x10000 {
          assert s[3] == Encode(c)[3];
        }
      }
    }
  }

  lemma TwoBytes(a: int, x: int) returns (c: char)
    requires 0xC2 <= a < 0xE0 && 0 <= x < 64
    ensures Encode(c) == [Unit8(a), Unit8(0x80 + x)]
  {
    var code := (a - 0xC0) * 64 + x;
    assert code / 64 == a - 0xC0 && code % 64 == x;
    c := code as char;
  }

  lemma ThreeBytes(a: int, x: int, y: int) returns (c: char)
    requires 0xE0 <= a < 0xF0 && 0 <= x < 64 && 0 <= y < 64 && (a == 0xE0 ==> x >= 0x20) && (a == 0xED ==> x < 0x20)
    ensures Encode(c) == [Unit8(a), Unit8(0x80 + x), Unit8(0x80 + y)]
  {
    var code := (a - 0xE0) * 4096 + x * 64 + y;
    assert code / 64 == (a - 0xE0) * 64 + x && code % 64 == y;
    assert code / 4096 == a - 0xE0 && code / 64 % 64 == x;
    c := code as char;
  }

  lemma FourBytes(a: int, x: int, y: int, z: int) returns (c: char)
    requires 0xF0 <= a < 0xF5 && 0 <= x < 64 && 0 <= y < 64 && 0 <= z < 64
    requires (a == 0xF0 ==> x >= 0x10) && (a == 0xF4 ==> x < 0x10)
    ensures Encode(c) == [Unit8(a), Unit8(0x80 + x), Unit8(0x80 + y), Unit8(0x80 + z)]
  {
    var code := (a - 0xF0) * 262144 + x * 4096 + y * 64 + z;
    assert code / 64 == (a - 0xF0) * 4096 + x * 64 + y && code % 64 == z;
    assert code / 4096 == (a - 0xF0) * 64 + x && code / 64 % 64 == y;
    assert code / 262144 == a - 0xF0 && code / 4096 % 64 == x;
    c := code as char;
  }

  /** A well formed sequence is the encoding of one character. */
  lemma SequenceIsEncoded(s: string) returns (c: char)
    requires s != "" && SequenceLength(s) > 0
    ensures s[..SequenceLength(s)] == Encode(c)
  {
    hide Encode;
    var n, a := SequenceLength(s), s[0] as int;
    if n == 1 {
      c := s[0];
      PlainEncoding(c);
    } else if n == 2 {
      c := TwoBytes(a, s[1] as int - 0x80);
    } else if n == 3 {
      c := ThreeBytes(a, s[1] as int - 0x80, s[2] as int - 0x80);
    } else {
      c := FourBytes(a, s[1] as int - 0x80, s[2] as int - 0x80, s[3] as int - 0x80);
    }
  }

  lemma PlainEncoding(c: char)
    requires c as int < 0x80
    ensures Encode(c) == [c]
  {
  }

  lemma {:induction false} EncodedIsValid(text: string)
    ensures ValidUtf8(Encoded(text))
  {
    if text != "" {
      var rest := Encoded(text[1..]);
      EncodedIsSequence(text[0], rest);
      assert (Encode(text[0]) + rest)[|Encode(text[0])|..] == rest;
      EncodedIsValid(text[1..]);
    }
  }

  lemma {:induction false} ValidIsEncoded(s: string) returns (text: string)
    requires ValidUtf8(s)
    ensures Encoded(text) == s
  {
    hide Encode;
    hide SequenceLength;
    if s == "" {
      text := "";
    } else {
      var n := SequenceLength(s);
      var c := SequenceIsEncoded(s);
      var tail := ValidIsEncoded(s[n..]);
      text := [c] + tail;
      assert text[1..] == tail;
      assert s == s[..n] + s[n..];
    }
  }

  /** Bytes are valid exactly when they encode some text. */
  lemma ValidUtf8Iff(s: string)
    ensures ValidUtf8(s) <==> exists text :: Encoded(text) == s
  {
    if ValidUtf8(s) {
      var text := ValidIsEncoded(s);
    }
    if text :| Encoded(text) == s {
      EncodedIsValid(text);
    }
  }

  /** Different texts are written differently. */
  lemma {:induction false} EncodingIsInjective(a: string, b: string)
    requires Encoded(a) == Encoded(b)
    ensures a == b
  {
    if a != "" && b != "" {
      EncodedIsSequence(a[0], Encoded(a[1..]));
      EncodedIsSequence(b[0], Encoded(b[1..]));
      assert Encode(a[0]) == Encoded(a)[..|Encode(a[0])|] == Encode(b[0]);
      EncodeIsInjective(a[0], b[0]);
      assert Encoded(a[1..]) == Encoded(a)[|Encode(a[0])|..] == Encoded(b[1..]);
      EncodingIsInjective(a[1..], b[1..]);
    }
  }

  lemma EncodeIsInjective(c: char, d: char)
    requires Encode(c) == Encode(d)
    ensures c == d
  {
    CodeOfEncoding(c);
    CodeOfEncoding(d);
  }

  /** The code a sequence stands for. */
  function CodeOf(bytes: string): int
    requires 1 <= |bytes| <= 4
  {
    var a := bytes[0] as int;
    if |bytes| == 1 then a
    else if |bytes| == 2 then (a - 0xC0) * 64 + (bytes[1] as int - 0x80)
    else if |bytes| == 3 then (a - 0xE0) * 4096 + (bytes[1] as int - 0x80) * 64 + (bytes[2] as int - 0x80)
    else
      (a - 0xF0) * 262144 + (bytes[1] as int - 0x80) * 4096 + (bytes[2] as int - 0x80) * 64
      + (bytes[3] as int - 0x80)
  }

  lemma CodeOfEncoding(c: char)
    ensures CodeOf(Encode(c)) == c as int
  {
    var n := c as int;
    assert n == n / 64 * 64 + n % 64;
    assert n / 64 == n / 4096 * 64 + n / 64 % 64;
    assert n / 4096 == n / 262144 * 64 + n / 4096 % 64;
  }
}
