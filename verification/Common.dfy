// Vocabulary shared by every component: optional values, results, and the
// notion of blank text that the source writes as `trim().is_empty()`.
module Common {

  datatype Option<+T> = None | Some(value: T)

  datatype Result<+T, +E> = Ok(value: T) | Err(error: E)

  /** No value occurs twice. */
  ghost predicate Distinct<T>(s: seq<T>) {
    forall i, j :: 0 <= i < j < |s| ==> s[i] != s[j]
  }

  function Elements<T(==)>(s: seq<T>): set<T> {
    set x | x in s
  }

  lemma {:induction false} DistinctIffCardinality<T>(s: seq<T>)
    ensures |Elements(s)| <= |s|
    ensures |Elements(s)| == |s| <==> Distinct(s)
  {
    if s != [] {
      var init, last := s[..|s| - 1], s[|s| - 1];
      DistinctIffCardinality(init);
      assert s == init + [last];
      assert Elements(s) == Elements(init) + {last};
      if last in init {
        assert Elements(s) == Elements(init);
        var i :| 0 <= i < |init| && init[i] == last;
        assert s[i] == s[|s| - 1];
      } else {
        assert Distinct(s) <==> Distinct(init);
      }
    }
  }

  lemma AppendKeepsDistinct<T>(s: seq<T>, x: T)
    ensures Distinct(s + [x]) <==> Distinct(s) && x !in s
  {
    var all := s + [x];
    assert all[|s|] == x;
    assert forall i :: 0 <= i < |s| ==> all[i] == s[i];
    if Distinct(all) {
      forall i, j | 0 <= i < j < |s|
        ensures s[i] != s[j]
      {
        assert all[i] != all[j];
      }
      forall i | 0 <= i < |s|
        ensures s[i] != x
      {
        assert all[i] != all[|s|];
      }
    }
    if Distinct(s) && x !in s {
      forall i, j | 0 <= i < j < |all|
        ensures all[i] != all[j]
      {
        if j < |s| {
          assert s[i] != s[j];
        }
      }
    }
  }

  lemma PrefixIsDistinct<T>(s: seq<T>, n: nat)
    requires n <= |s| && Distinct(s)
    ensures Distinct(s[..n])
  {
  }

  /** The characters `char::is_whitespace` accepts. */
  predicate IsWhitespace(c: char) {
    var n := c as int;
    || 0x09 <= n <= 0x0D || n == 0x20 || n == 0x85 || n == 0xA0 || n == 0x1680
    || 0x2000 <= n <= 0x200A || n == 0x2028 || n == 0x2029 || n == 0x202F || n == 0x205F || n == 0x3000
  }

  /** `trim().is_empty()`. */
  predicate Blank(s: string) {
    forall i :: 0 <= i < |s| ==> IsWhitespace(s[i])
  }

  /** `to_ascii_lowercase`. */
  function Lower(s: string): (r: string)
    ensures |r| == |s|
    ensures forall i :: 0 <= i < |s| ==>
      ('A' <= s[i] <= 'Z' ==> 'a' <= r[i] <= 'z' && r[i] as int == s[i] as int + 32)
      && (!('A' <= s[i] <= 'Z') ==> r[i] == s[i])
  {
    if s == "" then ""
    else [if 'A' <= s[0] <= 'Z' then s[0] - 'A' + 'a' else s[0]] + Lower(s[1..])
  }

  /** `part` occurs in `whole` at position `i`. */
  predicate OccursAt(part: string, whole: string, i: int) {
    0 <= i <= |whole| - |part| && whole[i..i + |part|] == part
  }

  /** `str::contains`. */
  predicate Occurs(part: string, whole: string) {
    exists i :: 0 <= i <= |whole| - |part| && OccursAt(part, whole, i)
  }
}
