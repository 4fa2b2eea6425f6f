// Editing a file by replacing one exact piece of text
// (crates/localoud-mcp/src/lib.rs, crates/hub-runtime/src/api_worker.rs,
// crates/hub-runtime/src/local_worker.rs).
module TextEdits {
  import opened Common
  import opened Evidence

  const FILE_BYTES := 1024 * 1024
  const INPUT_BYTES := 32 * 1024

  datatype EditError =
    | MalformedHash
    | FileChanged
    | BadInput
    | NotFound
    | NotUnique
    | TooLarge

  // ---- Occurrences ----

  /** The first occurrence at or after `from`. */
  function Find(part: string, whole: string, from: nat): (r: Option<nat>)
    ensures r.Some? ==> r.value >= from && OccursAt(part, whole, r.value)
    ensures r.Some? ==> forall i :: from <= i < r.value ==> !OccursAt(part, whole, i)
    ensures r.None? ==> forall i :: from <= i ==> !OccursAt(part, whole, i)
    decreases |whole| - from
  {
    if from + |part| > |whole| then None
    else if OccursAt(part, whole, from) then Some(from)
    else Find(part, whole, from + 1)
  }

  /** `part` occurs at `i` and nowhere else, overlaps included. */
  ghost predicate OccursOnlyAt(part: string, whole: string, i: nat) {
    OccursAt(part, whole, i) && forall j :: OccursAt(part, whole, j) ==> j == i
  }

  ghost predicate OccursOnce(part: string, whole: string) {
    exists i: nat :: OccursOnlyAt(part, whole, i)
  }

  function Splice(whole: string, at: nat, part: string, text: string): string
    requires at + |part| <= |whole|
  {
    whole[..at] + text + whole[at + |part|..]
  }

  lemma SpliceBytes(whole: string, at: nat, part: string, text: string)
    requires OccursAt(part, whole, at)
    ensures TextBytes(Splice(whole, at, part, text)) == TextBytes(whole) - TextBytes(part) + TextBytes(text)
  {
    var a, b := whole[..at], whole[at + |part|..];
    assert whole == a + part + b;
    TextBytesAppend(a + part, b);
    TextBytesAppend(a, part);
    TextBytesAppend(a + text, b);
    TextBytesAppend(a, text);
  }

  // ---- `edit_text` ----

  predicate LowerHex(s: string) {
    forall i :: 0 <= i < |s| ==> '0' <= s[i] <= '9' || 'a' <= s[i] <= 'f'
  }

  predicate HashMatches(digest: string -> string, current: string, expected: string) {
    |expected| == 64 && LowerHex(expected) && digest(current) == expected
  }

  predicate InputOk(oldText: string, newText: string) {
    && oldText != "" && oldText != newText
    && TextBytes(oldText) + TextBytes(newText) <= INPUT_BYTES
    && '\0' !in newText && '\0' !in oldText
  }

  function EditText(digest: string -> string, current: string, expected: string, oldText: string, newText: string)
    : Result<string, EditError>
  {
    if |expected| != 64 || !LowerHex(expected) then Err(MalformedHash)
    else if digest(current) != expected then Err(FileChanged)
    else if !InputOk(oldText, newText) then Err(BadInput)
    else
      var start := Find(oldText, current, 0);
      if start.None? then Err(NotFound)
      else if Occurs(oldText, current[start.value + 1..]) then Err(NotUnique)
      else if TextBytes(current) - TextBytes(oldText) + TextBytes(newText) > FILE_BYTES then Err(TooLarge)
      else Ok(Splice(current, start.value, oldText, newText))
  }

  lemma SuffixOccurrence(part: string, whole: string, from: nat)
    requires from <= |whole|
    ensures Occurs(part, whole[from..]) <==> exists i: nat :: i >= from && OccursAt(part, whole, i)
  {
    if Occurs(part, whole[from..]) {
      var i :| 0 <= i <= |whole[from..]| - |part| && OccursAt(part, whole[from..], i);
      assert whole[from..][i..i + |part|] == whole[from + i..from + i + |part|];
      assert OccursAt(part, whole, from + i);
    }
    if i: nat :| i >= from && OccursAt(part, whole, i) {
      assert whole[from..][i - from..i - from + |part|] == whole[i..i + |part|];
      assert OccursAt(part, whole[from..], i - from);
    }
  }

  lemma EditSucceeds(digest: string -> string, current: string, expected: string, oldText: string, newText: string)
    ensures EditText(digest, current, expected, oldText, newText).Ok? <==>
      && HashMatches(digest, current, expected) && InputOk(oldText, newText) && OccursOnce(oldText, current)
      && TextBytes(current) - TextBytes(oldText) + TextBytes(newText) <= FILE_BYTES
    ensures EditText(digest, current, expected, oldText, newText).Ok? ==>
      exists i: nat :: OccursOnlyAt(oldText, current, i)
        && EditText(digest, current, expected, oldText, newText).value == Splice(current, i, oldText, newText)
  {
    var start := Find(oldText, current, 0);
    if start.Some? && oldText != "" {
      SuffixOccurrence(oldText, current, start.value + 1);
      assert OccursAt(oldText, current, start.value);
      if !Occurs(oldText, current[start.value + 1..]) {
        forall j | OccursAt(oldText, current, j)
          ensures j == start.value
        {
        }
        assert OccursOnlyAt(oldText, current, start.value);
      }
    }
  }

  /** An edit succeeds exactly when the expected hash is well formed and matches, the texts differ, are not too
      long and hold no NUL, the old text occurs at exactly one position counting overlaps, and the result is
      small enough; it returns the splice there. */
  lemma EditSucceedsIff(digest: string -> string, current: string, expected: string, oldText: string, newText: string)
    ensures EditText(digest, current, expected, oldText, newText).Ok? <==>
      && |expected| == 64 && (forall i :: 0 <= i < 64 ==> '0' <= expected[i] <= '9' || 'a' <= expected[i] <= 'f')
      && digest(current) == expected
      && oldText != "" && oldText != newText && '\0' !in oldText && '\0' !in newText
      && TextBytes(oldText) + TextBytes(newText) <= 32_768
      && OccursOnce(oldText, current)
      && TextBytes(current) - TextBytes(oldText) + TextBytes(newText) <= 1_048_576
    ensures EditText(digest, current, expected, oldText, newText).Ok? ==>
      exists i: nat :: OccursOnlyAt(oldText, current, i)
        && EditText(digest, current, expected, oldText, newText).value == Splice(current, i, oldText, newText)
  {
    EditSucceeds(digest, current, expected, oldText, newText);
    hide EditText;
    hide TextBytes;
    hide OccursOnce;
    hide OccursOnlyAt;
  }

  lemma SpliceBack(whole: string, at: nat, part: string, text: string)
    requires OccursAt(part, whole, at)
    ensures OccursAt(text, Splice(whole, at, part, text), at)
    ensures Splice(Splice(whole, at, part, text), at, text, part) == whole
  {
    var s := Splice(whole, at, part, text);
    assert s[at..at + |text|] == text;
    assert s[..at] == whole[..at];
    assert s[at + |text|..] == whole[at + |part|..];
    assert whole == whole[..at] + part + whole[at + |part|..];
  }

  /** The swapped edit undoes an edit exactly when the new text is not empty, occurs once in the
      result, and the original was within the size limit. */
  lemma SwappedEditRestores(
    digest: string -> string, current: string, expected: string, oldText: string, newText: string, again: string)
    requires EditText(digest, current, expected, oldText, newText).Ok?
    requires HashMatches(digest, EditText(digest, current, expected, oldText, newText).value, again)
    ensures var edited := EditText(digest, current, expected, oldText, newText).value;
      EditText(digest, edited, again, newText, oldText) == Ok(current) <==>
        newText != "" && OccursOnce(newText, edited) && TextBytes(current) <= FILE_BYTES
  {
    EditSucceeds(digest, current, expected, oldText, newText);
    var edited := EditText(digest, current, expected, oldText, newText).value;
    var i: nat :| OccursOnlyAt(oldText, current, i) && edited == Splice(current, i, oldText, newText);
    SpliceBytes(current, i, oldText, newText);
    SpliceBack(current, i, oldText, newText);
    EditSucceeds(digest, edited, again, newText, oldText);
    if EditText(digest, edited, again, newText, oldText).Ok? {
      var j: nat :| OccursOnlyAt(newText, edited, j)
        && EditText(digest, edited, again, newText, oldText).value == Splice(edited, j, newText, oldText);
      assert j == i;
    }
  }

  // ---- The other editors count without overlaps ----

  /** `whole.matches(part).count()` for a nonempty `part`. */
  function MatchCount(part: string, whole: string, from: nat): nat
    requires part != ""
    decreases |whole| - from
  {
    var next := Find(part, whole, from);
    if next.None? then 0 else 1 + MatchCount(part, whole, next.value + |part|)
  }

  /** A count of one says only that every occurrence overlaps the first. */
  lemma {:induction false} CountedOnceIff(part: string, whole: string)
    requires part != ""
    ensures MatchCount(part, whole, 0) == 1 <==>
      exists i: nat :: OccursAt(part, whole, i) && forall j :: OccursAt(part, whole, j) ==> i <= j < i + |part|
  {
    var first := Find(part, whole, 0);
    if first.Some? {
      var i := first.value;
      var second := Find(part, whole, i + |part|);
      assert MatchCount(part, whole, 0) == 1 <==> second.None?;
      if second.None? {
        assert OccursAt(part, whole, i) && forall j :: OccursAt(part, whole, j) ==> i <= j < i + |part|;
      } else {
        assert OccursAt(part, whole, second.value);
      }
    }
  }

  /** One occurrence counting overlaps is one occurrence counted without. */
  lemma {:induction false} OnceIsCountedOnce(part: string, whole: string)
    requires part != "" && OccursOnce(part, whole)
    ensures MatchCount(part, whole, 0) == 1
  {
    CountedOnceIff(part, whole);
    var i: nat :| OccursOnlyAt(part, whole, i);
    assert OccursAt(part, whole, i) && forall j :: OccursAt(part, whole, j) ==> i <= j < i + |part|;
  }

  /** The converse fails: in "aaa" the text "aa" is counted once but occurs twice. */
  lemma CountedOnceMayOccurTwice()
    ensures MatchCount("aa", "aaa", 0) == 1 && !OccursOnce("aa", "aaa")
  {
    assert OccursAt("aa", "aaa", 0) && OccursAt("aa", "aaa", 1);
    CountedOnceIff("aa", "aaa");
    assert forall j :: OccursAt("aa", "aaa", j) ==> 0 <= j < 0 + |"aa"|;
  }
}
