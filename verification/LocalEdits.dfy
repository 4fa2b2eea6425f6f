// Applying a prepared set of file replacements all or nothing
// (crates/hub-runtime/src/local_worker.rs).
module LocalEdits {
  import opened Common
  import opened Evidence
  import opened TextEdits

  datatype Path = Path(text: string)

  type Files = map<Path, string>

  datatype Replacement = Replacement(path: Path, before: string, after: string)

  // ---- The worktree and its faults ----

  /** What becomes of one write: it works, it fails although it took effect, or it fails without
      effect and may leave its temporary file behind. */
  datatype Fate = Works | FailsLate | FailsEarly(leftover: Option<Leftover>)

  datatype Leftover = Leftover(path: Path, content: string)

  /** Which operations fail: any schedule over the operations' numbers. */
  datatype Faults = Faults(readable: nat -> bool, fate: nat -> Fate)

  /** The worktree.  Operations are numbered as they are made; what a read returns is true. */
  class Directory {
    const faults: Faults
    var files: Files
    var clock: nat
    // temporary files that failed writes left behind
    ghost var temps: set<Path>

    constructor (faults: Faults, files: Files)
      ensures this.faults == faults && this.files == files && clock == 0 && temps == {}
    {
      this.faults, this.files, this.clock, this.temps := faults, files, 0, {};
    }

    /** The files apart from leftovers. */
    ghost function Seen(): Files
      reads this
    {
      files - temps
    }

    method ReadToString(path: Path) returns (r: Option<string>)
      modifies this`clock
      ensures clock == old(clock) + 1
      ensures r == if faults.readable(old(clock)) && path in files then Some(files[path]) else None
    {
      var readable := faults.readable(clock);
      clock := clock + 1;
      r := if readable && path in files then Some(files[path]) else None;
    }

    /** Writes a temporary file beside the target and renames it over the target, which must exist. */
    method AtomicWrite(path: Path, content: string) returns (ok: bool)
      requires path !in temps
      modifies this
      ensures clock == old(clock) + 1
      ensures path !in temps && old(temps) <= temps && temps !! old(files).Keys - old(temps)
      ensures ok <==> faults.fate(old(clock)).Works? && path in old(files)
      ensures Seen() ==
        if path in old(files) && !faults.fate(old(clock)).FailsEarly? then old(Seen())[path := content] else old(Seen())
    {
      var fate := faults.fate(clock);
      clock := clock + 1;
      if fate.FailsEarly? && fate.leftover.Some? {
        var temp := fate.leftover.value;
        if temp.path !in files && temp.path != path {
          files := files[temp.path := temp.content];
          temps := temps + {temp.path};
          assert Seen() == old(Seen());
        }
      }
      if path in files && !fate.FailsEarly? {
        files := files[path := content];
        assert Seen() == old(Seen())[path := content];
      }
      ok := fate.Works? && path in files;
    }
  }

  // ---- What applying means ----

  function WithAll(files: Files, edits: seq<Replacement>): Files {
    if edits == [] then files
    else WithAll(files, edits[..|edits| - 1])[edits[|edits| - 1].path := edits[|edits| - 1].after]
  }

  ghost predicate DistinctPaths(edits: seq<Replacement>) {
    forall i, j :: 0 <= i < j < |edits| ==> edits[i].path != edits[j].path
  }

  /** What `Prepare` guarantees about its edits. */
  ghost predicate Prepared(edits: seq<Replacement>) {
    DistinctPaths(edits) && forall i :: 0 <= i < |edits| ==> edits[i].before != edits[i].after
  }

  /** Every edited path holds its text from before. */
  ghost predicate Preimage(files: Files, edits: seq<Replacement>) {
    forall i :: 0 <= i < |edits| ==> edits[i].path in files && files[edits[i].path] == edits[i].before
  }

  /** `seen` is `base` except that some edited paths may hold their new text. */
  ghost predicate Mixed(base: Files, seen: Files, edits: seq<Replacement>) {
    && seen.Keys == base.Keys
    && (forall p :: p in base && (forall i :: 0 <= i < |edits| ==> edits[i].path != p) ==> seen[p] == base[p])
    && forall i :: 0 <= i < |edits| ==>
      edits[i].path in seen && (seen[edits[i].path] == edits[i].before || seen[edits[i].path] == edits[i].after)
  }

  /** The edits from `i` up to `j` hold their old (or new) text. */
  ghost predicate AllBefore(seen: Files, edits: seq<Replacement>, i: nat, j: nat) {
    forall k :: i <= k < j && k < |edits| ==> edits[k].path in seen && seen[edits[k].path] == edits[k].before
  }

  ghost predicate AllAfter(seen: Files, edits: seq<Replacement>, i: nat, j: nat) {
    forall k :: i <= k < j && k < |edits| ==> edits[k].path in seen && seen[edits[k].path] == edits[k].after
  }

  lemma AllAppliedIs(base: Files, seen: Files, edits: seq<Replacement>)
    requires Mixed(base, seen, edits) && DistinctPaths(edits) && AllAfter(seen, edits, 0, |edits|)
    ensures seen == WithAll(base, edits)
  {
    hide WithAll;
    WithAllHolds(base, edits, |edits|);
    assert edits[..|edits|] == edits;
    forall p | p in base || p in WithAll(base, edits)
      ensures p in seen && p in WithAll(base, edits) && seen[p] == WithAll(base, edits)[p]
    {
      if i :| 0 <= i < |edits| && edits[i].path == p {
        assert Holds(WithAll(base, edits), edits[i]);
      } else {
        assert Untouched(edits, |edits|, p);
      }
    }
  }

  ghost predicate Holds(files: Files, e: Replacement) {
    e.path in files && files[e.path] == e.after
  }

  ghost predicate Untouched(edits: seq<Replacement>, n: nat, p: Path) {
    forall i :: 0 <= i < n && i < |edits| ==> edits[i].path != p
  }

  /** The first `n` edits are in, and the other files as they were. */
  lemma {:induction false} WithAllHolds(base: Files, edits: seq<Replacement>, n: nat)
    requires DistinctPaths(edits) && n <= |edits|
    ensures forall i :: 0 <= i < n ==> Holds(WithAll(base, edits[..n]), edits[i])
    ensures forall p :: Untouched(edits, n, p) ==>
      (p in WithAll(base, edits[..n]) <==> p in base) && (p in base ==> WithAll(base, edits[..n])[p] == base[p])
  {
    if n > 0 {
      var last := edits[n - 1];
      WithAllHolds(base, edits, n - 1);
      assert edits[..n][..n - 1] == edits[..n - 1];
      assert WithAll(base, edits[..n]) == WithAll(base, edits[..n - 1])[last.path := last.after];
      hide WithAll;
      OtherPaths(edits, n - 1);
      hide DistinctPaths;
      forall p | Untouched(edits, n, p)
        ensures Untouched(edits, n - 1, p) && p != last.path
      {
      }
    }
  }

  lemma AllRestoredIs(base: Files, seen: Files, edits: seq<Replacement>)
    requires Mixed(base, seen, edits) && Preimage(base, edits) && AllBefore(seen, edits, 0, |edits|)
    ensures seen == base
  {
    forall p | p in base
      ensures seen[p] == base[p]
    {
      if i :| 0 <= i < |edits| && edits[i].path == p {
      }
    }
  }

  /** One path is rewritten with its old or its new text. */
  lemma MixedUpdate(base: Files, seen: Files, edits: seq<Replacement>, i: nat, text: string)
    requires Mixed(base, seen, edits) && DistinctPaths(edits) && i < |edits|
    requires text == edits[i].before || text == edits[i].after
    ensures Mixed(base, seen[edits[i].path := text], edits)
    ensures forall a, b :: 0 <= a <= b <= |edits| && !(a <= i < b) && AllBefore(seen, edits, a, b) ==>
      AllBefore(seen[edits[i].path := text], edits, a, b)
    ensures forall a, b :: 0 <= a <= b <= |edits| && !(a <= i < b) && AllAfter(seen, edits, a, b) ==>
      AllAfter(seen[edits[i].path := text], edits, a, b)
  {
  }

  datatype ApplyResult = Applied | PreimageChanged | Failed(rollbackFailed: bool)

  // ---- What a schedule of faults leads to ----

  /** A write at time `t` works and the read after it, which verifies it, too. */
  predicate WriteHolds(f: Faults, t: nat) {
    f.fate(t).Works? && f.readable(t + 1)
  }

  /** The `k`th of the edits written from time `start` on holds. */
  predicate EditHolds(f: Faults, start: nat, k: nat) {
    WriteHolds(f, start + 2 * k)
  }

  /** The first `n` of them hold. */
  predicate EarlierHold(f: Faults, start: nat, n: nat) {
    forall k :: 0 <= k < n ==> EditHolds(f, start, k)
  }

  /** The first of `n` edits, written from time `start` on, that does not hold. */
  function FirstFault(f: Faults, start: nat, n: nat): (r: Option<nat>)
    ensures r.Some? ==> r.value < n && !EditHolds(f, start, r.value)
    ensures EarlierHold(f, start, if r.Some? then r.value else n)
  {
    if n == 0 then None
    else if FirstFault(f, start, n - 1).Some? then FirstFault(f, start, n - 1)
    else if EditHolds(f, start, n - 1) then None
    else Some(n - 1)
  }

  predicate TookEffect(f: Faults, t: nat) {
    !f.fate(t).FailsEarly?
  }

  /** The read that decides whether the write at `t` took effect follows the failure. */
  function DecidingRead(f: Faults, t: nat): nat {
    if f.fate(t).Works? then t + 2 else t + 1
  }

  /** The write at `t` took effect, and the read that should find out fails. */
  predicate Blind(f: Faults, t: nat) {
    TookEffect(f, t) && !f.readable(DecidingRead(f, t))
  }

  /** Every read and write of undoing `n` edits from time `t` on works. */
  predicate Undone(f: Faults, t: nat, n: nat) {
    forall k :: 0 <= k < n ==> UndoWorks(f, t, k)
  }

  /** When the `k`th undo begins: an undo whose read fails makes no write. */
  function UndoTime(f: Faults, t: nat, k: nat): nat {
    if k == 0 then t
    else
      var u := UndoTime(f, t, k - 1);
      u + if f.readable(u) then 2 else 1
  }

  predicate UndoWorks(f: Faults, t: nat, k: nat) {
    f.readable(UndoTime(f, t, k)) && f.fate(UndoTime(f, t, k) + 1).Works?
  }

  /** The `k`th undo restores its file, whether or not it is reported to. */
  predicate PutBack(f: Faults, t: nat, k: nat) {
    f.readable(UndoTime(f, t, k)) && TookEffect(f, UndoTime(f, t, k) + 1)
  }

  /** How many edits are undone when the `i`th, written at `t`, does not hold. */
  function UndoCount(f: Faults, t: nat, i: nat): nat {
    if TookEffect(f, t) && !Blind(f, t) then i + 1 else i
  }

  /** After that the `k`th edit is left with its new text: it was written and noticed, and its own undo did
      not restore it; or it is the one that failed, took effect, and was not noticed. */
  predicate StaysNew(f: Faults, t: nat, i: nat, k: nat) {
    if k < UndoCount(f, t, i) then !PutBack(f, DecidingRead(f, t) + 1, UndoCount(f, t, i) - 1 - k)
    else k == i && TookEffect(f, t)
  }

  /** The files after the `i`th edit, written at `t`, did not hold and the undoing is over. */
  ghost predicate LeftBehind(f: Faults, t: nat, i: nat, seen: Files, edits: seq<Replacement>) {
    forall k :: 0 <= k < |edits| ==>
      edits[k].path in seen
      && seen[edits[k].path] == if StaysNew(f, t, i, k) then edits[k].after else edits[k].before
  }

  /** Whether undoing goes wrong when the `i`th edit, written at `t`, does not hold. */
  predicate UndoFails(f: Faults, t: nat, i: nat) {
    !Undone(f, DecidingRead(f, t) + 1, UndoCount(f, t, i))
  }

  predicate PreimagesReadable(f: Faults, t: nat, n: nat) {
    forall i :: 0 <= i < n ==> ReadWorks(f, t, i)
  }

  predicate ReadWorks(f: Faults, t: nat, i: nat) {
    f.readable(t + i)
  }

  /** What `Apply` reports, from the schedule and whether the files are as expected. */
  function Expected(f: Faults, clock: nat, asExpected: bool, n: nat): ApplyResult {
    if !asExpected || !PreimagesReadable(f, clock, n) then PreimageChanged
    else
      var fault := FirstFault(f, clock + n, n);
      if fault.None? then Applied else Failed(UndoFails(f, clock + n + 2 * fault.value, fault.value))
  }

  /** The failing edit's write escaped notice. */
  predicate BlindFailure(f: Faults, clock: nat, n: nat) {
    var fault := FirstFault(f, clock + n, n);
    fault.Some? && Blind(f, clock + n + 2 * fault.value)
  }

  /** What undoing leaves when it reports no failure: everything as before, but for a write that escaped notice. */
  function FilesAfterUndo(f: Faults, clock: nat, base: Files, edits: seq<Replacement>): Files {
    if BlindFailure(f, clock, |edits|) then
      var e := edits[FirstFault(f, clock + |edits|, |edits|).value];
      base[e.path := e.after]
    else base
  }

  /** The promise that an error without a failed rollback changes nothing is broken by one edit whose
      write fails after taking effect and whose deciding read fails. */
  lemma SilentlyApplied()
    ensures var f := Faults(t => t != 2, t => FailsLate);
      Expected(f, 0, true, 1) == Failed(false) && BlindFailure(f, 0, 1)
  {
    var f := Faults(t => t != 2, t => FailsLate);
    assert FirstFault(f, 1, 0) == None;
    assert FirstFault(f, 1, 1) == Some(0);
    assert Blind(f, 1) && Undone(f, 3, 0);
  }

  // ---- Applying ----

  /** Checks every preimage before the first write. */
  method CheckPreimages(dir: Directory, edits: seq<Replacement>) returns (ok: bool)
    requires forall i :: 0 <= i < |edits| ==> edits[i].path !in dir.temps
    modifies dir`clock
    ensures ok <==> Preimage(dir.Seen(), edits) && PreimagesReadable(dir.faults, old(dir.clock), |edits|)
    ensures ok ==> dir.clock == old(dir.clock) + |edits|
  {
    for i := 0 to |edits|
      invariant dir.clock == old(dir.clock) + i
      invariant Preimage(dir.Seen(), edits[..i]) && PreimagesReadable(dir.faults, old(dir.clock), i)
    {
      var text := dir.ReadToString(edits[i].path);
      assert dir.Seen() == old(dir.Seen());
      if text != Some(edits[i].before) {
        assert !ReadWorks(dir.faults, old(dir.clock), i) || edits[i].path !in dir.Seen()
          || dir.Seen()[edits[i].path] != edits[i].before;
        return false;
      }
    }
    assert edits[..|edits|] == edits;
    return true;
  }

  /** Puts the written edits back, latest first, each only while it still holds what was written.  One that
      cannot be put back does not stop the others. */
  method RollBack(dir: Directory, edits: seq<Replacement>, written: seq<Replacement>, ghost base: Files)
    returns (failed: bool)
    requires |written| <= |edits| && written == edits[..|written|] && DistinctPaths(edits)
    requires forall i :: 0 <= i < |edits| ==> edits[i].path !in dir.temps
    requires Mixed(base, dir.Seen(), edits) && AllAfter(dir.Seen(), edits, 0, |written|)
    requires Unchanged(dir.Seen(), dir.Seen(), edits, |written|)
    modifies dir
    ensures Mixed(base, dir.Seen(), edits)
    ensures failed <==> !Undone(dir.faults, old(dir.clock), |written|)
    ensures RolledBack(dir.faults, old(dir.clock), dir.Seen(), edits, 0, |written|)
    ensures Unchanged(old(dir.Seen()), dir.Seen(), edits, |written|)
  {
    hide DistinctPaths;
    hide Mixed;
    hide AllAfter;
    hide Unchanged;
    hide RolledBack;
    hide Undone;
    hide UndoTime;
    ghost var f, t := dir.faults, dir.clock;
    failed := false;
    var k := |written|;
    RollBackStart(f, t, dir.Seen(), edits, |written|);
    while k > 0
      invariant 0 <= k <= |written|
      invariant forall i :: 0 <= i < |edits| ==> edits[i].path !in dir.temps
      invariant Mixed(base, dir.Seen(), edits) && AllAfter(dir.Seen(), edits, 0, k)
      invariant failed <==> !Undone(f, t, |written| - k)
      invariant dir.clock == UndoTime(f, t, |written| - k)
      invariant RolledBack(f, t, dir.Seen(), edits, k, |written|)
      invariant Unchanged(old(dir.Seen()), dir.Seen(), edits, |written|)
    {
      k := k - 1;
      UndoneStep(f, t, |written| - k);
      failed := UndoOne(dir, edits, k, |written|, failed, base, old(dir.Seen()), t);
    }
  }

  /** The edits from `k` up to `n` hold what their undos, begun at `t` with the last one, leave. */
  ghost predicate RolledBack(f: Faults, t: nat, seen: Files, edits: seq<Replacement>, k: nat, n: nat) {
    forall i :: k <= i < n && i < |edits| ==>
      edits[i].path in seen
      && seen[edits[i].path] == if PutBack(f, t, n - 1 - i) then edits[i].before else edits[i].after
  }

  /** The edits from `n` on hold the same text in both. */
  ghost predicate Unchanged(was: Files, seen: Files, edits: seq<Replacement>, n: nat) {
    forall i :: n <= i < |edits| ==>
      edits[i].path in was && edits[i].path in seen && seen[edits[i].path] == was[edits[i].path]
  }

  lemma RollBackStart(f: Faults, t: nat, seen: Files, edits: seq<Replacement>, n: nat)
    ensures Undone(f, t, 0) && UndoTime(f, t, 0) == t && RolledBack(f, t, seen, edits, n, n)
  {
  }

  lemma UndoneStep(f: Faults, t: nat, n: nat)
    requires n > 0
    ensures Undone(f, t, n) <==> Undone(f, t, n - 1) && UndoWorks(f, t, n - 1)
    ensures UndoTime(f, t, n) == UndoTime(f, t, n - 1) + if f.readable(UndoTime(f, t, n - 1)) then 2 else 1
  {
    hide UndoWorks;
  }

  /** An undo that is reported to work restores its file. */
  lemma UndoneIsBack(f: Faults, t: nat, seen: Files, edits: seq<Replacement>, n: nat)
    requires Undone(f, t, n) && RolledBack(f, t, seen, edits, 0, n)
    ensures AllBefore(seen, edits, 0, n)
  {
    hide UndoTime;
    forall i | 0 <= i < n && i < |edits|
      ensures edits[i].path in seen && seen[edits[i].path] == edits[i].before
    {
      assert UndoWorks(f, t, n - 1 - i);
    }
  }

  /** Puts the `k`th edit back: the `n - 1 - k`th undo. */
  method UndoOne(
    dir: Directory, edits: seq<Replacement>, k: nat, n: nat, was: bool, ghost base: Files, ghost before: Files,
    ghost t: nat)
    returns (failed: bool)
    requires k < n <= |edits| && DistinctPaths(edits)
    requires forall i :: 0 <= i < |edits| ==> edits[i].path !in dir.temps
    requires Mixed(base, dir.Seen(), edits) && AllAfter(dir.Seen(), edits, 0, k + 1)
    requires dir.clock == UndoTime(dir.faults, t, n - 1 - k)
    requires RolledBack(dir.faults, t, dir.Seen(), edits, k + 1, n)
    requires Unchanged(before, dir.Seen(), edits, n)
    modifies dir
    ensures forall i :: 0 <= i < |edits| ==> edits[i].path !in dir.temps
    ensures Mixed(base, dir.Seen(), edits) && AllAfter(dir.Seen(), edits, 0, k)
    ensures failed <==> was || !UndoWorks(dir.faults, t, n - 1 - k)
    ensures dir.clock == old(dir.clock) + if dir.faults.readable(old(dir.clock)) then 2 else 1
    ensures RolledBack(dir.faults, t, dir.Seen(), edits, k, n)
    ensures Unchanged(before, dir.Seen(), edits, n)
  {
    hide UndoTime;
    hide RolledBack;
    hide Unchanged;
    failed := was;
    var prior := edits[k];
    ghost var seen := dir.Seen();
    MixedUpdate(base, seen, edits, k, prior.before);
    hide Mixed;
    hide DistinctPaths;
    var now := dir.ReadToString(prior.path);
    assert dir.Seen() == seen;
    if now != Some(prior.after) {
      failed := true;
    } else {
      var ok := dir.AtomicWrite(prior.path, prior.before);
      failed := failed || !ok;
    }
    UndoLeaves(dir.faults, t, seen, dir.Seen(), before, edits, k, n);
  }

  lemma UndoLeaves(
    f: Faults, t: nat, was: Files, seen: Files, before: Files, edits: seq<Replacement>, k: nat, n: nat)
    requires k < n <= |edits| && DistinctPaths(edits) && edits[k].path in was && was[edits[k].path] == edits[k].after
    requires seen == if PutBack(f, t, n - 1 - k) then was[edits[k].path := edits[k].before] else was
    requires RolledBack(f, t, was, edits, k + 1, n) && Unchanged(before, was, edits, n)
    ensures RolledBack(f, t, seen, edits, k, n) && Unchanged(before, seen, edits, n)
  {
    hide PutBack;
    OtherPaths(edits, k);
    hide DistinctPaths;
  }

  lemma OtherPaths(edits: seq<Replacement>, k: nat)
    requires DistinctPaths(edits) && k < |edits|
    ensures forall i :: 0 <= i < |edits| && i != k ==> edits[i].path != edits[k].path
  {
  }

  /** The `i`th edit, written at time `t`, does not hold: undo it, if that can be seen, and those before. */
  method Recover(dir: Directory, edits: seq<Replacement>, i: nat, ghost base: Files, ghost t: nat)
    returns (failed: bool)
    requires Prepared(edits) && i < |edits| && Preimage(base, edits)
    requires forall k :: 0 <= k < |edits| ==> edits[k].path !in dir.temps
    requires Mixed(base, dir.Seen(), edits)
    requires AllAfter(dir.Seen(), edits, 0, i) && AllBefore(dir.Seen(), edits, i + 1, |edits|)
    requires edits[i].path in dir.Seen()
    requires dir.Seen()[edits[i].path] == if TookEffect(dir.faults, t) then edits[i].after else edits[i].before
    requires dir.clock == DecidingRead(dir.faults, t)
    modifies dir
    ensures Mixed(base, dir.Seen(), edits)
    ensures failed <==> UndoFails(dir.faults, t, i)
    ensures LeftBehind(dir.faults, t, i, dir.Seen(), edits)
    ensures !failed ==>
      dir.Seen() == if Blind(dir.faults, t) then base[edits[i].path := edits[i].after] else base
  {
    hide Mixed;
    hide Preimage;
    hide Undone;
    hide UndoTime;
    hide RolledBack;
    hide LeftBehind;
    var e := edits[i];
    ghost var seen := dir.Seen();
    var written := edits[..i];
    var now := dir.ReadToString(e.path);
    assert dir.Seen() == seen;
    if now == Some(e.after) {
      written := written + [e];
    }
    assert written == edits[..|written|] && |written| == UndoCount(dir.faults, t, i);
    MixedIsUnchanged(base, seen, edits, |written|);
    ghost var u := dir.clock;
    failed := RollBack(dir, edits, written, base);
    LeftIs(dir.faults, t, i, seen, dir.Seen(), edits);
    if !failed {
      UndoneIsBack(dir.faults, u, dir.Seen(), edits, |written|);
      RestoredIs(base, dir.Seen(), edits, i, Blind(dir.faults, t));
    }
  }

  lemma LeftIs(f: Faults, t: nat, i: nat, was: Files, seen: Files, edits: seq<Replacement>)
    requires i < |edits| && AllBefore(was, edits, i + 1, |edits|) && edits[i].path in was
    requires was[edits[i].path] == if TookEffect(f, t) then edits[i].after else edits[i].before
    requires RolledBack(f, DecidingRead(f, t) + 1, seen, edits, 0, UndoCount(f, t, i))
    requires Unchanged(was, seen, edits, UndoCount(f, t, i))
    ensures LeftBehind(f, t, i, seen, edits)
  {
    hide PutBack;
  }

  lemma MixedIsUnchanged(base: Files, seen: Files, edits: seq<Replacement>, n: nat)
    requires Mixed(base, seen, edits)
    ensures Unchanged(seen, seen, edits, n)
  {
  }

  /** All edits hold their old text, or all but the `i`th. */
  lemma RestoredIs(base: Files, seen: Files, edits: seq<Replacement>, i: nat, blind: bool)
    requires Mixed(base, seen, edits) && Preimage(base, edits) && DistinctPaths(edits) && i < |edits|
    requires AllBefore(seen, edits, 0, i) && AllBefore(seen, edits, i + 1, |edits|)
    requires edits[i].path in seen && seen[edits[i].path] == if blind then edits[i].after else edits[i].before
    ensures seen == if blind then base[edits[i].path := edits[i].after] else base
  {
    var put := seen[edits[i].path := edits[i].before];
    MixedUpdate(base, seen, edits, i, edits[i].before);
    OtherPaths(edits, i);
    hide DistinctPaths;
    assert AllBefore(put, edits, 0, |edits|);
    AllRestoredIs(base, put, edits);
    assert seen == put[edits[i].path := seen[edits[i].path]];
  }

  lemma PreimageAt(base: Files, edits: seq<Replacement>, i: nat)
    requires Preimage(base, edits) && i < |edits|
    ensures edits[i].path in base && base[edits[i].path] == edits[i].before
  {
  }

  lemma PreimageStart(base: Files, edits: seq<Replacement>)
    ensures Preimage(base, edits) ==> Mixed(base, base, edits) && AllBefore(base, edits, 0, |edits|)
  {
  }

  /** All or nothing, for every schedule of faults.  Success writes every edit and nothing else; a changed
      or unreadable preimage changes nothing; a failure leaves each edited path with its old or its new
      text and nothing else changed.  When it reports that the rollback went through, everything is as
      before, except that a write that escaped notice stays. */
  method Apply(dir: Directory, edits: seq<Replacement>) returns (r: ApplyResult)
    requires Prepared(edits)
    requires forall i :: 0 <= i < |edits| ==> edits[i].path !in dir.temps
    modifies dir
    ensures r == Expected(dir.faults, old(dir.clock), Preimage(old(dir.Seen()), edits), |edits|)
    ensures r == Applied ==> dir.Seen() == WithAll(old(dir.Seen()), edits)
    ensures r == PreimageChanged ==> dir.files == old(dir.files) && dir.temps == old(dir.temps)
    ensures r.Failed? ==> Mixed(old(dir.Seen()), dir.Seen(), edits)
    // the schedule says of every edit whether its new text is left behind
    ensures r.Failed? ==>
      var fault := FirstFault(dir.faults, old(dir.clock) + |edits|, |edits|);
      fault.Some? && LeftBehind(
        dir.faults, old(dir.clock) + |edits| + 2 * fault.value, fault.value, dir.Seen(), edits)
    ensures r == Failed(false) ==> dir.Seen() == FilesAfterUndo(dir.faults, old(dir.clock), old(dir.Seen()), edits)
    ensures r == Failed(false) ==>
      (dir.Seen() == old(dir.Seen()) <==> !BlindFailure(dir.faults, old(dir.clock), |edits|))
    ensures r == Failed(false) && (forall t :: dir.faults.readable(t)) ==> dir.Seen() == old(dir.Seen())
  {
    hide Preimage;
    hide WithAll;
    hide Undone;
    hide Mixed;
    hide AllAfter;
    hide AllBefore;
    hide LeftBehind;
    hide FirstFault;
    hide Expected;
    hide BlindFailure;
    hide FilesAfterUndo;
    hide PreimagesReadable;
    ghost var base := dir.Seen();
    var fine := CheckPreimages(dir, edits);
    assert dir.Seen() == base;
    RefusedIff(dir.faults, old(dir.clock), base, edits);
    if !fine {
      return PreimageChanged;
    }
    ghost var start := dir.clock;
    var written: seq<Replacement> := [];
    for i := 0 to |edits|
      invariant written == edits[..i] && dir.clock == start + 2 * i
      invariant forall k :: 0 <= k < |edits| ==> edits[k].path !in dir.temps
      invariant Mixed(base, dir.Seen(), edits)
      invariant AllAfter(dir.Seen(), edits, 0, i) && AllBefore(dir.Seen(), edits, i, |edits|)
      invariant EarlierHold(dir.faults, start, i)
    {
      var ok := WriteOne(dir, edits, i, base);
      if !ok {
        FailureIs(dir.faults, old(dir.clock), base, edits, i);
        var failed := Recover(dir, edits, i, base, start + 2 * i);
        return Failed(failed);
      }
      written := written + [edits[i]];
    }
    SuccessIs(dir.faults, old(dir.clock), |edits|);
    AllAppliedIs(base, dir.Seen(), edits);
    return Applied;
  }

  lemma RefusedIff(f: Faults, clock: nat, base: Files, edits: seq<Replacement>)
    ensures Expected(f, clock, Preimage(base, edits), |edits|) == PreimageChanged <==>
      !(Preimage(base, edits) && PreimagesReadable(f, clock, |edits|))
    ensures Preimage(base, edits) ==> Mixed(base, base, edits) && AllBefore(base, edits, 0, |edits|)
    ensures AllAfter(base, edits, 0, 0)
  {
    hide PreimagesReadable;
    PreimageStart(base, edits);
  }

  lemma SuccessIs(f: Faults, clock: nat, n: nat)
    requires PreimagesReadable(f, clock, n) && EarlierHold(f, clock + n, n)
    ensures Expected(f, clock, true, n) == Applied
  {
    hide EditHolds;
    hide PreimagesReadable;
  }

  lemma FailureIs(f: Faults, clock: nat, base: Files, edits: seq<Replacement>, i: nat)
    requires Prepared(edits) && Preimage(base, edits) && PreimagesReadable(f, clock, |edits|) && i < |edits|
    requires !EditHolds(f, clock + |edits|, i) && EarlierHold(f, clock + |edits|, i)
    ensures var t := clock + |edits| + 2 * i;
      && FirstFault(f, clock + |edits|, |edits|) == Some(i)
      && Expected(f, clock, true, |edits|) == Failed(UndoFails(f, t, i))
      && (BlindFailure(f, clock, |edits|) <==> Blind(f, t))
      && FilesAfterUndo(f, clock, base, edits) == (if Blind(f, t) then base[edits[i].path := edits[i].after] else base)
    ensures FilesAfterUndo(f, clock, base, edits) == base <==> !BlindFailure(f, clock, |edits|)
    ensures (forall t :: f.readable(t)) ==> !BlindFailure(f, clock, |edits|)
  {
    hide EditHolds;
    hide PreimagesReadable;
    hide UndoFails;
    FirstFaultIs(f, clock + |edits|, |edits|, i);
    ReadableIsSeen(f, clock + |edits| + 2 * i);
    hide Blind;
    PreimageAt(base, edits, i);
    hide Preimage;
    hide Prepared;
  }

  lemma FirstFaultIs(f: Faults, start: nat, n: nat, i: nat)
    requires i < n && !EditHolds(f, start, i)
    requires EarlierHold(f, start, i)
    ensures FirstFault(f, start, n) == Some(i)
  {
    hide EditHolds;
    var r := FirstFault(f, start, n);
    assert r.Some? ==> !EditHolds(f, start, r.value);
  }

  lemma ReadableIsSeen(f: Faults, t: nat)
    ensures (forall u :: f.readable(u)) ==> !Blind(f, t)
  {
  }

  /** Writes the `i`th edit and reads it back. */
  method WriteOne(dir: Directory, edits: seq<Replacement>, i: nat, ghost base: Files) returns (ok: bool)
    requires i < |edits| && DistinctPaths(edits)
    requires forall k :: 0 <= k < |edits| ==> edits[k].path !in dir.temps
    requires Mixed(base, dir.Seen(), edits)
    requires AllAfter(dir.Seen(), edits, 0, i) && AllBefore(dir.Seen(), edits, i, |edits|)
    modifies dir
    ensures forall k :: 0 <= k < |edits| ==> edits[k].path !in dir.temps
    ensures Mixed(base, dir.Seen(), edits) && edits[i].path in dir.Seen()
    ensures AllAfter(dir.Seen(), edits, 0, i) && AllBefore(dir.Seen(), edits, i + 1, |edits|)
    ensures ok <==> WriteHolds(dir.faults, old(dir.clock))
    ensures ok ==> AllAfter(dir.Seen(), edits, 0, i + 1)
    ensures dir.clock == if ok then old(dir.clock) + 2 else DecidingRead(dir.faults, old(dir.clock))
    ensures dir.Seen()[edits[i].path] ==
      if TookEffect(dir.faults, old(dir.clock)) then edits[i].after else edits[i].before
  {
    var e := edits[i];
    ghost var seen := dir.Seen();
    assert e.path in seen && seen[e.path] == e.before;
    MixedUpdate(base, seen, edits, i, e.after);
    OtherPaths(edits, i);
    hide Mixed;
    hide DistinctPaths;
    ok := dir.AtomicWrite(e.path, e.after);
    if ok {
      ghost var now := dir.Seen();
      var verify := dir.ReadToString(e.path);
      assert dir.Seen() == now == seen[e.path := e.after];
      ok := verify == Some(e.after);
    }
  }

  // ---- Preparing the edits ----

  datatype FileContext = FileContext(path: Path, content: string)

  datatype Edit = Edit(path: Path, oldText: string, newText: string)

  /** What cannot be seen from here: eligible paths, secret-like text, and the line diff. */
  datatype Policy = Policy(eligible: Path -> bool, secret: string -> bool, changedLines: (string, string) -> nat)

  datatype PrepareError =
    | EditCount
    | RepeatedPath
    | UnapprovedPath
    | FileChanged
    | NotExactlyOnce
    | NoOp
    | TooLargeOrSecret
    | TooManyLines

  const LOCAL_FILE_BYTES := 32_000

  /** The replacement of the first occurrence, which is the only one counted without overlaps. */
  ghost predicate ReplacementFor(policy: Policy, context: seq<FileContext>, edit: Edit, r: Replacement) {
    && r.path == edit.path
    && FindContext(context, edit.path) == Some(FileContext(r.path, r.before))
    && edit.oldText != "" && MatchCount(edit.oldText, r.before, 0) == 1
    && (exists at: nat :: OccursAt(edit.oldText, r.before, at)
          && (forall j :: OccursAt(edit.oldText, r.before, j) ==> at <= j)
          && r.after == Splice(r.before, at, edit.oldText, edit.newText))
    && r.after != r.before && TextBytes(r.after) <= 32_000 && !policy.secret(r.after)
  }

  function TotalLines(policy: Policy, edits: seq<Replacement>): nat {
    if edits == [] then 0
    else
      var last := edits[|edits| - 1];
      TotalLines(policy, edits[..|edits| - 1]) + policy.changedLines(last.before, last.after)
  }

  function FindContext(context: seq<FileContext>, path: Path): (r: Option<FileContext>)
    ensures r.Some? ==> r.value in context && r.value.path == path
    ensures r.None? <==> forall f :: f in context ==> f.path != path
    ensures r.Some? ==> exists i :: 0 <= i < |context| && context[i] == r.value && FirstAt(context, path, i)
  {
    if context == [] then None
    else if context[0].path == path then
      assert FirstAt(context, path, 0);
      Some(context[0])
    else
      assert forall i :: 0 <= i < |context[1..]| && FirstAt(context[1..], path, i) ==>
        context[1..][i] == context[i + 1] && FirstAt(context, path, i + 1);
      FindContext(context[1..], path)
  }

  predicate FirstAt(context: seq<FileContext>, path: Path, i: int) {
    forall j :: 0 <= j < i && j < |context| ==> context[j].path != path
  }

  /** What one edit needs besides: its file may be read and still holds what the model saw. */
  ghost predicate EditOk(files: Files, policy: Policy, context: seq<FileContext>, edit: Edit, r: Replacement) {
    && policy.eligible(edit.path) && ReplacementFor(policy, context, edit, r)
    && edit.path in files && files[edit.path] == r.before
  }

  /** An edit has at most one replacement. */
  lemma ReplacementIsUnique(policy: Policy, context: seq<FileContext>, edit: Edit, a: Replacement, b: Replacement)
    requires ReplacementFor(policy, context, edit, a) && ReplacementFor(policy, context, edit, b)
    ensures a == b
  {
    hide TextBytes;
    hide MatchCount;
    assert a.before == b.before;
    var i: nat :| OccursAt(edit.oldText, a.before, i)
      && (forall j :: OccursAt(edit.oldText, a.before, j) ==> i <= j)
      && a.after == Splice(a.before, i, edit.oldText, edit.newText);
    var k: nat :| OccursAt(edit.oldText, b.before, k)
      && (forall j :: OccursAt(edit.oldText, b.before, j) ==> k <= j)
      && b.after == Splice(b.before, k, edit.oldText, edit.newText);
    hide OccursAt;
    assert i <= k && k <= i;
  }

  /** One edit of the proposal, up to the count of changed lines: it succeeds exactly when its file can be
      read and the edit is in order. */
  method PrepareOne(dir: Directory, policy: Policy, context: seq<FileContext>, edit: Edit)
    returns (r: Result<Replacement, PrepareError>)
    modifies dir`clock
    ensures r.Ok? <==>
      dir.faults.readable(old(dir.clock)) && exists x :: EditOk(dir.files, policy, context, edit, x)
    ensures r.Ok? ==> EditOk(dir.files, policy, context, edit, r.value) && dir.clock == old(dir.clock) + 1
  {
    hide TextBytes;
    var file := FindContext(context, edit.path);
    if file.None? {
      return Err(UnapprovedPath);
    }
    var text := dir.ReadToString(edit.path);
    if !policy.eligible(edit.path) || text != Some(file.value.content) {
      return Err(PrepareError.FileChanged);
    }
    var before := file.value.content;
    if edit.oldText == "" || MatchCount(edit.oldText, before, 0) != 1 {
      return Err(NotExactlyOnce);
    }
    var at := Find(edit.oldText, before, 0).value;
    var after := Splice(before, at, edit.oldText, edit.newText);
    assert OccursAt(edit.oldText, before, at);
    FirstOccurrenceOnly(policy, context, edit, before, at);
    if after == before {
      return Err(NoOp);
    }
    if TextBytes(after) > LOCAL_FILE_BYTES || policy.secret(after) {
      return Err(TooLargeOrSecret);
    }
    r := Ok(Replacement(edit.path, before, after));
    assert EditOk(dir.files, policy, context, edit, r.value);
  }

  lemma FirstOccurrenceOnly(policy: Policy, context: seq<FileContext>, edit: Edit, before: string, at: nat)
    requires FindContext(context, edit.path) == Some(FileContext(edit.path, before))
    requires OccursAt(edit.oldText, before, at)
    requires forall j :: OccursAt(edit.oldText, before, j) ==> at <= j
    ensures forall x :: ReplacementFor(policy, context, edit, x) ==>
      x == Replacement(edit.path, before, Splice(before, at, edit.oldText, edit.newText))
  {
    hide TextBytes;
    hide MatchCount;
    forall x | ReplacementFor(policy, context, edit, x)
      ensures x == Replacement(edit.path, before, Splice(before, at, edit.oldText, edit.newText))
    {
      var k: nat :| OccursAt(edit.oldText, x.before, k)
        && (forall j :: OccursAt(edit.oldText, x.before, j) ==> k <= j)
        && x.after == Splice(x.before, k, edit.oldText, edit.newText);
      hide OccursAt;
      assert k <= at && at <= k;
    }
  }

  /** What a proposal needs: one or two edits of distinct files, each in order, fewer than 100 changed
      lines in all. */
  ghost predicate ProposalOk(
    files: Files, policy: Policy, context: seq<FileContext>, proposal: seq<Edit>, edits: seq<Replacement>)
  {
    && 1 <= |proposal| <= 2 && |edits| == |proposal|
    && (forall i, j :: 0 <= i < j < |proposal| ==> proposal[i].path != proposal[j].path)
    && (forall i :: 0 <= i < |proposal| ==> EditOk(files, policy, context, proposal[i], edits[i]))
    && TotalLines(policy, edits) < 100
  }

  /** Turns a proposal into replacements that `Apply` can take; it succeeds exactly on proposals that are
      in order and whose files can be read. */
  method Prepare(dir: Directory, policy: Policy, context: seq<FileContext>, proposal: seq<Edit>)
    returns (r: Result<seq<Replacement>, PrepareError>)
    modifies dir`clock
    ensures r.Ok? <==>
      && PreimagesReadable(dir.faults, old(dir.clock), |proposal|)
      && exists edits :: ProposalOk(dir.files, policy, context, proposal, edits)
    ensures r.Ok? ==> ProposalOk(dir.files, policy, context, proposal, r.value)
    ensures r.Ok? ==> Prepared(r.value) && Preimage(dir.files, r.value)
  {
    hide EditOk;
    hide TotalLines;
    if proposal == [] || |proposal| > 2 {
      return Err(EditCount);
    }
    var seen: set<Path> := {};
    var edits: seq<Replacement> := [];
    var lines := 0;
    NoLines(policy);
    for i := 0 to |proposal|
      invariant dir.clock == old(dir.clock) + i && PreimagesReadable(dir.faults, old(dir.clock), i)
      invariant |edits| == i && lines == TotalLines(policy, edits) && lines < 100
      invariant forall k :: 0 <= k < i ==> proposal[k].path in seen
      invariant forall path :: path in seen ==> exists k :: 0 <= k < i && proposal[k].path == path
      invariant forall j, k :: 0 <= j < k < i ==> proposal[j].path != proposal[k].path
      invariant forall k :: 0 <= k < i ==> EditOk(dir.files, policy, context, proposal[k], edits[k])
    {
      var edit := proposal[i];
      if edit.path in seen {
        return Err(RepeatedPath);
      }
      seen := seen + {edit.path};
      var one := PrepareOne(dir, policy, context, edit);
      assert ReadWorks(dir.faults, old(dir.clock), i) <==> dir.faults.readable(old(dir.clock) + i);
      if one.Err? {
        return Err(one.error);
      }
      OneMoreLine(policy, edits, one.value);
      lines := lines + policy.changedLines(one.value.before, one.value.after);
      edits := edits + [one.value];
      if lines >= 100 {
        TooLong(dir.files, policy, context, proposal, edits);
        return Err(TooManyLines);
      }
    }
    OrderedEditsAreReady(dir.files, policy, context, proposal, edits);
    assert ProposalOk(dir.files, policy, context, proposal, edits);
    r := Ok(edits);
  }

  lemma NoLines(policy: Policy)
    ensures TotalLines(policy, []) == 0
  {
  }

  lemma OneMoreLine(policy: Policy, edits: seq<Replacement>, last: Replacement)
    ensures TotalLines(policy, edits + [last]) ==
      TotalLines(policy, edits) + policy.changedLines(last.before, last.after)
  {
    assert (edits + [last])[..|edits|] == edits;
  }

  lemma {:induction false} LinesAddUp(policy: Policy, edits: seq<Replacement>, n: nat)
    requires n <= |edits|
    ensures TotalLines(policy, edits[..n]) <= TotalLines(policy, edits)
    decreases |edits|
  {
    if n < |edits| {
      var init := edits[..|edits| - 1];
      LinesAddUp(policy, init, n);
      assert init[..n] == edits[..n];
    } else {
      assert edits[..n] == edits;
    }
  }

  /** The first edits already change too many lines: whatever follows, the proposal is not in order. */
  lemma TooLong(
    files: Files, policy: Policy, context: seq<FileContext>, proposal: seq<Edit>, edits: seq<Replacement>)
    requires |edits| <= |proposal| && TotalLines(policy, edits) >= 100
    requires forall k :: 0 <= k < |edits| ==> EditOk(files, policy, context, proposal[k], edits[k])
    ensures forall all :: !ProposalOk(files, policy, context, proposal, all)
  {
    hide TotalLines;
    hide ReplacementFor;
    forall all | ProposalOk(files, policy, context, proposal, all)
      ensures false
    {
      forall k | 0 <= k < |edits|
        ensures all[k] == edits[k]
      {
        ReplacementIsUnique(policy, context, proposal[k], all[k], edits[k]);
      }
      assert all[..|edits|] == edits;
      LinesAddUp(policy, all, |edits|);
    }
  }

  lemma OrderedEditsAreReady(
    files: Files, policy: Policy, context: seq<FileContext>, proposal: seq<Edit>, edits: seq<Replacement>)
    requires |edits| == |proposal|
    requires forall i, j :: 0 <= i < j < |proposal| ==> proposal[i].path != proposal[j].path
    requires forall i :: 0 <= i < |proposal| ==> EditOk(files, policy, context, proposal[i], edits[i])
    ensures Prepared(edits) && Preimage(files, edits)
  {
    hide ReplacementFor;
    forall i | 0 <= i < |edits|
      ensures edits[i].path == proposal[i].path && edits[i].before != edits[i].after
    {
      IsForItsPath(policy, context, proposal[i], edits[i]);
    }
  }

  lemma IsForItsPath(policy: Policy, context: seq<FileContext>, edit: Edit, r: Replacement)
    requires ReplacementFor(policy, context, edit, r)
    ensures r.path == edit.path && r.before != r.after
  {
  }
}
