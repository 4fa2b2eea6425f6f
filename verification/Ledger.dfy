// The context budget of a task: what a capsule starts with, what retrievals
// add, and the transactional check that keeps the total within bounds
// (crates/hub-core/src/lib.rs, crates/hub-context/src/lib.rs, crates/hub-db/src/lib.rs).
module Ledger {
  import opened Common
  import opened Tasks
  import Evidence
  import Rendering

  const U32_MAX := 0xFFFF_FFFF

  type u32 = n: int | 0 <= n <= U32_MAX

  datatype Budget = Budget(initialTokens: u32, maxTotalTokens: u32, maxSingleRetrievalTokens: u32)

  /** `ContextBudget::validate`. */
  predicate BudgetOk(b: Budget) {
    && b.initialTokens != 0 && b.initialTokens <= b.maxTotalTokens
    && b.maxSingleRetrievalTokens <= b.maxTotalTokens
  }

  datatype Capsule = Capsule(budget: Budget, initial: u32)

  datatype Retrieval = Retrieval(task: TaskId, tokenBudget: u32, tokenEstimate: u32, denied: bool)

  /** The two tables of the store that matter here. */
  datatype Books = Books(capsules: map<TaskId, Capsule>, retrievals: seq<Retrieval>)

  /** A third of the bytes, rounded up, as far as 32 bits go. */
  function EstimateTokens(bytes: nat): (r: u32)
    ensures r < U32_MAX ==> bytes <= 3 * r < bytes + 3
    ensures r == U32_MAX ==> 3 * (U32_MAX - 1) < bytes
  {
    var estimate := (bytes + 2) / 3;
    if estimate > U32_MAX then U32_MAX else estimate
  }

  // ---- The store's operations, on the tables' values ----

  /** `SUM(token_estimate)` of a task. */
  function Used(retrievals: seq<Retrieval>, task: TaskId): nat {
    if retrievals == [] then 0
    else
      var last := retrievals[|retrievals| - 1];
      Used(retrievals[..|retrievals| - 1], task) + if last.task == task then last.tokenEstimate else 0
  }

  lemma UsedAppend(retrievals: seq<Retrieval>, r: Retrieval, task: TaskId)
    ensures Used(retrievals + [r], task) == Used(retrievals, task) + if r.task == task then r.tokenEstimate else 0
  {
    assert (retrievals + [r])[..|retrievals|] == retrievals;
  }

  /** The test inside the commit transaction. */
  predicate MayCommit(b: Books, r: Retrieval) {
    && r.task in b.capsules
    && var c := b.capsules[r.task];
    && r.tokenBudget <= c.budget.maxSingleRetrievalTokens
    && r.tokenEstimate <= r.tokenBudget
    && c.initial + Used(b.retrievals, r.task) + r.tokenEstimate <= c.budget.maxTotalTokens
  }

  function Committed(b: Books, r: Retrieval): Books {
    if MayCommit(b, r) then b.(retrievals := b.retrievals + [r]) else b
  }

  function Denied(b: Books, r: Retrieval): Books {
    b.(retrievals := b.retrievals + [Retrieval(r.task, r.tokenBudget, 0, true)])
  }

  /** A task has at most one capsule; saving a second fails. */
  function Saved(b: Books, task: TaskId, c: Capsule): Books {
    if task in b.capsules then b else b.(capsules := b.capsules[task := c])
  }

  // ---- The invariant ----

  ghost predicate InBudget(b: Books) {
    && (forall t :: t in b.capsules ==>
          && Used(b.retrievals, t) <= b.capsules[t].budget.maxTotalTokens
          && (b.capsules[t].initial <= b.capsules[t].budget.maxTotalTokens ==>
                b.capsules[t].initial + Used(b.retrievals, t) <= b.capsules[t].budget.maxTotalTokens))
    && (forall t: TaskId :: t !in b.capsules ==> Used(b.retrievals, t) == 0)
    && (forall i :: 0 <= i < |b.retrievals| ==> RowInBudget(b, b.retrievals[i]))
  }

  /** A denial costs nothing; anything else is within its own and the single-retrieval budget. */
  ghost predicate RowInBudget(b: Books, r: Retrieval) {
    if r.denied then r.tokenEstimate == 0
    else
      && r.task in b.capsules && r.tokenEstimate <= r.tokenBudget
      && r.tokenBudget <= b.capsules[r.task].budget.maxSingleRetrievalTokens
  }

  lemma AppendKeepsInBudget(b: Books, r: Retrieval)
    requires InBudget(b)
    requires (r.denied && r.tokenEstimate == 0) || (!r.denied && MayCommit(b, r))
    ensures InBudget(b.(retrievals := b.retrievals + [r]))
  {
    var b' := b.(retrievals := b.retrievals + [r]);
    forall t: TaskId
      ensures Used(b'.retrievals, t) == Used(b.retrievals, t) + if r.task == t then r.tokenEstimate else 0
    {
      UsedAppend(b.retrievals, r, t);
    }
    forall i | 0 <= i < |b'.retrievals|
      ensures RowInBudget(b', b'.retrievals[i])
    {
      if i < |b.retrievals| {
        assert RowInBudget(b, b.retrievals[i]);
      }
    }
  }

  lemma SaveKeepsInBudget(b: Books, task: TaskId, c: Capsule)
    requires InBudget(b)
    ensures InBudget(Saved(b, task, c))
  {
    var b' := Saved(b, task, c);
    forall i | 0 <= i < |b'.retrievals|
      ensures RowInBudget(b', b'.retrievals[i])
    {
      assert RowInBudget(b, b.retrievals[i]);
    }
  }

  // ---- Checking before the commit ----

  datatype Request = Request(task: TaskId, tokenBudget: u32)

  /** `inspect`'s current estimate; the addition saturates in the source. */
  function CurrentEstimate(b: Books, task: TaskId): nat
    requires task in b.capsules
  {
    b.capsules[task].initial + Used(b.retrievals, task)
  }

  /** The early check of `retrieve_inner`: at least 64 tokens, within one retrieval's budget and within what is left. */
  predicate PassesCheck(b: Books, q: Request) {
    && q.task in b.capsules && q.tokenBudget >= 64
    && q.tokenBudget <= b.capsules[q.task].budget.maxSingleRetrievalTokens
    && CurrentEstimate(b, q.task) + q.tokenBudget <= b.capsules[q.task].budget.maxTotalTokens
  }

  /** With nothing in between, a retrieval that passed the check and kept to its budget commits. */
  lemma UncontendedCommits(b: Books, q: Request, estimate: u32)
    requires PassesCheck(b, q) && estimate <= q.tokenBudget
    ensures MayCommit(b, Retrieval(q.task, q.tokenBudget, estimate, false))
  {
  }

  // ---- Interleaved clients ----

  datatype Client = Idle | Checked(request: Request) | Denying(request: Request)

  datatype System = System(books: Books, clients: map<nat, Client>)

  datatype Action =
    | Save(task: TaskId, capsule: Capsule)
    | Check(client: nat, request: Request)
    | Commit(client: nat, estimate: u32)
    | Deny(client: nat)

  /** One step of one client; checks and commits of different clients interleave freely. */
  ghost predicate Step(s: System, a: Action, s': System) {
    match a
    case Save(task, c) => s' == s.(books := Saved(s.books, task, c))
    case Check(k, q) =>
      && k in s.clients && s.clients[k].Idle?
      && s' == s.(clients := s.clients[k := if PassesCheck(s.books, q) then Checked(q) else Denying(q)])
    case Commit(k, estimate) =>
      && k in s.clients && s.clients[k].Checked?
      && var q := s.clients[k].request;
      && var r := Retrieval(q.task, q.tokenBudget, estimate, false);
      && s' == System(Committed(s.books, r), s.clients[k := if MayCommit(s.books, r) then Idle else Denying(q)])
    case Deny(k) =>
      && k in s.clients && s.clients[k].Denying?
      && var q := s.clients[k].request;
      && s' == System(Denied(s.books, Retrieval(q.task, q.tokenBudget, 0, true)), s.clients[k := Idle])
  }

  ghost predicate IsRun(ss: seq<System>, actions: seq<Action>) {
    && |ss| == |actions| + 1
    && forall i, j :: 0 <= i < j < |ss| && j == i + 1 ==> Step(ss[i], actions[i], ss[j])
  }

  lemma StepKeepsInBudget(s: System, a: Action, s': System)
    requires InBudget(s.books) && Step(s, a, s')
    ensures InBudget(s'.books)
  {
    match a
    case Save(task, c) => SaveKeepsInBudget(s.books, task, c);
    case Check(k, q) =>
    case Commit(k, estimate) =>
      var q := s.clients[k].request;
      var r := Retrieval(q.task, q.tokenBudget, estimate, false);
      if MayCommit(s.books, r) {
        AppendKeepsInBudget(s.books, r);
      }
    case Deny(k) =>
      var q := s.clients[k].request;
      AppendKeepsInBudget(s.books, Retrieval(q.task, q.tokenBudget, 0, true));
  }

  lemma {:induction false} RunStaysInBudget(ss: seq<System>, actions: seq<Action>, k: nat)
    requires IsRun(ss, actions) && InBudget(ss[0].books) && k < |ss|
    ensures InBudget(ss[k].books)
  {
    hide InBudget;
    if k > 0 {
      RunStaysInBudget(ss, actions, k - 1);
      StepKeepsInBudget(ss[k - 1], actions[k - 1], ss[k]);
    }
  }

  /** At every point of every interleaving: a task never holds more than its total budget, and the
      sums `inspect` computes in 32 bits neither overflow nor saturate. */
  lemma TotalsStayInBudget(ss: seq<System>, actions: seq<Action>, k: nat, task: TaskId)
    requires IsRun(ss, actions) && k < |ss| && ss[0].books.retrievals == []
    requires task in ss[k].books.capsules
    ensures var c, used := ss[k].books.capsules[task], Used(ss[k].books.retrievals, task);
      && used <= c.budget.maxTotalTokens <= U32_MAX
      && (c.initial <= c.budget.maxTotalTokens ==> c.initial + used <= c.budget.maxTotalTokens)
  {
    assert InBudget(ss[0].books);
    RunStaysInBudget(ss, actions, k);
  }

  /** A retrieval that passed its check is refused at the commit exactly when others have used up
      what it would need. */
  lemma CheckedCommitsIff(b: Books, b': Books, q: Request, estimate: u32)
    requires PassesCheck(b, q) && estimate <= q.tokenBudget
    requires q.task in b'.capsules && b'.capsules[q.task] == b.capsules[q.task]
    ensures MayCommit(b', Retrieval(q.task, q.tokenBudget, estimate, false)) <==>
      CurrentEstimate(b', q.task) + estimate <= b'.capsules[q.task].budget.maxTotalTokens
  {
  }

  /** Capsules are never replaced. */
  lemma {:induction false} CapsulesStay(ss: seq<System>, actions: seq<Action>, i: nat, j: nat, task: TaskId)
    requires IsRun(ss, actions) && i <= j < |ss| && task in ss[i].books.capsules
    ensures task in ss[j].books.capsules && ss[j].books.capsules[task] == ss[i].books.capsules[task]
    decreases j - i
  {
    if i < j {
      CapsulesStay(ss, actions, i, j - 1, task);
      assert Step(ss[j - 1], actions[j - 1], ss[j]);
    }
  }

  /** Between two points where a task holds different amounts someone committed for it. */
  lemma {:induction false} SomeoneCommitted(ss: seq<System>, actions: seq<Action>, i: nat, j: nat, task: TaskId)
    requires IsRun(ss, actions) && i <= j < |ss|
    requires Used(ss[i].books.retrievals, task) != Used(ss[j].books.retrievals, task)
    ensures exists k :: i <= k < j && CommitsFor(ss, actions, k, task)
    decreases j - i
  {
    if Used(ss[j - 1].books.retrievals, task) == Used(ss[j].books.retrievals, task) {
      SomeoneCommitted(ss, actions, i, j - 1, task);
    } else {
      UsedStep(ss[j - 1], actions[j - 1], ss[j], task);
      assert CommitsFor(ss, actions, j - 1, task);
    }
  }

  ghost predicate CommitsFor(ss: seq<System>, actions: seq<Action>, k: nat, task: TaskId)
    requires k < |actions| && |ss| == |actions| + 1
  {
    && actions[k].Commit? && actions[k].client in ss[k].clients && ss[k].clients[actions[k].client].Checked?
    && ss[k].clients[actions[k].client].request.task == task
    && actions[k].client in ss[k + 1].clients && ss[k + 1].clients[actions[k].client].Idle?
  }

  lemma UsedStep(s: System, a: Action, s': System, task: TaskId)
    requires Step(s, a, s') && Used(s.books.retrievals, task) != Used(s'.books.retrievals, task)
    ensures a.Commit? && a.client in s.clients && s.clients[a.client].Checked?
    ensures s.clients[a.client].request.task == task && a.client in s'.clients && s'.clients[a.client].Idle?
  {
    match a
    case Save(t, c) =>
    case Check(k, q) =>
    case Commit(k, estimate) =>
      var q := s.clients[k].request;
      UsedAppend(s.books.retrievals, Retrieval(q.task, q.tokenBudget, estimate, false), task);
    case Deny(k) =>
      var q := s.clients[k].request;
      UsedAppend(s.books.retrievals, Retrieval(q.task, q.tokenBudget, 0, true), task);
  }

  /** In any run, a request that passed its check is refused at its commit exactly when what was committed
      for the task in between, together with its estimate, exceeds what was left at the check; and then
      someone did commit in between. */
  lemma RefusedIffOthersCommitted(
    ss: seq<System>, actions: seq<Action>, i: nat, j: nat, client: nat, q: Request, estimate: u32)
    requires IsRun(ss, actions) && i < j < |actions|
    requires actions[i] == Check(client, q) && PassesCheck(ss[i].books, q)
    requires actions[j] == Commit(client, estimate) && estimate <= q.tokenBudget
    requires client in ss[j].clients && ss[j].clients[client] == Checked(q)
    ensures var left := ss[i].books.capsules[q.task].budget.maxTotalTokens - CurrentEstimate(ss[i].books, q.task);
      var between := Used(ss[j].books.retrievals, q.task) - Used(ss[i].books.retrievals, q.task);
      ss[j + 1].clients[client] == Denying(q) <==> between + estimate > left
    ensures ss[j + 1].clients[client] == Denying(q) ==>
      exists k :: i <= k < j && CommitsFor(ss, actions, k, q.task)
  {
    CapsulesStay(ss, actions, i, j, q.task);
    CheckedCommitsIff(ss[i].books, ss[j].books, q, estimate);
    assert Step(ss[j], actions[j], ss[j + 1]);
    if ss[j + 1].clients[client] == Denying(q) {
      SomeoneCommitted(ss, actions, i, j, q.task);
    }
  }

  /** Two clients can both pass the check with only one of them able to commit. */
  lemma CheckAloneIsNotEnough(task: TaskId)
    ensures var b := Books(map[task := Capsule(Budget(100, 200, 100), 100)], []);
      var q := Request(task, 80);
      var r := Retrieval(task, 80, 80, false);
      PassesCheck(b, q) && MayCommit(b, r) && !MayCommit(Committed(b, r), r)
  {
    var b := Books(map[task := Capsule(Budget(100, 200, 100), 100)], []);
    var r := Retrieval(task, 80, 80, false);
    UsedAppend([], r, task);
    assert Committed(b, r).retrievals == [] + [r];
  }

  // ---- Cutting a result down to its budget ----

  /** The payload: everything but text and flag takes `frame` bytes. */
  function PayloadBytes(frame: nat, text: string, truncated: bool): nat {
    frame + Evidence.StringBytes(text) + Evidence.BoolBytes(truncated)
  }

  predicate Fits(frame: nat, text: string, truncated: bool, budget: u32) {
    EstimateTokens(PayloadBytes(frame, text, truncated)) <= budget
  }

  /** The text after `cuts` cuts of 33 characters. */
  function Cut(text: string, cuts: nat): (r: string)
    ensures r <= text
    ensures |r| == if 33 * cuts <= |text| then |text| - 33 * cuts else 0
  {
    if 33 * cuts <= |text| then text[..|text| - 33 * cuts] else ""
  }

  /** Neither the text, nor any cut of it, nor the empty text fits. */
  ghost predicate NothingFits(frame: nat, whole: string, budget: u32) {
    && !Fits(frame, "", whole != "", budget)
    && forall i :: 0 <= i && Cut(whole, i) != "" ==> !Fits(frame, Cut(whole, i), i > 0, budget)
  }

  /** That many cuts fit, and no fewer. */
  ghost predicate FirstFit(frame: nat, whole: string, budget: u32, cuts: nat) {
    && Fits(frame, Cut(whole, cuts), cuts > 0, budget)
    && forall i :: 0 <= i < cuts ==> !Fits(frame, Cut(whole, i), i > 0, budget)
  }

  /** Cuts 33 characters at a time and stops at the first length that fits; fails only when even the
      empty text does not. */
  method Truncate(frame: nat, whole: string, budget: u32) returns (r: Option<(string, bool)>, ghost cuts: nat)
    ensures r.Some? ==> r.value == (Cut(whole, cuts), cuts > 0) && FirstFit(frame, whole, budget, cuts)
    ensures r.None? <==> NothingFits(frame, whole, budget)
  {
    hide EstimateTokens;
    hide PayloadBytes;
    var text, truncated := whole, false;
    cuts := 0;
    while EstimateTokens(PayloadBytes(frame, text, truncated)) > budget
      invariant text == Cut(whole, cuts) && truncated == (cuts > 0)
      invariant cuts > 0 ==> Cut(whole, cuts - 1) != ""
      invariant forall i :: 0 <= i < cuts ==> !Fits(frame, Cut(whole, i), i > 0, budget)
      decreases |text|, !truncated
    {
      assert !Fits(frame, text, truncated, budget);
      truncated := true;
      if text == "" {
        CutsShrink(whole, cuts);
        return None, cuts;
      }
      var n := if |text| >= 33 then |text| - 33 else 0;
      text := text[..n];
      cuts := cuts + 1;
      assert text == Cut(whole, cuts);
    }
    CutsShrink(whole, cuts);
    assert Fits(frame, text, truncated, budget);
    r := Some((text, truncated));
  }

  /** Once a cut is empty, all further ones are. */
  lemma CutsShrink(whole: string, cuts: nat)
    ensures forall i :: 0 <= i && Cut(whole, cuts) == "" && Cut(whole, i) != "" ==> i < cuts
    ensures Cut(whole, 0) == whole
  {
  }

  // ---- The store ----

  class Store {
    var books: Books

    ghost predicate Valid()
      reads this
    {
      InBudget(books)
    }

    constructor ()
      ensures Valid() && books == Books(map[], [])
    {
      books := Books(map[], []);
    }

    method SaveCapsule(task: TaskId, capsule: Capsule) returns (ok: bool)
      requires Valid()
      modifies this
      ensures Valid() && books == Saved(old(books), task, capsule)
      ensures ok <==> task !in old(books).capsules
      ensures books.retrievals == old(books).retrievals
      ensures books.capsules == if ok then old(books).capsules[task := capsule] else old(books).capsules
    {
      SaveKeepsInBudget(books, task, capsule);
      ok := task !in books.capsules;
      if ok {
        books := books.(capsules := books.capsules[task := capsule]);
      }
    }

    method CommitRetrieval(r: Retrieval) returns (ok: bool)
      requires Valid() && !r.denied
      modifies this
      ensures Valid() && books == Committed(old(books), r)
      ensures ok <==> MayCommit(old(books), r)
      ensures books.capsules == old(books).capsules
      ensures books.retrievals == if ok then old(books).retrievals + [r] else old(books).retrievals
    {
      if r.task !in books.capsules {
        return false;
      }
      var capsule := books.capsules[r.task];
      var used := SumOfTask(r.task);
      if r.tokenBudget > capsule.budget.maxSingleRetrievalTokens
        || r.tokenEstimate > r.tokenBudget
        || capsule.initial + used + r.tokenEstimate > capsule.budget.maxTotalTokens
      {
        return false;
      }
      AppendKeepsInBudget(books, r);
      books := books.(retrievals := books.retrievals + [r]);
      return true;
    }

    method RecordDenial(r: Retrieval)
      requires Valid()
      modifies this
      ensures Valid() && books == Denied(old(books), r)
      ensures books.capsules == old(books).capsules
      ensures books.retrievals == old(books).retrievals + [r.(tokenEstimate := 0, denied := true)]
    {
      AppendKeepsInBudget(books, Retrieval(r.task, r.tokenBudget, 0, true));
      books := books.(retrievals := books.retrievals + [Retrieval(r.task, r.tokenBudget, 0, true)]);
    }

    /** The sum of a task's estimates.  That the running total is a `u32` is what makes the addition safe. */
    method SumOfTask(task: TaskId) returns (total: u32)
      requires Valid()
      ensures total == Used(books.retrievals, task)
    {
      total := 0;
      for i := 0 to |books.retrievals|
        invariant total == Used(books.retrievals[..i], task)
      {
        assert books.retrievals[..i + 1][..i] == books.retrievals[..i];
        UsedPrefix(books.retrievals, i + 1, task);
        assert Used(books.retrievals, task) <= U32_MAX;
        if books.retrievals[i].task == task {
          total := total + books.retrievals[i].tokenEstimate;
        }
      }
      assert books.retrievals[..|books.retrievals|] == books.retrievals;
    }

    /** `inspect`: initial tokens, retrieved tokens and their saturating sum. */
    method Inspect(task: TaskId) returns (r: Option<(Capsule, u32, u32)>)
      requires Valid()
      ensures r.Some? <==> task in books.capsules
      ensures r.Some? ==> r.value.0 == books.capsules[task] && r.value.1 == Used(books.retrievals, task)
      ensures r.Some? ==>
        r.value.2 == if CurrentEstimate(books, task) > U32_MAX then U32_MAX else CurrentEstimate(books, task)
      // on a capsule that was built within its budget the addition does not saturate
      ensures r.Some? && r.value.0.initial <= r.value.0.budget.maxTotalTokens ==>
        r.value.2 == CurrentEstimate(books, task) <= r.value.0.budget.maxTotalTokens
    {
      if task !in books.capsules {
        return None;
      }
      var capsule := books.capsules[task];
      var used := SumOfTask(task);
      var current: u32 := if capsule.initial + used > U32_MAX then U32_MAX else capsule.initial + used;
      return Some((capsule, used, current));
    }

    /** `prepare_capsule` and `build_initial`: the capsule's own text must fit its initial budget. */
    method BuildInitial(task: TaskId, budget: Budget, serializedBytes: nat) returns (ok: bool)
      requires Valid()
      modifies this
      ensures Valid()
      ensures ok <==>
        BudgetOk(budget) && EstimateTokens(serializedBytes) <= budget.initialTokens && task !in old(books).capsules
      ensures !ok ==> books == old(books)
      ensures ok ==> books == Saved(old(books), task, Capsule(budget, EstimateTokens(serializedBytes)))
      ensures ok ==> books.capsules[task].initial <= budget.maxTotalTokens
    {
      if budget.initialTokens == 0 || budget.initialTokens > budget.maxTotalTokens
        || budget.maxSingleRetrievalTokens > budget.maxTotalTokens
        || EstimateTokens(serializedBytes) > budget.initialTokens
      {
        return false;
      }
      ok := SaveCapsule(task, Capsule(budget, EstimateTokens(serializedBytes)));
    }

    /** The early check of `retrieve_inner`, with its saturating subtraction. */
    method CheckRequest(q: Request, queryOk: bool) returns (ok: bool)
      requires Valid()
      ensures ok <==> queryOk && PassesCheck(books, q)
    {
      if !queryOk || q.tokenBudget < 64 {
        return false;
      }
      var inspection := Inspect(q.task);
      if inspection.None? {
        return false;
      }
      var budget := inspection.value.0.budget;
      if q.tokenBudget > budget.maxSingleRetrievalTokens {
        return false;
      }
      var current := inspection.value.2;
      var remaining := if budget.maxTotalTokens < current then 0 else budget.maxTotalTokens - current;
      ok := q.tokenBudget <= remaining;
    }

    /** One retrieval without interference: it is booked exactly at its estimate, within its budget,
        or booked as a denial that costs nothing.  `entries` is absent when the source refuses. */
    method Retrieve(q: Request, queryOk: bool, frame: nat, entries: Option<string>)
      returns (r: Option<(string, bool)>)
      requires Valid()
      modifies this
      ensures Valid()
      ensures r.Some? <==>
        queryOk && PassesCheck(old(books), q) && entries.Some? && !NothingFits(frame, entries.value, q.tokenBudget)
      ensures r.Some? ==> exists cuts: nat ::
        FirstFit(frame, entries.value, q.tokenBudget, cuts) && r.value == (Cut(entries.value, cuts), cuts > 0)
      ensures r.Some? ==>
        var estimate := EstimateTokens(PayloadBytes(frame, r.value.0, r.value.1));
        estimate <= q.tokenBudget && MayCommit(old(books), Retrieval(q.task, q.tokenBudget, estimate, false))
        && books == Committed(old(books), Retrieval(q.task, q.tokenBudget, estimate, false))
      // so the bytes handed out are within three times the tokens asked for
      ensures r.Some? && q.tokenBudget < U32_MAX ==> Evidence.TextBytes(r.value.0) <= 3 * q.tokenBudget
      ensures r.None? ==> books == Denied(old(books), Retrieval(q.task, q.tokenBudget, 0, true))
    {
      hide InBudget;
      hide EstimateTokens;
      r := None;
      var passed := CheckRequest(q, queryOk);
      if passed && entries.Some? {
        ghost var cuts;
        r, cuts := Truncate(frame, entries.value, q.tokenBudget);
        if r.Some? {
          var estimate := EstimateTokens(PayloadBytes(frame, r.value.0, r.value.1));
          UncontendedCommits(books, q, estimate);
          var committed := CommitRetrieval(Retrieval(q.task, q.tokenBudget, estimate, false));
          assert committed;
          Rendering.EscapedBytesBounds(r.value.0);
          return;
        }
      }
      RecordDenial(Retrieval(q.task, q.tokenBudget, 0, true));
    }
  }

  lemma {:induction false} UsedPrefix(retrievals: seq<Retrieval>, n: nat, task: TaskId)
    requires n <= |retrievals|
    ensures Used(retrievals[..n], task) <= Used(retrievals, task)
    decreases |retrievals| - n
  {
    if n < |retrievals| {
      assert retrievals[..n + 1][..n] == retrievals[..n];
      UsedPrefix(retrievals, n + 1, task);
    } else {
      assert retrievals[..n] == retrievals;
    }
  }
}
