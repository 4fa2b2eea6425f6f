// Cancelling commands by request id (crates/localoud-mcp/src/rpc_session.rs). A request is known by the
// number of the message that asked for it; the registry only ever sees ids.
module Cancellation {
  import opened Common

  /** A JSON request id. Only texts and numbers can be cancelled; any value can be an id of a command. */
  datatype Id = Text(text: string) | Number(digits: string) | OtherJson(text: string)

  datatype Event = Command(id: Id) | Cancel(id: Id) | Dropped(request: nat) | OtherMessage

  datatype Reply = Refused | Cancelled | Answered(response: string)

  const LIMIT := 128

  predicate Cancellable(id: Id) {
    !id.OtherJson?
  }

  // ---- The history of a session ----

  ghost predicate IsLive(log: seq<Event>, live: set<nat>, r: nat, id: Id) {
    r in live && r < |log| && log[r] == Command(id)
  }

  ghost predicate Busy(log: seq<Event>, live: set<nat>, id: Id) {
    exists r: nat :: IsLive(log, live, r, id)
  }

  ghost function LiveAfter(log: seq<Event>, live: set<nat>, e: Event): set<nat> {
    if e.Command? && !Busy(log, live, e.id) && |live| < LIMIT then live + {|log|}
    else if e.Dropped? then live - {e.request}
    else live
  }

  /** The requests that were admitted and whose future has not been dropped. */
  ghost function Live(log: seq<Event>): set<nat> {
    if log == [] then {}
    else LiveAfter(log[..|log| - 1], Live(log[..|log| - 1]), log[|log| - 1])
  }

  /** A command is admitted when its id is free and there is room. */
  ghost predicate Admitted(log: seq<Event>, r: nat) {
    && r < |log| && log[r].Command?
    && !Busy(log[..r], Live(log[..r]), log[r].id) && |Live(log[..r])| < LIMIT
  }

  /** A cancellation of its id arrived while the request was live. */
  ghost predicate Signalled(log: seq<Event>, r: nat) {
    exists j :: r < j < |log| && CancelledAt(log, r, j)
  }

  ghost predicate CancelledAt(log: seq<Event>, r: nat, j: nat)
    requires r < j < |log|
  {
    log[r].Command? && log[j] == Cancel(log[r].id) && Cancellable(log[r].id) && r in Live(log[..j])
  }

  lemma LiveStep(log: seq<Event>, e: Event)
    ensures Live(log + [e]) == LiveAfter(log, Live(log), e)
  {
    assert (log + [e])[..|log|] == log;
  }

  /** Live means admitted and not dropped since. */
  lemma {:induction false} LiveIff(log: seq<Event>, r: nat)
    ensures r in Live(log) <==> Admitted(log, r) && forall k :: r < k < |log| ==> log[k] != Dropped(r)
  {
    if log != [] {
      var n := |log| - 1;
      var init := log[..n];
      LiveIff(init, r);
      hide Busy;
      assert log == init + [log[n]];
      assert r < n ==> init[..r] == log[..r];
      assert log[..n] == init;
      LiveStep(init, log[n]);
    }
  }

  ghost predicate Differ(log: seq<Event>, live: set<nat>) {
    forall r: nat, q: nat, id :: IsLive(log, live, r, id) && IsLive(log, live, q, id) ==> r == q
  }

  ghost predicate AreCommands(log: seq<Event>, live: set<nat>) {
    forall r :: r in live ==> r < |log| && log[r].Command?
  }

  /** Appending to the history keeps who is live. */
  lemma IsLiveStays(log: seq<Event>, e: Event, live: set<nat>)
    requires forall r :: r in live ==> r < |log|
    ensures forall r: nat, id :: IsLive(log + [e], live, r, id) == IsLive(log, live, r, id)
    ensures forall id :: Busy(log + [e], live, id) == Busy(log, live, id)
  {
    forall r: nat, id
      ensures IsLive(log + [e], live, r, id) == IsLive(log, live, r, id)
    {
      if r < |log| {
        assert (log + [e])[r] == log[r];
      }
    }
    hide IsLive;
  }

  lemma AdmittedIsLive(log: seq<Event>, id: Id, live: set<nat>)
    requires forall r :: r in live ==> r < |log|
    ensures forall r: nat, other :: IsLive(log + [Command(id)], live + {|log|}, r, other) <==>
      IsLive(log, live, r, other) || (r == |log| && other == id)
  {
    var e := Command(id);
    IsLiveStays(log, e, live);
    assert (log + [e])[|log|] == e;
    forall r: nat, other
      ensures IsLive(log + [e], live + {|log|}, r, other) <==>
        IsLive(log + [e], live, r, other) || (r == |log| && other == id)
    {
    }
    hide IsLive;
  }

  lemma DifferStep(log: seq<Event>, live: set<nat>, e: Event)
    requires Differ(log, live) && AreCommands(log, live)
    ensures Differ(log + [e], LiveAfter(log, live, e))
  {
    IsLiveStays(log, e, live);
    if e.Command? {
      AdmittedIsLive(log, e.id, live);
    }
    if e.Dropped? {
      assert forall r: nat, id :: IsLive(log + [e], live - {e.request}, r, id) ==> IsLive(log + [e], live, r, id);
    }
    hide IsLive;
  }

  /** No two live requests share an id, and there are at most 128. */
  lemma {:induction false} LiveOnesDiffer(log: seq<Event>)
    ensures Differ(log, Live(log)) && |Live(log)| <= 128 && AreCommands(log, Live(log))
  {
    hide Busy;
    hide Differ;
    if log == [] {
      assert Differ([], {}) by {
        NothingDiffers();
      }
    } else {
      var n := |log| - 1;
      var init := log[..n];
      LiveOnesDiffer(init);
      assert log == init + [log[n]];
      DifferStep(init, Live(init), log[n]);
    }
  }

  lemma NothingDiffers()
    ensures Differ([], {})
  {
  }

  lemma {:induction false} SignalledStep(log: seq<Event>, e: Event, r: nat)
    requires r < |log|
    ensures Signalled(log + [e], r) <==>
      Signalled(log, r) || (log[r].Command? && e == Cancel(log[r].id) && Cancellable(log[r].id) && r in Live(log))
  {
    hide Live;
    var all := log + [e];
    assert all[..|log|] == log;
    forall j | r < j < |log|
      ensures CancelledAt(all, r, j) == CancelledAt(log, r, j)
    {
      assert all[..j] == log[..j];
    }
    if Signalled(log, r) {
      var j :| r < j < |log| && CancelledAt(log, r, j);
      assert CancelledAt(all, r, j);
    }
    if log[r].Command? && e == Cancel(log[r].id) && Cancellable(log[r].id) && r in Live(log) {
      assert CancelledAt(all, r, |log|);
    }
  }

  /** A request is signalled exactly when it was admitted and a cancellation of its id came after it and
      before its future was dropped. */
  lemma SignalledIff(log: seq<Event>, r: nat)
    ensures Signalled(log, r) <==>
      && Admitted(log, r) && Cancellable(log[r].id)
      && exists j :: r < j < |log| && log[j] == Cancel(log[r].id) && KeptUntil(log, r, j)
  {
    forall j | r < j < |log|
      ensures CancelledAt(log, r, j) <==>
        Admitted(log, r) && Cancellable(log[r].id) && log[j] == Cancel(log[r].id) && KeptUntil(log, r, j)
    {
      LiveUntil(log, r, j);
      hide Live;
      hide Busy;
      hide KeptUntil;
    }
    hide Admitted;
    hide CancelledAt;
    hide KeptUntil;
    hide Cancellable;
    if Signalled(log, r) {
      var j :| r < j < |log| && CancelledAt(log, r, j);
      assert log[j] == Cancel(log[r].id) && KeptUntil(log, r, j);
    }
  }

  lemma LiveUntil(log: seq<Event>, r: nat, j: nat)
    requires r < j <= |log|
    ensures r in Live(log[..j]) <==> Admitted(log, r) && KeptUntil(log, r, j)
  {
    LiveIff(log[..j], r);
    hide Live;
    hide Busy;
    assert log[..j][..r] == log[..r];
    assert forall k :: r < k < j ==> log[..j][k] == log[k];
  }

  ghost predicate KeptUntil(log: seq<Event>, r: nat, j: nat)
    requires j <= |log|
  {
    forall k :: r < k < j ==> log[k] != Dropped(r)
  }

  /** One cancellation signals at most one request. */
  lemma OneCancelOneRequest(log: seq<Event>, r: nat, q: nat, j: nat)
    requires r < j < |log| && q < j && CancelledAt(log, r, j) && CancelledAt(log, q, j)
    ensures r == q
  {
    LiveOnesDiffer(log[..j]);
    hide Live;
    assert log[..j][r] == log[r] && log[..j][q] == log[q];
    assert IsLive(log[..j], Live(log[..j]), r, log[r].id) && IsLive(log[..j], Live(log[..j]), q, log[r].id);
  }

  // ---- The registry ----

  ghost predicate IdsAreBusy(log: seq<Event>, live: set<nat>, pending: map<Id, Option<nat>>) {
    forall id :: id in pending ==> Busy(log, live, id)
  }

  ghost predicate LiveIdsAreIn(log: seq<Event>, live: set<nat>, pending: map<Id, Option<nat>>) {
    forall r: nat, id :: IsLive(log, live, r, id) ==> id in pending
  }

  /** What the registry holds after a history: an entry for each live request, under its id, */
  ghost predicate Registers(log: seq<Event>, pending: map<Id, Option<nat>>) {
    |pending| == |Live(log)| && LiveIdsAreIn(log, Live(log), pending) && IdsAreBusy(log, Live(log), pending)
  }

  /** with the sender of its channel unless it has been used. */
  ghost predicate Senders(log: seq<Event>, live: set<nat>, pending: map<Id, Option<nat>>) {
    forall r: nat, id :: IsLive(log, live, r, id) && id in pending ==>
      pending[id] == if Signalled(log, r) then None else Some(r)
  }

  ghost predicate Matches(log: seq<Event>, pending: map<Id, Option<nat>>, received: set<nat>) {
    && Registers(log, pending) && Senders(log, Live(log), pending)
    && forall r: nat :: r in received <==> r < |log| && Signalled(log, r)
  }

  lemma TakenIffBusy(log: seq<Event>, pending: map<Id, Option<nat>>, id: Id)
    requires Registers(log, pending)
    ensures id in pending <==> Busy(log, Live(log), id)
  {
    hide Live;
    hide IsLive;
  }

  lemma QuietStep(log: seq<Event>, e: Event, received: set<nat>)
    requires forall r: nat :: r in received <==> r < |log| && Signalled(log, r)
    requires forall r :: r in Live(log) ==> r < |log|
    requires e.Cancel? && Cancellable(e.id) ==> forall r: nat :: IsLive(log, Live(log), r, e.id) ==> Signalled(log, r)
    ensures forall r: nat :: r < |log| ==> Signalled(log + [e], r) == Signalled(log, r)
    ensures forall r: nat :: r in received <==> r < |log + [e]| && Signalled(log + [e], r)
  {
    hide Live;
    forall r: nat | r < |log|
      ensures Signalled(log + [e], r) == Signalled(log, r)
    {
      SignalledStep(log, e, r);
      if e.Cancel? && log[r] == Command(e.id) && r in Live(log) {
        assert IsLive(log, Live(log), r, e.id);
      }
    }
    hide Signalled;
    assert forall r: nat :: r in received ==> r < |log|;
    NewIsQuiet(log + [e]);
  }

  lemma NewIsQuiet(log: seq<Event>)
    requires log != []
    ensures !Signalled(log, |log| - 1)
  {
  }

  lemma SameLiveStep(log: seq<Event>, e: Event, pending: map<Id, Option<nat>>, received: set<nat>)
    requires Matches(log, pending, received) && Live(log + [e]) == Live(log)
    requires e.Cancel? && Cancellable(e.id) ==> e.id !in pending || pending[e.id].None?
    ensures Matches(log + [e], pending, received)
  {
    LiveOnesDiffer(log);
    hide Live;
    hide Signalled;
    hide IsLive;
    QuietStep(log, e, received);
    IsLiveStays(log, e, Live(log));
    hide Busy;
    SendersStay(log, e, Live(log), pending);
    hide Senders;
  }

  lemma SendersStay(log: seq<Event>, e: Event, live: set<nat>, pending: map<Id, Option<nat>>)
    requires Senders(log, live, pending)
    requires forall r :: r in live ==> r < |log|
    requires forall r: nat :: r < |log| ==> Signalled(log + [e], r) == Signalled(log, r)
    ensures Senders(log + [e], live, pending)
  {
    IsLiveStays(log, e, live);
    hide Signalled;
    assert forall r: nat, id :: IsLive(log, live, r, id) ==> r < |log|;
    hide IsLive;
  }

  lemma AdmitRegisters(log: seq<Event>, id: Id, pending: map<Id, Option<nat>>)
    requires Registers(log, pending) && id !in pending && |pending| < LIMIT
    ensures Live(log + [Command(id)]) == Live(log) + {|log|} && |log| !in Live(log)
    ensures Registers(log + [Command(id)], pending[id := Some(|log|)])
  {
    var e := Command(id);
    LiveStep(log, e);
    TakenIffBusy(log, pending, id);
    LiveOnesDiffer(log);
    assert Live(log + [e]) == Live(log) + {|log|};
    hide Live;
    AdmitsIds(log, id, Live(log), pending);
    hide IdsAreBusy;
    hide LiveIdsAreIn;
  }

  lemma AdmitsIds(log: seq<Event>, id: Id, live: set<nat>, pending: map<Id, Option<nat>>)
    requires LiveIdsAreIn(log, live, pending) && IdsAreBusy(log, live, pending)
    requires forall r :: r in live ==> r < |log|
    ensures LiveIdsAreIn(log + [Command(id)], live + {|log|}, pending[id := Some(|log|)])
    ensures IdsAreBusy(log + [Command(id)], live + {|log|}, pending[id := Some(|log|)])
  {
    var all := live + {|log|};
    AdmittedIsLive(log, id, live);
    hide IsLive;
    assert IsLive(log + [Command(id)], all, |log|, id);
    forall other | other in pending
      ensures Busy(log + [Command(id)], all, other)
    {
      var r: nat :| IsLive(log, live, r, other);
      assert IsLive(log + [Command(id)], all, r, other);
    }
  }

  lemma AdmitSenders(log: seq<Event>, id: Id, live: set<nat>, pending: map<Id, Option<nat>>)
    requires Senders(log, live, pending) && LiveIdsAreIn(log, live, pending) && id !in pending
    requires forall r :: r in live ==> r < |log|
    requires forall r: nat :: r < |log| ==> Signalled(log + [Command(id)], r) == Signalled(log, r)
    ensures Senders(log + [Command(id)], live + {|log|}, pending[id := Some(|log|)])
  {
    AdmittedIsLive(log, id, live);
    NewIsQuiet(log + [Command(id)]);
    hide Signalled;
    assert forall r: nat, other :: IsLive(log, live, r, other) ==> r < |log|;
    hide IsLive;
  }

  lemma AdmitStep(log: seq<Event>, id: Id, pending: map<Id, Option<nat>>, received: set<nat>)
    requires Matches(log, pending, received) && id !in pending && |pending| < LIMIT
    ensures Matches(log + [Command(id)], pending[id := Some(|log|)], received)
  {
    AdmitRegisters(log, id, pending);
    LiveOnesDiffer(log);
    hide Live;
    hide Signalled;
    hide IsLive;
    QuietStep(log, Command(id), received);
    AdmitSenders(log, id, Live(log), pending);
    hide Senders;
    hide IdsAreBusy;
    hide LiveIdsAreIn;
  }

  lemma DropRegisters(log: seq<Event>, request: nat, id: Id, pending: map<Id, Option<nat>>)
    requires Registers(log, pending) && IsLive(log, Live(log), request, id)
    ensures Live(log + [Dropped(request)]) == Live(log) - {request}
    ensures Registers(log + [Dropped(request)], pending - {id})
  {
    var e := Dropped(request);
    LiveStep(log, e);
    LiveOnesDiffer(log);
    IsLiveStays(log, e, Live(log));
    hide Live;
    var live := Live(log) - {request};
    assert Live(log + [e]) == live;
    assert (pending - {id}).Keys == pending.Keys - {id};
    assert |pending - {id}| == |(pending - {id}).Keys| && |pending| == |pending.Keys|;
    forall r: nat, other
      ensures IsLive(log + [e], live, r, other) <==> IsLive(log + [e], Live(log), r, other) && other != id
    {
      if IsLive(log, Live(log), r, other) {
        assert other == id <==> r == request;
      }
    }
    hide IsLive;
  }

  lemma DropSenders(log: seq<Event>, request: nat, id: Id, live: set<nat>, pending: map<Id, Option<nat>>)
    requires Senders(log, live, pending)
    requires forall r :: r in live ==> r < |log|
    requires forall r: nat :: r < |log| ==> Signalled(log + [Dropped(request)], r) == Signalled(log, r)
    ensures Senders(log + [Dropped(request)], live - {request}, pending - {id})
  {
    var e, rest := Dropped(request), live - {request};
    SendersStay(log, e, live, pending);
    assert forall r: nat, other :: IsLive(log + [e], rest, r, other) ==> IsLive(log + [e], live, r, other);
    hide Signalled;
    hide IsLive;
  }

  /** Removing the entry under the id removes the request's own entry. */
  lemma DropStep(log: seq<Event>, request: nat, id: Id, pending: map<Id, Option<nat>>, received: set<nat>)
    requires Matches(log, pending, received) && IsLive(log, Live(log), request, id)
    ensures Matches(log + [Dropped(request)], pending - {id}, received)
  {
    DropRegisters(log, request, id, pending);
    LiveOnesDiffer(log);
    hide Live;
    hide Signalled;
    hide IsLive;
    QuietStep(log, Dropped(request), received);
    DropSenders(log, request, id, Live(log), pending);
    hide Senders;
    hide IdsAreBusy;
    hide LiveIdsAreIn;
  }

  lemma CancelSenders(log: seq<Event>, request: nat, id: Id, live: set<nat>, pending: map<Id, Option<nat>>)
    requires Senders(log, live, pending) && Differ(log, live) && IsLive(log, live, request, id)
    requires forall r :: r in live ==> r < |log|
    requires forall r: nat :: r < |log| ==>
      (Signalled(log + [Cancel(id)], r) <==> Signalled(log, r) || r == request)
    ensures Senders(log + [Cancel(id)], live, pending[id := None])
  {
    IsLiveStays(log, Cancel(id), live);
    hide Signalled;
    assert forall r: nat, other :: IsLive(log, live, r, other) ==>
      r < |log| && (other == id <==> r == request);
    hide IsLive;
  }

  lemma CancelSignals(log: seq<Event>, request: nat, id: Id, received: set<nat>)
    requires forall r: nat :: r in received <==> r < |log| && Signalled(log, r)
    requires Differ(log, Live(log)) && IsLive(log, Live(log), request, id) && Cancellable(id)
    ensures forall r: nat :: r < |log| ==>
      (Signalled(log + [Cancel(id)], r) <==> Signalled(log, r) || r == request)
    ensures forall r: nat :: r in received + {request} <==> r < |log + [Cancel(id)]| && Signalled(log + [Cancel(id)], r)
  {
    hide Live;
    forall r: nat | r < |log|
      ensures Signalled(log + [Cancel(id)], r) <==> Signalled(log, r) || r == request
    {
      SignalledStep(log, Cancel(id), r);
      if log[r] == Command(id) && r in Live(log) {
        assert IsLive(log, Live(log), r, id);
      }
    }
    NewIsQuiet(log + [Cancel(id)]);
    hide Signalled;
  }

  /** A cancellation reaches the live request with its id, once. */
  lemma CancelStep(log: seq<Event>, id: Id, pending: map<Id, Option<nat>>, received: set<nat>)
    requires Matches(log, pending, received) && Cancellable(id) && id in pending && pending[id].Some?
    ensures IsLive(log, Live(log), pending[id].value, id) && pending[id].value !in received
    ensures Matches(log + [Cancel(id)], pending[id := None], received + {pending[id].value})
  {
    LiveStep(log, Cancel(id));
    LiveOnesDiffer(log);
    hide Live;
    assert Busy(log, Live(log), id);
    var request: nat :| IsLive(log, Live(log), request, id);
    assert pending[id] == Some(request);
    CancelSignals(log, request, id, received);
    hide Signalled;
    CancelSenders(log, request, id, Live(log), pending);
    IsLiveStays(log, Cancel(id), Live(log));
    hide Senders;
    hide IsLive;
    hide Busy;
  }

  class RpcSession {
    // The sender of each registered command, by the command's id; `None` once it has been used.
    var pending: map<Id, Option<nat>>
    // The channels on which a cancellation was sent.
    var received: set<nat>
    // The number of the next message.
    var next: nat
    ghost var log: seq<Event>

    ghost predicate Valid()
      reads this
    {
      next == |log| && Matches(log, pending, received)
    }

    constructor ()
      ensures Valid() && log == []
    {
      pending, received, next, log := map[], {}, 0, [];
    }

    /** A command is refused exactly when a live request has its id or 128 requests are live. */
    method HandleCommand(id: Id) returns (reply: Option<Reply>)
      requires Valid()
      modifies this
      ensures Valid() && log == old(log) + [Command(id)]
      ensures reply == if Admitted(log, old(|log|)) then None else Some(Refused)
      ensures Live(log) == if reply.None? then old(Live(log)) + {old(|log|)} else old(Live(log))
    {
      ghost var e := Command(id);
      TakenIffBusy(log, pending, id);
      LiveStep(log, e);
      assert (log + [e])[..|log|] == log;
      if id in pending || |pending| >= 128 {
        SameLiveStep(log, e, pending, received);
        reply := Some(Refused);
      } else {
        AdmitStep(log, id, pending, received);
        pending := pending[id := Some(next)];
        reply := None;
      }
      next := next + 1;
      log := log + [e];
    }

    /** A cancellation signals the live request with its id and no other. */
    method HandleCancel(id: Id)
      requires Valid()
      modifies this
      ensures Valid() && log == old(log) + [Cancel(id)] && Live(log) == old(Live(log))
    {
      LiveStep(log, Cancel(id));
      if Cancellable(id) && id in pending && pending[id].Some? {
        CancelStep(log, id, pending, received);
        received := received + {pending[id].value};
        pending := pending[id := None];
      } else {
        TakenIffBusy(log, pending, id);
        SameLiveStep(log, Cancel(id), pending, received);
      }
      next := next + 1;
      log := log + [Cancel(id)];
    }

    method HandleOther()
      requires Valid()
      modifies this
      ensures Valid() && log == old(log) + [OtherMessage] && Live(log) == old(Live(log))
    {
      LiveStep(log, OtherMessage);
      SameLiveStep(log, OtherMessage, pending, received);
      next := next + 1;
      log := log + [OtherMessage];
    }

    /** `PendingRequest::drop`: the guard knows its id only. */
    method Drop(key: Id, ghost request: nat)
      requires Valid() && IsLive(log, Live(log), request, key)
      modifies this
      ensures Valid() && log == old(log) + [Dropped(request)] && Live(log) == old(Live(log)) - {request}
    {
      LiveStep(log, Dropped(request));
      DropStep(log, request, key, pending, received);
      pending := pending - {key};
      next := next + 1;
      log := log + [Dropped(request)];
    }

    /** A command whose response is ready reports a cancellation first. */
    method Finish(request: nat, response: string) returns (reply: Reply)
      requires Valid() && request in Live(log)
      ensures reply == if Signalled(log, request) then Cancelled else Answered(response)
    {
      LiveOnesDiffer(log);
      reply := if request in received then Cancelled else Answered(response);
    }
  }
}
