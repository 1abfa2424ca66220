/** The blocking of a dynamic output pin. An application thread asks for the
    pin to be blocked, at once or when the streaming threads have let go of it,
    and unblocks it again; streaming threads wait while it is blocked.

    `DynamicOutputPin` is the class; the second half of the module lets any
    number of threads use it. */
module OutputPin {
  import opened Common
  import opened ThreadCount

  datatype BlockState = NotBlocked | Pending | Blocked

  datatype HResult =
    | Ok | SFalse | InvalidArg | StateChanged
    | PinAlreadyBlocked | PinAlreadyBlockedOnThisThread
    | LastError

  /** One for each accepted block request: how often its event was signalled
      and its duplicated handle closed. */
  datatype Request = Request(signals: nat, closes: nat)

  /** The pin's fields, and the fate of all block requests accepted so far.
      `notify` is the handle kept for the caller of a pending request, given
      as the request's number. */
  datatype Pin = Pin(
    state: BlockState,
    users: nat,
    notify: Option<nat>,
    unblockEvent: bool,
    caller: nat,
    requests: seq<Request>)

  function Created(): Pin {
    Pin(NotBlocked, 0, None, true, 0, [])
  }

  /** Signal a request's event and close the duplicated handle. */
  function Settle(requests: seq<Request>, i: nat): seq<Request> {
    if i < |requests| then requests[i := Request(requests[i].signals + 1, requests[i].closes + 1)] else requests
  }

  /** `BlockOutputPin`. */
  function BlockPin(p: Pin): Pin {
    p.(unblockEvent := false, state := Blocked, notify := None,
       requests := if p.notify.Some? then Settle(p.requests, p.notify.value) else p.requests)
  }

  /** `AsynchronousBlockOutputPin` on thread t (thread identifiers are not 0);
      `duplicated` says whether the event's handle could be duplicated. */
  function AsyncBlock(p: Pin, t: nat, duplicated: bool): (Pin, HResult) {
    if !p.state.NotBlocked? then
      (p, if p.caller == t then PinAlreadyBlockedOnThisThread else PinAlreadyBlocked)
    else if !duplicated then (p, LastError)
    else
      var pending := p.(notify := Some(|p.requests|), requests := p.requests + [Request(0, 0)],
                        state := Pending, caller := t);
      (if p.users > 0 then pending else BlockPin(pending), Ok)
  }

  function Unblock(p: Pin): (Pin, HResult) {
    if p.state.NotBlocked? then (p, SFalse)
    else
      (p.(unblockEvent := true, state := NotBlocked, caller := 0, notify := None,
          requests := if p.notify.Some? then Settle(p.requests, p.notify.value) else p.requests), Ok)
  }

  function StopUsing(p: Pin): Pin
    requires p.users > 0
  {
    var p' := p.(users := p.users - 1);
    if p'.users == 0 && !p'.state.NotBlocked? then BlockPin(p') else p'
  }

  /** `AssertValid`, together with the event's state and the requests' fate:
      all requests but a pending one are settled, each exactly once. */
  ghost predicate Valid(p: Pin) {
    && (p.notify.Some? <==> p.state.Pending?)
    && (p.caller != 0 ==> !p.state.NotBlocked?)
    && (p.users != 0 ==> !p.state.Blocked?)
    && (p.unblockEvent <==> !p.state.Blocked?)
    && (p.state.Pending? ==> p.users > 0 && |p.requests| > 0 && p.notify == Some(|p.requests| - 1))
    && forall i | 0 <= i < |p.requests| ::
         p.requests[i] == if p.notify == Some(i) then Request(0, 0) else Request(1, 1)
  }

  /** A request accepted on a pin without users, about to be granted. */
  ghost predicate Grantable(p: Pin) {
    && p.state.Pending? && p.users == 0 && p.unblockEvent
    && |p.requests| > 0 && p.notify == Some(|p.requests| - 1)
    && forall i | 0 <= i < |p.requests| ::
         p.requests[i] == if p.notify == Some(i) then Request(0, 0) else Request(1, 1)
  }

  /** Granting it blocks the pin, tells the caller and leaves no request open. */
  lemma GrantingSettlesTheRequest(p: Pin)
    requires Grantable(p)
    ensures Valid(BlockPin(p)) && BlockPin(p).state.Blocked? && !BlockPin(p).unblockEvent
    ensures BlockPin(p).requests == p.requests[|p.requests| - 1 := Request(1, 1)]
    ensures forall i | 0 <= i < |p.requests| :: BlockPin(p).requests[i] == Request(1, 1)
  {
  }

  lemma OperationsKeepValid(p: Pin, t: nat, duplicated: bool)
    requires Valid(p) && t != 0
    ensures Valid(Created())
    ensures Valid(AsyncBlock(p, t, duplicated).0)
    ensures AsyncBlock(p, t, duplicated).1 != Ok ==> AsyncBlock(p, t, duplicated).0 == p
    ensures Valid(Unblock(p).0)
    ensures p.users > 0 ==> Valid(StopUsing(p))
    ensures !p.state.Blocked? ==> Valid(p.(users := p.users + 1))
  {
  }

  /** Unblocking undoes blocking: apart from the log of requests the pin is
      back where it was. */
  lemma UnblockUndoesBlock(p: Pin, t: nat)
    requires Valid(p) && p.state.NotBlocked?
    ensures var q := Unblock(AsyncBlock(p, t, true).0).0;
            && q == p.(requests := q.requests)
            && |q.requests| == |p.requests| + 1
            && q.requests[|p.requests|] == Request(1, 1)
  {
  }

  /** A thread that blocks the pin a second time is told so, and another thread
      that the pin is blocked, also when the block was pending at first and the
      last user has left since. A block that fails for want of a handle can be
      tried again. */
  lemma SecondBlockIsRefused(p: Pin, t: nat, u: nat, duplicated: bool)
    requires Valid(p) && p.state.NotBlocked? && t != 0
    ensures var q := AsyncBlock(p, t, true).0;
            && AsyncBlock(p, t, true).1 == Ok
            && q.state == (if p.users > 0 then Pending else Blocked)
            && AsyncBlock(q, u, duplicated) == (q, if u == t then PinAlreadyBlockedOnThisThread else PinAlreadyBlocked)
            && (p.users == 1 ==>
                  var r := StopUsing(q);
                  && r.state.Blocked? && r.users == 0
                  && AsyncBlock(r, u, duplicated)
                     == (r, if u == t then PinAlreadyBlockedOnThisThread else PinAlreadyBlocked))
    ensures AsyncBlock(p, t, false) == (p, LastError)
  {
  }

  class DynamicOutputPin {
    var m_BlockState: BlockState
    var m_dwNumOutstandingOutputPinUsers: nat
    var m_hNotifyCallerPinBlockedEvent: Option<nat>
    var m_hUnblockOutputPinEvent: bool
    var m_dwBlockCallerThreadID: nat
    ghost var requests: seq<Request>

    ghost function Model(): Pin
      reads this
    {
      Pin(m_BlockState, m_dwNumOutstandingOutputPinUsers, m_hNotifyCallerPinBlockedEvent,
          m_hUnblockOutputPinEvent, m_dwBlockCallerThreadID, requests)
    }

    constructor ()
      ensures Model() == Created()
    {
      m_BlockState := NotBlocked;
      m_hUnblockOutputPinEvent := true;
      m_hNotifyCallerPinBlockedEvent := None;
      m_dwBlockCallerThreadID := 0;
      m_dwNumOutstandingOutputPinUsers := 0;
      requests := [];
    }

    /** `Block`: bad flags, an unblock with an event, or the request itself, up
        to the wait of a synchronous one. `nextHandle` numbers the request;
        `ready` says whether the caller's event could be reset, or for a
        synchronous block an event created. */
    method Block(badFlags: bool, block: bool, hasEvent: bool, ready: bool,
                 thread: nat, nextHandle: nat, duplicated: bool)
      returns (hr: HResult)
      requires thread != 0 && Valid(Model()) && nextHandle == |requests|
      modifies this
      ensures Valid(Model())
      ensures (Model(), hr) == if badFlags || (!block && hasEvent) then (old(Model()), InvalidArg)
                               else if block && !ready then (old(Model()), LastError)
                               else if block then AsyncBlock(old(Model()), thread, duplicated)
                               else (Unblock(old(Model())).0, Ok)
    {
      if badFlags {
        return InvalidArg;
      }
      if block && hasEvent && !ready {
        return LastError;
      }
      if !block {
        if hasEvent {
          return InvalidArg;
        }
      }
      OperationsKeepValid(Model(), thread, duplicated);
      if block {
        if !hasEvent && !ready {
          return LastError;
        }
        hr := AsynchronousBlockOutputPin(thread, nextHandle, duplicated);
      } else {
        hr := UnblockOutputPin();
        if hr == SFalse {
          hr := Ok;
        }
      }
    }

    method AsynchronousBlockOutputPin(thread: nat, nextHandle: nat, duplicated: bool) returns (hr: HResult)
      requires thread != 0 && Valid(Model()) && nextHandle == |requests|
      modifies this
      ensures Valid(Model())
      ensures (Model(), hr) == AsyncBlock(old(Model()), thread, duplicated)
    {
      if m_BlockState != NotBlocked {
        return if m_dwBlockCallerThreadID == thread then PinAlreadyBlockedOnThisThread else PinAlreadyBlocked;
      }
      if !duplicated {
        return LastError;
      }
      m_hNotifyCallerPinBlockedEvent := Some(nextHandle);
      requests := requests + [Request(0, 0)];
      m_BlockState := Pending;
      m_dwBlockCallerThreadID := thread;
      if !(m_dwNumOutstandingOutputPinUsers > 0) {
        BlockOutputPin();
      }
      hr := Ok;
    }

    method BlockOutputPin()
      requires Grantable(Model())
      modifies this`m_hUnblockOutputPinEvent, this`m_BlockState, this`m_hNotifyCallerPinBlockedEvent, this`requests
      ensures Valid(Model()) && Model() == BlockPin(old(Model()))
      ensures m_BlockState == Blocked && !m_hUnblockOutputPinEvent
      ensures forall i | 0 <= i < |requests| :: requests[i] == Request(1, 1)
    {
      GrantingSettlesTheRequest(Model());
      m_hUnblockOutputPinEvent := false;
      requests := Settle(requests, m_hNotifyCallerPinBlockedEvent.value);
      m_BlockState := Blocked;
      m_hNotifyCallerPinBlockedEvent := None;
    }

    method UnblockOutputPin() returns (hr: HResult)
      modifies this
      ensures (Model(), hr) == Unblock(old(Model()))
      ensures m_BlockState == NotBlocked && hr == if old(m_BlockState) == NotBlocked then SFalse else Ok
      ensures hr == Ok ==>
                && m_hUnblockOutputPinEvent && m_hNotifyCallerPinBlockedEvent == None && m_dwBlockCallerThreadID == 0
    {
      if m_BlockState == NotBlocked {
        return SFalse;
      }
      m_hUnblockOutputPinEvent := true;
      if m_hNotifyCallerPinBlockedEvent != None {
        requests := Settle(requests, m_hNotifyCallerPinBlockedEvent.value);
      }
      m_BlockState := NotBlocked;
      m_dwBlockCallerThreadID := 0;
      m_hNotifyCallerPinBlockedEvent := None;
      hr := Ok;
    }

    /** One pass of the loop in `StartUsingOutputPin` inside the lock: count
        this user, or report that the thread has to wait. */
    method TryStartUsing() returns (counted: bool)
      requires Valid(Model())
      modifies this`m_dwNumOutstandingOutputPinUsers
      ensures Valid(Model())
      ensures counted == !old(m_BlockState).Blocked?
      ensures Model() == if counted then old(Model()).(users := old(Model()).users + 1) else old(Model())
    {
      counted := m_BlockState != Blocked;
      if counted {
        m_dwNumOutstandingOutputPinUsers := m_dwNumOutstandingOutputPinUsers + 1;
      }
    }

    method StopUsingOutputPin()
      requires Valid(Model()) && m_dwNumOutstandingOutputPinUsers > 0
      modifies this
      ensures Valid(Model()) && Model() == StopUsing(old(Model()))
      ensures m_dwNumOutstandingOutputPinUsers == old(m_dwNumOutstandingOutputPinUsers) - 1
      ensures m_BlockState == if old(m_BlockState) == Pending && old(m_dwNumOutstandingOutputPinUsers) == 1 then Blocked
                              else old(m_BlockState)
    {
      m_dwNumOutstandingOutputPinUsers := m_dwNumOutstandingOutputPinUsers - 1;
      if m_dwNumOutstandingOutputPinUsers == 0 && m_BlockState != NotBlocked {
        BlockOutputPin();
      }
    }
  }

  // ----- Any number of threads -----

  /** Where a `CAutoUsingOutputPin` is. `Waiting` is outside the lock, waiting
      for the unblock or the stop event; `Back` has seen the unblock event and
      is about to look at the state again. */
  datatype Phase = Out | Waiting | Back | Using

  datatype Event =
    | StartNow(u: Tid)
    | StartWait(u: Tid)
    | SeeUnblock(u: Tid)
    | SeeStop(u: Tid)
    | Stop(u: Tid)
    | RequestBlock(thread: nat, duplicated: bool)
    | RequestUnblock
    | SetStopEvent(on: bool)

  datatype System = System(pin: Pin, users: map<Tid, Phase>, stopEvent: bool)

  ghost predicate Init(s: System) {
    && s.pin == Created()
    && forall u | u in s.users :: s.users[u].Out?
  }

  ghost predicate Next(s: System, e: Event, s': System) {
    match e
    case StartNow(u) =>
      && u in s.users && (s.users[u].Out? || s.users[u].Back?) && !s.pin.state.Blocked?
      && s' == s.(pin := s.pin.(users := s.pin.users + 1), users := s.users[u := Using])
    case StartWait(u) =>
      && u in s.users && (s.users[u].Out? || s.users[u].Back?) && s.pin.state.Blocked?
      && s' == s.(users := s.users[u := Waiting])
    case SeeUnblock(u) =>
      && u in s.users && s.users[u].Waiting? && s.pin.unblockEvent
      && s' == s.(users := s.users[u := Back])
    case SeeStop(u) =>
      && u in s.users && s.users[u].Waiting? && !s.pin.unblockEvent && s.stopEvent
      && s' == s.(users := s.users[u := Out])
    case Stop(u) =>
      && u in s.users && s.users[u].Using? && s.pin.users > 0
      && s' == s.(pin := StopUsing(s.pin), users := s.users[u := Out])
    case RequestBlock(thread, duplicated) =>
      && thread != 0
      && s' == s.(pin := AsyncBlock(s.pin, thread, duplicated).0)
    case RequestUnblock =>
      s' == s.(pin := Unblock(s.pin).0)
    case SetStopEvent(on) =>
      s' == s.(stopEvent := on)
  }

  ghost predicate IsRun(states: seq<System>, events: seq<Event>) {
    && |states| == |events| + 1
    && Init(states[0])
    && forall i | 0 <= i < |events| :: Next(states[i], events[i], states[i + 1])
  }

  ghost predicate IsUsing(p: Phase) {
    p.Using?
  }

  ghost predicate Invariant(s: System) {
    Valid(s.pin) && s.pin.users == Count(s.users, IsUsing)
  }

  lemma StepKeepsInvariant(s: System, e: Event, s': System)
    requires Invariant(s) && Next(s, e, s')
    ensures Invariant(s')
    ensures |s.pin.requests| <= |s'.pin.requests|
    ensures forall i | 0 <= i < |s.pin.requests| && s.pin.requests[i] == Request(1, 1) ::
              s'.pin.requests[i] == Request(1, 1)
  {
    OperationsKeepValid(s.pin, if e.RequestBlock? then e.thread else 1, e.RequestBlock? && e.duplicated);
    if e.StartNow? || e.StartWait? || e.SeeUnblock? || e.SeeStop? || e.Stop? {
      CountUpdate(s.users, e.u, s'.users[e.u], IsUsing);
    }
    hide Count;
  }

  lemma {:induction false} RunKeepsInvariant(states: seq<System>, events: seq<Event>, i: nat)
    requires IsRun(states, events) && i <= |events|
    ensures Invariant(states[i])
  {
    if i == 0 {
      CountZero(states[0].users, IsUsing);
    } else {
      RunKeepsInvariant(states, events, i - 1);
      StepKeepsInvariant(states[i - 1], events[i - 1], states[i]);
    }
  }

  /** A blocked pin has no user, so no data passes; the handle is kept exactly
      while a block is pending, and a pending block has a user to wait for;
      the unblock event is signalled exactly while the pin is not blocked. */
  lemma BlockingHolds(states: seq<System>, events: seq<Event>, i: nat)
    requires IsRun(states, events) && i <= |events|
    ensures var s := states[i];
            && (s.pin.state.Blocked? ==> s.pin.users == 0 && forall u | u in s.users :: !s.users[u].Using?)
            && (s.pin.notify.Some? <==> s.pin.state.Pending?)
            && (s.pin.state.Pending? ==> exists u :: u in s.users && s.users[u].Using?)
            && (s.pin.unblockEvent <==> !s.pin.state.Blocked?)
  {
    RunKeepsInvariant(states, events, i);
    CountZero(states[i].users, IsUsing);
  }

  /** No lost wake-up: a thread waiting on a pin that is not blocked can go
      on, and so can every waiting thread once the stop event is set. */
  lemma WaitingUserCanGoOn(states: seq<System>, events: seq<Event>, i: nat, u: Tid)
    requires IsRun(states, events) && i <= |events|
    requires u in states[i].users && states[i].users[u].Waiting?
    ensures !states[i].pin.state.Blocked? ==> exists s' :: Next(states[i], SeeUnblock(u), s')
    ensures states[i].pin.state.Blocked? && states[i].stopEvent ==> exists s' :: Next(states[i], SeeStop(u), s')
  {
    RunKeepsInvariant(states, events, i);
    var s := states[i];
    if !s.pin.state.Blocked? {
      assert Next(s, SeeUnblock(u), s.(users := s.users[u := Back]));
    } else if s.stopEvent {
      assert Next(s, SeeStop(u), s.(users := s.users[u := Out]));
    }
  }

  /** The fate of the i-th accepted request at any later time: its event is
      signalled once and its handle closed once, no sooner and no later than
      the pin stops being pending for it, and never again. */
  lemma RequestsAreSettledOnce(states: seq<System>, events: seq<Event>, i: nat, r: nat)
    requires IsRun(states, events) && i <= |events|
    requires r < |states[i].pin.requests|
    ensures var p := states[i].pin;
            p.requests[r] == if p.state.Pending? && r == |p.requests| - 1 then Request(0, 0) else Request(1, 1)
  {
    RunKeepsInvariant(states, events, i);
  }

  lemma {:induction false} SettledForEver(states: seq<System>, events: seq<Event>, i: nat, j: nat, r: nat)
    requires IsRun(states, events) && i <= j <= |events|
    requires r < |states[i].pin.requests| && states[i].pin.requests[r] == Request(1, 1)
    ensures r < |states[j].pin.requests| && states[j].pin.requests[r] == Request(1, 1)
    decreases j
  {
    if i < j {
      SettledForEver(states, events, i, j - 1, r);
      RunKeepsInvariant(states, events, j - 1);
      StepKeepsInvariant(states[j - 1], events[j - 1], states[j]);
    }
  }

  /** The last user to leave completes a pending block. */
  lemma LastUserCompletesBlock(states: seq<System>, events: seq<Event>, i: nat)
    requires IsRun(states, events) && i < |events|
    requires states[i].pin.state.Pending? && events[i].Stop? && Count(states[i].users, IsUsing) == 1
    ensures states[i + 1].pin.state.Blocked?
    ensures var log := states[i + 1].pin.requests;
            |log| > 0 && log[|log| - 1] == Request(1, 1)
  {
    RunKeepsInvariant(states, events, i);
    assert Next(states[i], events[i], states[i + 1]);
    hide Count;
  }
}
