/** Connecting two pins: `CBasePin::Connect` and what it calls on either side.
    The overridable functions of a derived pin class are data (`Hooks`): their
    answers may be anything, but depend on the media type only. */
module PinConnection {
  import opened Common

  /** S_FALSE stands for every success code other than S_OK. */
  datatype HResult =
    | S_OK | S_FALSE
    | E_FAIL | E_INVALIDARG
    | VFW_E_TYPE_NOT_ACCEPTED | VFW_E_NO_ACCEPTABLE_TYPES
    | VFW_E_ALREADY_CONNECTED | VFW_E_NOT_STOPPED | VFW_E_INVALID_DIRECTION
    | OtherError(code: int)

  predicate Succeeded(hr: HResult) {
    hr.S_OK? || hr.S_FALSE?
  }

  predicate Failed(hr: HResult) {
    !Succeeded(hr)
  }

  /** An error code worth remembering while other types are tried. */
  predicate Specific(hr: HResult) {
    hr != E_FAIL && hr != E_INVALIDARG && hr != VFW_E_TYPE_NOT_ACCEPTED
  }

  /** The error reported for an answer of `CheckMediaType` other than S_OK. */
  function NotAccepted(hr: HResult): HResult {
    if Succeeded(hr) || hr == E_FAIL || hr == E_INVALIDARG then VFW_E_TYPE_NOT_ACCEPTED else hr
  }

  // ----- Media types -----

  type Guid = nat
  const GUID_NULL: Guid := 0

  datatype MediaType = MediaType(majortype: Guid, subtype: Guid, formattype: Guid, pbFormat: seq<bv8>) {
    predicate IsPartiallySpecified() {
      majortype == GUID_NULL || formattype == GUID_NULL
    }

    /** A null field of the template asks for nothing. */
    predicate MatchesPartial(partial: MediaType) {
      if partial.majortype != GUID_NULL && majortype != partial.majortype then false
      else if partial.subtype != GUID_NULL && subtype != partial.subtype then false
      else if partial.formattype != GUID_NULL && formattype != partial.formattype then false
      else if partial.formattype != GUID_NULL && |pbFormat| != |partial.pbFormat| then false
      else if partial.formattype != GUID_NULL && |pbFormat| != 0 && pbFormat != partial.pbFormat then false
      else true
    }
  }

  /** Matching orders templates by how much they ask for. */
  lemma MatchingIsAPreorder(t: MediaType, u: MediaType, v: MediaType)
    ensures t.MatchesPartial(t)
    ensures t.MatchesPartial(u) && u.MatchesPartial(v) ==> t.MatchesPartial(v)
  {
  }

  /** Field by field: a null field of the template is matched by anything, and
      the format block is looked at with the format type only. */
  lemma MatchesByField(t: MediaType, partial: MediaType)
    ensures t.MatchesPartial(partial) <==>
            && (partial.majortype == 0 || partial.majortype == t.majortype)
            && (partial.subtype == 0 || partial.subtype == t.subtype)
            && (partial.formattype == 0 || (partial.formattype == t.formattype && partial.pbFormat == t.pbFormat))
    ensures partial.IsPartiallySpecified() <==> partial.majortype == 0 || partial.formattype == 0
  {
  }

  /** A template without null fields is matched by itself only. */
  lemma FullTemplateMatchesItself(t: MediaType, partial: MediaType)
    requires !partial.IsPartiallySpecified() && partial.subtype != GUID_NULL
    ensures t.MatchesPartial(partial) <==> t == partial
  {
  }

  // ----- The two sides -----

  datatype Direction = PINDIR_INPUT | PINDIR_OUTPUT

  /** What `EnumMediaTypes` and the enumerator yield. */
  datatype Enumeration = Types(list: seq<MediaType>) | NoEnumerator | ResetFails(hr: FailureCode)

  type FailureCode = hr: HResult | Failed(hr) witness E_FAIL

  datatype Hooks = Hooks(
    m_dir: Direction,
    m_bCanReconnectWhenActive: bool,
    m_bTryMyTypesFirst: bool,
    enumMediaTypes: Enumeration,
    checkConnect: HResult,
    checkMediaType: MediaType -> HResult,
    setMediaType: MediaType -> HResult,
    completeConnect: MediaType -> HResult,
    breakConnect: HResult)

  /** The pin asked to receive a connection. */
  datatype Receiver = Receiver(hooks: Hooks, stopped: bool, free: bool)

  /** Every `CheckConnect` starts with the base class's check of directions. */
  function CheckConnect(h: Hooks, peer: Hooks): HResult {
    if h.m_dir == peer.m_dir then VFW_E_INVALID_DIRECTION else h.checkConnect
  }

  // ----- What an attempt and a search come to -----

  /** The answer of `ReceiveConnection`. */
  function Response(h: Hooks, r: Receiver, mt: MediaType): HResult {
    if !r.free then VFW_E_ALREADY_CONNECTED
    else if !r.stopped && !r.hooks.m_bCanReconnectWhenActive then VFW_E_NOT_STOPPED
    else if Failed(CheckConnect(r.hooks, h)) then CheckConnect(r.hooks, h)
    else if r.hooks.checkMediaType(mt) != S_OK then NotAccepted(r.hooks.checkMediaType(mt))
    else if Failed(r.hooks.setMediaType(mt)) then r.hooks.setMediaType(mt)
    else if Failed(r.hooks.completeConnect(mt)) then r.hooks.completeConnect(mt)
    else S_OK
  }

  /** A receiver accepts exactly when it is free, stopped or able to reconnect
      while active, of the other direction, and all its overrides agree; what
      it answers otherwise, in the order of its checks. */
  lemma ReceivesExactly(h: Hooks, r: Receiver, mt: MediaType)
    ensures Response(h, r, mt) == S_OK <==>
            && r.free && (r.stopped || r.hooks.m_bCanReconnectWhenActive)
            && r.hooks.m_dir != h.m_dir && r.hooks.checkConnect in {S_OK, S_FALSE}
            && r.hooks.checkMediaType(mt) == S_OK
            && r.hooks.setMediaType(mt) in {S_OK, S_FALSE} && r.hooks.completeConnect(mt) in {S_OK, S_FALSE}
    ensures Succeeded(Response(h, r, mt)) ==> Response(h, r, mt) == S_OK
    ensures !r.free ==> Response(h, r, mt) == VFW_E_ALREADY_CONNECTED
    ensures r.free && !r.stopped && !r.hooks.m_bCanReconnectWhenActive ==> Response(h, r, mt) == VFW_E_NOT_STOPPED
    ensures r.free && (r.stopped || r.hooks.m_bCanReconnectWhenActive) && r.hooks.m_dir == h.m_dir ==>
              Response(h, r, mt) == VFW_E_INVALID_DIRECTION
    ensures r.free && (r.stopped || r.hooks.m_bCanReconnectWhenActive)
            && r.hooks.m_dir != h.m_dir && r.hooks.checkConnect in {S_OK, S_FALSE} ==>
              var hr := r.hooks.checkMediaType(mt);
              && (hr in {S_FALSE, E_FAIL, E_INVALIDARG} ==> Response(h, r, mt) == VFW_E_TYPE_NOT_ACCEPTED)
              && (hr !in {S_OK, S_FALSE, E_FAIL, E_INVALIDARG} ==> Response(h, r, mt) == hr)
              && (hr == S_OK && Failed(r.hooks.setMediaType(mt)) ==> Response(h, r, mt) == r.hooks.setMediaType(mt))
              && (hr == S_OK && Succeeded(r.hooks.setMediaType(mt)) && Failed(r.hooks.completeConnect(mt)) ==>
                    Response(h, r, mt) == r.hooks.completeConnect(mt))
  {
  }

  /** Whether a `Disconnect` of the receiver has an effect. */
  predicate CanDisconnect(r: Receiver) {
    r.stopped && Succeeded(r.hooks.breakConnect)
  }

  /** Refused: both pins are as before. Done: both are connected. HalfOpen:
      only the receiver is. */
  datatype Outcome = Refused(hr: HResult) | Done(hr: HResult) | HalfOpen(hr: HResult)

  function Attempt(h: Hooks, r: Receiver, mt: MediaType): (o: Outcome)
    ensures o.Done? <==> Succeeded(o.hr)
    ensures !r.free ==> o.Refused?
  {
    var cc := CheckConnect(h, r.hooks);
    if Failed(cc) then Refused(cc)
    else if h.checkMediaType(mt) != S_OK then Refused(NotAccepted(h.checkMediaType(mt)))
    else if Failed(h.setMediaType(mt)) then Refused(h.setMediaType(mt))
    else if Failed(Response(h, r, mt)) then Refused(Response(h, r, mt))
    else if Succeeded(h.completeConnect(mt)) then Done(h.completeConnect(mt))
    else if CanDisconnect(r) then Refused(h.completeConnect(mt))
    else HalfOpen(h.completeConnect(mt))
  }

  /** An attempt connects both pins exactly when the connecting pin's overrides
      agree as well; it leaves the receiver alone connected exactly when all do
      but the last, and the receiver cannot be disconnected again. */
  lemma AttemptsExactly(h: Hooks, r: Receiver, mt: MediaType)
    ensures var ready := && h.m_dir != r.hooks.m_dir && h.checkConnect in {S_OK, S_FALSE}
                         && h.checkMediaType(mt) == S_OK && h.setMediaType(mt) in {S_OK, S_FALSE}
                         && Response(h, r, mt) == S_OK;
            var completes := h.completeConnect(mt) in {S_OK, S_FALSE};
            && (Attempt(h, r, mt).Done? <==> ready && completes)
            && (Attempt(h, r, mt).HalfOpen? <==>
                  ready && !completes && !(r.stopped && r.hooks.breakConnect in {S_OK, S_FALSE}))
            && (ready ==> Attempt(h, r, mt).hr == h.completeConnect(mt))
    ensures h.m_dir == r.hooks.m_dir ==> Attempt(h, r, mt) == Refused(VFW_E_INVALID_DIRECTION)
    ensures h.m_dir != r.hooks.m_dir && Failed(h.checkConnect) ==> Attempt(h, r, mt) == Refused(h.checkConnect)
    ensures h.m_dir != r.hooks.m_dir && Succeeded(h.checkConnect) ==>
              var hr := h.checkMediaType(mt);
              && (hr in {S_FALSE, E_FAIL, E_INVALIDARG} ==> Attempt(h, r, mt) == Refused(VFW_E_TYPE_NOT_ACCEPTED))
              && (hr !in {S_OK, S_FALSE, E_FAIL, E_INVALIDARG} ==> Attempt(h, r, mt) == Refused(hr))
              && (hr == S_OK && Failed(h.setMediaType(mt)) ==> Attempt(h, r, mt) == Refused(h.setMediaType(mt)))
              && (hr == S_OK && Succeeded(h.setMediaType(mt)) && Failed(Response(h, r, mt)) ==>
                    Attempt(h, r, mt) == Refused(Response(h, r, mt)))
  {
    ReceivesExactly(h, r, mt);
  }

  /** What a botched negotiation leaves on the connecting pin: it is connected
      still, or it is not, with so many references to the receiver never
      released. */
  datatype Remains = StillConnected | Dropped(leaked: nat)

  /** The result of trying types in turn. Botched: an attempt ended neither
      with both pins as before nor with a connection made known by S_OK. */
  datatype Verdict = Agreed(mt: MediaType) | Nothing | Botched(mt: MediaType, remains: Remains)

  predicate Matches(mt: MediaType, pmt: Option<MediaType>) {
    pmt.None? || mt.MatchesPartial(pmt.value)
  }

  predicate PassedOver(h: Hooks, r: Receiver, pmt: Option<MediaType>, mt: MediaType) {
    !Matches(mt, pmt) || Attempt(h, r, mt).Refused?
  }

  /** After a success that went unnoticed the next matching type decides: if
      the pin accepts it, it takes a second reference and releases one; if not,
      it releases the one it has. */
  function RemainsAfter(h: Hooks, pmt: Option<MediaType>, rest: seq<MediaType>): Remains {
    if rest == [] then StillConnected
    else if !Matches(rest[0], pmt) then RemainsAfter(h, pmt, rest[1..])
    else Dropped(if h.checkMediaType(rest[0]) == S_OK then 1 else 0)
  }

  function RemainsOf(h: Hooks, pmt: Option<MediaType>, o: Outcome, rest: seq<MediaType>): Remains {
    if o.Done? then RemainsAfter(h, pmt, rest) else Dropped(0)
  }

  function Search(h: Hooks, r: Receiver, pmt: Option<MediaType>, types: seq<MediaType>): Verdict {
    if types == [] then Nothing
    else if PassedOver(h, r, pmt, types[0]) then Search(h, r, pmt, types[1..])
    else if Attempt(h, r, types[0]) == Done(S_OK) then Agreed(types[0])
    else Botched(types[0], RemainsOf(h, pmt, Attempt(h, r, types[0]), types[1..]))
  }

  /** The k-th type is the first that is not passed over. */
  ghost predicate IsFirst(h: Hooks, r: Receiver, pmt: Option<MediaType>, types: seq<MediaType>, k: int) {
    && 0 <= k < |types|
    && !PassedOver(h, r, pmt, types[k])
    && forall j | 0 <= j < k :: PassedOver(h, r, pmt, types[j])
  }

  /** Agreed is the first type, in the order of enumeration, that matches the
      template and does not leave both pins as before, given that this type
      connects them with S_OK. */
  lemma {:induction false} SearchFindsTheFirst(h: Hooks, r: Receiver, pmt: Option<MediaType>, types: seq<MediaType>)
    ensures Search(h, r, pmt, types).Nothing? <==> forall k | 0 <= k < |types| :: PassedOver(h, r, pmt, types[k])
    ensures forall k | IsFirst(h, r, pmt, types, k) ::
              Search(h, r, pmt, types) == if Attempt(h, r, types[k]) == Done(S_OK) then Agreed(types[k])
                                           else Botched(types[k], RemainsOf(h, pmt, Attempt(h, r, types[k]),
                                                 types[k + 1..]))
  {
    hide Attempt, Matches, RemainsAfter;
    if types != [] && PassedOver(h, r, pmt, types[0]) {
      SearchFindsTheFirst(h, r, pmt, types[1..]);
      assert forall k | 0 < k < |types| :: types[k] == types[1..][k - 1] && types[k + 1..] == types[1..][k..];
      assert forall k | IsFirst(h, r, pmt, types, k) :: IsFirst(h, r, pmt, types[1..], k - 1);
    }
  }

  lemma {:induction false} SearchInTwoLists(h: Hooks, r: Receiver, pmt: Option<MediaType>,
                                          a: seq<MediaType>, b: seq<MediaType>)
    ensures Search(h, r, pmt, a + b)
         == var v := Search(h, r, pmt, a);
            if v.Nothing? then Search(h, r, pmt, b)
            else if v.Botched? && v.remains.StillConnected? then v.(remains := RemainsAfter(h, pmt, b))
            else v
  {
    if a == [] {
      assert a + b == b;
    } else {
      assert (a + b)[1..] == a[1..] + b;
      SearchInTwoLists(h, r, pmt, a[1..], b);
      RemainsInTwoLists(h, pmt, a[1..], b);
    }
  }

  lemma {:induction false} RemainsInTwoLists(h: Hooks, pmt: Option<MediaType>, a: seq<MediaType>, b: seq<MediaType>)
    ensures RemainsAfter(h, pmt, a + b)
         == if RemainsAfter(h, pmt, a).StillConnected? then RemainsAfter(h, pmt, b) else RemainsAfter(h, pmt, a)
  {
    if a == [] {
      assert a + b == b;
    } else {
      assert (a + b)[1..] == a[1..] + b;
      RemainsInTwoLists(h, pmt, a[1..], b);
    }
  }

  function TypesOf(e: Enumeration): seq<MediaType> {
    if e.Types? then e.list else []
  }

  function FirstEnumeration(h: Hooks, r: Hooks): Enumeration {
    if h.m_bTryMyTypesFirst then h.enumMediaTypes else r.enumMediaTypes
  }

  function SecondEnumeration(h: Hooks, r: Hooks): Enumeration {
    if h.m_bTryMyTypesFirst then r.enumMediaTypes else h.enumMediaTypes
  }

  /** A fully specified type is the only one tried, and any success counts. */
  function Negotiate(h: Hooks, r: Receiver, pmt: Option<MediaType>): Verdict {
    if pmt.Some? && !pmt.value.IsPartiallySpecified() then
      match Attempt(h, r, pmt.value)
      case Refused(_) => Nothing
      case Done(_) => Agreed(pmt.value)
      case HalfOpen(_) => Botched(pmt.value, Dropped(0))
    else
      Search(h, r, pmt, TypesOf(FirstEnumeration(h, r.hooks)) + TypesOf(SecondEnumeration(h, r.hooks)))
  }

  // ----- When negotiations are botched -----

  /** The connecting pin refuses the type, or completes the connection with S_OK
      or not at all. */
  predicate CompletesSoundly(h: Hooks, mt: MediaType) {
    || Failed(h.checkConnect) || h.checkMediaType(mt) != S_OK || Failed(h.setMediaType(mt))
    || h.completeConnect(mt) != S_FALSE
  }

  ghost predicate SoundConnector(h: Hooks) {
    forall mt :: CompletesSoundly(h, mt)
  }

  lemma {:induction false} SearchIsNotBotched(h: Hooks, r: Receiver, pmt: Option<MediaType>, types: seq<MediaType>)
    requires SoundConnector(h) && (CanDisconnect(r) || forall mt :: Failed(Response(h, r, mt)))
    ensures !Search(h, r, pmt, types).Botched?
  {
    if types != [] {
      assert CompletesSoundly(h, types[0]);
      SearchIsNotBotched(h, r, pmt, types[1..]);
    }
  }

  /** The receiver cannot be left connected by any pin that completes soundly
      what it accepts, and any template. */
  ghost predicate SafeReceiver(r: Receiver) {
    forall h: Hooks, pmt | SoundConnector(h) :: !Negotiate(h, r, pmt).Botched?
  }

  /** The pin leaves none connected, of those that can be disconnected. */
  ghost predicate SafeConnector(h: Hooks) {
    forall r: Receiver, pmt | CanDisconnect(r) :: !Negotiate(h, r, pmt).Botched?
  }

  /** A pin that fails to complete any connection, and otherwise agrees. */
  function Uncooperative(dir: Direction, mt: MediaType): Hooks {
    Hooks(dir, false, true, Types([mt]), S_OK, mt => S_OK, mt => S_OK, mt => E_FAIL, S_OK)
  }

  lemma LeftConnected(h: Hooks, r: Receiver, mt: MediaType)
    requires !CanDisconnect(r) && Succeeded(Response(h, r, mt))
    ensures SoundConnector(Uncooperative(h.m_dir, mt))
    ensures Negotiate(Uncooperative(h.m_dir, mt), r, None) == Botched(mt, Dropped(0))
  {
    var h' := Uncooperative(h.m_dir, mt);
    assert Response(h', r, mt) == S_OK;
    assert ([mt] + TypesOf(r.hooks.enumMediaTypes))[0] == mt;
  }

  /** A receiver in a running filter that may reconnect, and that accepts some
      type, is not safe. */
  lemma RunningReceiverIsNotSafe(r: Receiver, mt: MediaType)
    requires !r.stopped && r.free && r.hooks.m_bCanReconnectWhenActive
    requires r.hooks.checkConnect == S_OK && r.hooks.checkMediaType(mt) == S_OK
    requires r.hooks.setMediaType(mt) == S_OK && r.hooks.completeConnect(mt) == S_OK
    ensures !SafeReceiver(r)
  {
    var h := Uncooperative(Opposite(r.hooks.m_dir), mt);
    ReceivesExactly(h, r, mt);
    LeftConnected(h, r, mt);
  }

  /** The connecting pin's list is tried first or second as it says: with two
      types that both pins agree to, the one agreed on is the one proposed by
      the side that goes first. */
  lemma OwnTypesFirst(h: Hooks, r: Receiver, mine: MediaType, theirs: MediaType)
    requires h.enumMediaTypes == Types([mine]) && r.hooks.enumMediaTypes == Types([theirs])
    requires Attempt(h, r, mine) == Attempt(h, r, theirs) == Done(S_OK)
    ensures Negotiate(h, r, None) == Agreed(if h.m_bTryMyTypesFirst then mine else theirs)
  {
    hide Attempt;
    var types := TypesOf(FirstEnumeration(h, r.hooks)) + TypesOf(SecondEnumeration(h, r.hooks));
    assert types[0] == if h.m_bTryMyTypesFirst then mine else theirs;
  }

  /** Exactly the receivers that can be disconnected again, or never answer
      with success, are safe. A running filter that may reconnect is not. */
  lemma SafeReceiversExactly(r: Receiver)
    ensures SafeReceiver(r) <==> CanDisconnect(r) || forall h: Hooks, mt :: Failed(Response(h, r, mt))
  {
    if CanDisconnect(r) || forall h: Hooks, mt :: Failed(Response(h, r, mt)) {
      forall h: Hooks, pmt | SoundConnector(h)
        ensures !Negotiate(h, r, pmt).Botched?
      {
        SearchIsNotBotched(h, r, pmt, TypesOf(FirstEnumeration(h, r.hooks)) + TypesOf(SecondEnumeration(h, r.hooks)));
      }
    } else {
      var h: Hooks, mt :| Succeeded(Response(h, r, mt));
      LeftConnected(h, r, mt);
    }
  }

  function Opposite(dir: Direction): Direction {
    if dir.PINDIR_INPUT? then PINDIR_OUTPUT else PINDIR_INPUT
  }

  /** A stopped receiver for a pin of direction dir, that proposes mt and accepts
      nothing else. */
  function Insistent(dir: Direction, mt: MediaType): Receiver {
    Receiver(Hooks(Opposite(dir), false, false, Types([mt]), S_OK, t => if t == mt then S_OK else E_FAIL,
                   t => S_OK, t => S_OK, S_OK), true, true)
  }

  lemma {:induction false} InsistenceIsBotched(h: Hooks, mt: MediaType, types: seq<MediaType>)
    requires !CompletesSoundly(h, mt) && mt in types
    ensures Search(h, Insistent(h.m_dir, mt), None, types).Botched?
    ensures Search(h, Insistent(h.m_dir, mt), None, types).mt == mt
  {
    if types[0] != mt {
      assert Attempt(h, Insistent(h.m_dir, mt), types[0]).Refused?;
      InsistenceIsBotched(h, mt, types[1..]);
    }
  }

  /** An unsound type is enough: with a receiver of the other direction that
      proposes and accepts it alone, the pins are connected and the type is
      passed by. */
  lemma LeftByFalseSuccess(h: Hooks, mt: MediaType)
    requires !CompletesSoundly(h, mt)
    ensures CanDisconnect(Insistent(h.m_dir, mt))
    ensures Negotiate(h, Insistent(h.m_dir, mt), None).Botched? && Negotiate(h, Insistent(h.m_dir, mt), None).mt == mt
  {
    var r := Insistent(h.m_dir, mt);
    assert mt in TypesOf(r.hooks.enumMediaTypes);
    InsistenceIsBotched(h, mt, TypesOf(FirstEnumeration(h, r.hooks)) + TypesOf(SecondEnumeration(h, r.hooks)));
  }

  /** The mirror of `SafeReceiversExactly`: exactly the pins that complete with
      S_FALSE no connection they get as far as completing are safe. */
  lemma SafeConnectorsExactly(h: Hooks)
    ensures SafeConnector(h) <==> SoundConnector(h)
  {
    if SoundConnector(h) {
      forall r: Receiver, pmt | CanDisconnect(r)
        ensures !Negotiate(h, r, pmt).Botched?
      {
        SearchIsNotBotched(h, r, pmt, TypesOf(FirstEnumeration(h, r.hooks)) + TypesOf(SecondEnumeration(h, r.hooks)));
      }
    } else {
      var mt :| !CompletesSoundly(h, mt);
      LeftByFalseSuccess(h, mt);
    }
  }

  /** Such a type, enumerated first and accepted by both, is passed by although
      it connected the pins; asked for by itself it would be agreed on. If the
      pin accepts the next type too, a reference is never released. */
  lemma BotchedByFalseSuccess(h: Hooks, r: Receiver, mt: MediaType, rest: seq<MediaType>)
    requires FirstEnumeration(h, r.hooks) == Types([mt] + rest)
    requires Attempt(h, r, mt) == Done(S_FALSE)
    ensures var remains := RemainsAfter(h, None, rest + TypesOf(SecondEnumeration(h, r.hooks)));
            && Negotiate(h, r, None) == Botched(mt, remains)
            && (rest != [] && h.checkMediaType(rest[0]) == S_OK ==> remains == Dropped(1))
    ensures !mt.IsPartiallySpecified() ==> Negotiate(h, r, Some(mt)) == Agreed(mt)
  {
    var second := TypesOf(SecondEnumeration(h, r.hooks));
    assert (([mt] + rest) + second)[0] == mt && (([mt] + rest) + second)[1..] == rest + second;
  }

  // ----- The error reported when nothing is agreed -----

  /** The first specific error among the attempts on a list. */
  function ListFailure(h: Hooks, r: Receiver, pmt: Option<MediaType>, types: seq<MediaType>): (hr: HResult)
    ensures Specific(hr)
  {
    if types == [] then VFW_E_NO_ACCEPTABLE_TYPES
    else if Matches(types[0], pmt) && Attempt(h, r, types[0]).Refused?
            && Failed(Attempt(h, r, types[0]).hr) && Specific(Attempt(h, r, types[0]).hr)
    then Attempt(h, r, types[0]).hr
    else ListFailure(h, r, pmt, types[1..])
  }

  function EnumerationFailure(h: Hooks, r: Receiver, pmt: Option<MediaType>, e: Enumeration, before: HResult): HResult {
    if e.NoEnumerator? then before
    else
      var hr := if e.ResetFails? then e.hr else ListFailure(h, r, pmt, e.list);
      if Specific(hr) then hr else before
  }

  function NegotiationFailure(h: Hooks, r: Receiver, pmt: Option<MediaType>): HResult {
    if pmt.Some? && !pmt.value.IsPartiallySpecified() then Attempt(h, r, pmt.value).hr
    else
      EnumerationFailure(h, r, pmt, SecondEnumeration(h, r.hooks),
        EnumerationFailure(h, r, pmt, FirstEnumeration(h, r.hooks), VFW_E_NO_ACCEPTABLE_TYPES))
  }

  /** A list reports the first specific error that a matching type met. */
  lemma {:induction false} ListReportsTheFirst(h: Hooks, r: Receiver, pmt: Option<MediaType>, types: seq<MediaType>,
                                               k: nat)
    requires k < |types| && SpecificRefusal(h, r, pmt, types[k])
    requires forall j | 0 <= j < k :: !SpecificRefusal(h, r, pmt, types[j])
    ensures ListFailure(h, r, pmt, types) == Attempt(h, r, types[k]).hr
  {
    hide Attempt, Matches;
    if k > 0 {
      assert !SpecificRefusal(h, r, pmt, types[0]);
      assert forall j | 0 <= j < k - 1 :: types[1..][j] == types[j + 1];
      ListReportsTheFirst(h, r, pmt, types[1..], k - 1);
    }
  }

  predicate SpecificRefusal(h: Hooks, r: Receiver, pmt: Option<MediaType>, mt: MediaType) {
    Matches(mt, pmt) && Attempt(h, r, mt).Refused? && Specific(Attempt(h, r, mt).hr)
  }

  /** Which errors are reported: with a single type refused, all but the three
      unspecific codes. */
  lemma UnspecificErrorsAreReplaced(h: Hooks, r: Receiver, mt: MediaType, hr: HResult)
    requires h.enumMediaTypes.NoEnumerator? && r.hooks.enumMediaTypes == Types([mt])
    requires Attempt(h, r, mt) == Refused(hr)
    ensures NegotiationFailure(h, r, None)
         == if hr in {E_FAIL, E_INVALIDARG, VFW_E_TYPE_NOT_ACCEPTED} then VFW_E_NO_ACCEPTABLE_TYPES else hr
  {
    hide Attempt;
    assert [mt][1..] == [];
    assert ListFailure(h, r, None, [mt][1..]) == VFW_E_NO_ACCEPTABLE_TYPES;
  }

  /** What the first list reported comes through, whatever it is, exactly if
      the second pin yields no enumerator, or one that cannot be reset and says so
      unspecifically. In particular it never does once the second list can be
      enumerated, even an empty one. */
  lemma FirstErrorSurvivesExactly(h: Hooks, r: Receiver, pmt: Option<MediaType>)
    ensures var second := SecondEnumeration(h, r.hooks);
            (second.NoEnumerator? || (second.ResetFails? && !Specific(second.hr)))
            <==> forall before: FailureCode | Specific(before) ::
                   EnumerationFailure(h, r, pmt, second, before) == before
    ensures pmt.None? || pmt.value.IsPartiallySpecified() ==>
              NegotiationFailure(h, r, pmt)
              == EnumerationFailure(h, r, pmt, SecondEnumeration(h, r.hooks),
                   EnumerationFailure(h, r, pmt, FirstEnumeration(h, r.hooks), VFW_E_NO_ACCEPTABLE_TYPES))
    ensures SecondEnumeration(h, r.hooks).Types? && (pmt.None? || pmt.value.IsPartiallySpecified()) ==>
              NegotiationFailure(h, r, pmt) == ListFailure(h, r, pmt, SecondEnumeration(h, r.hooks).list)
  {
    var second := SecondEnumeration(h, r.hooks);
    if !second.NoEnumerator? && !(second.ResetFails? && !Specific(second.hr)) {
      var reported := if second.ResetFails? then second.hr else ListFailure(h, r, pmt, second.list);
      var before: FailureCode := if reported == VFW_E_NOT_STOPPED then VFW_E_ALREADY_CONNECTED else VFW_E_NOT_STOPPED;
      assert EnumerationFailure(h, r, pmt, second, before) == reported != before;
    }
  }

  /** One such input: the receiver refuses its own type with an error of its
      own, and the connecting pin has nothing to propose. */
  lemma SpecificErrorIsForgotten(mt: MediaType, code: int) returns (h: Hooks, r: Receiver)
    ensures FirstEnumeration(h, r.hooks) == Types([mt]) && SecondEnumeration(h, r.hooks) == Types([])
    ensures Attempt(h, r, mt) == Refused(OtherError(code)) && Specific(OtherError(code))
    ensures ListFailure(h, r, None, [mt]) == OtherError(code)
    ensures NegotiationFailure(h, r, None) == VFW_E_NO_ACCEPTABLE_TYPES
  {
    h := Hooks(PINDIR_OUTPUT, false, false, Types([]), S_OK, mt => S_OK, mt => S_OK, mt => S_OK, S_OK);
    r := Receiver(Hooks(PINDIR_INPUT, false, false, Types([mt]), S_OK, mt => OtherError(code),
                        mt => S_OK, mt => S_OK, S_OK),
                  true, true);
  }

  // ----- The pins -----

  class Pin {
    const hooks: Hooks
    var m_Connected: Pin?
    var m_mt: MediaType
    var m_cRef: int
    var stopped: bool

    constructor (hooks: Hooks, mt: MediaType)
      ensures this.hooks == hooks && m_Connected == null && m_mt == mt && m_cRef == 1 && stopped
    {
      this.hooks := hooks;
      m_Connected, m_mt, m_cRef, stopped := null, mt, 1, true;
    }

    ghost function AsReceiver(): Receiver
      reads this`stopped, this`m_Connected
    {
      Receiver(hooks, stopped, m_Connected == null)
    }

    /** `ReceiveConnection`: the receiver points at the connector, and holds
        a reference to it, exactly when it answers with success. */
    method ReceiveConnection(pConnector: Pin, mt: MediaType) returns (hr: HResult)
      modifies this`m_Connected, this`m_mt, pConnector`m_cRef
      ensures hr == Response(pConnector.hooks, old(AsReceiver()), mt)
      ensures Succeeded(hr) <==>
                && old(m_Connected) == null && (stopped || hooks.m_bCanReconnectWhenActive)
                && hooks.m_dir != pConnector.hooks.m_dir && Succeeded(hooks.checkConnect)
                && hooks.checkMediaType(mt) == S_OK
                && Succeeded(hooks.setMediaType(mt)) && Succeeded(hooks.completeConnect(mt))
      ensures Succeeded(hr) ==>
                m_Connected == pConnector && m_mt == mt && pConnector.m_cRef == old(pConnector.m_cRef) + 1
      ensures Failed(hr) ==>
                m_Connected == old(m_Connected) && pConnector.m_cRef == old(pConnector.m_cRef)
      ensures Failed(hr) && old(m_Connected) != null ==> m_mt == old(m_mt)
    {
      if m_Connected != null {
        return VFW_E_ALREADY_CONNECTED;
      }
      if !stopped && !hooks.m_bCanReconnectWhenActive {
        return VFW_E_NOT_STOPPED;
      }
      hr := CheckConnect(hooks, pConnector.hooks);
      if Failed(hr) {
        return;
      }
      hr := hooks.checkMediaType(mt);
      if hr != S_OK {
        if Succeeded(hr) || hr == E_FAIL || hr == E_INVALIDARG {
          hr := VFW_E_TYPE_NOT_ACCEPTED;
        }
        return;
      }
      m_Connected := pConnector;
      pConnector.m_cRef := pConnector.m_cRef + 1;
      hr := SetMediaType(mt);
      if Succeeded(hr) {
        hr := hooks.completeConnect(mt);
        if Succeeded(hr) {
          return S_OK;
        }
      }
      pConnector.m_cRef := pConnector.m_cRef - 1;
      m_Connected := null;
    }

    method SetMediaType(mt: MediaType) returns (hr: HResult)
      modifies this`m_mt
      ensures hr == hooks.setMediaType(mt)
      ensures m_mt == if Succeeded(hr) then mt else old(m_mt)
    {
      hr := hooks.setMediaType(mt);
      if Succeeded(hr) {
        m_mt := mt;
      }
    }

    /** `Disconnect`: the connection is dropped exactly when the filter is
        stopped and `BreakConnect` succeeds. */
    method Disconnect() returns (hr: HResult)
      modifies this`m_Connected, (if m_Connected == null then {} else {m_Connected})`m_cRef
      ensures hr == if !stopped then VFW_E_NOT_STOPPED
                    else if old(m_Connected) == null then S_FALSE
                    else if Failed(hooks.breakConnect) then hooks.breakConnect
                    else S_OK
      ensures m_Connected == if stopped && Succeeded(hooks.breakConnect) then null else old(m_Connected)
      ensures old(m_Connected) != null ==>
                old(m_Connected).m_cRef
                == old(m_Connected.m_cRef) - (if stopped && Succeeded(hooks.breakConnect) then 1 else 0)
    {
      if !stopped {
        return VFW_E_NOT_STOPPED;
      }
      hr := DisconnectInternal();
    }

    method DisconnectInternal() returns (hr: HResult)
      modifies this`m_Connected, (if m_Connected == null then {} else {m_Connected})`m_cRef
      ensures hr == if old(m_Connected) == null then S_FALSE
                    else if Failed(hooks.breakConnect) then hooks.breakConnect
                    else S_OK
      ensures m_Connected == if Succeeded(hooks.breakConnect) then null else old(m_Connected)
      ensures old(m_Connected) != null ==>
                old(m_Connected).m_cRef == old(m_Connected.m_cRef) - (if Succeeded(hooks.breakConnect) then 1 else 0)
    {
      if m_Connected != null {
        hr := hooks.breakConnect;
        if Failed(hr) {
          return;
        }
        m_Connected.m_cRef := m_Connected.m_cRef - 1;
        m_Connected := null;
        hr := S_OK;
      } else {
        hr := S_FALSE;
      }
    }

    /** `AttemptConnection`. It is also reached while already connected to the
        same pin, after an attempt that succeeded with another code than S_OK. */
    method AttemptConnection(pReceivePin: Pin, mt: MediaType) returns (hr: HResult)
      requires m_Connected == null || m_Connected == pReceivePin
      modifies this`m_Connected, this`m_mt, this`m_cRef
      modifies pReceivePin`m_Connected, pReceivePin`m_mt, pReceivePin`m_cRef
      ensures var o := Attempt(hooks, old(pReceivePin.AsReceiver()), mt);
              && hr == o.hr
              && pReceivePin.m_Connected == (if o.Refused? then old(pReceivePin.m_Connected) else this)
              && m_cRef == old(m_cRef) + (if o.Refused? then 0 else 1)
              && (o.Done? ==> m_Connected == pReceivePin && m_mt == pReceivePin.m_mt == mt
                              && pReceivePin.m_cRef == old(pReceivePin.m_cRef) + 1)
              && (!o.Done? ==>
                    && m_Connected == (if Failed(CheckConnect(hooks, pReceivePin.hooks))
                                       then old(m_Connected) else null)
                    && (this != pReceivePin ==>
                          pReceivePin.m_cRef == old(pReceivePin.m_cRef)
                          - (if old(m_Connected) != null && m_Connected == null
                               && hooks.checkMediaType(mt) != S_OK then 1 else 0)))
      ensures m_Connected == null || m_Connected == pReceivePin
    {
      hr := CheckConnect(hooks, pReceivePin.hooks);
      if Failed(hr) {
        return;
      }
      hr := hooks.checkMediaType(mt);
      if hr == S_OK {
        m_Connected := pReceivePin;
        pReceivePin.m_cRef := pReceivePin.m_cRef + 1;
        hr := SetMediaType(mt);
        if Succeeded(hr) {
          hr := pReceivePin.ReceiveConnection(this, mt);
          if Succeeded(hr) {
            hr := hooks.completeConnect(mt);
            if Succeeded(hr) {
              return;
            }
            var _ := pReceivePin.Disconnect();
          }
        }
      } else {
        if Succeeded(hr) || hr == E_FAIL || hr == E_INVALIDARG {
          hr := VFW_E_TYPE_NOT_ACCEPTED;
        }
      }
      if m_Connected != null {
        pReceivePin.m_cRef := pReceivePin.m_cRef - 1;
        m_Connected := null;
      }
    }

    /** The two pins after a negotiation with verdict v, against the counts
        and the receiver's connection before it. */
    ghost predicate Concluded(r: Pin, v: Verdict, hr: HResult, refs: int, peerRefs: int, peer: Pin?)
      reads this, r
    {
      match v
      case Agreed(mt) =>
        && hr == S_OK
        && m_Connected == r && r.m_Connected == this && m_mt == r.m_mt == mt
        && m_cRef == refs + 1 && r.m_cRef == peerRefs + 1
      case Nothing =>
        && Failed(hr)
        && m_Connected == null && r.m_Connected == peer
        && m_cRef == refs && r.m_cRef == peerRefs
      case Botched(_, remains) =>
        && Failed(hr)
        && r.m_Connected == this && m_cRef == refs + 1
        && m_Connected == (if remains.StillConnected? then r else null)
        && r.m_cRef == peerRefs + (if remains.StillConnected? then 1 else remains.leaked)
    }

    /** While types are tried on after a success that went unnoticed: the pin
        is connected still and `rest` decides what remains, or that is decided.
        The receiver's count is taken against `base`. */
    ghost predicate Trailing(r: Pin, base: int, remains: Remains, rest: Remains)
      reads this, r
    {
      || (m_Connected == r && r.m_cRef == base + 1 && remains == rest && Succeeded(CheckConnect(hooks, r.hooks)))
      || (m_Connected == null && remains.Dropped? && r.m_cRef == base + remains.leaked)
    }

    /** `TryMediaTypes`, for a pin that is not connected or has botched the
        negotiation before. */
    method TryMediaTypes(pReceivePin: Pin, pmt: Option<MediaType>, pEnum: Enumeration) returns (hr: HResult)
      requires !pEnum.NoEnumerator?
      requires m_Connected == null ||
               (m_Connected == pReceivePin && pReceivePin.m_Connected != null
                && Succeeded(CheckConnect(hooks, pReceivePin.hooks)))
      modifies this`m_Connected, this`m_mt, this`m_cRef
      modifies pReceivePin`m_Connected, pReceivePin`m_mt, pReceivePin`m_cRef
      ensures old(m_Connected) == pReceivePin ==>
                Trailing(pReceivePin, old(pReceivePin.m_cRef) - 1,
                         RemainsAfter(hooks, pmt, TypesOf(pEnum)), StillConnected)
      ensures old(m_Connected) == null ==>
                var v := Search(hooks, old(pReceivePin.AsReceiver()), pmt, TypesOf(pEnum));
                && Concluded(pReceivePin, v, hr, old(m_cRef), old(pReceivePin.m_cRef), old(pReceivePin.m_Connected))
                && (v.Nothing? ==> hr == if pEnum.ResetFails? then pEnum.hr
                                         else ListFailure(hooks, old(pReceivePin.AsReceiver()), pmt, pEnum.list))
      ensures old(pReceivePin.m_Connected) != null ==>
                Failed(hr) && pReceivePin.m_Connected == old(pReceivePin.m_Connected) && m_cRef == old(m_cRef)
      ensures m_Connected == null ||
              (m_Connected == pReceivePin && pReceivePin.m_Connected != null
               && Succeeded(CheckConnect(hooks, pReceivePin.hooks)))
    {
      if pEnum.ResetFails? {
        return pEnum.hr;
      }
      ghost var h, r := hooks, pReceivePin.AsReceiver();
      ghost var refs, peerRefs, peer := m_cRef, pReceivePin.m_cRef, pReceivePin.m_Connected;
      var types := pEnum.list;
      var hrFailure := S_OK;
      var i := 0;
      while i < |types|
        invariant 0 <= i <= |types|
        invariant m_Connected == null || (m_Connected == pReceivePin && pReceivePin.m_Connected != null)
        invariant pReceivePin.stopped == r.stopped
        invariant hrFailure == S_OK || Failed(hrFailure)
        invariant peer != null ==> pReceivePin.m_Connected == peer && m_cRef == refs
        invariant old(m_Connected) == pReceivePin ==>
                    Trailing(pReceivePin, peerRefs - 1, RemainsAfter(h, pmt, types), RemainsAfter(h, pmt, types[i..]))
        invariant old(m_Connected) == null ==>
                    || (&& Search(h, r, pmt, types) == Search(h, r, pmt, types[i..])
                        && m_Connected == null && pReceivePin.m_Connected == peer
                        && m_cRef == refs && pReceivePin.m_cRef == peerRefs
                        && ListFailure(h, r, pmt, types) ==
                              (if hrFailure == S_OK then ListFailure(h, r, pmt, types[i..]) else hrFailure))
                    || (&& Search(h, r, pmt, types).Botched?
                        && pReceivePin.m_Connected == this && m_cRef == refs + 1
                        && Trailing(pReceivePin, peerRefs, Search(h, r, pmt, types).remains,
                                    RemainsAfter(h, pmt, types[i..])))
      {
        if pmt.None? || types[i].MatchesPartial(pmt.value) {
          hr := AttemptConnection(pReceivePin, types[i]);
          if Failed(hr) && Succeeded(hrFailure) && Specific(hr) {
            hrFailure := hr;
          }
        } else {
          hr := VFW_E_NO_ACCEPTABLE_TYPES;
        }
        assert types[i..][0] == types[i] && types[i..][1..] == types[i + 1..];
        i := i + 1;
        if hr == S_OK {
          return;
        }
      }
      if hrFailure == S_OK {
        hrFailure := VFW_E_NO_ACCEPTABLE_TYPES;
      }
      hr := hrFailure;
    }

    /** `AgreeMediaType`: a fully specified type, or the types of one pin and
        then those of the other. */
    method AgreeMediaType(pReceivePin: Pin, pmt: Option<MediaType>) returns (hr: HResult)
      requires m_Connected == null
      modifies this`m_Connected, this`m_mt, this`m_cRef
      modifies pReceivePin`m_Connected, pReceivePin`m_mt, pReceivePin`m_cRef
      ensures var v := Negotiate(hooks, old(pReceivePin.AsReceiver()), pmt);
              && Concluded(pReceivePin, v, if Succeeded(hr) then S_OK else hr,
                           old(m_cRef), old(pReceivePin.m_cRef), old(pReceivePin.m_Connected))
              && (v.Nothing? ==> hr == NegotiationFailure(hooks, old(pReceivePin.AsReceiver()), pmt))
    {
      if pmt.Some? && !pmt.value.IsPartiallySpecified() {
        hr := AttemptConnection(pReceivePin, pmt.value);
        return;
      }
      ghost var h, r := hooks, pReceivePin.AsReceiver();
      var first := FirstEnumeration(hooks, pReceivePin.hooks);
      var second := SecondEnumeration(hooks, pReceivePin.hooks);
      SearchInTwoLists(h, r, pmt, TypesOf(first), TypesOf(second));
      ghost var refs, peerRefs, peer := m_cRef, pReceivePin.m_cRef, pReceivePin.m_Connected;
      ghost var verdict: Verdict := Nothing;
      var hrFailure := VFW_E_NO_ACCEPTABLE_TYPES;
      for i := 0 to 2
        invariant m_Connected == null ||
                  (m_Connected == pReceivePin && pReceivePin.m_Connected != null
                   && Succeeded(CheckConnect(hooks, pReceivePin.hooks)))
        invariant pReceivePin.stopped == r.stopped
        invariant Failed(hrFailure)
        invariant Concluded(pReceivePin, verdict, E_FAIL, refs, peerRefs, peer)
        invariant verdict == Search(h, r, pmt,
                            if i == 0 then [] else if i == 1 then TypesOf(first) else TypesOf(first) + TypesOf(second))
        invariant verdict.Nothing? ==>
                    hrFailure == if i == 0 then VFW_E_NO_ACCEPTABLE_TYPES
                                 else if i == 1 then EnumerationFailure(h, r, pmt, first, VFW_E_NO_ACCEPTABLE_TYPES)
                                 else NegotiationFailure(h, r, pmt)
      {
        var pEnum := if i == 0 then first else second;
        if !pEnum.NoEnumerator? {
          hr := TryMediaTypes(pReceivePin, pmt, pEnum);
          if Succeeded(hr) {
            return S_OK;
          }
          if Specific(hr) {
            hrFailure := hr;
          }
        }
        verdict := if verdict.Nothing? then Search(h, r, pmt, TypesOf(pEnum))
                   else if verdict.Botched? && verdict.remains.StillConnected? then
                     verdict.(remains := RemainsAfter(h, pmt, TypesOf(pEnum)))
                   else verdict;
      }
      hr := hrFailure;
    }

    /** `Connect`: both pins point at each other with one reference each and
        the type agreed on, or, when nothing is agreed, both are as before;
        that fails exactly for the negotiations that are botched. */
    method Connect(pReceivePin: Pin, pmt: Option<MediaType>) returns (hr: HResult)
      modifies this`m_Connected, this`m_mt, this`m_cRef
      modifies pReceivePin`m_Connected, pReceivePin`m_mt, pReceivePin`m_cRef
      ensures old(m_Connected) != null || (!stopped && !hooks.m_bCanReconnectWhenActive) ==>
                && hr == (if old(m_Connected) != null then VFW_E_ALREADY_CONNECTED else VFW_E_NOT_STOPPED)
                && unchanged(this) && unchanged(pReceivePin)
      ensures old(m_Connected) == null && (stopped || hooks.m_bCanReconnectWhenActive) ==>
                var v := Negotiate(hooks, old(pReceivePin.AsReceiver()), pmt);
                && Concluded(pReceivePin, v, hr, old(m_cRef), old(pReceivePin.m_cRef), old(pReceivePin.m_Connected))
                && (v.Nothing? ==> hr == NegotiationFailure(hooks, old(pReceivePin.AsReceiver()), pmt))
    {
      if m_Connected != null {
        return VFW_E_ALREADY_CONNECTED;
      }
      if !stopped && !hooks.m_bCanReconnectWhenActive {
        return VFW_E_NOT_STOPPED;
      }
      hr := AgreeMediaType(pReceivePin, pmt);
      if Failed(hr) {
        return;
      }
      hr := S_OK;
    }
  }
}
