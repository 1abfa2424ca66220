/** How `CBaseRenderer` comes to send EC_COMPLETE.

    Two locks protect a renderer. The interface lock is held for a whole change
    of state, flush or connection, the renderer lock for short sections within
    and by the end-of-stream timer. A step is what one thread does in one such
    section; between the sections of an operation (`Phase`) only steps that do
    not need the interface lock can come. Readings of the clock, whether a timer
    can be had and whether a sample is drawn at once are parameters. */
module EndOfStreamNotification {
  import opened Common
  import opened FixedWidth

  const TIMEOUT_DELIVERYWAIT := 50

  // ----- What the renderer lock protects -----

  /** `sent` counts the EC_COMPLETE events. */
  datatype Flags = Flags(
    m_bStreaming: bool, m_bEOS: bool, m_bEOSDelivered: bool, m_EndOfStreamTimer: bool, m_pMediaSample: bool,
    m_pClock: bool, m_tStart: int, m_SignalTime: int, sent: nat)

  /** The cast to LONG of a delay in milliseconds. */
  function ToLong(x: int): (r: int)
    ensures -0x8000_0000 <= x < 0x8000_0000 ==> r == x
  {
    (x + 0x8000_0000) % 0x1_0000_0000 - 0x8000_0000
  }

  function Delay(f: Flags, now: int): int {
    ToLong(TruncDiv(f.m_tStart + f.m_SignalTime - now, 10000))
  }

  lemma LongIsACast(x: int)
    ensures -0x8000_0000 <= ToLong(x) < 0x8000_0000 && (x - ToLong(x)) % 0x1_0000_0000 == 0
  {
  }

  /** The deadline in units of 100 ns: the start of the run and the end of the
      last sample make the time at which the stream ends, and 50 ms before it
      is early enough, as long as the milliseconds left fit a LONG. */
  lemma DelayIsTheTimeLeft(f: Flags, now: int)
    requires -0x8000_0000 * 10000 <= f.m_tStart + f.m_SignalTime - now < 0x8000_0000 * 10000
    ensures Delay(f, now) < TIMEOUT_DELIVERYWAIT <==> f.m_tStart + f.m_SignalTime - now < 50 * 10000
  {
    hide ToLong;
    var x := f.m_tStart + f.m_SignalTime - now;
    assert -0x8000_0000 <= TruncDiv(x, 10000) < 0x8000_0000;
  }

  function Delivered(f: Flags): nat {
    if f.m_bEOSDelivered then 1 else 0
  }

  function NotifyEndOfStream(f: Flags): Flags {
    if !f.m_bStreaming then f
    else f.(m_EndOfStreamTimer := false, m_bEOSDelivered := true, sent := f.sent + 1)
  }

  function SendEndOfStream(f: Flags, now: int, timer: bool): (t: Flags)
    ensures t.sent > f.sent ==> f.m_bStreaming && f.m_bEOS && !f.m_bEOSDelivered && !f.m_EndOfStreamTimer
    ensures t.sent > f.sent && f.m_pClock && timer ==> Delay(f, now) < TIMEOUT_DELIVERYWAIT
    ensures t == f.(m_EndOfStreamTimer := t.m_EndOfStreamTimer, m_bEOSDelivered := t.m_bEOSDelivered, sent := t.sent)
    ensures f.sent <= t.sent && t.sent + Delivered(f) == f.sent + Delivered(t)
    ensures f.m_bStreaming && f.m_bEOS ==> t.m_bEOSDelivered || t.m_EndOfStreamTimer
    ensures Recorded(f) ==> Recorded(t)
    ensures !f.m_bEOS || f.m_bEOSDelivered || f.m_EndOfStreamTimer ==> t == f
  {
    if !f.m_bEOS || f.m_bEOSDelivered || f.m_EndOfStreamTimer then f
    else if !f.m_pClock || Delay(f, now) < TIMEOUT_DELIVERYWAIT || !timer then NotifyEndOfStream(f)
    else f.(m_EndOfStreamTimer := true)
  }

  /** Past the end and with nothing sent, EC_COMPLETE goes out exactly when there
      is no clock, less than 50 ms are left or no timer can be had; otherwise a
      timer is set, and nothing else. */
  lemma SendsExactly(f: Flags, now: int, timer: bool)
    requires f.m_bStreaming && f.m_bEOS && !f.m_bEOSDelivered && !f.m_EndOfStreamTimer
    requires -0x8000_0000 * 10000 <= f.m_tStart + f.m_SignalTime - now < 0x8000_0000 * 10000
    ensures SendEndOfStream(f, now, timer)
         == if !f.m_pClock || f.m_tStart + f.m_SignalTime - now < 50 * 10000 || !timer
            then f.(m_bEOSDelivered := true, sent := f.sent + 1)
            else f.(m_EndOfStreamTimer := true)
  {
    hide Delay;
    DelayIsTheTimeLeft(f, now);
  }

  function TimerCallback(f: Flags, now: int, timer: bool): Flags {
    if f.m_EndOfStreamTimer then SendEndOfStream(f.(m_EndOfStreamTimer := false), now, timer) else f
  }

  function StartStreaming(f: Flags, now: int, timer: bool): (t: Flags)
    ensures t.sent > f.sent ==> f.m_bEOS && !f.m_bEOSDelivered && !f.m_pMediaSample
    ensures t.sent > f.sent && f.m_pClock && timer ==> Delay(f, now) < TIMEOUT_DELIVERYWAIT
    ensures t == f.(m_bStreaming := true,
                 m_EndOfStreamTimer := t.m_EndOfStreamTimer, m_bEOSDelivered := t.m_bEOSDelivered, sent := t.sent)
    ensures f.sent <= t.sent && t.sent + Delivered(f) == f.sent + Delivered(t)
    ensures !f.m_bStreaming && f.m_bEOS && !f.m_pMediaSample ==> t.m_bEOSDelivered || t.m_EndOfStreamTimer
    ensures Recorded(f) ==> Recorded(t)
  {
    if f.m_bStreaming then f
    else
      var t := f.(m_bStreaming := true);
      if t.m_pMediaSample then t else SendEndOfStream(t, now, timer)
  }

  function StopStreaming(f: Flags): Flags {
    f.(m_bEOSDelivered := false, m_bStreaming := false)
  }

  /** The timer is looked at, killed and forgotten outside the renderer lock:
      a callback in between may set it anew, so that it is missed. */
  function KillTimer(f: Flags, missed: bool): Flags {
    if missed then f else f.(m_EndOfStreamTimer := false)
  }

  function ResetFlags(f: Flags): Flags {
    f.(m_bEOS := false, m_bEOSDelivered := false, m_SignalTime := 0)
  }

  function ClearSample(f: Flags): Flags {
    f.(m_pMediaSample := false)
  }

  /** Delivery is recorded only while streaming, and never with a timer. */
  predicate Recorded(f: Flags) {
    f.m_bEOSDelivered ==> f.m_bStreaming && !f.m_EndOfStreamTimer
  }

  // ----- What wakes a thread that waits in `Receive` -----

  /** The link to the clock that `m_dwAdvise` names. */
  datatype Advice = NoLink | Pending | Fired

  /** `strays` counts the links to the clock that were forgotten and not
      cancelled, and will set the event all the same. */
  datatype Alarm = Alarm(m_RenderEvent: bool, m_dwAdvise: Advice, strays: nat)

  function SignalTimerFired(a: Alarm): Alarm {
    a.(m_dwAdvise := NoLink, strays := if a.m_dwAdvise.Pending? then a.strays + 1 else a.strays)
  }

  function CancelNotification(a: Alarm): Alarm {
    a.(m_dwAdvise := NoLink, m_RenderEvent := false)
  }

  /** `ScheduleSample` for a sample to be drawn, at its time or at once. */
  function ScheduleSample(a: Alarm, f: Flags, advise: bool): (b: Alarm)
    ensures Due(b)
  {
    if f.m_pClock && advise then SignalTimerFired(a).(m_dwAdvise := Pending) else a.(m_RenderEvent := true)
  }

  /** What `StartStreaming` does with the sample waiting. */
  function StartAlarm(a: Alarm, f: Flags, advise: bool): (b: Alarm)
    ensures Due(a) ==> Due(b)
    ensures !f.m_bStreaming && f.m_pMediaSample ==> Due(b)
  {
    if !f.m_bStreaming && f.m_pMediaSample then ScheduleSample(a, f, advise) else a
  }

  /** The render event is set, or the clock will set it. */
  predicate Due(a: Alarm) {
    a.m_RenderEvent || a.m_dwAdvise.Pending? || a.strays > 0
  }

  // ----- What the interface lock protects -----

  datatype FilterState = Stopped | Paused | Running

  /** `canWait` is the thread signal turned round: while it is false, no thread
      may wait in `Receive`. `reconnects` is `m_bCanReconnectWhenActive`. */
  datatype Filter = Filter(
    m_State: FilterState, connected: bool, m_bAbort: bool, m_bRunTimeError: bool, m_bFlushing: bool,
    canWait: bool, reconnects: bool)

  datatype Start = NoStart | StartAt(now: int, timer: bool)

  /** How far the operation holding the interface lock has come; named after
      the section just done. */
  datatype Phase =
    | Free
    | StopInactive | StopQuiet | StopKilled
    | PauseQuiet(fromStopped: bool, next: Start) | PauseKilled(next: Start) | Starting(now: int, timer: bool)
    | FlushBegun | FlushKilled
    | BreakKilled | BreakReset | BreakCleared

  /** The threads in `Receive`: `waiting` counts those whose sample was taken and
      who wait to be woken, `woken` those woken by the render event, and
      `failed` those whose `Receive` failed and who have not yet reported it. */
  datatype Threads = Threads(waiting: nat, woken: nat, failed: nat)

  datatype State = State(f: Flags, g: Filter, phase: Phase, a: Alarm, t: Threads)

  datatype Operation =
    | Stop
    | Pause
    | Run(tStart: int, now: int, timer: bool, advise: bool)
    | BeginFlush
    | Connect(now: int, timer: bool, advise: bool)
    | BreakConnect(missed: bool)

  /** What becomes of a sample: the base class refuses it, or refuses its type
      and raises a run-time error, the renderer cannot set its type, it cannot be
      scheduled, or it is taken. */
  datatype Arrival = Refused | BadType | TypeFails | Rejected | Taken(advise: bool)

  datatype Step =
    | Begin(op: Operation)
    | Advance(missed: bool)
    | EndOfStream(now: int, timer: bool)
    | EndFlush
    | PrepareReceive(arrival: Arrival, tStop: int)
    | RenderDone(now: int, timer: bool)
    | ReceiveReports
    | RunFails(tStart: int)
    | RunUnconnected
    | PauseUnconnected
    | StopUnconnected
    | SetSyncSource(pClock: bool)
    | Timer(now: int, timer: bool)
    | DisplayChange
    | ClockFires(stray: bool)
    | Wake
    | ReceiveQuits(woken: bool)

  predicate Enabled(s: State, step: Step) {
    match step
    case Begin(op) =>
      && s.phase.Free?
      && (match op
          case Stop => s.g.connected && !s.g.m_State.Stopped?
          case Pause => s.g.connected && !s.g.m_State.Paused?
          case Run(_, _, _, _) => s.g.connected && !s.g.m_State.Running?
          case BeginFlush => true
          case Connect(_, _, _) => !s.g.connected && (s.g.m_State.Stopped? || s.g.reconnects)
          case BreakConnect(_) => s.g.connected && (s.g.m_State.Stopped? || s.g.reconnects))
    case Advance(_) => !s.phase.Free?
    case EndOfStream(_, _) => s.phase.Free? && s.g.connected
    case EndFlush => s.phase.Free?
    case PrepareReceive(_, _) => s.phase.Free? && s.g.connected
    case RenderDone(_, _) => s.phase.Free? && s.t.woken > 0 && !s.g.m_State.Stopped?
    case ReceiveReports => s.phase.Free? && s.t.failed > 0
    case RunFails(_) => s.phase.Free? && s.g.connected && !s.g.m_State.Running?
    case RunUnconnected => s.phase.Free? && !s.g.connected && !s.g.m_State.Running?
    case PauseUnconnected => s.phase.Free? && !s.g.connected
    case StopUnconnected => s.phase.Free? && !s.g.connected
    case SetSyncSource(_) => s.phase.Free?
    case Timer(_, _) => true
    case DisplayChange => s.g.connected
    case ClockFires(stray) => if stray then s.a.strays > 0 else s.a.m_dwAdvise.Pending?
    case Wake => s.t.waiting > 0 && s.a.m_RenderEvent && s.g.canWait
    case ReceiveQuits(woken) =>
      if woken then s.t.woken > 0 && s.phase.Free? && s.g.m_State.Stopped?
      else s.t.waiting > 0 && ((s.phase.Free? && s.g.m_State.Stopped?) || !s.g.canWait)
  }

  /** The first section of an operation. */
  function Begun(s: State, op: Operation): State {
    match op
    case Stop =>
      s.(f := ClearSample(s.f), g := s.g.(m_State := Stopped, m_bRunTimeError := false), phase := StopInactive)
    case Pause =>
      s.(f := StopStreaming(s.f), g := s.g.(m_State := Paused, canWait := true),
         phase := PauseQuiet(s.g.m_State.Stopped?, NoStart))
    case Run(tStart, now, timer, advise) =>
      var f := s.f.(m_tStart := tStart);
      if s.g.m_State.Stopped? then
        s.(f := StopStreaming(f), g := s.g.(m_State := Paused, canWait := true),
           phase := PauseQuiet(true, StartAt(now, timer)))
      else
        s.(f := StartStreaming(f, now, timer), g := s.g.(m_State := Running, canWait := true),
           a := StartAlarm(s.a, f, advise))
    case BeginFlush =>
      s.(f := ClearSample(s.f), g := s.g.(m_bFlushing := true, canWait := false),
         a := CancelNotification(s.a), phase := FlushBegun)
    case Connect(now, timer, advise) =>
      s.(f := if s.g.m_State.Running? then StartStreaming(s.f, now, timer) else s.f,
         a := if s.g.m_State.Running? then StartAlarm(s.a, s.f, advise) else s.a,
         g := s.g.(connected := true, m_bAbort := false))
    case BreakConnect(missed) =>
      s.(f := KillTimer(s.f, missed), phase := BreakKilled)
  }

  /** The next section of the operation under way. */
  function Advanced(s: State, missed: bool): State {
    match s.phase
    case Free => s
    case StopInactive => s.(f := StopStreaming(s.f), g := s.g.(canWait := false), phase := StopQuiet)
    case StopQuiet => s.(f := KillTimer(s.f, missed), phase := StopKilled)
    case StopKilled =>
      s.(f := ResetFlags(s.f), g := s.g.(m_bAbort := false), a := CancelNotification(s.a), phase := Free)
    case PauseQuiet(fromStopped, next) =>
      s.(f := KillTimer(s.f, missed), a := CancelNotification(s.a),
         phase := if fromStopped then PauseKilled(next) else Free)
    case PauseKilled(next) =>
      s.(f := ClearSample(s.f), g := s.g.(m_bAbort := false),
         phase := if next.NoStart? then Free else Starting(next.now, next.timer))
    case Starting(now, timer) =>
      s.(f := StartStreaming(ClearSample(s.f), now, timer), g := s.g.(m_State := Running, m_bAbort := false),
         phase := Free)
    case FlushBegun => s.(f := KillTimer(s.f, missed), phase := FlushKilled)
    case FlushKilled => s.(f := ResetFlags(s.f), phase := Free)
    case BreakKilled => s.(f := ResetFlags(s.f), phase := BreakReset)
    case BreakReset => s.(f := ClearSample(s.f), g := s.g.(m_bAbort := false), phase := BreakCleared)
    case BreakCleared =>
      s.(f := if s.g.m_State.Running? then StopStreaming(s.f) else s.f, g := s.g.(connected := false), phase := Free)
  }

  /** A sample arrives: both classes' checks. */
  function Arrived(s: State, arrival: Arrival, tStop: int): State {
    if s.g.m_State.Stopped? || s.g.m_bFlushing || s.g.m_bRunTimeError || arrival.Refused? || arrival.TypeFails? then
      s.(t := s.t.(failed := s.t.failed + 1))
    else if arrival.BadType? then s.(g := s.g.(m_bRunTimeError := true), t := s.t.(failed := s.t.failed + 1))
    else if s.f.m_pMediaSample || s.f.m_bEOS || s.g.m_bAbort then s.(t := s.t.(failed := s.t.failed + 1))
    else if s.f.m_bStreaming && arrival.Rejected? then s
    else
      s.(f := s.f.(m_pMediaSample := true, m_SignalTime := tStop), t := s.t.(waiting := s.t.waiting + 1),
         a := if s.f.m_bStreaming && arrival.Taken? then ScheduleSample(s.a, s.f, arrival.advise) else s.a)
  }

  /** The pin's handling of a failed `Receive`. */
  function Reported(s: State): State
    requires s.t.failed > 0
  {
    var s' := s.(t := s.t.(failed := s.t.failed - 1));
    if s.g.m_State.Stopped? || s.g.m_bFlushing || s.g.m_bAbort || s.g.m_bRunTimeError then s'
    else
      s'.(f := if s.f.m_bStreaming && !s.f.m_bEOSDelivered then NotifyEndOfStream(s.f) else s.f,
          g := s.g.(m_bRunTimeError := true))
  }

  /** A step that is not enabled does nothing. */
  function After(s: State, step: Step): State {
    if !Enabled(s, step) then s
    else
      match step
      case Begin(op) => Begun(s, op)
      case Advance(missed) => Advanced(s, missed)
      case EndOfStream(now, timer) =>
        if s.g.m_State.Stopped? || s.g.m_bFlushing || s.g.m_bRunTimeError then s
        else
          var f := s.f.(m_bEOS := true);
          s.(f := if f.m_pMediaSample || !f.m_bStreaming then f else SendEndOfStream(f, now, timer))
      case EndFlush => s.(g := s.g.(m_bFlushing := false, m_bRunTimeError := false, canWait := true))
      case PrepareReceive(arrival, tStop) => Arrived(s, arrival, tStop)
      case RenderDone(now, timer) =>
        s.(f := SendEndOfStream(ClearSample(s.f), now, timer), a := CancelNotification(s.a),
           t := s.t.(woken := s.t.woken - 1))
      case ReceiveReports => Reported(s)
      case RunFails(tStart) => s.(f := s.f.(m_tStart := tStart))
      case RunUnconnected => s.(f := s.f.(sent := s.f.sent + 1), g := s.g.(m_State := Running))
      case PauseUnconnected => s.(g := s.g.(m_State := Paused))
      case StopUnconnected => s.(g := s.g.(m_State := Stopped))
      case SetSyncSource(pClock) => s.(f := s.f.(m_pClock := pClock))
      case Timer(now, timer) => s.(f := TimerCallback(s.f, now, timer))
      case DisplayChange => s.(f := ClearSample(s.f), g := s.g.(m_bAbort := true))
      case ClockFires(stray) =>
        s.(a := if stray then s.a.(m_RenderEvent := true, strays := s.a.strays - 1)
                else s.a.(m_RenderEvent := true, m_dwAdvise := Fired))
      case Wake =>
        s.(a := SignalTimerFired(s.a.(m_RenderEvent := false)),
           t := s.t.(waiting := s.t.waiting - 1, woken := s.t.woken + 1))
      case ReceiveQuits(woken) =>
        s.(t := if woken then s.t.(woken := s.t.woken - 1) else s.t.(waiting := s.t.waiting - 1))
  }

  function Initial(reconnects: bool): State {
    State(Flags(false, false, false, false, false, false, 0, 0, 0),
          Filter(Stopped, false, false, false, false, true, reconnects), Free,
          Alarm(false, NoLink, 0), Threads(0, 0, 0))
  }

  function RunSteps(s: State, steps: seq<Step>): State {
    if steps == [] then s else After(RunSteps(s, steps[..|steps| - 1]), steps[|steps| - 1])
  }

  // ----- How often and when EC_COMPLETE is sent -----

  /** What every run keeps, whatever is connected when: delivery is recorded as
      `Recorded` says, and without a connection there is no end of stream. */
  ghost predicate Orderly(s: State) {
    && Recorded(s.f)
    && (!s.g.connected ==> s.phase in {Free, FlushBegun, FlushKilled} && !s.f.m_bEOS)
    && (s.phase.BreakReset? || s.phase.BreakCleared? ==> !s.f.m_bEOS)
  }

  lemma BegunKeepsOrder(s: State, op: Operation)
    requires Orderly(s) && Enabled(s, Begin(op))
    ensures Orderly(Begun(s, op))
  {
    hide SendEndOfStream, StartStreaming;
  }

  lemma AdvancedKeepsOrder(s: State, missed: bool)
    requires Orderly(s) && !s.phase.Free?
    ensures Orderly(Advanced(s, missed))
  {
    hide SendEndOfStream, StartStreaming;
    match s.phase
    case Free =>
    case StopInactive =>
    case StopQuiet =>
    case StopKilled =>
    case PauseQuiet(_, _) =>
    case PauseKilled(_) =>
    case Starting(_, _) =>
    case FlushBegun =>
    case FlushKilled =>
    case BreakKilled =>
    case BreakReset =>
    case BreakCleared =>
  }

  lemma ReceiveKeepsOrder(s: State, arrival: Arrival, tStop: int)
    requires Orderly(s) && s.phase.Free? && s.g.connected
    ensures Orderly(Arrived(s, arrival, tStop))
  {
  }

  lemma ReportKeepsOrder(s: State)
    requires Orderly(s) && s.phase.Free? && s.t.failed > 0
    ensures Orderly(Reported(s))
  {
  }

  lemma StepKeepsOrder(s: State, step: Step)
    requires Orderly(s)
    ensures Orderly(After(s, step))
  {
    hide SendEndOfStream, Begun, Advanced, Arrived, Reported;
    if Enabled(s, step) {
      match step
      case Begin(op) => BegunKeepsOrder(s, op);
      case Advance(missed) => AdvancedKeepsOrder(s, missed);
      case PrepareReceive(arrival, tStop) => ReceiveKeepsOrder(s, arrival, tStop);
      case ReceiveReports => ReportKeepsOrder(s);
      case _ =>
    }
  }

  /** The steps in which `StopStreaming` or the reset of the flags lets
      EC_COMPLETE be sent anew. */
  predicate Resets(s: State, step: Step) {
    && Enabled(s, step)
    && match step
       case Begin(Pause) => true
       case Begin(Run(_, _, _, _)) => s.g.m_State.Stopped?
       case Advance(_) =>
         s.phase in {StopInactive, StopKilled, FlushKilled, BreakKilled}
         || (s.phase.BreakCleared? && s.g.m_State.Running?)
       case _ => false
  }

  /** `Run` on an unconnected pin. */
  predicate RunsUnconnected(s: State, step: Step) {
    Enabled(s, step) && step.RunUnconnected?
  }

  ghost predicate Counted(s: State, step: Step) {
    var s' := After(s, step);
    && s.f.sent <= s'.f.sent
    && if Resets(s, step) then s'.f.sent == s.f.sent && !s'.f.m_bEOSDelivered
       else s'.f.sent + Delivered(s.f) == s.f.sent + Delivered(s'.f) + One(RunsUnconnected(s, step))
  }

  lemma AdvanceIsCounted(s: State, missed: bool)
    requires Orderly(s) && !s.phase.Free?
    ensures Counted(s, Advance(missed))
  {
    hide SendEndOfStream, StartStreaming;
    match s.phase
    case Free =>
    case StopInactive =>
    case StopQuiet =>
    case StopKilled =>
    case PauseQuiet(_, _) =>
    case PauseKilled(_) =>
    case Starting(_, _) =>
    case FlushBegun =>
    case FlushKilled =>
    case BreakKilled =>
    case BreakReset =>
    case BreakCleared =>
  }

  lemma BeginIsCounted(s: State, op: Operation)
    requires Orderly(s) && Enabled(s, Begin(op))
    ensures Counted(s, Begin(op))
  {
    hide SendEndOfStream, StartStreaming;
    match op
    case Stop =>
    case Pause =>
    case Run(_, _, _, _) =>
    case BeginFlush =>
    case Connect(_, _, _) =>
    case BreakConnect(_) =>
  }

  lemma ReceiveIsCounted(s: State, arrival: Arrival, tStop: int)
    requires Enabled(s, PrepareReceive(arrival, tStop))
    ensures Counted(s, PrepareReceive(arrival, tStop))
  {
    hide ScheduleSample;
  }

  lemma ReportIsCounted(s: State)
    requires Orderly(s) && Enabled(s, ReceiveReports)
    ensures Counted(s, ReceiveReports)
  {
  }

  lemma StepIsCounted(s: State, step: Step)
    requires Orderly(s)
    ensures Counted(s, step)
  {
    if Enabled(s, step) {
      hide SendEndOfStream, Begun, Advanced, Arrived, Reported;
      match step
      case Begin(op) => BeginIsCounted(s, op);
      case Advance(missed) => AdvanceIsCounted(s, missed);
      case EndOfStream(_, _) =>
      case EndFlush =>
      case PrepareReceive(arrival, tStop) => ReceiveIsCounted(s, arrival, tStop);
      case RenderDone(_, _) =>
      case ReceiveReports => ReportIsCounted(s);
      case RunFails(_) =>
      case RunUnconnected =>
      case PauseUnconnected =>
      case StopUnconnected =>
      case SetSyncSource(_) =>
      case Timer(_, _) =>
      case DisplayChange =>
      case ClockFires(_) =>
    case Wake =>
    case ReceiveQuits(_) =>
    }
  }

  function ResetCount(s: State, steps: seq<Step>): nat {
    if steps == [] then 0
    else
      var front := steps[..|steps| - 1];
      ResetCount(s, front) + One(Resets(RunSteps(s, front), steps[|steps| - 1]))
  }

  function UnconnectedRuns(s: State, steps: seq<Step>): nat {
    if steps == [] then 0
    else
      var front := steps[..|steps| - 1];
      UnconnectedRuns(s, front) + One(RunsUnconnected(RunSteps(s, front), steps[|steps| - 1]))
  }

  /** Between two resets EC_COMPLETE is sent once if delivery comes to be
      recorded, and once more for each `Run` while unconnected; with resets, at
      most once more for each of them. */
  lemma {:induction false} CompletesCounted(s: State, steps: seq<Step>)
    requires Orderly(s)
    ensures var s' := RunSteps(s, steps);
            && Orderly(s') && s.f.sent <= s'.f.sent
            && (ResetCount(s, steps) == 0 ==>
                  s'.f.sent + Delivered(s.f) == s.f.sent + Delivered(s'.f) + UnconnectedRuns(s, steps))
            && s'.f.sent + Delivered(s.f)
               <= s.f.sent + Delivered(s'.f) + UnconnectedRuns(s, steps) + ResetCount(s, steps)
  {
    hide After, Orderly, Resets, RunsUnconnected;
    if steps != [] {
      var front := steps[..|steps| - 1];
      CompletesCounted(s, front);
      StepIsCounted(RunSteps(s, front), steps[|steps| - 1]);
      StepKeepsOrder(RunSteps(s, front), steps[|steps| - 1]);
    }
  }

  /** Between two resets the number of events is the number of deliveries
      recorded, at most one, exactly when the filter was not run unconnected. */
  lemma CompleteOncePerRun(s: State, steps: seq<Step>)
    requires Orderly(s) && ResetCount(s, steps) == 0
    ensures RunSteps(s, steps).f.sent - s.f.sent == Delivered(RunSteps(s, steps).f) - Delivered(s.f)
       <==> UnconnectedRuns(s, steps) == 0
  {
    CompletesCounted(s, steps);
  }

  /** In a whole run without such a `Run`, at most one more than resets. */
  lemma CompletesAreBounded(reconnects: bool, steps: seq<Step>)
    ensures RunSteps(Initial(reconnects), steps).f.sent
         <= ResetCount(Initial(reconnects), steps) + 1 + UnconnectedRuns(Initial(reconnects), steps)
  {
    CompletesCounted(Initial(reconnects), steps);
  }

  lemma RunSnoc(s: State, steps: seq<Step>, step: Step)
    ensures RunSteps(s, steps + [step]) == After(RunSteps(s, steps), step)
    ensures ResetCount(s, steps + [step]) == ResetCount(s, steps) + One(Resets(RunSteps(s, steps), step))
    ensures UnconnectedRuns(s, steps + [step])
         == UnconnectedRuns(s, steps) + One(RunsUnconnected(RunSteps(s, steps), step))
  {
    assert (steps + [step])[..|steps|] == steps;
  }

  /** Run, paused and run again without a connection, the renderer sends
      EC_COMPLETE twice although nothing was reset. */
  lemma UnconnectedRunsSendTwice(reconnects: bool) returns (steps: seq<Step>)
    ensures steps == [RunUnconnected, PauseUnconnected, RunUnconnected]
    ensures RunSteps(Initial(reconnects), steps).f.sent == 2 && ResetCount(Initial(reconnects), steps) == 0
  {
    hide RunSteps, ResetCount;
    var s := Initial(reconnects);
    StartOfRun(s);
    RunSnoc(s, [], RunUnconnected);
    RunSnoc(s, [] + [RunUnconnected], PauseUnconnected);
    RunSnoc(s, [] + [RunUnconnected] + [PauseUnconnected], RunUnconnected);
    steps := [] + [RunUnconnected] + [PauseUnconnected] + [RunUnconnected];
  }

  lemma StartOfRun(s: State)
    ensures RunSteps(s, []) == s && ResetCount(s, []) == UnconnectedRuns(s, []) == 0
  {
  }

  ghost predicate Sends(s: State, step: Step) {
    After(s, step).f.sent > s.f.sent
  }

  /** The reading of the clock with which a step may send. */
  function Reading(s: State, step: Step): Start {
    match step
    case Begin(Run(_, now, timer, _)) => StartAt(now, timer)
    case Begin(Connect(now, timer, _)) => StartAt(now, timer)
    case Advance(_) => if s.phase.Starting? then StartAt(s.phase.now, s.phase.timer) else NoStart
    case EndOfStream(now, timer) => StartAt(now, timer)
    case RenderDone(now, timer) => StartAt(now, timer)
    case Timer(now, timer) => StartAt(now, timer)
    case _ => NoStart
  }

  ghost predicate SentRightly(s: State, step: Step) {
    var s', r := After(s, step), Reading(s, step);
    && (s'.f.m_bEOS <==> !step.RunUnconnected? && (step.ReceiveReports? ==> s.f.m_bEOS))
    && (!step.RunUnconnected? ==> s'.f.m_bStreaming && s'.f.m_bEOSDelivered && !s.f.m_bEOSDelivered)
    && (!step.RunUnconnected? && !step.ReceiveReports? ==>
          r.StartAt? && (s'.f.m_pClock && r.timer ==> Delay(s'.f, r.now) < TIMEOUT_DELIVERYWAIT))
  }

  lemma BeginSendsRightly(s: State, op: Operation)
    requires Orderly(s) && Enabled(s, Begin(op)) && Sends(s, Begin(op))
    ensures SentRightly(s, Begin(op))
  {
    hide SendEndOfStream, StartStreaming, ToLong, TruncDiv;
    match op
    case Stop =>
    case Pause =>
    case Run(_, _, _, _) =>
    case BeginFlush =>
    case Connect(_, _, _) =>
    case BreakConnect(_) =>
  }

  lemma AdvanceSendsRightly(s: State, missed: bool)
    requires Orderly(s) && !s.phase.Free? && Sends(s, Advance(missed))
    ensures SentRightly(s, Advance(missed))
  {
    hide SendEndOfStream, StartStreaming, ToLong, TruncDiv;
    match s.phase
    case Free =>
    case StopInactive =>
    case StopQuiet =>
    case StopKilled =>
    case PauseQuiet(_, _) =>
    case PauseKilled(_) =>
    case Starting(_, _) =>
    case FlushBegun =>
    case FlushKilled =>
    case BreakKilled =>
    case BreakReset =>
    case BreakCleared =>
  }

  /** EC_COMPLETE is sent past the end of the stream, by a streaming renderer
      that has not sent it, and with a clock not before 50 ms are left unless no
      timer could be had. Exactly two senders are not bound by this: a `Run`
      while unconnected, and a failed `Receive` before the end. */
  lemma SendsPastTheEnd(s: State, step: Step)
    requires Orderly(s) && Sends(s, step)
    ensures SentRightly(s, step)
    ensures var f, r := After(s, step).f, Reading(s, step);
            && (!step.RunUnconnected? && !step.ReceiveReports? ==> r.StartAt?)
            && (r.StartAt? && f.m_pClock && r.timer
                && -0x8000_0000 * 10000 <= f.m_tStart + f.m_SignalTime - r.now < 0x8000_0000 * 10000 ==>
                  f.m_tStart + f.m_SignalTime - r.now < 50 * 10000)
  {
    SendingIsRight(s, step);
    hide SendEndOfStream, StartStreaming, Delay, After, Sends;
    var f, r := After(s, step).f, Reading(s, step);
    if r.StartAt? && -0x8000_0000 * 10000 <= f.m_tStart + f.m_SignalTime - r.now < 0x8000_0000 * 10000 {
      DelayIsTheTimeLeft(f, r.now);
    }
  }

  lemma SendingIsRight(s: State, step: Step)
    requires Orderly(s) && Sends(s, step)
    ensures SentRightly(s, step)
  {
    hide SendEndOfStream, StartStreaming, ToLong, TruncDiv, SentRightly;
    match step
    case Begin(op) => BeginSendsRightly(s, op);
    case Advance(missed) => AdvanceSendsRightly(s, missed);
    case _ => OthersSendRightly(s, step);
  }

  lemma OthersSendRightly(s: State, step: Step)
    requires Orderly(s) && Sends(s, step) && !step.Begin? && !step.Advance?
    ensures SentRightly(s, step)
  {
    hide SendEndOfStream, StartStreaming, ToLong, TruncDiv;
    match step
    case EndOfStream(_, _) =>
    case EndFlush =>
    case PrepareReceive(_, _) =>
    case RenderDone(_, _) =>
    case ReceiveReports =>
    case RunFails(_) =>
    case RunUnconnected =>
    case PauseUnconnected =>
    case StopUnconnected =>
    case SetSyncSource(_) =>
    case Timer(_, _) =>
    case DisplayChange =>
    case ClockFires(_) =>
    case Wake =>
    case ReceiveQuits(_) =>
  }

  lemma Extend(s0: State, steps: seq<Step>, s: State, step: Step)
    requires RunSteps(s0, steps) == s
    ensures RunSteps(s0, steps + [step]) == After(s, step)
  {
    RunSnoc(s0, steps, step);
  }

  /** A new renderer connected and run. */
  lemma ConnectedAndRun(reconnects: bool) returns (steps: seq<Step>)
    ensures RunSteps(Initial(reconnects), steps) == ConnectedState(5, reconnects)
  {
    hide RunSteps;
    var s0 := Initial(reconnects);
    var script := [Begin(Connect(0, false, false)), Begin(Run(0, 0, false, false)),
                   Advance(false), Advance(false), Advance(false)];
    StartOfRun(s0);
    steps := [];
    var s := s0;
    for i := 0 to |script|
      invariant RunSteps(s0, steps) == s == ConnectedState(i, reconnects)
    {
      Extend(s0, steps, s, script[i]);
      steps := steps + [script[i]];
      s := After(s, script[i]);
    }
  }

  function ConnectedState(i: int, reconnects: bool): State {
    var f := Flags(false, false, false, false, false, false, 0, 0, 0);
    var g := Filter(Paused, true, false, false, false, true, reconnects);
    var still, none := Alarm(false, NoLink, 0), Threads(0, 0, 0);
    if i == 0 then State(f, g.(m_State := Stopped, connected := false), Free, still, none)
    else if i == 1 then State(f, g.(m_State := Stopped), Free, still, none)
    else if i == 2 then State(f, g, PauseQuiet(true, StartAt(0, false)), still, none)
    else if i == 3 then State(f, g, PauseKilled(StartAt(0, false)), still, none)
    else if i == 4 then State(f, g, Starting(0, false), still, none)
    else State(f.(m_bStreaming := true), g.(m_State := Running), Free, still, none)
  }

  /** A sample that is refused completes the stream before its end. */
  lemma FailureCompletesBeforeTheEnd(reconnects: bool) returns (steps: seq<Step>)
    ensures var s' := RunSteps(Initial(reconnects), steps);
            s'.f.sent == 1 && s'.f.m_bEOSDelivered && !s'.f.m_bEOS
  {
    var s0 := Initial(reconnects);
    steps := ConnectedAndRun(reconnects);
    var s1 := RunSteps(s0, steps);
    var s2 := After(s1, PrepareReceive(Refused, 0));
    Extend(s0, steps, s1, PrepareReceive(Refused, 0));
    steps := steps + [PrepareReceive(Refused, 0)];
    Extend(s0, steps, s2, ReceiveReports);
    steps := steps + [ReceiveReports];
  }

  lemma TenSecondsLeft(f: Flags)
    requires f.m_tStart == f.m_SignalTime == 0
    ensures Delay(f, -100_000_000) == 10000
  {
  }

  /** A sample after the end completes the stream at once, although the timer
      runs and ten seconds are left. */
  lemma FailureCompletesEarly(reconnects: bool) returns (steps: seq<Step>)
    ensures var s, s' := RunSteps(Initial(reconnects), steps), RunSteps(Initial(reconnects), steps + [ReceiveReports]);
            && s.f.m_EndOfStreamTimer && Delay(s.f, -100_000_000) == 10000 && s.f.sent == 0
            && s'.f.sent == 1 && s'.f.m_bEOSDelivered
  {
    hide Delay, RunSteps;
    var s0, end, late := Initial(reconnects), EndOfStream(-100_000_000, true), PrepareReceive(Taken(false), 0);
    steps := ConnectedAndRun(reconnects);
    var s1 := RunSteps(s0, steps);
    var s2 := After(s1, SetSyncSource(true));
    var s3 := After(s2, end);
    TenSecondsLeft(s2.f.(m_bEOS := true));
    var s4 := After(s3, late);
    TenSecondsLeft(s4.f);
    Extend(s0, steps, s1, SetSyncSource(true));
    steps := steps + [SetSyncSource(true)];
    Extend(s0, steps, s2, end);
    steps := steps + [end];
    Extend(s0, steps, s3, late);
    steps := steps + [late];
    Extend(s0, steps, s4, ReceiveReports);
  }

  // ----- No completion is lost -----

  function Rank(p: Phase): nat {
    match p
    case Free => 0
    case StopInactive => 3
    case StopQuiet => 2
    case StopKilled => 1
    case PauseQuiet(_, _) => 3
    case PauseKilled(_) => 2
    case Starting(_, _) => 1
    case FlushBegun => 2
    case FlushKilled => 1
    case BreakKilled => 3
    case BreakReset => 2
    case BreakCleared => 1
  }

  /** An operation can always go on, comes to its end, and is not disturbed in
      this by the other threads. */
  lemma OperationsEnd(s: State, step: Step, missed: bool)
    requires !s.phase.Free?
    ensures Enabled(s, Advance(missed)) && Rank(After(s, Advance(missed)).phase) < Rank(s.phase)
    ensures !step.Advance? ==> After(s, step).phase == s.phase
  {
    hide SendEndOfStream, StartStreaming, ToLong, TruncDiv;
  }

  /** A thread is on its way to the end of `Receive`, or waits and will be
      woken to go there. */
  predicate Awaited(s: State) {
    s.t.woken > 0 || (s.t.waiting > 0 && Due(s.a))
  }

  /** Past the end, with the interface lock free and no timer, and yet neither
      delivered nor about to be by a thread in `Receive`. */
  predicate Lost(s: State) {
    && s.phase.Free? && !Awaited(s)
    && s.f.m_bStreaming && s.f.m_bEOS && !s.f.m_bEOSDelivered && !s.f.m_EndOfStreamTimer
  }

  /** A sample that a streaming renderer holds has somebody to render it. */
  predicate HeldForSomebody(s: State) {
    s.phase.Free? && s.f.m_bStreaming && s.f.m_pMediaSample ==> Awaited(s)
  }

  /** A connection made to an active filter whose source thread may not wait,
      as it is when the filter was stopped, disconnected, and made active again
      without a connection. */
  predicate Strands(s: State, step: Step) {
    && Enabled(s, step) && step.Begin? && step.op.Connect?
    && !s.g.m_State.Stopped? && !s.g.canWait && !s.g.m_bFlushing && !s.g.m_bRunTimeError
  }

  predicate FilterOrder(g: Filter) {
    !g.canWait ==> g.m_bFlushing || g.m_State.Stopped? || !g.connected || g.m_bRunTimeError
  }

  /** A sample is held for a thread in `Receive`, of a connected active filter
      whose source thread may wait. */
  predicate SampleOrder(s: State) {
    s.f.m_pMediaSample ==>
      s.t.waiting + s.t.woken > 0 && s.g.canWait && s.g.connected && !s.g.m_State.Stopped?
  }

  predicate PhaseOrder(s: State) {
    match s.phase
    case Free =>
      && (s.f.m_bStreaming ==> s.g.m_State.Running? && s.g.connected)
      && (s.g.m_bFlushing ==> !s.f.m_bEOS)
      && (s.f.m_bStreaming && s.f.m_bEOS ==> s.g.canWait)
      && (s.f.m_bStreaming && s.f.m_pMediaSample ==> Awaited(s))
      && (s.f.m_bStreaming && s.f.m_bEOS ==> s.f.m_bEOSDelivered || s.f.m_EndOfStreamTimer || Awaited(s))
    case StopInactive => s.g.connected && s.g.m_State.Stopped? && (s.g.m_bFlushing ==> !s.f.m_bEOS)
    case StopQuiet => s.g.connected && s.g.m_State.Stopped? && !s.f.m_bStreaming
    case StopKilled => s.g.connected && s.g.m_State.Stopped? && !s.f.m_bStreaming
    case FlushBegun => !s.f.m_pMediaSample && (s.f.m_bStreaming ==> s.g.m_State.Running? && s.g.connected)
    case FlushKilled => !s.f.m_pMediaSample && (s.f.m_bStreaming ==> s.g.m_State.Running? && s.g.connected)
    case BreakKilled => s.g.connected && (s.f.m_bStreaming ==> s.g.m_State.Running?)
    case BreakReset => s.g.connected && (s.f.m_bStreaming ==> s.g.m_State.Running?)
    case BreakCleared => s.g.connected && (s.f.m_bStreaming ==> s.g.m_State.Running?) && !s.f.m_pMediaSample
    case _ =>
      s.g.connected && s.g.m_State.Paused? && !s.f.m_bStreaming && s.g.canWait && (s.g.m_bFlushing ==> !s.f.m_bEOS)
  }

  ghost predicate Invariant(s: State) {
    Orderly(s) && FilterOrder(s.g) && SampleOrder(s) && PhaseOrder(s)
  }

  lemma BegunKeepsInvariant(s: State, op: Operation)
    requires Invariant(s) && Enabled(s, Begin(op)) && !Strands(s, Begin(op))
    ensures Invariant(Begun(s, op))
  {
    BegunKeepsOrder(s, op);
    NoEndUnconnected(s);
    hide SendEndOfStream, StartStreaming, ToLong, TruncDiv, Orderly, Recorded, Delivered;
    match op
    case Stop =>
    case Pause =>
    case Run(_, _, _, _) =>
      if !s.g.m_State.Stopped? {
        assert Begun(s, op).f.m_bEOS == s.f.m_bEOS;
      }
    case BeginFlush =>
    case Connect(_, _, _) =>
    case BreakConnect(_) =>
  }

  lemma NoEndUnconnected(s: State)
    requires Orderly(s)
    ensures !s.g.connected ==> !s.f.m_bEOS
    ensures s.phase.BreakReset? || s.phase.BreakCleared? ==> !s.f.m_bEOS
  {
  }

  lemma AdvancedKeepsInvariant(s: State, missed: bool)
    requires Invariant(s) && !s.phase.Free?
    ensures Invariant(Advanced(s, missed))
  {
    AdvancedKeepsOrder(s, missed);
    NoEndUnconnected(s);
    hide SendEndOfStream, StartStreaming, ToLong, TruncDiv, Orderly;
    match s.phase
    case Free =>
    case StopInactive =>
    case StopQuiet =>
    case StopKilled =>
    case PauseQuiet(_, _) =>
    case PauseKilled(_) =>
    case Starting(_, _) =>
    case FlushBegun =>
    case FlushKilled =>
    case BreakKilled =>
    case BreakReset =>
    case BreakCleared =>
  }

  lemma ReceiveKeepsInvariant(s: State, arrival: Arrival, tStop: int)
    requires Invariant(s) && s.phase.Free? && s.g.connected
    ensures Invariant(Arrived(s, arrival, tStop))
  {
    ReceiveKeepsOrder(s, arrival, tStop);
    hide ScheduleSample, Due, Orderly;
  }

  lemma ReportKeepsInvariant(s: State)
    requires Invariant(s) && s.phase.Free? && s.t.failed > 0
    ensures Invariant(Reported(s))
  {
    ReportKeepsOrder(s);
    hide Due, Orderly;
  }

  lemma EndOfStreamKeepsInvariant(s: State, now: int, timer: bool)
    requires Invariant(s) && s.phase.Free? && s.g.connected
    ensures Invariant(After(s, EndOfStream(now, timer)))
  {
    StepKeepsOrder(s, EndOfStream(now, timer));
    hide SendEndOfStream, StartStreaming, ToLong, TruncDiv, Orderly, Due;
  }

  lemma RenderDoneKeepsInvariant(s: State, now: int, timer: bool)
    requires Invariant(s) && Enabled(s, RenderDone(now, timer))
    ensures Invariant(After(s, RenderDone(now, timer)))
  {
    StepKeepsOrder(s, RenderDone(now, timer));
    hide SendEndOfStream, StartStreaming, ToLong, TruncDiv, Orderly, Due;
  }

  lemma OthersKeepInvariant(s: State, step: Step)
    requires Invariant(s) && Enabled(s, step) && !step.Begin? && !step.Advance?
    requires !step.PrepareReceive? && !step.ReceiveReports? && !step.EndOfStream? && !step.RenderDone?
    ensures Invariant(After(s, step))
  {
    StepKeepsOrder(s, step);
    NoEndUnconnected(s);
    hide SendEndOfStream, StartStreaming, ToLong, TruncDiv, Orderly, Arrived, Reported, Begun, Advanced;
    match step
    case EndFlush =>
    case RunFails(_) =>
    case RunUnconnected =>
    case PauseUnconnected =>
    case StopUnconnected =>
    case SetSyncSource(_) =>
    case Timer(_, _) =>
    case DisplayChange =>
    case ClockFires(_) =>
    case Wake =>
    case ReceiveQuits(_) =>
  }

  lemma StepKeepsInvariant(s: State, step: Step)
    requires Invariant(s) && !Strands(s, step)
    ensures Invariant(After(s, step))
  {
    if Enabled(s, step) {
      hide SendEndOfStream, StartStreaming, Invariant, Begun, Advanced, Arrived, Reported;
      match step
      case Begin(op) => BegunKeepsInvariant(s, op);
      case Advance(missed) => AdvancedKeepsInvariant(s, missed);
      case EndOfStream(now, timer) => EndOfStreamKeepsInvariant(s, now, timer);
      case PrepareReceive(arrival, tStop) => ReceiveKeepsInvariant(s, arrival, tStop);
      case RenderDone(now, timer) => RenderDoneKeepsInvariant(s, now, timer);
      case ReceiveReports => ReportKeepsInvariant(s);
      case _ => OthersKeepInvariant(s, step);
    }
  }

  predicate NoStranding(s: State, steps: seq<Step>) {
    steps == [] ||
    var front := steps[..|steps| - 1];
    NoStranding(s, front) && !Strands(RunSteps(s, front), steps[|steps| - 1])
  }

  lemma {:induction false} RunKeepsInvariant(s: State, steps: seq<Step>)
    requires Invariant(s) && NoStranding(s, steps)
    ensures Invariant(RunSteps(s, steps))
  {
    hide Invariant, After, Strands;
    if steps != [] {
      var front := steps[..|steps| - 1];
      RunKeepsInvariant(s, front);
      StepKeepsInvariant(RunSteps(s, front), steps[|steps| - 1]);
    }
  }

  lemma NotLostYet(s: State)
    requires Invariant(s)
    ensures !Lost(s) && HeldForSomebody(s)
  {
  }

  /** In every run without a stranding connection no completion is lost: unless
      an operation is under way, a streaming renderer past the end has sent
      EC_COMPLETE, or a timer for it runs, or a thread in `Receive` has been or
      will be woken to send it. */
  lemma CompletionIsNotLost(reconnects: bool, steps: seq<Step>)
    requires NoStranding(Initial(reconnects), steps)
    ensures !Lost(RunSteps(Initial(reconnects), steps)) && HeldForSomebody(RunSteps(Initial(reconnects), steps))
  {
    RunKeepsInvariant(Initial(reconnects), steps);
    NotLostYet(RunSteps(Initial(reconnects), steps));
  }

  /** The callback of that timer sends it once fewer than 50 ms are left, and
      otherwise leaves a timer. */
  lemma TimerCompletes(f: Flags, now: int, timer: bool)
    requires f.m_bStreaming && f.m_bEOS && !f.m_bEOSDelivered && f.m_EndOfStreamTimer
    ensures var t := TimerCallback(f, now, timer);
            && (t.m_bEOSDelivered <==> !f.m_pClock || Delay(f, now) < TIMEOUT_DELIVERYWAIT || !timer)
            && (t.m_bEOSDelivered ==> t.sent == f.sent + 1)
            && (!t.m_bEOSDelivered ==> t == f)
    ensures -0x8000_0000 * 10000 <= f.m_tStart + f.m_SignalTime - now < 0x8000_0000 * 10000 ==>
              (TimerCallback(f, now, timer).m_bEOSDelivered <==>
               !f.m_pClock || f.m_tStart + f.m_SignalTime - now < 50 * 10000 || !timer)
  {
    hide ToLong, TruncDiv;
    if -0x8000_0000 * 10000 <= f.m_tStart + f.m_SignalTime - now < 0x8000_0000 * 10000 {
      DelayIsTheTimeLeft(f, now);
    }
  }

  /** A thread whose wake-up is due wakes, unless it may not wait any more: the
      clock sets the event if it is not set. */
  lemma DueWakes(s: State)
    requires s.t.waiting > 0 && Due(s.a)
    ensures !s.g.canWait ==> Enabled(s, ReceiveQuits(false))
    ensures s.g.canWait ==>
              || Enabled(s, Wake)
              || exists stray :: Enabled(s, ClockFires(stray)) && Enabled(After(s, ClockFires(stray)), Wake)
  {
    if s.g.canWait && !s.a.m_RenderEvent {
      var fire := ClockFires(!s.a.m_dwAdvise.Pending?);
      assert Enabled(s, fire) && Enabled(After(s, fire), Wake);
    }
  }

  /** `Run` from paused sees to a wake-up exactly when a sample is held or one
      was due already. */
  lemma RunWakesExactly(s: State, tStart: int, now: int, timer: bool, advise: bool)
    requires Invariant(s) && Enabled(s, Begin(Run(tStart, now, timer, advise))) && s.g.m_State.Paused?
    ensures Due(After(s, Begin(Run(tStart, now, timer, advise))).a) <==> s.f.m_pMediaSample || Due(s.a)
  {
    hide SendEndOfStream, StartStreaming, ScheduleSample, Due;
  }

  /** A thread may be left without one: its sample came while paused and was
      taken away by a change of display. The renderer runs past the end and has
      completed, and the thread waits for a stop or a flush. */
  lemma WaitsWithoutAWakeup(reconnects: bool) returns (steps: seq<Step>)
    ensures NoStranding(Initial(reconnects), steps)
    ensures var s := RunSteps(Initial(reconnects), steps);
            && s.phase.Free? && s.g.m_State.Running? && s.f.m_bStreaming && s.f.m_bEOSDelivered
            && s.t.waiting == 1 && !Due(s.a)
  {
    hide RunSteps, NoStranding;
    var s0 := Initial(reconnects);
    var script := [Begin(Connect(0, false, false)), Begin(Pause), Advance(false), Advance(false),
                   PrepareReceive(Taken(false), 0), DisplayChange,
                   Begin(Run(0, 0, false, false)), EndOfStream(0, false)];
    StartsWithout(s0);
    steps := [];
    var s := s0;
    for i := 0 to |script|
      invariant RunSteps(s0, steps) == s && NoStranding(s0, steps)
      invariant s == SampleTakenAway(i, reconnects)
    {
      Unstranded(s0, steps, s, script[i]);
      steps := steps + [script[i]];
      s := After(s, script[i]);
    }
  }

  lemma Unstranded(s: State, steps: seq<Step>, t: State, step: Step)
    requires NoStranding(s, steps) && RunSteps(s, steps) == t && !Strands(t, step)
    ensures NoStranding(s, steps + [step]) && RunSteps(s, steps + [step]) == After(t, step)
  {
    RunSnoc(s, steps, step);
    assert (steps + [step])[..|steps|] == steps;
  }

  function SampleTakenAway(i: int, reconnects: bool): State {
    var f := Flags(false, false, false, false, false, false, 0, 0, 0);
    var g := Filter(Paused, true, false, false, false, true, reconnects);
    var still, none, one := Alarm(false, NoLink, 0), Threads(0, 0, 0), Threads(1, 0, 0);
    if i == 0 then State(f, g.(m_State := Stopped, connected := false), Free, still, none)
    else if i == 1 then State(f, g.(m_State := Stopped), Free, still, none)
    else if i == 2 then State(f, g, PauseQuiet(true, NoStart), still, none)
    else if i == 3 then State(f, g, PauseKilled(NoStart), still, none)
    else if i == 4 then State(f, g, Free, still, none)
    else if i == 5 then State(f.(m_pMediaSample := true), g, Free, still, one)
    else if i == 6 then State(f, g.(m_bAbort := true), Free, still, one)
    else
      var running := f.(m_bStreaming := true);
      State(if i == 7 then running else running.(m_bEOS := true, m_bEOSDelivered := true, sent := 1),
            g.(m_State := Running, m_bAbort := true), Free, still, one)
  }

  lemma {:induction false} StaysUnreconnectable(steps: seq<Step>)
    ensures !RunSteps(Initial(false), steps).g.reconnects
  {
    hide SendEndOfStream, StartStreaming, ToLong, TruncDiv;
    if steps != [] {
      StaysUnreconnectable(steps[..|steps| - 1]);
      FilterKeepsConfiguration(RunSteps(Initial(false), steps[..|steps| - 1]), steps[|steps| - 1]);
    }
  }

  lemma FilterKeepsConfiguration(s: State, step: Step)
    ensures After(s, step).g.reconnects == s.g.reconnects
  {
    hide SendEndOfStream, StartStreaming, StopStreaming, KillTimer, ResetFlags, ClearSample,
         TimerCallback, NotifyEndOfStream;
    match step
    case Begin(op) => {
      match op
      case Stop =>
      case Pause =>
      case Run(_, _, _, _) =>
      case BeginFlush =>
      case Connect(_, _, _) =>
      case BreakConnect(_) =>
    }
    case Advance(_) => AdvanceKeepsConfiguration(s, step.missed);
    case EndOfStream(_, _) =>
    case EndFlush =>
    case PrepareReceive(_, _) =>
    case RenderDone(_, _) =>
    case ReceiveReports =>
    case RunFails(_) =>
    case RunUnconnected =>
    case PauseUnconnected =>
    case StopUnconnected =>
    case SetSyncSource(_) =>
    case Timer(_, _) =>
    case DisplayChange =>
    case ClockFires(_) =>
    case Wake =>
    case ReceiveQuits(_) =>
  }

  lemma AdvanceKeepsConfiguration(s: State, missed: bool)
    ensures Advanced(s, missed).g.reconnects == s.g.reconnects
  {
    hide SendEndOfStream, StartStreaming, StopStreaming, KillTimer, ResetFlags, ClearSample;
    match s.phase
    case Free =>
    case StopInactive =>
    case StopQuiet =>
    case StopKilled =>
    case PauseQuiet(_, _) =>
    case PauseKilled(_) =>
    case Starting(_, _) =>
    case FlushBegun =>
    case FlushKilled =>
    case BreakKilled =>
    case BreakReset =>
    case BreakCleared =>
  }

  /** A renderer whose pin does not reconnect while active is never stranded, so
      that it loses no completion whatever happens to it. */
  lemma {:induction false} NeverLostWithoutReconnection(steps: seq<Step>)
    ensures NoStranding(Initial(false), steps)
    ensures !Lost(RunSteps(Initial(false), steps))
  {
    if steps != [] {
      NeverLostWithoutReconnection(steps[..|steps| - 1]);
      StaysUnreconnectable(steps[..|steps| - 1]);
    }
    CompletionIsNotLost(false, steps);
  }

  // ----- When one is -----

  lemma Continue(s: State, steps: seq<Step>, t: State, step: Step)
    requires NoStranding(s, steps) && RunSteps(s, steps) == t && !(step.Begin? && step.op.Connect?)
    ensures NoStranding(s, steps + [step]) && RunSteps(s, steps + [step]) == After(t, step)
  {
    Unstranded(s, steps, t, step);
  }

  /** Threads that may not wait leave `Receive`. */
  lemma {:induction false} WaitersQuit(s: State, steps: seq<Step>, u: State) returns (steps': seq<Step>)
    requires NoStranding(s, steps) && RunSteps(s, steps) == u && !u.g.canWait
    ensures NoStranding(s, steps') && RunSteps(s, steps') == u.(t := u.t.(waiting := 0))
    decreases u.t.waiting
  {
    hide RunSteps, NoStranding;
    if u.t.waiting == 0 {
      steps' := steps;
    } else {
      Continue(s, steps, u, ReceiveQuits(false));
      steps' := WaitersQuit(s, steps + [ReceiveQuits(false)], After(u, ReceiveQuits(false)));
    }
  }

  /** Those that were woken come to the end of it. */
  lemma {:induction false} WokenFinish(s: State, steps: seq<Step>, u: State)
    returns (steps': seq<Step>, a: Alarm)
    requires NoStranding(s, steps) && RunSteps(s, steps) == u
    requires u.phase.Free? && !u.g.m_State.Stopped? && !u.f.m_bEOS && !u.f.m_pMediaSample
    ensures NoStranding(s, steps') && RunSteps(s, steps') == u.(a := a, t := u.t.(woken := 0))
    decreases u.t.woken
  {
    hide RunSteps, NoStranding;
    if u.t.woken == 0 {
      steps', a := steps, u.a;
    } else {
      Continue(s, steps, u, RenderDone(0, false));
      steps', a := WokenFinish(s, steps + [RenderDone(0, false)], After(u, RenderDone(0, false)));
    }
  }

  /** `Receive` has no thread left, and no timer runs. */
  lemma NobodyLeft(s: State) returns (steps: seq<Step>, u: State)
    requires s.phase.Free? && !s.g.m_State.Stopped? && !s.g.canWait
    requires !s.f.m_bEOS && !s.f.m_pMediaSample
    ensures NoStranding(s, steps) && RunSteps(s, steps) == u
    ensures u == s.(f := s.f.(m_EndOfStreamTimer := false), a := u.a, t := Threads(0, 0, s.t.failed))
  {
    hide RunSteps, NoStranding;
    StartsWithout(s);
    Continue(s, [], s, Timer(0, false));
    var s1 := s.(f := s.f.(m_EndOfStreamTimer := false));
    assert After(s, Timer(0, false)) == s1;
    var a;
    steps := WaitersQuit(s, [] + [Timer(0, false)], s1);
    steps, a := WokenFinish(s, steps, s1.(t := s1.t.(waiting := 0)));
    u := s1.(a := a, t := Threads(0, 0, s.t.failed));
  }

  /** A connected active filter that may not wait: the next sample is held for
      nobody, and the end of the stream waits for it for ever. */
  lemma StrandedLoses(s: State) returns (steps: seq<Step>)
    requires s.phase.Free? && s.g.connected && !s.g.m_State.Stopped? && !s.g.canWait
    requires !s.g.m_bFlushing && !s.g.m_bRunTimeError && !s.g.m_bAbort
    requires !s.f.m_bEOS && !s.f.m_pMediaSample && !s.f.m_bEOSDelivered && (s.f.m_bStreaming <==> s.g.m_State.Running?)
    ensures NoStranding(s, steps) && Lost(RunSteps(s, steps))
  {
    hide RunSteps, NoStranding;
    var u;
    steps, u := NobodyLeft(s);
    steps, u := SampleForNobody(s, steps, u);
    steps, u := RunningThen(s, steps, u);
    Continue(s, steps, u, EndOfStream(0, false));
    steps := steps + [EndOfStream(0, false)];
  }

  lemma SampleForNobody(s: State, steps: seq<Step>, u: State) returns (steps': seq<Step>, v: State)
    requires NoStranding(s, steps) && RunSteps(s, steps) == u
    requires u.phase.Free? && u.g.connected && !u.g.m_State.Stopped? && !u.g.canWait
    requires !u.g.m_bFlushing && !u.g.m_bRunTimeError && !u.g.m_bAbort && !u.f.m_bEOS && !u.f.m_pMediaSample
    ensures NoStranding(s, steps') && RunSteps(s, steps') == v
    ensures v == u.(f := u.f.(m_pMediaSample := true, m_SignalTime := 0), a := v.a)
  {
    hide RunSteps, NoStranding;
    Continue(s, steps, u, PrepareReceive(Taken(false), 0));
    var held := After(u, PrepareReceive(Taken(false), 0));
    Continue(s, steps + [PrepareReceive(Taken(false), 0)], held, ReceiveQuits(false));
    steps', v := steps + [PrepareReceive(Taken(false), 0)] + [ReceiveQuits(false)], After(held, ReceiveQuits(false));
  }

  lemma RunningThen(s: State, steps: seq<Step>, u: State) returns (steps': seq<Step>, v: State)
    requires NoStranding(s, steps) && RunSteps(s, steps) == u
    requires u.phase.Free? && u.g.connected && !u.g.m_State.Stopped? && u.f.m_pMediaSample
    requires u.f.m_bStreaming <==> u.g.m_State.Running?
    ensures NoStranding(s, steps') && RunSteps(s, steps') == v
    ensures v == u.(f := u.f.(m_bStreaming := true, m_tStart := v.f.m_tStart),
                    g := u.g.(m_State := Running, canWait := v.g.canWait), a := v.a)
  {
    hide RunSteps, NoStranding;
    steps', v := steps, u;
    if u.g.m_State.Paused? {
      Continue(s, steps, u, Begin(Run(0, 0, false, false)));
      steps', v := steps + [Begin(Run(0, 0, false, false))], After(u, Begin(Run(0, 0, false, false)));
    }
  }

  lemma StartsWithout(s: State)
    ensures NoStranding(s, []) && RunSteps(s, []) == s
  {
  }

  /** A connection can lead to a lost completion exactly when it strands: the
      filter is active, its source thread may not wait, and neither a flush nor
      a run-time error keeps samples away. */
  lemma ConnectIsSafeExactly(s: State, now: int, timer: bool, advise: bool)
    requires Invariant(s) && Enabled(s, Begin(Connect(now, timer, advise)))
    ensures var s' := After(s, Begin(Connect(now, timer, advise)));
            !Strands(s, Begin(Connect(now, timer, advise)))
            <==> forall steps | NoStranding(s', steps) :: !Lost(RunSteps(s', steps))
  {
    var s' := After(s, Begin(Connect(now, timer, advise)));
    if Strands(s, Begin(Connect(now, timer, advise))) {
      NoEndUnconnected(s);
      var steps := StrandedLoses(s');
      assert NoStranding(s', steps) && Lost(RunSteps(s', steps));
    } else {
      StepKeepsInvariant(s, Begin(Connect(now, timer, advise)));
      forall steps | NoStranding(s', steps)
        ensures !Lost(RunSteps(s', steps))
      {
        RunKeepsInvariant(s', steps);
        NotLostYet(RunSteps(s', steps));
      }
    }
  }

  /** It can come to this: stopped, disconnected, run without a connection. */
  lemma StrandingIsReachable() returns (steps: seq<Step>)
    ensures Strands(RunSteps(Initial(true), steps), Begin(Connect(0, false, false)))
  {
    hide RunSteps;
    var s := Initial(true);
    steps := ConnectedAndRun(true);
    var t := RunSteps(s, steps);
    var rest := [Begin(Stop), Advance(false), Advance(false), Advance(false),
                 Begin(BreakConnect(false)), Advance(false), Advance(false), Advance(false), RunUnconnected];
    for i := 0 to |rest|
      invariant RunSteps(s, steps) == t
      invariant t == StoppedAndDisconnected(i)
    {
      Extend(s, steps, t, rest[i]);
      steps := steps + [rest[i]];
      t := After(t, rest[i]);
    }
  }

  function StoppedAndDisconnected(i: int): State {
    var quiet := Flags(false, false, false, false, false, false, 0, 0, 0);
    var stopped := Filter(Stopped, true, false, false, false, false, true);
    var f, g := quiet.(m_bStreaming := true), stopped.(m_State := Running, canWait := true);
    var still, none := Alarm(false, NoLink, 0), Threads(0, 0, 0);
    if i == 0 then State(f, g, Free, still, none)
    else if i == 1 then State(f, stopped.(canWait := true), StopInactive, still, none)
    else if i == 2 then State(quiet, stopped, StopQuiet, still, none)
    else if i == 3 then State(quiet, stopped, StopKilled, still, none)
    else if i == 4 then State(quiet, stopped, Free, still, none)
    else if i == 5 then State(quiet, stopped, BreakKilled, still, none)
    else if i == 6 then State(quiet, stopped, BreakReset, still, none)
    else if i == 7 then State(quiet, stopped, BreakCleared, still, none)
    else if i == 8 then State(quiet, stopped.(connected := false), Free, still, none)
    else State(quiet.(sent := 1), stopped.(connected := false, m_State := Running), Free, still, none)
  }

  // ----- The renderer -----

  /** Run an operation to its end with nothing in between. */
  ghost function Completed(s: State): (t: State)
    ensures t.phase.Free?
    ensures Invariant(s) ==> Invariant(t)
    decreases Rank(s.phase)
  {
    if s.phase.Free? then s
    else
      OperationsEnd(s, Advance(false), false);
      var next := Advanced(s, false);
      assert Invariant(s) ==> Invariant(next) by {
        if Invariant(s) {
          AdvancedKeepsInvariant(s, false);
        }
      }
      Completed(next)
  }

  /** Operations that nothing comes between keep the invariant. */
  lemma OperationKeepsInvariant(s: State, op: Operation)
    requires Invariant(s) && Enabled(s, Begin(op)) && !Strands(s, Begin(op))
    ensures Invariant(Completed(After(s, Begin(op))))
  {
    hide Invariant, Begun;
    BegunKeepsInvariant(s, op);
  }

  /** The sections of `Stop` taken together, and what they leave. */
  function StopFlags(f: Flags): (t: Flags)
    ensures !t.m_bStreaming && !t.m_bEOS && !t.m_bEOSDelivered && !t.m_EndOfStreamTimer && !t.m_pMediaSample
  {
    ResetFlags(KillTimer(StopStreaming(ClearSample(f)), false))
  }

  function StopFilter(g: Filter): Filter {
    g.(m_State := Stopped, m_bRunTimeError := false, canWait := false, m_bAbort := false)
  }

  lemma StopCompletes(s: State)
    requires Invariant(s) && s.phase.Free? && s.g.connected && !s.g.m_State.Stopped?
    ensures var t := Completed(After(s, Begin(Stop)));
            Invariant(t) && t == State(StopFlags(s.f), StopFilter(s.g), Free, CancelNotification(s.a), s.t)
  {
    OperationKeepsInvariant(s, Stop);
    hide Invariant;
    var s1 := Begun(s, Stop);
    var s2 := Advanced(s1, false);
    var s3 := Advanced(s2, false);
    assert Completed(s1) == Completed(s2) == Completed(s3) == Completed(Advanced(s3, false));
  }

  function PauseFlags(f: Flags, fromStopped: bool): (t: Flags)
    ensures !t.m_bStreaming && !t.m_bEOSDelivered && !t.m_EndOfStreamTimer && t.m_bEOS == f.m_bEOS
  {
    var t := KillTimer(StopStreaming(f), false);
    if fromStopped then ClearSample(t) else t
  }

  function PauseFilter(g: Filter): Filter {
    g.(m_State := Paused, canWait := true, m_bAbort := g.m_bAbort && !g.m_State.Stopped?)
  }

  lemma PauseCompletes(s: State)
    requires Invariant(s) && s.phase.Free? && s.g.connected && !s.g.m_State.Paused?
    ensures var t := Completed(After(s, Begin(Pause)));
            Invariant(t)
            && t == State(PauseFlags(s.f, s.g.m_State.Stopped?), PauseFilter(s.g), Free, CancelNotification(s.a), s.t)
  {
    OperationKeepsInvariant(s, Pause);
    hide Invariant;
    var s1 := Begun(s, Pause);
    var s2 := Advanced(s1, false);
    assert Completed(s1) == Completed(s2) == if s2.phase.Free? then s2 else Completed(Advanced(s2, false));
  }

  function RunFlags(f: Flags, fromStopped: bool, tStart: int, now: int, timer: bool): (t: Flags)
    ensures t.m_bStreaming && t.m_tStart == tStart && t.m_pClock == f.m_pClock
    ensures t.m_pMediaSample == (f.m_pMediaSample && !fromStopped)
    ensures (fromStopped || !f.m_bStreaming) && t.m_bEOS && !t.m_pMediaSample ==>
              t.m_bEOSDelivered || t.m_EndOfStreamTimer
  {
    var t := f.(m_tStart := tStart);
    StartStreaming(if fromStopped then ClearSample(PauseFlags(t, true)) else t, now, timer)
  }

  function RunAlarm(s: State, advise: bool): Alarm {
    if s.g.m_State.Stopped? then CancelNotification(s.a) else StartAlarm(s.a, s.f, advise)
  }

  function RunFilter(g: Filter): Filter {
    g.(m_State := Running, canWait := true, m_bAbort := g.m_bAbort && !g.m_State.Stopped?)
  }

  lemma RunFromStopped(s: State, tStart: int, now: int, timer: bool, advise: bool)
    requires s.phase.Free? && s.g.connected && s.g.m_State.Stopped?
    ensures Completed(After(s, Begin(Run(tStart, now, timer, advise))))
         == State(RunFlags(s.f, true, tStart, now, timer), RunFilter(s.g), Free, CancelNotification(s.a), s.t)
  {
    hide Invariant, StartStreaming, SendEndOfStream;
    var s1 := Begun(s, Run(tStart, now, timer, advise));
    var s2 := Advanced(s1, false);
    var s3 := Advanced(s2, false);
    assert Completed(s1) == Completed(s2) == Completed(s3) == Completed(Advanced(s3, false));
  }

  lemma RunCompletes(s: State, tStart: int, now: int, timer: bool, advise: bool)
    requires Invariant(s) && s.phase.Free? && s.g.connected && !s.g.m_State.Running?
    ensures var t := Completed(After(s, Begin(Run(tStart, now, timer, advise))));
            && Invariant(t)
            && t == State(RunFlags(s.f, s.g.m_State.Stopped?, tStart, now, timer), RunFilter(s.g),
                        Free, RunAlarm(s, advise), s.t)
  {
    hide Invariant, StartStreaming, SendEndOfStream, Advanced;
    OperationKeepsInvariant(s, Run(tStart, now, timer, advise));
    if s.g.m_State.Stopped? {
      RunFromStopped(s, tStart, now, timer, advise);
    }
  }

  function FlushFlags(f: Flags): (t: Flags)
    ensures !t.m_bEOS && !t.m_bEOSDelivered && !t.m_EndOfStreamTimer && !t.m_pMediaSample
  {
    ResetFlags(KillTimer(ClearSample(f), false))
  }

  lemma FlushCompletes(s: State)
    requires Invariant(s) && s.phase.Free?
    ensures var t := Completed(After(s, Begin(BeginFlush)));
            && Invariant(t)
            && t == State(FlushFlags(s.f), s.g.(m_bFlushing := true, canWait := false), Free,
                        CancelNotification(s.a), s.t)
  {
    OperationKeepsInvariant(s, BeginFlush);
    hide Invariant;
    var s1 := Begun(s, BeginFlush);
    var s2 := Advanced(s1, false);
    assert Completed(s1) == Completed(s2) == Completed(Advanced(s2, false));
  }

  function BreakFlags(f: Flags, running: bool): (t: Flags)
    ensures !t.m_bEOS && !t.m_pMediaSample && (t.m_bStreaming <==> f.m_bStreaming && !running)
  {
    var t := ClearSample(ResetFlags(KillTimer(f, false)));
    if running then StopStreaming(t) else t
  }

  lemma BreakCompletes(s: State)
    requires Invariant(s) && Enabled(s, Begin(BreakConnect(false)))
    ensures var t := Completed(After(s, Begin(BreakConnect(false))));
            && Invariant(t)
            && t == State(BreakFlags(s.f, s.g.m_State.Running?), s.g.(connected := false, m_bAbort := false),
                        Free, s.a, s.t)
  {
    OperationKeepsInvariant(s, BreakConnect(false));
    hide Invariant;
    var s1 := Begun(s, BreakConnect(false));
    var s2 := Advanced(s1, false);
    var s3 := Advanced(s2, false);
    assert Completed(s1) == Completed(s2) == Completed(s3) == Completed(Advanced(s3, false));
  }

  lemma StreamsOnlyRunning(s: State)
    requires Invariant(s) && s.phase.Free?
    ensures s.f.m_bStreaming ==> s.g.m_State.Running? && s.g.connected
    ensures s.f.m_pMediaSample ==> s.g.connected && !s.g.m_State.Stopped?
  {
  }

  /** The renderer and its input pin, the fields grouped by the lock that
      protects them. A method stands for one step, or for an operation that
      nothing comes between. */
  class BaseRenderer {
    var flags: Flags
    var filter: Filter
    var alarm: Alarm
    ghost var threads: Threads

    ghost function AsState(): State
      reads this
    {
      State(flags, filter, Free, alarm, threads)
    }

    constructor (reconnects: bool)
      ensures AsState() == Initial(reconnects) && Invariant(AsState())
    {
      flags := Flags(false, false, false, false, false, false, 0, 0, 0);
      filter := Filter(Stopped, false, false, false, false, true, reconnects);
      alarm := Alarm(false, NoLink, 0);
      threads := Threads(0, 0, 0);
    }

    method Notify()
      modifies this`flags
      ensures flags == NotifyEndOfStream(old(flags))
    {
      if !flags.m_bStreaming {
        return;
      }
      flags := flags.(m_EndOfStreamTimer := false);
      flags := flags.(m_bEOSDelivered := true);
      flags := flags.(sent := flags.sent + 1);
    }

    method Send(now: int, timer: bool)
      modifies this`flags
      ensures flags == SendEndOfStream(old(flags), now, timer)
    {
      if !flags.m_bEOS || flags.m_bEOSDelivered || flags.m_EndOfStreamTimer {
        return;
      }
      if !flags.m_pClock {
        Notify();
        return;
      }
      var delay := ToLong(TruncDiv(flags.m_tStart + flags.m_SignalTime - now, 10000));
      if delay < TIMEOUT_DELIVERYWAIT {
        Notify();
        return;
      }
      flags := flags.(m_EndOfStreamTimer := timer);
      if !flags.m_EndOfStreamTimer {
        Notify();
      }
    }

    method Fired()
      modifies this`alarm
      ensures alarm == SignalTimerFired(old(alarm))
    {
      if alarm.m_dwAdvise == Pending {
        alarm := alarm.(strays := alarm.strays + 1);
      }
      alarm := alarm.(m_dwAdvise := NoLink);
    }

    method Cancel()
      modifies this`alarm
      ensures alarm == CancelNotification(old(alarm))
    {
      if alarm.m_dwAdvise != NoLink {
        alarm := alarm.(m_dwAdvise := NoLink);
      }
      alarm := alarm.(m_RenderEvent := false);
    }

    method Schedule(advise: bool)
      modifies this`alarm
      ensures alarm == ScheduleSample(old(alarm), flags, advise)
    {
      if !flags.m_pClock || !advise {
        alarm := alarm.(m_RenderEvent := true);
        return;
      }
      Fired();
      alarm := alarm.(m_dwAdvise := Pending);
    }

    method Start(now: int, timer: bool, advise: bool)
      modifies this`flags, this`alarm
      ensures flags == StartStreaming(old(flags), now, timer) && alarm == StartAlarm(old(alarm), old(flags), advise)
    {
      if flags.m_bStreaming {
        return;
      }
      flags := flags.(m_bStreaming := true);
      if !flags.m_pMediaSample {
        Send(now, timer);
        return;
      }
      Schedule(advise);
    }

    method EndStreaming()
      modifies this`flags
      ensures flags == StopStreaming(old(flags))
    {
      flags := flags.(m_bEOSDelivered := false);
      if flags.m_bStreaming {
        flags := flags.(m_bStreaming := false);
      }
    }

    method KillEndOfStreamTimer()
      modifies this`flags
      ensures flags == KillTimer(old(flags), false)
    {
      if flags.m_EndOfStreamTimer {
        flags := flags.(m_EndOfStreamTimer := false);
      }
    }

    method ResetEndOfStream()
      modifies this`flags
      ensures flags == ResetFlags(KillTimer(old(flags), false))
    {
      KillEndOfStreamTimer();
      flags := flags.(m_bEOS := false);
      flags := flags.(m_bEOSDelivered := false);
      flags := flags.(m_SignalTime := 0);
    }

    method ClearPendingSample()
      modifies this`flags
      ensures flags == ClearSample(old(flags))
    {
      if flags.m_pMediaSample {
        flags := flags.(m_pMediaSample := false);
      }
    }

    method OnEndOfStream(now: int, timer: bool)
      requires Invariant(AsState()) && filter.connected
      modifies this
      ensures Invariant(AsState()) && AsState() == After(old(AsState()), EndOfStream(now, timer))
      ensures alarm == old(alarm) && filter == old(filter) && threads == old(threads)
      ensures filter.m_State == Stopped || filter.m_bFlushing || filter.m_bRunTimeError ==> flags == old(flags)
      ensures filter.m_State != Stopped && !filter.m_bFlushing && !filter.m_bRunTimeError ==>
                && flags.m_bEOS
                && (flags.m_pMediaSample || !flags.m_bStreaming ==> flags == old(flags).(m_bEOS := true))
                && (!flags.m_pMediaSample && flags.m_bStreaming ==> flags.m_bEOSDelivered || flags.m_EndOfStreamTimer)
    {
      hide Invariant, SendEndOfStream, StartStreaming, Begun, Advanced;
      StepKeepsInvariant(AsState(), EndOfStream(now, timer));
      if filter.m_State == Stopped || filter.m_bFlushing || filter.m_bRunTimeError {
        return;
      }
      flags := flags.(m_bEOS := true);
      if flags.m_pMediaSample {
        return;
      }
      if flags.m_bStreaming {
        Send(now, timer);
      }
    }

    method OnTimer(now: int, timer: bool)
      requires Invariant(AsState())
      modifies this
      ensures Invariant(AsState()) && AsState() == After(old(AsState()), Timer(now, timer))
      ensures alarm == old(alarm) && filter == old(filter) && threads == old(threads)
      ensures !old(flags).m_EndOfStreamTimer ==> flags == old(flags)
      ensures old(flags).m_EndOfStreamTimer && flags.m_bStreaming && flags.m_bEOS ==>
                flags.m_bEOSDelivered || flags.m_EndOfStreamTimer
    {
      hide Invariant, SendEndOfStream, StartStreaming, Begun, Advanced;
      StepKeepsInvariant(AsState(), Timer(now, timer));
      if flags.m_EndOfStreamTimer {
        flags := flags.(m_EndOfStreamTimer := false);
        Send(now, timer);
      }
    }

    method OnDisplayChange()
      requires Invariant(AsState())
      modifies this
      ensures Invariant(AsState()) && AsState() == After(old(AsState()), DisplayChange)
      ensures alarm == old(alarm) && threads == old(threads)
      ensures flags == old(flags).(m_pMediaSample := old(flags).m_pMediaSample && !filter.connected)
      ensures filter == old(filter).(m_bAbort := old(filter).m_bAbort || filter.connected)
    {
      hide Invariant, SendEndOfStream, StartStreaming, Begun, Advanced;
      StepKeepsInvariant(AsState(), DisplayChange);
      if !filter.connected {
        return;
      }
      filter := filter.(m_bAbort := true);
      ClearPendingSample();
    }

    /** A sample is scheduled if streaming, and held. */
    method TakeSample(arrival: Arrival, tStop: int)
      modifies this`flags, this`alarm, this`threads
      ensures flags == old(flags).(m_pMediaSample := true, m_SignalTime := tStop)
      ensures threads == old(threads).(waiting := old(threads).waiting + 1)
      ensures alarm == if flags.m_bStreaming && arrival.Taken? then
                         ScheduleSample(old(alarm), old(flags), arrival.advise)
                       else
                         old(alarm)
    {
      if flags.m_bStreaming && arrival.Taken? {
        Schedule(arrival.advise);
      }
      flags := flags.(m_SignalTime := tStop);
      flags := flags.(m_pMediaSample := true);
      threads := threads.(waiting := threads.waiting + 1);
    }

    /** The first part of `Receive`. Without success the pin has a failure to
        report. */
    method OnPrepareReceive(arrival: Arrival, tStop: int) returns (ok: bool)
      requires Invariant(AsState()) && filter.connected
      modifies this
      ensures Invariant(AsState()) && AsState() == After(old(AsState()), PrepareReceive(arrival, tStop))
      ensures threads.failed == old(threads.failed) + (if ok then 0 else 1)
      ensures !ok <==>
                || old(filter).m_State == Stopped || old(filter).m_bFlushing || old(filter).m_bRunTimeError
                || old(filter).m_bAbort || old(flags).m_pMediaSample || old(flags).m_bEOS
                || arrival in {Refused, BadType, TypeFails}
      ensures filter.m_bRunTimeError ==
                (old(filter).m_bRunTimeError
                 || (arrival == BadType && old(filter).m_State != Stopped && !old(filter).m_bFlushing))
      ensures filter == old(filter).(m_bRunTimeError := filter.m_bRunTimeError)
      ensures var taken := ok && !(flags.m_bStreaming && arrival == Rejected);
              && threads.waiting == old(threads).waiting + (if taken then 1 else 0)
              && flags == (if taken then old(flags).(m_pMediaSample := true, m_SignalTime := tStop) else old(flags))
              && (taken && flags.m_bStreaming && arrival.Taken? ==>
                    if flags.m_pClock && arrival.advise then alarm.m_dwAdvise == Pending else alarm.m_RenderEvent)
    {
      hide Invariant, SendEndOfStream, StartStreaming, Begun, Advanced, Reported, TimerCallback, Recorded;
      StepKeepsInvariant(AsState(), PrepareReceive(arrival, tStop));
      ok := false;
      if filter.m_State == Stopped || filter.m_bFlushing || filter.m_bRunTimeError || arrival.Refused? {
        threads := threads.(failed := threads.failed + 1);
        return;
      }
      if arrival.BadType? {
        filter := filter.(m_bRunTimeError := true);
        threads := threads.(failed := threads.failed + 1);
        return;
      }
      if arrival.TypeFails? || flags.m_pMediaSample || flags.m_bEOS || filter.m_bAbort {
        threads := threads.(failed := threads.failed + 1);
        return;
      }
      ok := true;
      if flags.m_bStreaming && arrival.Rejected? {
        return;
      }
      TakeSample(arrival, tStop);
    }

    /** The wait in `Receive` ends: for a change of state, which goes first, or
        because the sample is due. */
    method OnWaitForRenderTime() returns (ok: bool)
      requires Invariant(AsState()) && threads.waiting > 0 && (!filter.canWait || alarm.m_RenderEvent)
      modifies this
      ensures Invariant(AsState()) && ok == old(filter.canWait)
      ensures AsState() == After(old(AsState()), if ok then Wake else ReceiveQuits(false))
      ensures flags == old(flags) && filter == old(filter) && threads.waiting == old(threads).waiting - 1
      ensures !ok ==> alarm == old(alarm) && threads.woken == old(threads).woken
      ensures ok ==>
                && !alarm.m_RenderEvent && alarm.m_dwAdvise == NoLink && threads.woken == old(threads).woken + 1
                && alarm.strays == old(alarm).strays + (if old(alarm).m_dwAdvise == Pending then 1 else 0)
    {
      hide Invariant, SendEndOfStream, StartStreaming, Begun, Advanced;
      StepKeepsInvariant(AsState(), if filter.canWait then Wake else ReceiveQuits(false));
      threads := threads.(waiting := threads.waiting - 1);
      if !filter.canWait {
        return false;
      }
      alarm := alarm.(m_RenderEvent := false);
      Fired();
      threads := threads.(woken := threads.woken + 1);
      ok := true;
    }

    /** The end of `Receive`: the sample has been rendered. */
    method OnRenderDone(now: int, timer: bool)
      requires Invariant(AsState()) && threads.woken > 0 && filter.m_State != Stopped
      modifies this
      ensures Invariant(AsState()) && AsState() == After(old(AsState()), RenderDone(now, timer))
      ensures filter == old(filter) && !flags.m_pMediaSample
      ensures alarm == old(alarm).(m_RenderEvent := false, m_dwAdvise := NoLink)
      ensures threads == old(threads).(woken := old(threads).woken - 1)
      ensures flags.m_bStreaming && flags.m_bEOS ==> flags.m_bEOSDelivered || flags.m_EndOfStreamTimer
      ensures !flags.m_bEOS ==> flags == old(flags).(m_pMediaSample := false)
    {
      hide Invariant, SendEndOfStream, StartStreaming, Begun, Advanced;
      StepKeepsInvariant(AsState(), RenderDone(now, timer));
      ClearPendingSample();
      Send(now, timer);
      Cancel();
      threads := threads.(woken := threads.woken - 1);
    }

    /** What the pin does after a failed `Receive`. */
    method OnReceiveFailed()
      requires Invariant(AsState()) && threads.failed > 0
      modifies this
      ensures Invariant(AsState()) && AsState() == After(old(AsState()), ReceiveReports)
      ensures alarm == old(alarm) && threads == old(threads).(failed := old(threads).failed - 1)
      ensures var reports := old(filter).m_State != Stopped && !old(filter).m_bFlushing
                             && !old(filter).m_bAbort && !old(filter).m_bRunTimeError;
              && filter == old(filter).(m_bRunTimeError := old(filter).m_bRunTimeError || reports)
              && (flags.sent > old(flags).sent <==>
                    reports && old(flags).m_bStreaming && !old(flags).m_bEOSDelivered)
              && (flags.sent > old(flags).sent ==>
                    flags == old(flags).(m_EndOfStreamTimer := false, m_bEOSDelivered := true,
                                         sent := old(flags).sent + 1))
              && (flags.sent <= old(flags).sent ==> flags == old(flags))
    {
      hide Invariant, SendEndOfStream, StartStreaming, Begun, Advanced;
      StepKeepsInvariant(AsState(), ReceiveReports);
      threads := threads.(failed := threads.failed - 1);
      if filter.m_State != Stopped && !filter.m_bFlushing && !filter.m_bAbort && !filter.m_bRunTimeError {
        if flags.m_bStreaming && !flags.m_bEOSDelivered {
          Notify();
        }
        filter := filter.(m_bRunTimeError := true);
      }
    }

    /** `Stop`: nothing is left of the stream. */
    method OnStop()
      requires Invariant(AsState())
      modifies this
      ensures Invariant(AsState()) && filter.m_State == Stopped && !flags.m_bStreaming && !flags.m_pMediaSample
      ensures old(filter.m_State) != Stopped && filter.connected ==>
                && AsState() == Completed(After(old(AsState()), Begin(Stop)))
                && !flags.m_bEOS && !flags.m_bEOSDelivered && !flags.m_EndOfStreamTimer && !filter.canWait
      ensures old(filter.m_State) != Stopped && filter.connected ==>
                && !filter.m_bRunTimeError && !filter.m_bAbort && filter.m_bFlushing == old(filter).m_bFlushing
                && alarm == old(alarm).(m_RenderEvent := false, m_dwAdvise := NoLink)
                && flags.m_SignalTime == 0 && flags.sent == old(flags).sent && threads == old(threads)
      ensures !filter.connected ==> flags == old(flags) && alarm == old(alarm)
    {
      hide Invariant, Completed, Begun, Advanced, SendEndOfStream, StartStreaming;
      StreamsOnlyRunning(AsState());
      if filter.m_State == Stopped {
        return;
      }
      if !filter.connected {
        StepKeepsInvariant(AsState(), StopUnconnected);
        filter := filter.(m_State := Stopped);
        return;
      }
      StopCompletes(AsState());
      filter := filter.(m_bRunTimeError := false);
      ClearPendingSample();
      filter := filter.(m_State := Stopped);
      EndStreaming();
      filter := filter.(canWait := false);
      ResetEndOfStream();
      Cancel();
      filter := filter.(m_bAbort := false);
    }

    /** `Pause`: streaming stops, and so does the timer, but the end of the
        stream is remembered. `active` is the answer of the pin's `Active`. */
    method OnPause(active: bool) returns (ok: bool)
      requires Invariant(AsState())
      modifies this
      ensures Invariant(AsState()) && flags.m_bEOS == old(flags.m_bEOS)
      ensures !ok <==> old(filter.m_State) == Stopped && filter.connected && !active
      ensures !ok ==> AsState() == old(AsState())
      ensures ok ==> filter.m_State == Paused && !flags.m_bStreaming
      ensures ok && old(filter.m_State) != Paused && filter.connected ==>
                && AsState() == Completed(After(old(AsState()), Begin(Pause)))
                && !flags.m_bEOSDelivered && !flags.m_EndOfStreamTimer && filter.canWait
      ensures ok && old(filter.m_State) != Paused && filter.connected ==>
                && filter.m_bAbort == (old(filter).m_bAbort && old(filter.m_State) != Stopped)
                && flags.m_pMediaSample == (old(flags).m_pMediaSample && old(filter.m_State) != Stopped)
                && filter.m_bFlushing == old(filter).m_bFlushing
                && filter.m_bRunTimeError == old(filter).m_bRunTimeError
                && alarm == old(alarm).(m_RenderEvent := false, m_dwAdvise := NoLink)
                && flags.sent == old(flags).sent && threads == old(threads)
    {
      hide Invariant, Completed, Begun, Advanced, SendEndOfStream, StartStreaming;
      StreamsOnlyRunning(AsState());
      ok := true;
      if filter.m_State == Paused {
        return;
      }
      if !filter.connected {
        StepKeepsInvariant(AsState(), PauseUnconnected);
        filter := filter.(m_State := Paused);
        return;
      }
      if filter.m_State == Stopped && !active {
        return false;
      }
      PauseCompletes(AsState());
      PauseSections();
    }

    /** `Run` from a stopped filter goes through it as well. */
    method PauseSections()
      modifies this`flags, this`filter, this`alarm
      ensures flags == PauseFlags(old(flags), old(filter).m_State.Stopped?) && filter == PauseFilter(old(filter))
      ensures alarm == CancelNotification(old(alarm))
    {
      var oldState := filter.m_State;
      filter := filter.(m_State := Paused);
      EndStreaming();
      filter := filter.(canWait := true);
      Cancel();
      KillEndOfStreamTimer();
      if oldState == Stopped {
        filter := filter.(m_bAbort := false);
        ClearPendingSample();
      }
    }

    /** `Run` with a connection. */
    method RunConnected(tStart: int, now: int, timer: bool, advise: bool, active: bool, runs: bool) returns (ok: bool)
      requires Invariant(AsState()) && filter.connected && filter.m_State != Running
      modifies this`flags, this`filter, this`alarm
      ensures Invariant(AsState()) && filter.connected
      ensures ok <==> (old(filter).m_State == Stopped ==> active) && runs
      ensures !ok ==>
                var s := After(old(AsState()), RunFails(tStart));
                AsState() == if old(filter).m_State == Stopped && active then Completed(After(s, Begin(Pause))) else s
      ensures ok ==>
                && AsState() == Completed(After(old(AsState()), Begin(Run(tStart, now, timer, advise))))
                && flags == RunFlags(old(flags), old(filter).m_State.Stopped?, tStart, now, timer)
                && filter == RunFilter(old(filter)) && alarm == RunAlarm(old(AsState()), advise)
    {
      hide Invariant, Completed, Begun, Advanced, SendEndOfStream, StartStreaming, Arrived, Reported, TimerCallback;
      StreamsOnlyRunning(AsState());
      ok := true;
      StepKeepsInvariant(AsState(), RunFails(tStart));
      RunCompletes(AsState(), tStart, now, timer, advise);
      var oldState := filter.m_State;
      flags := flags.(m_tStart := tStart);
      if oldState == Stopped {
        if !active {
          return false;
        }
        PauseCompletes(AsState());
        PauseSections();
      }
      if !runs {
        return false;
      }
      filter := filter.(m_State := Running);
      filter := filter.(canWait := true);
      if oldState == Stopped {
        filter := filter.(m_bAbort := false);
        ClearPendingSample();
      }
      Start(now, timer, advise);
    }

    /** `Run`: without a connection EC_COMPLETE goes out at once; otherwise
        the renderer streams, and past the end without a sample it has completed
        or set a timer. `active` and `runs` are the answers of the pin's `Active`
        and `Run`; if the latter fails, a stopped filter is left paused. */
    method OnRun(tStart: int, now: int, timer: bool, advise: bool, active: bool, runs: bool) returns (ok: bool)
      requires Invariant(AsState())
      modifies this
      ensures Invariant(AsState())
      ensures ok <==> old(filter.m_State) == Running || !filter.connected
                      || ((old(filter.m_State) == Stopped ==> active) && runs)
      ensures !ok ==>
                var s := After(old(AsState()), RunFails(tStart));
                AsState() == if old(filter.m_State) == Stopped && active then Completed(After(s, Begin(Pause))) else s
      ensures ok ==> filter.m_State == Running
      ensures ok && old(filter.m_State) != Running && !filter.connected ==>
                AsState() == After(old(AsState()), RunUnconnected)
      ensures ok && old(filter.m_State) != Running && filter.connected ==>
                && AsState() == Completed(After(old(AsState()), Begin(Run(tStart, now, timer, advise))))
                && flags.m_bStreaming
                && (flags.m_bEOS && !flags.m_pMediaSample ==> flags.m_bEOSDelivered || flags.m_EndOfStreamTimer)
      ensures ok && old(filter.m_State) != Running && !filter.connected ==>
                flags == old(flags).(sent := old(flags).sent + 1) && alarm == old(alarm)
      ensures ok && old(filter.m_State) != Running && filter.connected ==>
                && filter.canWait && flags.m_tStart == tStart && threads == old(threads)
                && flags.m_pMediaSample == (old(flags).m_pMediaSample && old(filter.m_State) != Stopped)
                && filter.m_bAbort == (old(filter).m_bAbort && old(filter.m_State) != Stopped)
                && (flags.m_pMediaSample ==>
                      if flags.m_pClock && advise then alarm.m_dwAdvise == Pending else alarm.m_RenderEvent)
    {
      hide Invariant, Completed, Begun, Advanced, Arrived, Reported, TimerCallback, RunFlags;
      StreamsOnlyRunning(AsState());
      ok := true;
      if filter.m_State == Running {
        return;
      }
      if !filter.connected {
        StepKeepsInvariant(AsState(), RunUnconnected);
        flags := flags.(sent := flags.sent + 1);
        filter := filter.(m_State := Running);
        return;
      }
      ok := RunConnected(tStart, now, timer, advise, active, runs);
    }

    /** `BeginFlush`: no sample, no end of stream, and nothing that waits. */
    method OnBeginFlush()
      requires Invariant(AsState())
      modifies this
      ensures Invariant(AsState()) && AsState() == Completed(After(old(AsState()), Begin(BeginFlush)))
      ensures filter.m_bFlushing && !filter.canWait
      ensures !flags.m_pMediaSample && !flags.m_bEOS && !flags.m_bEOSDelivered && !flags.m_EndOfStreamTimer
      ensures filter == old(filter).(m_bFlushing := true, canWait := false)
      ensures flags.m_bStreaming == old(flags).m_bStreaming && flags.sent == old(flags).sent && flags.m_SignalTime == 0
      ensures alarm == old(alarm).(m_RenderEvent := false, m_dwAdvise := NoLink) && threads == old(threads)
    {
      hide Invariant, Completed, After, Begun, Advanced, SendEndOfStream, StartStreaming;
      FlushCompletes(AsState());
      filter := filter.(m_bFlushing := true);
      filter := filter.(canWait := false);
      Cancel();
      ClearPendingSample();
      ResetEndOfStream();
    }

    method OnEndFlush()
      requires Invariant(AsState())
      modifies this
      ensures Invariant(AsState()) && AsState() == After(old(AsState()), EndFlush)
      ensures filter == old(filter).(m_bFlushing := false, m_bRunTimeError := false, canWait := true)
      ensures flags == old(flags) && alarm == old(alarm) && threads == old(threads)
    {
      hide Invariant, SendEndOfStream, StartStreaming, Begun, Advanced;
      StepKeepsInvariant(AsState(), EndFlush);
      filter := filter.(canWait := true);
      filter := filter.(m_bFlushing := false);
      filter := filter.(m_bRunTimeError := false);
    }

    /** `CompleteConnect` on the side of the renderer. */
    method OnCompleteConnect(now: int, timer: bool, advise: bool)
      requires Invariant(AsState()) && !filter.connected && (filter.m_State == Stopped || filter.reconnects)
      modifies this
      ensures AsState() == After(old(AsState()), Begin(Connect(now, timer, advise)))
      ensures !Strands(old(AsState()), Begin(Connect(now, timer, advise))) ==> Invariant(AsState())
      ensures filter == old(filter).(connected := true, m_bAbort := false) && threads == old(threads)
      ensures filter.m_State == Running ==> flags.m_bStreaming
      ensures filter.m_State != Running ==> flags == old(flags) && alarm == old(alarm)
    {
      hide Invariant, StartStreaming, SendEndOfStream, Advanced;
      if !Strands(AsState(), Begin(Connect(now, timer, advise))) {
        BegunKeepsInvariant(AsState(), Connect(now, timer, advise));
      }
      filter := filter.(connected := true);
      filter := filter.(m_bAbort := false);
      if filter.m_State == Running {
        Start(now, timer, advise);
      }
    }

    /** `BreakConnect`: refused for an active filter that does not reconnect;
        otherwise nothing is left of the stream. */
    method OnBreakConnect() returns (ok: bool)
      requires Invariant(AsState()) && filter.connected
      modifies this
      ensures Invariant(AsState())
      ensures ok == (old(filter).m_State == Stopped || old(filter).reconnects)
      ensures AsState() == if ok then Completed(After(old(AsState()), Begin(BreakConnect(false)))) else old(AsState())
      ensures ok ==> !filter.connected && !flags.m_bStreaming && !flags.m_bEOS && !flags.m_pMediaSample
      ensures ok ==>
                && filter == old(filter).(connected := false, m_bAbort := false)
                && !flags.m_bEOSDelivered && !flags.m_EndOfStreamTimer && flags.m_SignalTime == 0
                && flags.sent == old(flags).sent && alarm == old(alarm) && threads == old(threads)
    {
      hide Invariant, Completed, Begun, Advanced, SendEndOfStream, StartStreaming;
      if filter.m_State != Stopped && !filter.reconnects {
        return false;
      }
      BreakCompletes(AsState());
      StreamsOnlyRunning(AsState());
      ResetEndOfStream();
      ClearPendingSample();
      filter := filter.(m_bAbort := false);
      if filter.m_State == Running {
        EndStreaming();
      }
      filter := filter.(connected := false);
      ok := true;
    }
  }
}
