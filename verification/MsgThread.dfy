/** `CMsgThread`: an unbounded queue of messages to worker threads, with lazy
    wake-ups. `MsgThread` is the class; the second half of the module lets any
    number of threads post to it and take from it. */
module MsgThreads {
  import opened Common
  import opened LazySemaphore
  import opened ThreadCount

  datatype Msg = Msg(uMsg: nat, dwFlags: nat, lpParam: int, pEvent: int)

  /** The fields of a message thread as a value. */
  datatype Inbox = Inbox(queue: seq<Msg>, sem: Sem)

  /** `PutThreadMsg`, all of it inside the lock. */
  function Put(b: Inbox, msg: Msg): Inbox {
    Inbox(b.queue + [msg], if b.sem.lWaiting != 0 then b.sem.Notify() else b.sem)
  }

  /** The locked part of one round of `GetThreadMsg`: take the head, or enrol
      for a wake-up. */
  function TakeOrEnrol(b: Inbox): Inbox {
    if b.queue != [] then b.(queue := b.queue[1..]) else b.(sem := b.sem.SetWaiting())
  }

  class MsgThread {
    var threadQueue: seq<Msg>
    var lWaiting: nat
    var hSem: nat

    ghost function Model(): Inbox
      reads this
    {
      Inbox(threadQueue, Sem(lWaiting, hSem))
    }

    constructor ()
      ensures Model() == Inbox([], Sem(0, 0))
    {
      threadQueue, lWaiting, hSem := [], 0, 0;
    }

    method PutThreadMsg(uMsg: nat, dwMsgFlags: nat, lpMsgParam: int, pEvent: int)
      modifies this
      ensures Model() == Put(old(Model()), Msg(uMsg, dwMsgFlags, lpMsgParam, pEvent))
    {
      var msg := Msg(uMsg, dwMsgFlags, lpMsgParam, pEvent);
      threadQueue := threadQueue + [msg];
      if lWaiting != 0 {
        if hSem + lWaiting <= SEM_MAX {
          hSem := hSem + lWaiting;
        }
        lWaiting := 0;
      }
    }

    /** One round of the loop in `GetThreadMsg`, up to the wait. */
    method TryGetThreadMsg() returns (pmsg: Option<Msg>)
      modifies this
      ensures Model() == TakeOrEnrol(old(Model()))
      ensures pmsg == if old(threadQueue) != [] then Some(old(threadQueue)[0]) else None
    {
      if threadQueue != [] {
        pmsg := Some(threadQueue[0]);
        threadQueue := threadQueue[1..];
      } else {
        pmsg := None;
        lWaiting := lWaiting + 1;
      }
    }
  }

  // ----- Any number of threads -----

  /** `Waiting` covers a thread waiting or about to wait; `Woken` one that has
      returned from the wait and is about to look again. */
  datatype Phase = Idle | Waiting | Woken

  datatype Event =
    | Post(t: Tid, msg: Msg)
    | Take(t: Tid, msg: Msg)
    | Enrol(t: Tid)
    | Wake(t: Tid)

  datatype System = System(inbox: Inbox, threads: map<Tid, Phase>)

  ghost predicate Init(s: System) {
    && s.inbox == Inbox([], Sem(0, 0))
    && |s.threads.Keys| <= SEM_MAX
    && forall t | t in s.threads :: s.threads[t].Idle?
  }

  ghost predicate Next(s: System, e: Event, s': System) {
    && e.t in s.threads
    && match e
       case Post(t, msg) =>
         && s.threads[t].Idle?
         && s' == System(Put(s.inbox, msg), s.threads)
       case Take(t, msg) =>
         && !s.threads[t].Waiting? && s.inbox.queue != [] && msg == s.inbox.queue[0]
         && s' == System(TakeOrEnrol(s.inbox), s.threads[t := Idle])
       case Enrol(t) =>
         && !s.threads[t].Waiting? && s.inbox.queue == []
         && s' == System(TakeOrEnrol(s.inbox), s.threads[t := Waiting])
       case Wake(t) =>
         && s.threads[t].Waiting? && s.inbox.sem.count > 0
         && s' == System(s.inbox.(sem := s.inbox.sem.Wait()), s.threads[t := Woken])
  }

  ghost predicate IsRun(states: seq<System>, events: seq<Event>) {
    && |states| == |events| + 1
    && Init(states[0])
    && forall i | 0 <= i < |events| :: Next(states[i], events[i], states[i + 1])
  }

  ghost function Posted(events: seq<Event>): seq<Msg> {
    if events == [] then []
    else
      var e := events[|events| - 1];
      Posted(events[..|events| - 1]) + PostedBy(e)
  }

  ghost function Taken(events: seq<Event>): seq<Msg> {
    if events == [] then []
    else
      var e := events[|events| - 1];
      Taken(events[..|events| - 1]) + TakenBy(e)
  }

  ghost predicate IsWaiting(p: Phase) {
    p.Waiting?
  }

  ghost function WaitingCount(s: System): nat {
    Count(s.threads, IsWaiting)
  }

  ghost predicate Invariant(s: System, posted: seq<Msg>, taken: seq<Msg>) {
    && |s.threads.Keys| <= SEM_MAX
    && s.inbox.sem.Promised() == WaitingCount(s)
    && (s.inbox.queue != [] ==> s.inbox.sem.lWaiting == 0)
    && posted == taken + s.inbox.queue
  }

  /** What an event adds to the messages posted and to those taken. */
  ghost function PostedBy(e: Event): seq<Msg> {
    if e.Post? then [e.msg] else []
  }

  ghost function TakenBy(e: Event): seq<Msg> {
    if e.Take? then [e.msg] else []
  }

  lemma StepKeepsOrder(s: System, e: Event, s': System, posted: seq<Msg>, taken: seq<Msg>)
    requires Next(s, e, s') && posted == taken + s.inbox.queue
    ensures posted + PostedBy(e) == (taken + TakenBy(e)) + s'.inbox.queue
  {
    var queue := s.inbox.queue;
    match e
    case Post(_, msg) => assert (taken + queue) + [msg] == taken + (queue + [msg]);
    case Take(_, msg) => assert taken + queue == (taken + [msg]) + queue[1..];
    case Enrol(_) =>
    case Wake(_) =>
  }

  lemma StepCountsThreads(s: System, e: Event, s': System)
    requires Next(s, e, s')
    ensures s'.threads.Keys == s.threads.Keys && WaitingCount(s) <= |s.threads.Keys|
    ensures WaitingCount(s') == WaitingCount(s) + One(e.Enrol?) - One(e.Wake?)
  {
    hide Count;
    CountAtMost(s.threads, IsWaiting);
    if !e.Post? {
      CountUpdate(s.threads, e.t, s'.threads[e.t], IsWaiting);
      assert s'.threads == s.threads[e.t := s'.threads[e.t]];
    }
  }

  lemma StepKeepsPromise(s: System, e: Event, s': System)
    requires Next(s, e, s') && WaitingCount(s) <= SEM_MAX
    requires s.inbox.sem.Promised() == WaitingCount(s) && (s.inbox.queue != [] ==> s.inbox.sem.lWaiting == 0)
    ensures s'.inbox.sem.Promised() == WaitingCount(s) + One(e.Enrol?) - One(e.Wake?)
    ensures s'.inbox.queue != [] ==> s'.inbox.sem.lWaiting == 0
  {
    hide Count;
  }

  lemma StepPreserves(s: System, e: Event, s': System, posted: seq<Msg>, taken: seq<Msg>)
    requires Invariant(s, posted, taken) && Next(s, e, s')
    ensures Invariant(s', posted + PostedBy(e), taken + TakenBy(e))
  {
    hide Count, Next;
    StepKeepsOrder(s, e, s', posted, taken);
    StepCountsThreads(s, e, s');
    StepKeepsPromise(s, e, s');
  }

  lemma {:induction false} RunKeepsInvariant(states: seq<System>, events: seq<Event>, i: nat)
    requires IsRun(states, events) && i <= |events|
    ensures Invariant(states[i], Posted(events[..i]), Taken(events[..i]))
  {
    if i == 0 {
      CountZero(states[0].threads, IsWaiting);
    } else {
      RunKeepsInvariant(states, events, i - 1);
      assert events[..i][..i - 1] == events[..i - 1];
      StepPreserves(states[i - 1], events[i - 1], states[i], Posted(events[..i - 1]), Taken(events[..i - 1]));
    }
  }

  /** Messages are taken in the order posted, each exactly once; what has not
      been taken is the queue. */
  lemma EachMessageOnceInOrder(states: seq<System>, events: seq<Event>)
    requires IsRun(states, events)
    ensures Posted(events) == Taken(events) + states[|events|].inbox.queue
  {
    RunKeepsInvariant(states, events, |events|);
    assert events[..|events|] == events;
  }

  /** The bookkeeping of the lazy wake-ups: waiters and promised wake-ups are
      equal in number, and with a message queued every waiter's wake-up has
      already been released. */
  lemma NoLostWakeup(states: seq<System>, events: seq<Event>, i: nat)
    requires IsRun(states, events) && i <= |events|
    ensures var s := states[i];
            && s.inbox.sem.Promised() == WaitingCount(s)
            && (s.inbox.queue != [] ==> s.inbox.sem.lWaiting == 0 && s.inbox.sem.count == WaitingCount(s))
  {
    RunKeepsInvariant(states, events, i);
  }

  /** Hence a parked consumer with a message to take is always able to wake. */
  lemma ParkedConsumerCanWake(states: seq<System>, events: seq<Event>, i: nat, t: Tid)
    requires IsRun(states, events) && i <= |events|
    requires t in states[i].threads && states[i].threads[t].Waiting?
    requires states[i].inbox.queue != []
    ensures exists s' :: Next(states[i], Wake(t), s')
  {
    RunKeepsInvariant(states, events, i);
    var s := states[i];
    CountPositive(s.threads, t, IsWaiting);
    assert Next(s, Wake(t), System(s.inbox.(sem := s.inbox.sem.Wait()), s.threads[t := Woken]));
  }
}
