/** `CQueue`: a bounded ring of objects between threads, kept by two counting
    semaphores and a critical section.

    `Queue` is the class itself. The second half of the module lets any number
    of threads call it, interleaved at every semaphore and lock operation. */
module BoundedQueue {
  import opened Common
  import opened ThreadCount

  /** The fields of a queue as a value. */
  datatype Shared<T> = Shared(nMax: nat, iNextPut: nat, iNextGet: nat, semPut: nat, semGet: nat, slots: seq<T>)

  ghost predicate WellFormed<T>(q: Shared<T>) {
    q.nMax > 0 && |q.slots| == q.nMax
  }

  /** `ReleaseSemaphore(h, 1)` on a semaphore of maximum count `max`. */
  function Release(count: nat, max: nat): nat {
    if count < max then count + 1 else count
  }

  function Store<T>(q: Shared<T>, item: T): Shared<T>
    requires q.nMax > 0 && |q.slots| == q.nMax
  {
    q.(slots := q.slots[q.iNextPut % q.nMax := item], iNextPut := q.iNextPut + 1)
  }

  function Fetched<T>(q: Shared<T>): T
    requires q.nMax > 0 && |q.slots| == q.nMax
  {
    q.slots[q.iNextGet % q.nMax]
  }

  class Queue<T(0)> {
    var semPut: nat
    var semGet: nat
    var nMax: nat
    var iNextPut: nat
    var iNextGet: nat
    var QueueObjects: array<T>

    ghost predicate Valid()
      reads this
    {
      nMax > 0 && QueueObjects.Length == nMax
    }

    ghost function Model(): (q: Shared<T>)
      reads this, QueueObjects
    {
      Shared(nMax, iNextPut, iNextGet, semPut, semGet, QueueObjects[..])
    }

    constructor (n: nat)
      requires n > 0
      ensures Valid() && fresh(QueueObjects)
      ensures nMax == n && iNextPut == iNextGet == 0 && semPut == n && semGet == 0
    {
      iNextPut, iNextGet := 0, 0;
      nMax := n;
      semPut, semGet := n, 0;
      QueueObjects := new T[n];
    }

    /** The return of a wait on `hSemPut`. */
    method WaitPut()
      requires Valid() && semPut > 0
      modifies this`semPut
      ensures Model() == old(Model()).(semPut := old(semPut) - 1)
    {
      semPut := semPut - 1;
    }

    /** The critical section of `PutQueueObject`. */
    method StoreObject(item: T)
      requires Valid()
      modifies this`iNextPut, QueueObjects
      ensures Valid() && Model() == Store(old(Model()), item)
    {
      var iSlot := iNextPut % nMax;
      iNextPut := iNextPut + 1;
      QueueObjects[iSlot] := item;
    }

    method SignalGet()
      requires Valid()
      modifies this`semGet
      ensures Model() == old(Model()).(semGet := Release(old(semGet), nMax))
    {
      if semGet < nMax {
        semGet := semGet + 1;
      }
    }

    method WaitGet()
      requires Valid() && semGet > 0
      modifies this`semGet
      ensures Model() == old(Model()).(semGet := old(semGet) - 1)
    {
      semGet := semGet - 1;
    }

    /** The critical section of `GetQueueObject`. */
    method FetchObject() returns (item: T)
      requires Valid()
      modifies this`iNextGet
      ensures Model() == old(Model()).(iNextGet := old(iNextGet) + 1)
      ensures item == Fetched(old(Model()))
    {
      var iSlot := iNextGet % nMax;
      iNextGet := iNextGet + 1;
      item := QueueObjects[iSlot];
    }

    method SignalPut()
      requires Valid()
      modifies this`semPut
      ensures Model() == old(Model()).(semPut := Release(old(semPut), nMax))
    {
      if semPut < nMax {
        semPut := semPut + 1;
      }
    }

    /** What the queue holds, oldest first. */
    ghost function Contents(): seq<T>
      reads this, QueueObjects
      requires Valid() && iNextGet <= iNextPut
    {
      Live(Model())
    }

    /** No call is under way. */
    ghost predicate Quiet()
      reads this
    {
      && Valid() && iNextGet <= iNextPut <= iNextGet + nMax
      && semGet == iNextPut - iNextGet && semPut == nMax - semGet
    }

    method PutQueueObject(item: T)
      requires Quiet() && semPut > 0
      modifies this`semPut, this`semGet, this`iNextPut, QueueObjects
      ensures Quiet() && nMax == old(nMax)
      ensures Contents() == old(Contents()) + [item]
    {
      WaitPut();
      ghost var before := Model();
      StoreObject(item);
      StoreAppends(before, item);
      SignalGet();
    }

    method GetQueueObject() returns (item: T)
      requires Quiet() && semGet > 0
      modifies this`semPut, this`semGet, this`iNextGet
      ensures Quiet() && nMax == old(nMax)
      ensures [item] + Contents() == old(Contents())
    {
      WaitGet();
      item := FetchObject();
      SignalPut();
      FetchTakesOldest(old(Model()));
      assert Live(Model()) == Live(old(Model()).(iNextGet := old(iNextGet) + 1));
    }
  }

  /** The objects between the two indices, oldest first. */
  ghost function Live<T>(q: Shared<T>): (s: seq<T>)
    requires WellFormed(q) && q.iNextGet <= q.iNextPut
    ensures |s| == q.iNextPut - q.iNextGet
  {
    seq(q.iNextPut - q.iNextGet, k requires 0 <= k => q.slots[(q.iNextGet + k) % q.nMax])
  }

  lemma ModInjective(a: nat, b: nat, n: nat)
    requires a < b < a + n
    ensures a % n != b % n
  {
    var d := b / n - a / n;
    assert b - a == d * n + (b % n - a % n);
    if d >= 1 {
      assert d * n >= n;
    } else {
      assert d * n <= 0;
    }
  }

  /** While there is room, storing destroys nothing that is still to be read. */
  lemma StoreAppends<T>(q: Shared<T>, item: T)
    requires WellFormed(q) && q.iNextGet <= q.iNextPut < q.iNextGet + q.nMax
    ensures Live(Store(q, item)) == Live(q) + [item]
  {
    var after := Store(q, item);
    forall k: nat | k < q.iNextPut - q.iNextGet
      ensures Live(after)[k] == Live(q)[k]
    {
      ModInjective(q.iNextGet + k, q.iNextPut, q.nMax);
    }
  }

  lemma FetchTakesOldest<T>(q: Shared<T>)
    requires WellFormed(q) && q.iNextGet < q.iNextPut
    ensures Live(q) == [Fetched(q)] + Live(q.(iNextGet := q.iNextGet + 1))
  {
    var rest := Live(q.(iNextGet := q.iNextGet + 1));
    forall k: nat | k < |rest|
      ensures rest[k] == Live(q)[k + 1]
    {
      assert q.iNextGet + 1 + k == q.iNextGet + (k + 1);
    }
  }

  // ----- Any number of producers and consumers -----

  /** Where a thread is inside the two calls. `Reserved` and `Claimed` follow
      the wait, `Stored` and `Took` follow the critical section. */
  datatype Phase<T> = Idle | Reserved(item: T) | Stored | Claimed | Took(item: T)

  datatype Event<T> =
    | PutWait(t: Tid, item: T)
    | PutStore(t: Tid, item: T)
    | PutSignal(t: Tid)
    | GetWait(t: Tid)
    | GetFetch(t: Tid, item: T)
    | GetSignal(t: Tid)

  datatype System<T> = System(q: Shared<T>, threads: map<Tid, Phase<T>>)

  ghost predicate Init<T>(s: System<T>) {
    && WellFormed(s.q)
    && s.q.iNextPut == s.q.iNextGet == 0
    && s.q.semPut == s.q.nMax && s.q.semGet == 0
    && forall t | t in s.threads :: s.threads[t].Idle?
  }

  ghost predicate Next<T>(s: System<T>, e: Event<T>, s': System<T>) {
    && WellFormed(s.q)
    && e.t in s.threads
    && var phase := s.threads[e.t];
       match e
       case PutWait(t, item) =>
         && phase.Idle? && s.q.semPut > 0
         && s' == System(s.q.(semPut := s.q.semPut - 1), s.threads[t := Reserved(item)])
       case PutStore(t, item) =>
         && phase == Reserved(item)
         && s' == System(Store(s.q, item), s.threads[t := Stored])
       case PutSignal(t) =>
         && phase.Stored?
         && s' == System(s.q.(semGet := Release(s.q.semGet, s.q.nMax)), s.threads[t := Idle])
       case GetWait(t) =>
         && phase.Idle? && s.q.semGet > 0
         && s' == System(s.q.(semGet := s.q.semGet - 1), s.threads[t := Claimed])
       case GetFetch(t, item) =>
         && phase.Claimed? && item == Fetched(s.q)
         && s' == System(s.q.(iNextGet := s.q.iNextGet + 1), s.threads[t := Took(item)])
       case GetSignal(t) =>
         && phase.Took?
         && s' == System(s.q.(semPut := Release(s.q.semPut, s.q.nMax)), s.threads[t := Idle])
  }

  /** A run from an empty queue. */
  ghost predicate IsRun<T>(states: seq<System<T>>, events: seq<Event<T>>) {
    && |states| == |events| + 1
    && Init(states[0])
    && forall i | 0 <= i < |events| :: Next(states[i], events[i], states[i + 1])
  }

  /** The objects written, and the objects read, in the order of the critical
      sections. */
  ghost function Written<T>(events: seq<Event<T>>): seq<T> {
    if events == [] then []
    else
      var e := events[|events| - 1];
      Written(events[..|events| - 1]) + WrittenBy(e)
  }

  ghost function Read<T>(events: seq<Event<T>>): seq<T> {
    if events == [] then []
    else
      var e := events[|events| - 1];
      Read(events[..|events| - 1]) + ReadBy(e)
  }

  ghost function Puts<T>(s: System<T>): nat {
    Count(s.threads, (p: Phase<T>) => p.Reserved?)
  }

  ghost function Unannounced<T>(s: System<T>): nat {
    Count(s.threads, (p: Phase<T>) => p.Stored?)
  }

  ghost function Gets<T>(s: System<T>): nat {
    Count(s.threads, (p: Phase<T>) => p.Claimed?)
  }

  ghost function Unreturned<T>(s: System<T>): nat {
    Count(s.threads, (p: Phase<T>) => p.Took?)
  }

  /** Every slot is accounted for once: by a semaphore, by a thread between
      its wait and its signal, or by a stored item. */
  ghost predicate Invariant<T>(s: System<T>, written: seq<T>, read: seq<T>) {
    && WellFormed(s.q)
    && s.q.iNextPut == |written| && s.q.iNextGet == |read|
    && s.q.iNextPut - s.q.iNextGet == s.q.semGet + Gets(s) + Unannounced(s)
    && s.q.nMax - (s.q.iNextPut - s.q.iNextGet) == s.q.semPut + Puts(s) + Unreturned(s)
    && written == read + Live(s.q)
  }

  lemma PhaseCounts<T>(s: System<T>, s': System<T>, t: Tid, phase: Phase<T>)
    requires t in s.threads && s'.threads == s.threads[t := phase]
    ensures Puts(s') == Puts(s) - One(s.threads[t].Reserved?) + One(phase.Reserved?)
    ensures Unannounced(s') == Unannounced(s) - One(s.threads[t].Stored?) + One(phase.Stored?)
    ensures Gets(s') == Gets(s) - One(s.threads[t].Claimed?) + One(phase.Claimed?)
    ensures Unreturned(s') == Unreturned(s) - One(s.threads[t].Took?) + One(phase.Took?)
  {
    CountUpdate(s.threads, t, phase, (p: Phase<T>) => p.Reserved?);
    CountUpdate(s.threads, t, phase, (p: Phase<T>) => p.Stored?);
    CountUpdate(s.threads, t, phase, (p: Phase<T>) => p.Claimed?);
    CountUpdate(s.threads, t, phase, (p: Phase<T>) => p.Took?);
  }

  lemma InitEstablishes<T>(s: System<T>)
    requires Init(s)
    ensures Invariant(s, [], [])
  {
    CountZero(s.threads, (p: Phase<T>) => p.Reserved?);
    CountZero(s.threads, (p: Phase<T>) => p.Stored?);
    CountZero(s.threads, (p: Phase<T>) => p.Claimed?);
    CountZero(s.threads, (p: Phase<T>) => p.Took?);
  }

  /** What an event adds to the objects written and to those read. */
  ghost function WrittenBy<T>(e: Event<T>): seq<T> {
    if e.PutStore? then [e.item] else []
  }

  ghost function ReadBy<T>(e: Event<T>): seq<T> {
    if e.GetFetch? then [e.item] else []
  }

  /** A thread's move from one phase to the next, in the four counts. */
  lemma StepCountsThreads<T>(s: System<T>, e: Event<T>, s': System<T>)
    requires Next(s, e, s')
    ensures Puts(s') == Puts(s) + One(e.PutWait?) - One(e.PutStore?)
    ensures Unannounced(s') == Unannounced(s) + One(e.PutStore?) - One(e.PutSignal?)
    ensures Gets(s') == Gets(s) + One(e.GetWait?) - One(e.GetFetch?)
    ensures Unreturned(s') == Unreturned(s) + One(e.GetFetch?) - One(e.GetSignal?)
  {
    hide Puts, Unannounced, Gets, Unreturned, Store, Release, Fetched;
    PhaseCounts(s, s', e.t, s'.threads[e.t]);
  }

  lemma StepKeepsOrder<T>(s: System<T>, e: Event<T>, s': System<T>, written: seq<T>, read: seq<T>)
    requires Next(s, e, s') && s.q.iNextGet <= s.q.iNextPut && written == read + Live(s.q)
    requires e.PutStore? ==> s.q.iNextPut < s.q.iNextGet + s.q.nMax
    requires e.GetFetch? ==> s.q.iNextGet < s.q.iNextPut
    ensures WellFormed(s'.q) && s'.q.nMax == s.q.nMax
    ensures s'.q.iNextPut == s.q.iNextPut + One(e.PutStore?) && s'.q.iNextGet == s.q.iNextGet + One(e.GetFetch?)
    ensures written + WrittenBy(e) == (read + ReadBy(e)) + Live(s'.q)
  {
    hide Release;
    match e {
      case PutStore(t, item) => StoreAppends(s.q, item);
      case GetFetch(t, item) => FetchTakesOldest(s.q);
      case _ => assert Live(s'.q) == Live(s.q);
    }
  }

  lemma StepMovesSemaphores<T>(s: System<T>, e: Event<T>, s': System<T>)
    requires Next(s, e, s')
    requires e.PutSignal? ==> s.q.semGet < s.q.nMax
    requires e.GetSignal? ==> s.q.semPut < s.q.nMax
    ensures s'.q.semPut == s.q.semPut - One(e.PutWait?) + One(e.GetSignal?)
    ensures s'.q.semGet == s.q.semGet - One(e.GetWait?) + One(e.PutSignal?)
  {
  }

  /** The thread that takes a step is counted. */
  lemma StepIsCounted<T>(s: System<T>, e: Event<T>, s': System<T>)
    requires Next(s, e, s')
    ensures e.PutStore? ==> Puts(s) > 0
    ensures e.PutSignal? ==> Unannounced(s) > 0
    ensures e.GetFetch? ==> Gets(s) > 0
    ensures e.GetSignal? ==> Unreturned(s) > 0
  {
    hide Puts, Unannounced, Gets, Unreturned;
    StepCountsThreads(s, e, s');
  }

  /** One step. In passing: a put step always has a free slot before it, a get
      step always a stored item, and no release of a semaphore is refused. */
  lemma StepPreserves<T>(s: System<T>, e: Event<T>, s': System<T>, written: seq<T>, read: seq<T>)
    requires Invariant(s, written, read) && Next(s, e, s')
    ensures Invariant(s', written + WrittenBy(e), read + ReadBy(e))
    ensures e.PutStore? ==> s.q.iNextPut - s.q.iNextGet < s.q.nMax
    ensures e.GetFetch? ==> s.q.iNextGet < s.q.iNextPut
    ensures e.PutSignal? ==> s'.q.semGet == s.q.semGet + 1
    ensures e.GetSignal? ==> s'.q.semPut == s.q.semPut + 1
  {
    hide Puts, Gets, Unannounced, Unreturned, Next, Live;
    StepIsCounted(s, e, s');
    StepCountsThreads(s, e, s');
    StepMovesSemaphores(s, e, s');
    StepKeepsOrder(s, e, s', written, read);
  }

  lemma {:induction false} RunKeepsInvariant<T>(states: seq<System<T>>, events: seq<Event<T>>, i: nat)
    requires IsRun(states, events) && i <= |events|
    ensures Invariant(states[i], Written(events[..i]), Read(events[..i]))
  {
    if i == 0 {
      InitEstablishes(states[0]);
    } else {
      RunKeepsInvariant(states, events, i - 1);
      assert events[..i][..i - 1] == events[..i - 1];
      StepPreserves(states[i - 1], events[i - 1], states[i], Written(events[..i - 1]), Read(events[..i - 1]));
      assert Written(events[..i - 1]) + [] == Written(events[..i - 1]);
      assert Read(events[..i - 1]) + [] == Read(events[..i - 1]);
    }
  }

  /** The promise of the queue, for every interleaving: the k-th item read is
      the k-th item written, and never more than nMax objects are held. */
  lemma FirstInFirstOut<T>(states: seq<System<T>>, events: seq<Event<T>>)
    requires IsRun(states, events)
    ensures Read(events) <= Written(events)
    ensures |Written(events)| - |Read(events)| <= states[|events|].q.nMax
  {
    RunKeepsInvariant(states, events, |events|);
    assert events[..|events|] == events;
  }

  /** No item is overwritten before it is read: the slot a put step writes
      is not the slot of any item that is still to be read. */
  lemma NoOverwrite<T>(states: seq<System<T>>, events: seq<Event<T>>, i: nat, k: nat)
    requires IsRun(states, events) && i < |events| && events[i].PutStore?
    requires states[i].q.iNextGet <= k < states[i].q.iNextPut
    ensures var q := states[i].q;
            q.nMax > 0 && k % q.nMax != q.iNextPut % q.nMax
  {
    RunKeepsInvariant(states, events, i);
    var s := states[i];
    StepPreserves(s, events[i], states[i + 1], Written(events[..i]), Read(events[..i]));
    ModInjective(k, s.q.iNextPut, s.q.nMax);
  }

  /** What the two semaphores count, in every state of every run: free slots
      not yet promised to a producer, less those a consumer has emptied and not
      yet announced; and stored objects likewise. So a wait that returns has a
      slot, or an object, to itself. */
  lemma SemaphoresCountSlots<T>(states: seq<System<T>>, events: seq<Event<T>>, i: nat)
    requires IsRun(states, events) && i <= |events|
    ensures var s := states[i];
            && s.q.semPut == s.q.nMax - (s.q.iNextPut - s.q.iNextGet) - Puts(s) - Unreturned(s)
            && s.q.semGet == (s.q.iNextPut - s.q.iNextGet) - Gets(s) - Unannounced(s)
            && s.q.semPut + s.q.semGet <= s.q.nMax
    ensures i < |events| && events[i].PutWait? ==>
              states[i].q.iNextPut - states[i].q.iNextGet + Puts(states[i]) < states[i].q.nMax
    ensures i < |events| && events[i].GetWait? ==> Gets(states[i]) < states[i].q.iNextPut - states[i].q.iNextGet
    ensures i < |events| && events[i].PutSignal? ==> states[i + 1].q.semGet == states[i].q.semGet + 1
    ensures i < |events| && events[i].GetSignal? ==> states[i + 1].q.semPut == states[i].q.semPut + 1
  {
    RunKeepsInvariant(states, events, i);
    hide Live, Count;
    if i < |events| {
      assert Next(states[i], events[i], states[i + 1]);
      StepPreserves(states[i], events[i], states[i + 1], Written(events[..i]), Read(events[..i]));
    }
  }

  /** A blocked thread is blocked for a reason: when no thread is between its
      wait and its signal, a producer is held back only by a full queue and a
      consumer only by an empty one. */
  lemma BlockedOnlyIfFullOrEmpty<T>(states: seq<System<T>>, events: seq<Event<T>>, i: nat)
    requires IsRun(states, events) && i <= |events|
    requires forall t | t in states[i].threads :: states[i].threads[t].Idle?
    ensures var q := states[i].q;
            && (q.semPut == 0 <==> q.iNextPut - q.iNextGet == q.nMax)
            && (q.semGet == 0 <==> q.iNextPut == q.iNextGet)
            && (q.semPut > 0 || q.semGet > 0)
  {
    RunKeepsInvariant(states, events, i);
    var s := states[i];
    CountZero(s.threads, (p: Phase<T>) => p.Reserved?);
    CountZero(s.threads, (p: Phase<T>) => p.Stored?);
    CountZero(s.threads, (p: Phase<T>) => p.Claimed?);
    CountZero(s.threads, (p: Phase<T>) => p.Took?);
  }
}
