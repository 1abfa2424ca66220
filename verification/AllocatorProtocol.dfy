/** Any number of threads using one allocator: they take buffers, wait for
    them, add and drop references, and commit, decommit and reconfigure the
    allocator, interleaved at every lock, wait and reference count. */
module AllocatorProtocol {
  import opened Common
  import opened FixedWidth
  import opened LazySemaphore
  import opened Sequences
  import opened ThreadCount
  import opened AllocatorState

  type Sample = nat

  /** Where a thread is. `Parked` is waiting or about to wait; `Woken` is back
      from the wait. `Granted` holds a sample whose reference count is not set
      yet; `Returning` has dropped the last reference and has not yet called
      `ReleaseBuffer`; `Releasing` owes the allocator a `Release`. */
  datatype Phase = Idle | Parked | Woken | Granted(sample: Sample) | Returning(sample: Sample) | Releasing

  datatype Event =
    | GetRejected(t: Tid)
    | GetSample(t: Tid)
    | GetPark(t: Tid)
    | GetTimeout(t: Tid)
    | Wake(t: Tid)
    | SetRef(t: Tid)
    | AddRef(t: Tid, sample: Sample)
    | DropRef(t: Tid, sample: Sample)
    | Return(t: Tid)
    | SelfRelease(t: Tid)
    | DoCommit(t: Tid, granted: bool, made: seq<Sample>)
    | DoDecommit(t: Tid)
    | Configure(t: Tid, req: Properties, granularity: Word32)

  /** `refs` maps every sample in existence to its reference count; `timeouts`
      counts the calls made with `AM_GBF_NOWAIT` that found no sample. */
  datatype System = System(a: Alloc<Sample>, refs: map<Sample, nat>, threads: map<Tid, Phase>, timeouts: nat)

  ghost predicate Init(s: System) {
    && s.a == Created()
    && s.refs == map[]
    && s.timeouts == 0
    && forall t | t in s.threads :: s.threads[t].Idle?
  }

  ghost function Unreferenced(q: seq<Sample>): map<Sample, nat> {
    map x | x in q :: 0
  }

  ghost function RefsAfterCommit(a: Alloc<Sample>, refs: map<Sample, nat>,
    granted: bool, made: seq<Sample>): map<Sample, nat> {
    if Reallocates(a) then
      var kept := if a.hasBuffer then map[] else refs;
      if RequestFits(a.props) && granted then kept + Unreferenced(made) else kept
    else refs
  }

  ghost predicate Next(s: System, e: Event, s': System) {
    && e.t in s.threads
    && var p := s.threads[e.t];
       match e
       case GetRejected(t) =>
         && (p.Idle? || p.Woken?) && GetBuffer(s.a).1.Rejected?
         && s' == s.(a := GetBuffer(s.a).0, threads := s.threads[t := Idle])
       case GetSample(t) =>
         && (p.Idle? || p.Woken?) && GetBuffer(s.a).1.Got?
         && s' == s.(a := GetBuffer(s.a).0, threads := s.threads[t := Granted(GetBuffer(s.a).1.sample)])
       case GetPark(t) =>
         && (p.Idle? || p.Woken?) && GetBuffer(s.a).1.Empty?
         && s' == s.(a := GetBuffer(s.a).0, threads := s.threads[t := Parked])
       case GetTimeout(t) =>
         && p.Idle? && GetBuffer(s.a).1.Empty?
         && s' == s.(a := GetBuffer(s.a).0, timeouts := s.timeouts + 1)
       case Wake(t) =>
         && p.Parked? && s.a.sem.count > 0
         && s' == s.(a := s.a.(sem := s.a.sem.Wait()), threads := s.threads[t := Woken])
       case SetRef(t) =>
         && p.Granted?
         && s' == s.(refs := s.refs[p.sample := 1], threads := s.threads[t := Idle])
       case AddRef(t, x) =>
         && p.Idle? && x in s.refs && s.refs[x] > 0
         && s' == s.(refs := s.refs[x := s.refs[x] + 1])
       case DropRef(t, x) =>
         && p.Idle? && x in s.refs && s.refs[x] > 0
         && s' == s.(refs := s.refs[x := s.refs[x] - 1],
                     threads := s.threads[t := if s.refs[x] == 1 then Returning(x) else Idle])
       case Return(t) =>
         && p.Returning?
         && var (a', release) := ReleaseBuffer(s.a, p.sample);
            s' == s.(a := a', threads := s.threads[t := if release then Releasing else Idle])
       case SelfRelease(t) =>
         && p.Releasing?
         && s' == s.(a := s.a.(selfRefs := s.a.selfRefs - 1), threads := s.threads[t := Idle])
       case DoCommit(t, granted, made) =>
         && p.Idle?
         && NoDup(made) && |made| <= (if s.a.props.cBuffers > 0 then s.a.props.cBuffers else 0)
         && s' == s.(a := Commit(s.a, granted, made).0, refs := RefsAfterCommit(s.a, s.refs, granted, made))
       case DoDecommit(t) =>
         && p.Idle?
         && var (a', release) := Decommit(s.a);
            s' == s.(a := a', threads := s.threads[t := if release then Releasing else Idle])
       case Configure(t, req, granularity) =>
         && p.Idle?
         && s' == s.(a := SetProperties(s.a, req, granularity).0)
  }

  ghost predicate IsRun(states: seq<System>, events: seq<Event>) {
    && |states| == |events| + 1
    && Init(states[0])
    && forall i | 0 <= i < |events| :: Next(states[i], events[i], states[i + 1])
  }

  // ----- The invariant -----

  ghost predicate IsParked(p: Phase) {
    p.Parked?
  }

  ghost predicate IsReleasing(p: Phase) {
    p.Releasing?
  }

  ghost function ParkedCount(s: System): nat {
    Count(s.threads, IsParked)
  }

  ghost function Owed(s: System): nat {
    Count(s.threads, IsReleasing)
  }

  /** The thread has a sample in its hands that nobody else knows of. */
  ghost predicate Carries(p: Phase, x: Sample) {
    (p.Granted? || p.Returning?) && p.sample == x
  }

  ghost predicate Carried(threads: map<Tid, Phase>, x: Sample) {
    exists t :: t in threads && Carries(threads[t], x)
  }

  /** Every sample is in exactly one place: on the free list, in the hands of
      one thread, or referenced. */
  ghost predicate SamplesOnce(free: seq<Sample>, refs: map<Sample, nat>, threads: map<Tid, Phase>) {
    && NoDup(free)
    && (forall x | x in free :: x in refs && refs[x] == 0)
    && (forall t, x | t in threads && Carries(threads[t], x) :: x in refs && refs[x] == 0 && x !in free)
    && (forall t, u, x | t in threads && u in threads && Carries(threads[t], x) && Carries(threads[u], x) :: t == u)
    && (forall x | x in refs && x !in free && refs[x] == 0 :: Carried(threads, x))
  }

  /** Samples not on the free list. */
  ghost function Outstanding(s: System): set<Sample> {
    s.refs.Keys - Elements(s.a.free)
  }

  /** The semaphore and its counter are of 32 bits. */
  ghost predicate WithinSemaphore(s: System) {
    |s.threads.Keys| + s.timeouts <= SEM_MAX
  }

  ghost predicate Invariant(s: System) {
    && SamplesOnce(s.a.free, s.refs, s.threads)
    && s.a.lAllocated == |s.refs.Keys|
    && LifeCycle(s.a, Owed(s))
    && Notified(s.a)
    && (WithinSemaphore(s) ==> s.a.sem.Promised() == ParkedCount(s) + s.timeouts)
  }

  /** Conservation: free and outstanding samples add up to all samples. */
  lemma FreePlusOutstanding(s: System)
    requires SamplesOnce(s.a.free, s.refs, s.threads)
    ensures |s.a.free| + |Outstanding(s)| == |s.refs.Keys|
    ensures Outstanding(s) == {} <==> |s.a.free| == |s.refs.Keys|
  {
    NoDupElements(s.a.free);
    assert s.refs.Keys == Elements(s.a.free) + Outstanding(s);
  }

  // ----- Samples change places -----

  lemma KeepCarried(threads: map<Tid, Phase>, t: Tid, p: Phase, x: Sample)
    requires t in threads && Carried(threads, x)
    requires Carries(threads[t], x) ==> Carries(p, x)
    ensures Carried(threads[t := p], x)
  {
    var u :| u in threads && Carries(threads[u], x);
    assert u in threads[t := p] && Carries(threads[t := p][u], x);
  }

  lemma NothingMoves(free: seq<Sample>, refs: map<Sample, nat>, threads: map<Tid, Phase>, t: Tid, p: Phase)
    requires SamplesOnce(free, refs, threads) && t in threads
    requires !threads[t].Granted? && !threads[t].Returning? && !p.Granted? && !p.Returning?
    ensures SamplesOnce(free, refs, threads[t := p])
  {
    forall x | Carried(threads, x)
      ensures Carried(threads[t := p], x)
    {
      KeepCarried(threads, t, p, x);
    }
  }

  lemma SampleTaken(free: seq<Sample>, refs: map<Sample, nat>, threads: map<Tid, Phase>, t: Tid)
    requires SamplesOnce(free, refs, threads) && t in threads && free != []
    requires !threads[t].Granted? && !threads[t].Returning?
    ensures SamplesOnce(free[1..], refs, threads[t := Granted(free[0])])
  {
    var after := threads[t := Granted(free[0])];
    assert free[0] in free && free[0] !in free[1..];
    assert Carries(after[t], free[0]);
    assert forall x :: x in free <==> x == free[0] || x in free[1..];
    forall x | Carried(threads, x)
      ensures Carried(after, x)
    {
      KeepCarried(threads, t, Granted(free[0]), x);
    }
  }

  /** A reference count is set to n, by the thread that carries the sample or
      on a referenced sample. At zero the thread carries it. */
  lemma RefChanged(free: seq<Sample>, refs: map<Sample, nat>, threads: map<Tid, Phase>,
                   t: Tid, y: Sample, n: nat, p: Phase)
    requires SamplesOnce(free, refs, threads) && t in threads && y in refs
    requires if refs[y] == 0 then Carries(threads[t], y) else !threads[t].Granted? && !threads[t].Returning?
    requires if n == 0 then p == Returning(y) else !p.Granted? && !p.Returning?
    ensures SamplesOnce(free, refs[y := n], threads[t := p])
  {
    var after := threads[t := p];
    assert n == 0 ==> Carries(after[t], y);
    forall x | x != y && Carried(threads, x)
      ensures Carried(after, x)
    {
      KeepCarried(threads, t, p, x);
    }
  }

  lemma SampleReturned(free: seq<Sample>, refs: map<Sample, nat>, threads: map<Tid, Phase>, t: Tid, p: Phase)
    requires SamplesOnce(free, refs, threads) && t in threads && threads[t].Returning?
    requires !p.Granted? && !p.Returning?
    ensures SamplesOnce([threads[t].sample] + free, refs, threads[t := p])
  {
    var y := threads[t].sample;
    assert Carries(threads[t], y);
    var free', after := [y] + free, threads[t := p];
    assert forall x :: x in free' <==> x == y || x in free;
    forall i, j | 0 <= i < j < |free'|
      ensures free'[i] != free'[j]
    {
      assert free'[j] == free[j - 1];
      assert free[j - 1] in free;
      if i > 0 {
        assert free'[i] == free[i - 1];
      }
    }
    assert forall u, x | u in after && Carries(after[u], x) :: u != t && Carries(threads[u], x);
    forall x | x != y && Carried(threads, x)
      ensures Carried(threads[t := p], x)
    {
      KeepCarried(threads, t, p, x);
    }
  }

  lemma SamplesRemade(made: seq<Sample>, threads: map<Tid, Phase>)
    requires NoDup(made)
    requires forall t, x | t in threads :: !Carries(threads[t], x)
    ensures SamplesOnce(Reversed(made), Unreferenced(made), threads)
    ensures |Unreferenced(made).Keys| == |made|
  {
    ReversedElements(made);
    assert forall x :: x in Reversed(made) <==> x in Elements(Reversed(made));
    NoDupElements(made);
    assert Unreferenced(made).Keys == Elements(made);
  }

  /** When the allocator is idle, no thread has a sample in its hands. */
  lemma NobodyCarries(s: System)
    requires SamplesOnce(s.a.free, s.refs, s.threads) && s.a.lAllocated == |s.refs.Keys|
    requires LifeCycle(s.a, Owed(s)) && !s.a.committed && !s.a.decommitting
    ensures forall t, x | t in s.threads :: !Carries(s.threads[t], x)
  {
    FreePlusOutstanding(s);
    forall t, x | t in s.threads
      ensures !Carries(s.threads[t], x)
    {
      assert x !in Outstanding(s);
    }
  }

  lemma CommitMovesSamples(s: System, granted: bool, made: seq<Sample>)
    requires SamplesOnce(s.a.free, s.refs, s.threads) && s.a.lAllocated == |s.refs.Keys|
    requires LifeCycle(s.a, Owed(s))
    requires NoDup(made)
    ensures var a', refs' := Commit(s.a, granted, made).0, RefsAfterCommit(s.a, s.refs, granted, made);
            SamplesOnce(a'.free, refs', s.threads) && a'.lAllocated == |refs'.Keys|
  {
    hide SamplesOnce, NoDup, LifeCycle, RefsAfterCommit, Commit;
    if Reallocates(s.a) {
      NobodyCarries(s);
      SamplesRemade(Kept(s.a, granted, made), s.threads);
      ReallocatingCommit(s.a, Owed(s), granted, made);
      ReallocatingRefs(s, granted, made);
    } else {
      OtherCommit(s.a, s.refs, granted, made);
    }
  }

  lemma OtherCommit(a: Alloc<Sample>, refs: map<Sample, nat>, granted: bool, made: seq<Sample>)
    requires !Reallocates(a)
    ensures Commit(a, granted, made).0.props == a.props
    ensures Commit(a, granted, made).0.free == a.free && Commit(a, granted, made).0.lAllocated == a.lAllocated
    ensures RefsAfterCommit(a, refs, granted, made) == refs
  {
  }

  lemma ReallocatingRefs(s: System, granted: bool, made: seq<Sample>)
    requires s.a.lAllocated == |s.refs.Keys| && LifeCycle(s.a, Owed(s)) && Reallocates(s.a)
    ensures RefsAfterCommit(s.a, s.refs, granted, made) == Unreferenced(Kept(s.a, granted, made))
  {
    hide RequestFits, LifeCycle, AlignedSize;
    EmptyBeforeFirstBlock(s);
    var kept: map<Sample, nat> := if s.a.hasBuffer then map[] else s.refs;
    assert kept == map[];
    assert kept + Unreferenced(made) == Unreferenced(made);
    assert Unreferenced([]) == map[];
  }

  /** The samples a reallocating commit leaves behind. */
  ghost function Kept(a: Alloc<Sample>, granted: bool, made: seq<Sample>): seq<Sample> {
    if RequestFits(a.props) && granted then made else []
  }

  lemma ReallocatingCommit(a: Alloc<Sample>, owed: nat, granted: bool, made: seq<Sample>)
    requires Reallocates(a) && LifeCycle(a, owed)
    ensures var a' := Commit(a, granted, made).0;
            a'.free == Reversed(Kept(a, granted, made)) && a'.lAllocated == |Kept(a, granted, made)|
  {
    hide RequestFits;
    assert Reversed(made) + [] == Reversed(made);
  }

  lemma EmptyBeforeFirstBlock(s: System)
    requires s.a.lAllocated == |s.refs.Keys| && LifeCycle(s.a, Owed(s))
    ensures s.a.hasBuffer || (s.refs == map[] && s.a.free == [] && s.a.lAllocated == 0)
  {
    if !s.a.hasBuffer {
      assert s.refs.Keys == {};
    }
  }

  // ----- Steps -----

  lemma StepKeepsSamples(s: System, e: Event, s': System)
    requires SamplesOnce(s.a.free, s.refs, s.threads) && s.a.lAllocated == |s.refs.Keys|
    requires LifeCycle(s.a, Owed(s))
    requires Next(s, e, s')
    ensures SamplesOnce(s'.a.free, s'.refs, s'.threads) && s'.a.lAllocated == |s'.refs.Keys|
  {
    hide SamplesOnce, LifeCycle, Count;
    var t := e.t;
    match e {
      case GetSample(_) => SampleTaken(s.a.free, s.refs, s.threads, t);
      case SetRef(_) =>
        var y := s.threads[t].sample;
        CarriedUnreferenced(s.a.free, s.refs, s.threads, t);
        RefChanged(s.a.free, s.refs, s.threads, t, y, 1, Idle);
        assert s'.refs.Keys == s.refs.Keys;
      case AddRef(_, y) =>
        RefChanged(s.a.free, s.refs, s.threads, t, y, s.refs[y] + 1, Idle);
        assert s'.threads == s.threads[t := Idle] && s'.refs.Keys == s.refs.Keys;
      case DropRef(_, y) =>
        RefChanged(s.a.free, s.refs, s.threads, t, y, s.refs[y] - 1, s'.threads[t]);
        assert s'.refs.Keys == s.refs.Keys;
      case Return(_) => SampleReturned(s.a.free, s.refs, s.threads, t, s'.threads[t]);
      case DoCommit(_, granted, made) => CommitMovesSamples(s, granted, made);
      case GetTimeout(_) =>
      case Configure(_, _, _) =>
      case _ => NothingMoves(s.a.free, s.refs, s.threads, t, s'.threads[t]);
    }
  }

  /** `GetBuffer` finds the reference count zero when it sets it. */
  lemma CarriedUnreferenced(free: seq<Sample>, refs: map<Sample, nat>, threads: map<Tid, Phase>, t: Tid)
    requires SamplesOnce(free, refs, threads) && t in threads && (threads[t].Granted? || threads[t].Returning?)
    ensures threads[t].sample in refs && refs[threads[t].sample] == 0 && threads[t].sample !in free
  {
    assert Carries(threads[t], threads[t].sample);
  }

  lemma StepKeepsLifeCycle(s: System, e: Event, s': System)
    requires Invariant(s) && Next(s, e, s')
    ensures LifeCycle(s'.a, Owed(s')) && Notified(s'.a)
  {
    var t := e.t;
    hide SamplesOnce, Count, LifeCycle, Notified, Commit, SetProperties;
    CountUpdate(s.threads, t, s'.threads[t], IsReleasing);
    assert s'.threads == s.threads[t := s'.threads[t]];
    assert Owed(s') == Owed(s) - One(s.threads[t].Releasing?) + One(s'.threads[t].Releasing?);
    hide Owed;
    match e {
      case Wake(_) => OtherChangesKeepLifeCycle(s.a, Owed(s), s.a.sem.Wait());
      case SelfRelease(_) => OtherChangesKeepLifeCycle(s.a, Owed(s), s.a.sem);
      case Return(_) =>
        CarrierIsOutstanding(s, t);
        ReleaseSection(s.a, Owed(s), s.threads[t].sample);
      case DoDecommit(_) => DecommitSection(s.a, Owed(s));
      case DoCommit(_, granted, made) => CommitSection(s.a, Owed(s), granted, made);
      case Configure(_, req, granularity) => ConfigureSection(s.a, Owed(s), req, granularity);
      case GetRejected(_) => GetSection(s.a, Owed(s));
      case GetSample(_) => GetSection(s.a, Owed(s));
      case GetPark(_) => GetSection(s.a, Owed(s));
      case GetTimeout(_) => GetSection(s.a, Owed(s));
      case _ =>
    }
  }

  lemma CarrierIsOutstanding(s: System, t: Tid)
    requires SamplesOnce(s.a.free, s.refs, s.threads) && s.a.lAllocated == |s.refs.Keys|
    requires t in s.threads && (s.threads[t].Granted? || s.threads[t].Returning?)
    ensures |s.a.free| < s.a.lAllocated
  {
    FreePlusOutstanding(s);
    CarriedUnreferenced(s.a.free, s.refs, s.threads, t);
    assert s.threads[t].sample in Outstanding(s);
  }

  lemma ReleaseSection(a: Alloc<Sample>, owed: nat, x: Sample)
    requires LifeCycle(a, owed) && Notified(a) && |a.free| < a.lAllocated
    ensures var (a', release) := ReleaseBuffer(a, x);
            LifeCycle(a', if release then owed + 1 else owed) && Notified(a')
  {
    ReleaseKeepsLifeCycle(a, owed, x);
    SectionsKeepNotified(a, owed, x, false, [], a.props, 0);
  }

  lemma DecommitSection(a: Alloc<Sample>, owed: nat)
    requires LifeCycle(a, owed) && Notified(a)
    ensures var (a', release) := Decommit(a);
            LifeCycle(a', if release then owed + 1 else owed) && Notified(a')
  {
    DecommitKeepsLifeCycle(a, owed);
    SectionsKeepNotified(a, owed, 0, false, [], a.props, 0);
  }

  lemma CommitSection(a: Alloc<Sample>, owed: nat, granted: bool, made: seq<Sample>)
    requires LifeCycle(a, owed) && Notified(a)
    requires |made| <= (if a.props.cBuffers > 0 then a.props.cBuffers else 0)
    ensures LifeCycle(Commit(a, granted, made).0, owed) && Notified(Commit(a, granted, made).0)
  {
    CommitKeepsLifeCycle(a, owed, granted, made);
    SectionsKeepNotified(a, owed, 0, granted, made, a.props, 0);
  }

  lemma ConfigureSection(a: Alloc<Sample>, owed: nat, req: Properties, granularity: Word32)
    requires LifeCycle(a, owed) && Notified(a)
    ensures LifeCycle(SetProperties(a, req, granularity).0, owed) && Notified(SetProperties(a, req, granularity).0)
  {
    SetPropertiesKeepsLifeCycle(a, owed, req, granularity);
    SectionsKeepNotified(a, owed, 0, false, [], req, granularity);
  }

  lemma GetSection(a: Alloc<Sample>, owed: nat)
    requires LifeCycle(a, owed) && Notified(a)
    ensures LifeCycle(GetBuffer(a).0, owed) && Notified(GetBuffer(a).0)
  {
    GetKeepsLifeCycle(a, owed);
    SectionsKeepNotified(a, owed, 0, false, [], a.props, 0);
  }

  lemma StepCountsParked(s: System, e: Event, s': System)
    requires Next(s, e, s')
    ensures s'.threads.Keys == s.threads.Keys && ParkedCount(s) <= |s.threads.Keys|
    ensures ParkedCount(s') == ParkedCount(s) + One(e.GetPark?) - One(e.Wake?)
    ensures s'.timeouts == s.timeouts + One(e.GetTimeout?)
  {
    hide Count, Commit, SetProperties, Decommit, ReleaseBuffer, GetBuffer, RefsAfterCommit;
    CountAtMost(s.threads, IsParked);
    CountUpdate(s.threads, e.t, s'.threads[e.t], IsParked);
    assert s'.threads == s.threads[e.t := s'.threads[e.t]];
  }

  lemma StepMovesPromise(s: System, e: Event, s': System)
    requires Next(s, e, s') && s.a.sem.Promised() <= SEM_MAX
    ensures s'.a.sem.Promised() == s.a.sem.Promised() + One(e.GetPark?) + One(e.GetTimeout?) - One(e.Wake?)
  {
    hide Count, Commit, SetProperties, Decommit, ReleaseBuffer, GetBuffer, RefsAfterCommit;
    match e {
      case Return(_) => SectionsKeepPromise(s.a, s.threads[e.t].sample, false, [], s.a.props, 0);
      case DoCommit(_, granted, made) => SectionsKeepPromise(s.a, 0, granted, made, s.a.props, 0);
      case Configure(_, req, granularity) => SectionsKeepPromise(s.a, 0, false, [], req, granularity);
      case _ => SectionsKeepPromise(s.a, 0, false, [], s.a.props, 0);
    }
  }

  lemma StepKeepsPromise(s: System, e: Event, s': System)
    requires Invariant(s) && Next(s, e, s')
    ensures WithinSemaphore(s') ==> s'.a.sem.Promised() == ParkedCount(s') + s'.timeouts
  {
    hide SamplesOnce, LifeCycle, Notified, Count, Next;
    StepCountsParked(s, e, s');
    if WithinSemaphore(s') {
      StepMovesPromise(s, e, s');
    }
  }

  lemma InitEstablishes(s: System)
    requires Init(s)
    ensures Invariant(s)
  {
    CountZero(s.threads, IsParked);
    CountZero(s.threads, IsReleasing);
  }

  lemma {:induction false} RunKeepsInvariant(states: seq<System>, events: seq<Event>, i: nat)
    requires IsRun(states, events) && i <= |events|
    ensures Invariant(states[i])
  {
    if i == 0 {
      InitEstablishes(states[0]);
    } else {
      RunKeepsInvariant(states, events, i - 1);
      hide SamplesOnce, LifeCycle, Notified, Count;
      var s, e, s' := states[i - 1], events[i - 1], states[i];
      assert Next(s, e, s');
      hide Next;
      StepKeepsSamples(s, e, s');
      StepKeepsLifeCycle(s, e, s');
      StepKeepsPromise(s, e, s');
    }
  }

  // ----- What the invariant promises -----

  /** No deadlock: a parked thread that has a sample to take, or a rejection
      to receive, is able to wake, and so is every other parked thread without
      waiting for this one's token. */
  lemma ParkedThreadCanWake(states: seq<System>, events: seq<Event>, i: nat, t: Tid)
    requires IsRun(states, events) && i <= |events| && WithinSemaphore(states[i])
    requires t in states[i].threads && states[i].threads[t].Parked?
    requires states[i].a.free != [] || !states[i].a.committed
    ensures states[i].a.sem.count >= ParkedCount(states[i]) > 0
    ensures exists s' :: Next(states[i], Wake(t), s')
  {
    RunKeepsInvariant(states, events, i);
    var s := states[i];
    CountPositive(s.threads, t, IsParked);
    assert Next(s, Wake(t), s.(a := s.a.(sem := s.a.sem.Wait()), threads := s.threads[t := Woken]));
  }

  /** The header's invariants (1) and (2). The second holds as written exactly
      until a call with `AM_GBF_NOWAIT` finds no sample; each such call leaves
      one wake-up too many, for ever. */
  lemma HeaderInvariants(states: seq<System>, events: seq<Event>, i: nat)
    requires IsRun(states, events) && i <= |events|
    ensures states[i].a.free != [] ==> states[i].a.sem.lWaiting == 0
    ensures !states[i].a.committed ==> states[i].a.sem.lWaiting == 0
    ensures WithinSemaphore(states[i]) ==>
              && states[i].a.sem.Promised() >= ParkedCount(states[i])
              && (states[i].a.sem.Promised() == ParkedCount(states[i]) <==> states[i].timeouts == 0)
  {
    RunKeepsInvariant(states, events, i);
  }

  ghost function Timeouts(events: seq<Event>): nat {
    if events == [] then 0
    else Timeouts(events[..|events| - 1]) + One(events[|events| - 1].GetTimeout?)
  }

  lemma PromiseInRun(states: seq<System>, events: seq<Event>, i: nat)
    requires IsRun(states, events) && i <= |events|
    ensures WithinSemaphore(states[i]) ==>
              states[i].a.sem.Promised() == ParkedCount(states[i]) + states[i].timeouts
  {
    RunKeepsInvariant(states, events, i);
  }

  /** The surplus is the number of such calls in the run. */
  lemma {:induction false} SurplusCountsTimeouts(states: seq<System>, events: seq<Event>, i: nat)
    requires IsRun(states, events) && i <= |events|
    ensures states[i].timeouts == Timeouts(events[..i])
    ensures WithinSemaphore(states[i]) ==>
              states[i].a.sem.Promised() - ParkedCount(states[i]) == Timeouts(events[..i])
  {
    hide Next;
    if i > 0 {
      SurplusCountsTimeouts(states, events, i - 1);
      assert Next(states[i - 1], events[i - 1], states[i]);
      StepCountsParked(states[i - 1], events[i - 1], states[i]);
      assert events[..i][..i - 1] == events[..i - 1];
    }
    PromiseInRun(states, events, i);
  }

  /** The life cycle, over all runs: free and outstanding samples are all
      samples; a pending decommit is not committed and has a sample to wait
      for; an idle allocator has every sample back; and the self-reference is
      there exactly while one of the flags is set, apart from releases that
      are still to be made. */
  lemma LifeCycleHolds(states: seq<System>, events: seq<Event>, i: nat)
    requires IsRun(states, events) && i <= |events|
    ensures var s := states[i];
            && |s.a.free| + |Outstanding(s)| == s.a.lAllocated
            && (s.a.decommitting ==> !s.a.committed && Outstanding(s) != {})
            && (!s.a.committed && !s.a.decommitting ==> Outstanding(s) == {})
            && s.a.selfRefs - Owed(s) == (if s.a.committed || s.a.decommitting then 1 else 0)
  {
    RunKeepsInvariant(states, events, i);
    FreePlusOutstanding(states[i]);
  }

  /** `Alloc` and `ReallyFree` never touch an outstanding buffer, and
      `SetProperties` changes nothing while one is outstanding. */
  lemma OutstandingBuffersAreSafe(states: seq<System>, events: seq<Event>, i: nat, x: Sample)
    requires IsRun(states, events) && i < |events|
    requires x in Outstanding(states[i])
    ensures x in states[i + 1].refs
    ensures !Reallocates(states[i].a)
    ensures states[i + 1].a.props == states[i].a.props
  {
    hide Invariant, LifeCycle, SamplesOnce, AllocMemory, Commit, RefsAfterCommit, ReleaseBuffer, Decommit;
    LifeCycleHolds(states, events, i);
    var s, e, s' := states[i], events[i], states[i + 1];
    assert Next(s, e, s');
    NoRoomToConfigure(s, states, events, i);
    match e {
      case DoCommit(_, granted, made) => OtherCommit(s.a, s.refs, granted, made);
      case DoDecommit(_) => SectionsKeepProperties(s.a, 0);
      case Return(_) => SectionsKeepProperties(s.a, s.threads[e.t].sample);
      case _ =>
    }
  }

  lemma NoRoomToConfigure(s: System, states: seq<System>, events: seq<Event>, i: nat)
    requires IsRun(states, events) && i < |events| && s == states[i] && Outstanding(s) != {}
    ensures |s.a.free| < s.a.lAllocated
  {
    RunKeepsInvariant(states, events, i);
    FreePlusOutstanding(s);
  }

  lemma SectionsKeepProperties(a: Alloc<Sample>, x: Sample)
    ensures Decommit(a).0.props == a.props && ReleaseBuffer(a, x).0.props == a.props
  {
  }

  /** A sample is nobody else's while a thread has it: `GetBuffer` finds its
      count at zero, as its assertion says, and no second thread and no free
      list has it. */
  lemma GrantedSampleIsExclusive(states: seq<System>, events: seq<Event>, i: nat, t: Tid, u: Tid)
    requires IsRun(states, events) && i <= |events|
    requires t in states[i].threads && states[i].threads[t].Granted?
    requires u in states[i].threads && u != t
    ensures var x := states[i].threads[t].sample;
            && x in states[i].refs && states[i].refs[x] == 0
            && x !in states[i].a.free
            && !Carries(states[i].threads[u], x)
  {
    RunKeepsInvariant(states, events, i);
    var s := states[i];
    CarriedUnreferenced(s.a.free, s.refs, s.threads, t);
    assert Carries(s.threads[t], s.threads[t].sample);
  }

  /** The state after one sample was made, taken, and then asked for again with
      `AM_GBF_NOWAIT`, in n steps. */
  ghost function TimeoutState(n: nat): System {
    var idle: map<Tid, Phase> := map[0 := Idle, 1 := Idle];
    var p := Properties(1, 1, 1, 0);
    var configured := Created<Sample>().(props := p, changed := true);
    var committed := configured.(changed := false, committed := true,
                                      hasBuffer := true, free := [7], lAllocated := 1, selfRefs := 1);
    var taken := committed.(free := []);
    if n == 0 then System(Created(), map[], idle, 0)
    else if n == 1 then System(configured, map[], idle, 0)
    else if n == 2 then System(committed, map[7 := 0], idle, 0)
    else if n == 3 then System(taken, map[7 := 0], idle[0 := Granted(7)], 0)
    else System(taken.(sem := Sem(1, 0)), map[7 := 0], idle[0 := Granted(7)], 1)
  }

  lemma CommitOfOne()
    ensures Commit(TimeoutState(1).a, true, [7]) == (TimeoutState(2).a, NoError)
    ensures RefsAfterCommit(TimeoutState(1).a, map[], true, [7]) == map[7 := 0]
  {
    var p := Properties(1, 1, 1, 0);
    assert AlignedSize(p) == Bytes(1);
    assert RequestFits(p);
    assert Reversed([7]) == [7] && Reversed([7]) + [] == [7];
    assert Unreferenced([7]) == map[7 := 0];
  }

  lemma ConfigureOne()
    ensures SetProperties(Created<Sample>(), Properties(1, 1, 1, 0), 0) == (TimeoutState(1).a, NoError)
  {
    assert RoundedSize(Properties(1, 1, 1, 0)) == 1;
  }

  ghost function TimeoutEvent(n: nat): Event {
    if n == 0 then Configure(0, Properties(1, 1, 1, 0), 0)
    else if n == 1 then DoCommit(0, true, [7])
    else if n == 2 then GetSample(0)
    else GetTimeout(1)
  }

  lemma TimeoutStep(n: nat)
    requires n <= 3
    ensures Next(TimeoutState(n), TimeoutEvent(n), TimeoutState(n + 1))
  {
    ConfigureOne();
    CommitOfOne();
    hide SetProperties, Commit, RefsAfterCommit, Decommit, ReleaseBuffer;
    if n == 1 {
      var made: seq<Sample> := [7];
      assert NoDup(made);
    }
  }

  /** A run in which header invariant (2) fails: one call with `AM_GBF_NOWAIT`
      finds no sample, and a wake-up is promised to nobody. */
  lemma TimeoutLeavesAWakeup() returns (states: seq<System>, events: seq<Event>)
    ensures IsRun(states, events) && |events| == 4 && events[3] == GetTimeout(1)
    ensures states[4].a.sem.Promised() == 1 && ParkedCount(states[4]) == 0
  {
    hide Next;
    states := [TimeoutState(0), TimeoutState(1), TimeoutState(2), TimeoutState(3), TimeoutState(4)];
    events := [TimeoutEvent(0), TimeoutEvent(1), TimeoutEvent(2), TimeoutEvent(3)];
    TimeoutStep(0);
    TimeoutStep(1);
    TimeoutStep(2);
    TimeoutStep(3);
    CountZero(states[4].threads, IsParked);
  }
}
