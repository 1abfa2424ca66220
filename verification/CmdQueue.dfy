/** `CCmdQueue` and `CDeferredCommand`: commands waiting for their time, in one
    list for presentation times and one for stream times. Stream times map to
    presentation times by an offset that is known only while running. Times
    are in units of 100 ns. */
module CmdQueues {
  import opened Sequences

  datatype HResult = Ok | NotFound | Abort | AlreadyCancelled | TimeAlreadyPassed

  class DeferredCommand {
    var m_time: int
    const m_bStream: bool
    var m_pQueue: CmdQueue?
    var m_cRef: nat
    /** When the command was last queued, in the order of insertions. */
    ghost var stamp: nat

    constructor (time: int, bStream: bool, pQ: CmdQueue)
      ensures m_time == time && m_bStream == bStream && m_pQueue == pQ && m_cRef == 1
    {
      m_time, m_bStream, m_pQueue, m_cRef, stamp := time, bStream, pQ, 1, 0;
    }
  }

  /** Earlier time first; at the same time, the one queued first. */
  ghost predicate Before(c: DeferredCommand, d: DeferredCommand)
    reads c`m_time, d`m_time, c`stamp, d`stamp
  {
    c.m_time < d.m_time || (c.m_time == d.m_time && c.stamp < d.stamp)
  }

  ghost predicate Ordered(q: seq<DeferredCommand>)
    reads (set c | c in q)`m_time, (set c | c in q)`stamp
  {
    forall i, j | 0 <= i < j < |q| :: Before(q[i], q[j])
  }

  /** The order, in times and numbers of insertion. */
  lemma OrderIsByTimeThenInsertion(q: seq<DeferredCommand>)
    ensures Ordered(q) <==>
            forall i, j | 0 <= i < j < |q| ::
              q[i].m_time <= q[j].m_time && (q[i].m_time == q[j].m_time ==> q[i].stamp < q[j].stamp)
  {
    if forall i, j | 0 <= i < j < |q| ::
         q[i].m_time <= q[j].m_time && (q[i].m_time == q[j].m_time ==> q[i].stamp < q[j].stamp) {
      assert forall i, j | 0 <= i < j < |q| :: Before(q[i], q[j]);
    } else {
      var i, j :| 0 <= i < j < |q|
        && !(q[i].m_time <= q[j].m_time && (q[i].m_time == q[j].m_time ==> q[i].stamp < q[j].stamp));
      assert !Before(q[i], q[j]);
    }
  }

  /** A list in order is determined by the commands in it. */
  lemma {:induction false} OrderedIsUnique(q: seq<DeferredCommand>, r: seq<DeferredCommand>)
    requires Ordered(q) && Ordered(r)
    requires forall c :: c in q <==> c in r
    ensures q == r
    decreases |q|
  {
    if q != [] {
      assert q[0] in r;
      assert r[0] in q;
      assert q[0] == r[0];
      forall c | c in q[1..] || c in r[1..]
        ensures c in q[1..] && c in r[1..]
      {
        assert c in q && c in r && c != q[0];
      }
      OrderedIsUnique(q[1..], r[1..]);
    } else if r != [] {
      HasMember(r);
    }
  }

  lemma HasMember(r: seq<DeferredCommand>)
    requires r != []
    ensures exists c :: c in r
  {
    assert r[0] in r;
  }

  class CmdQueue {
    var m_listPresentation: seq<DeferredCommand>
    var m_listStream: seq<DeferredCommand>
    var m_bRunning: bool
    var m_StreamTimeOffset: int
    var m_pClock: bool
    ghost var nextStamp: nat

    ghost predicate ListValid(q: seq<DeferredCommand>, bStream: bool)
      reads this`nextStamp, (set c | c in q)`m_time, (set c | c in q)`stamp
    {
      && Ordered(q)
      && forall c | c in q :: c.m_bStream == bStream && c.stamp < nextStamp
    }

    /** The queue holds a reference to each of its commands. */
    ghost predicate Held(q: seq<DeferredCommand>)
      reads (set c | c in q)`m_cRef
    {
      forall c | c in q :: c.m_cRef > 0
    }

    ghost predicate Valid()
      reads this, m_listPresentation, m_listStream
    {
      && ListValid(m_listPresentation, false) && ListValid(m_listStream, true)
      && Held(m_listPresentation) && Held(m_listStream)
    }

    ghost function ListOf(bStream: bool): seq<DeferredCommand>
      reads this
    {
      if bStream then m_listStream else m_listPresentation
    }

    /** The commands queued. */
    ghost function Queued(): set<DeferredCommand>
      reads this
    {
      (set c | c in m_listPresentation) + (set c | c in m_listStream)
    }

    constructor ()
      ensures Valid() && m_listPresentation == m_listStream == [] && !m_bRunning && !m_pClock
    {
      m_listPresentation, m_listStream := [], [];
      m_bRunning, m_StreamTimeOffset, m_pClock, nextStamp := false, 0, false, 0;
    }

    /** Without a clock nothing is due; with another clock, what is due by its
        reading. */
    method SetSyncSource(pClock: bool)
      requires Valid()
      modifies this`m_pClock
      ensures Valid() && Queued() == old(Queued()) && m_pClock == pClock
      ensures forall c, now | c in Queued() :: IsDue(c, now) <==> pClock && IsKnown(c) && TimeOf(c) <= now
    {
      m_pClock := pClock;
    }

    /** From here on a stream-time command is due when its time mapped by the
        offset has come. */
    method Run(tStreamTimeOffset: int)
      requires Valid()
      modifies this`m_StreamTimeOffset, this`m_bRunning
      ensures Valid() && Queued() == old(Queued()) && m_bRunning && m_StreamTimeOffset == tStreamTimeOffset
      ensures forall c, now | c in Queued() && c.m_bStream ::
                IsDue(c, now) <==> m_pClock && c.m_time + tStreamTimeOffset <= now
      ensures forall c, now | c in Queued() && !c.m_bStream :: IsDue(c, now) <==> old(IsDue(c, now))
    {
      m_StreamTimeOffset := tStreamTimeOffset;
      m_bRunning := true;
    }

    /** No stream-time command is due any more; the others are as before. */
    method EndRun()
      requires Valid()
      modifies this`m_bRunning
      ensures Valid() && Queued() == old(Queued()) && !m_bRunning
      ensures forall c, now | c in Queued() :: IsDue(c, now) <==> !c.m_bStream && old(IsDue(c, now))
    {
      m_bRunning := false;
    }

    ghost predicate IsDue(c: DeferredCommand, now: int)
      reads this, c
    {
      CheckTime(c.m_time, c.m_bStream, now)
    }

    ghost predicate IsKnown(c: DeferredCommand)
      reads this
    {
      c.m_bStream ==> m_bRunning
    }

    ghost function TimeOf(c: DeferredCommand): int
      reads this, c
    {
      PresentationTime(c.m_time, c.m_bStream)
    }

    /** When a command is presented, as far as the offset tells. */
    ghost function PresentationTime(time: int, bStream: bool): int
      reads this`m_StreamTimeOffset
    {
      if bStream then time + m_StreamTimeOffset else time
    }

    /** `CheckTime`, `now` being the reading of the clock. */
    predicate CheckTime(time: int, bStream: bool, now: int)
      reads this
    {
      && m_pClock
      && (bStream ==> m_bRunning)
      && (if bStream then time + m_StreamTimeOffset else time) <= now
    }

    /** Queue a command: it is one of its list's commands from now on, the
        last one queued, and the list is in order. */
    method Insert(pCmd: DeferredCommand)
      requires Valid() && pCmd !in ListOf(pCmd.m_bStream)
      modifies this`m_listPresentation, this`m_listStream, this`nextStamp, pCmd`m_cRef, pCmd`stamp
      ensures Valid()
      ensures pCmd.m_cRef == old(pCmd.m_cRef) + 1
      ensures pCmd.stamp == old(nextStamp) && nextStamp == old(nextStamp) + 1
      ensures ListOf(!pCmd.m_bStream) == old(ListOf(!pCmd.m_bStream))
      ensures forall c :: c in ListOf(pCmd.m_bStream) <==> c in old(ListOf(pCmd.m_bStream)) || c == pCmd
    {
      hide Ordered;
      pCmd.m_cRef := pCmd.m_cRef + 1;
      pCmd.stamp := nextStamp;
      nextStamp := nextStamp + 1;
      if pCmd.m_bStream {
        m_listStream := InsertInto(m_listStream, pCmd);
      } else {
        m_listPresentation := InsertInto(m_listPresentation, pCmd);
      }
    }

    /** Seek past all commands that are not later, and insert there. */
    method InsertInto(q: seq<DeferredCommand>, pCmd: DeferredCommand) returns (pList: seq<DeferredCommand>)
      requires Ordered(q) && pCmd.stamp < nextStamp
      requires forall d | d in q :: d.m_bStream == pCmd.m_bStream && d.stamp < pCmd.stamp
      ensures ListValid(pList, pCmd.m_bStream)
      ensures forall c :: c in pList <==> c in q || c == pCmd
    {
      hide Ordered, ListValid;
      pList := q;
      var pos := 0;
      while pos < |pList| && pList[pos].m_time <= pCmd.m_time
        invariant 0 <= pos <= |pList|
        invariant forall k | 0 <= k < pos :: pList[k].m_time <= pCmd.m_time
      {
        pos := pos + 1;
      }
      InsertKeepsOrder(pList, pos, pCmd);
      InsertMembers(pList, pos, pCmd);
      ghost var before := pList;
      pList := if pos == |pList| then pList + [pCmd] else InsertAt(pList, pos, pCmd);
      assert pList == InsertAt(before, pos, pCmd);
    }

    lemma InsertKeepsOrder(q: seq<DeferredCommand>, i: nat, c: DeferredCommand)
      requires i <= |q| && Ordered(q) && c.stamp < nextStamp
      requires forall d | d in q :: d.m_bStream == c.m_bStream && d.stamp < c.stamp
      requires forall k | 0 <= k < i :: q[k].m_time <= c.m_time
      requires i < |q| ==> c.m_time < q[i].m_time
      ensures ListValid(InsertAt(q, i, c), c.m_bStream)
    {
      var r := InsertAt(q, i, c);
      assert forall k | 0 <= k < |q| :: q[k] in q;
      assert forall k | 0 <= k < |r| && k != i :: r[k] == q[if k < i then k else k - 1];
      forall k | i < k < |q|
        ensures c.m_time < q[k].m_time
      {
        assert Before(q[i], q[k]);
      }
    }

    /** Take a command off its list. */
    method Remove(pCmd: DeferredCommand) returns (hr: HResult)
      requires Valid()
      modifies this`m_listPresentation, this`m_listStream, pCmd`m_cRef
      ensures Valid()
      ensures hr == if old(pCmd in ListOf(pCmd.m_bStream)) then Ok else NotFound
      ensures pCmd.m_cRef == old(pCmd.m_cRef) - (if hr == Ok then 1 else 0)
      ensures ListOf(!pCmd.m_bStream) == old(ListOf(!pCmd.m_bStream))
      ensures hr == NotFound ==> ListOf(pCmd.m_bStream) == old(ListOf(pCmd.m_bStream))
      ensures pCmd !in ListOf(pCmd.m_bStream)
      ensures forall c | c != pCmd :: c in ListOf(pCmd.m_bStream) <==> c in old(ListOf(pCmd.m_bStream))
    {
      hide ListValid;
      var pList := if pCmd.m_bStream then m_listStream else m_listPresentation;
      var pos := 0;
      while pos < |pList| && pList[pos] != pCmd
        invariant 0 <= pos <= |pList|
        invariant forall k | 0 <= k < pos :: pList[k] != pCmd
      {
        pos := pos + 1;
      }
      if pos == |pList| {
        return NotFound;
      }
      CutKeepsValid(pList, pos, pCmd.m_bStream);
      pList := pList[..pos] + pList[pos + 1..];
      if pCmd.m_bStream {
        m_listStream := pList;
      } else {
        m_listPresentation := pList;
      }
      OtherList(pCmd);
      pCmd.m_cRef := pCmd.m_cRef - 1;
      hr := Ok;
    }

    lemma CutPositions(q: seq<DeferredCommand>, i: nat)
      requires i < |q|
      ensures var r := q[..i] + q[i + 1..];
              && (forall k | 0 <= k < |r| :: r[k] == q[if k < i then k else k + 1])
              && forall c | c != q[i] :: c in r <==> c in q
    {
      var r := q[..i] + q[i + 1..];
      forall c | c != q[i] && c in q
        ensures c in r
      {
        var k :| 0 <= k < |q| && q[k] == c;
        assert r[if k < i then k else k - 1] == c;
      }
    }

    lemma CutKeepsOrder(q: seq<DeferredCommand>, i: nat)
      requires Ordered(q) && i < |q|
      ensures var r := q[..i] + q[i + 1..];
              Ordered(r) && q[i] !in r && forall c | c != q[i] :: c in r <==> c in q
    {
      var r := q[..i] + q[i + 1..];
      CutPositions(q, i);
      forall j, k | 0 <= j < k < |r|
        ensures Before(r[j], r[k])
      {
        assert Before(q[if j < i then j else j + 1], q[if k < i then k else k + 1]);
      }
      forall k | 0 <= k < |r|
        ensures r[k] != q[i]
      {
        if k < i {
          assert Before(q[k], q[i]);
        } else {
          assert Before(q[i], q[k + 1]);
        }
      }
    }

    lemma CutKeepsValid(q: seq<DeferredCommand>, i: nat, bStream: bool)
      requires ListValid(q, bStream) && Held(q) && i < |q|
      ensures var r := q[..i] + q[i + 1..];
              && ListValid(r, bStream) && Held(r)
              && q[i] !in r && forall c | c != q[i] :: c in r <==> c in q
    {
      hide Ordered;
      CutKeepsOrder(q, i);
      assert q[i] in q;
    }

    /** `CDeferredCommand::Cancel`. */
    method Cancel(pCmd: DeferredCommand) returns (hr: HResult)
      requires Valid() && (pCmd.m_pQueue == this || pCmd.m_pQueue == null)
      modifies this`m_listPresentation, this`m_listStream, pCmd`m_cRef, pCmd`m_pQueue
      ensures Valid()
      ensures hr == if old(pCmd.m_pQueue) == null then AlreadyCancelled
                    else if old(pCmd in ListOf(pCmd.m_bStream)) then Ok else NotFound
      ensures pCmd.m_pQueue == if hr == Ok then null else old(pCmd.m_pQueue)
      ensures hr == Ok ==> pCmd.m_cRef == old(pCmd.m_cRef) - 1
      ensures Queued() == if hr == Ok then old(Queued()) - {pCmd} else old(Queued())
    {
      hide Ordered;
      if pCmd.m_pQueue == null {
        return AlreadyCancelled;
      }
      hr := Remove(pCmd);
      if hr == Ok {
        pCmd.m_pQueue := null;
      }
    }

    /** `CDeferredCommand::Postpone`: a time that is already due is refused;
        otherwise the command is queued anew, behind the others of its time. */
    method Postpone(pCmd: DeferredCommand, newtime: int, now: int) returns (hr: HResult)
      requires Valid() && pCmd.m_pQueue == this
      modifies this`m_listPresentation, this`m_listStream, this`nextStamp, pCmd`m_cRef, pCmd`m_time, pCmd`stamp
      ensures Valid()
      ensures hr == if CheckTime(newtime, pCmd.m_bStream, now) then TimeAlreadyPassed
                    else if old(pCmd in ListOf(pCmd.m_bStream)) then Ok else NotFound
      ensures Queued() == old(Queued())
      ensures hr == Ok ==> pCmd.m_time == newtime && pCmd.stamp == old(nextStamp)
      ensures hr != Ok ==> pCmd.m_time == old(pCmd.m_time) && pCmd.stamp == old(pCmd.stamp)
      ensures pCmd.m_cRef == old(pCmd.m_cRef)
    {
      hide Ordered;
      if CheckTime(newtime, pCmd.m_bStream, now) {
        return TimeAlreadyPassed;
      }
      hr := Remove(pCmd);
      if hr == Ok {
        SetTime(pCmd, newtime);
        Insert(pCmd);
      }
    }

    /** The time may be changed while the command is in neither list. */
    method SetTime(pCmd: DeferredCommand, newtime: int)
      requires Valid() && pCmd !in ListOf(pCmd.m_bStream)
      modifies pCmd`m_time
      ensures Valid() && pCmd.m_time == newtime
    {
      hide ListValid, Ordered, Before;
      OtherList(pCmd);
      pCmd.m_time := newtime;
    }

    lemma OtherList(pCmd: DeferredCommand)
      requires ListValid(ListOf(!pCmd.m_bStream), !pCmd.m_bStream)
      ensures pCmd !in ListOf(!pCmd.m_bStream)
    {
    }

    method AddRef(pCmd: DeferredCommand)
      requires Valid()
      modifies pCmd`m_cRef
      ensures Valid() && pCmd.m_cRef == old(pCmd.m_cRef) + 1
    {
      hide ListValid;
      pCmd.m_cRef := pCmd.m_cRef + 1;
    }

    // ----- Due commands -----

    /** A queued command whose presentation time is known. */
    ghost predicate Eligible(c: DeferredCommand)
      reads this
    {
      c in m_listPresentation || (m_bRunning && c in m_listStream)
    }

    /** c is presented no later than d; at equal presentation times it is the
        presentation list, and within a list the earlier insertion, that goes
        first. */
    ghost predicate GoesFirst(c: DeferredCommand, d: DeferredCommand)
      reads this`m_StreamTimeOffset, c`m_time, d`m_time, c`stamp, d`stamp
    {
      var t, u := PresentationTime(c.m_time, c.m_bStream), PresentationTime(d.m_time, d.m_bStream);
      || t < u
      || (t == u && !c.m_bStream && d.m_bStream)
      || (t == u && c.m_bStream == d.m_bStream && (c == d || c.stamp < d.stamp))
    }

    lemma HeadGoesFirst(q: seq<DeferredCommand>, bStream: bool)
      requires ListValid(q, bStream) && q != []
      ensures forall d | d in q :: GoesFirst(q[0], d)
      ensures forall d | d in q :: q[0].m_time <= d.m_time
    {
      assert q[0] in q;
      forall d | d in q
        ensures GoesFirst(q[0], d) && q[0].m_time <= d.m_time
      {
        var k :| 0 <= k < |q| && q[k] == d;
        assert k > 0 ==> Before(q[0], q[k]);
      }
    }

    /** Some eligible command is due exactly if there is a clock, and a
        presentation time has come by it, or while running a stream time. */
    lemma DueByTheClock(now: int)
      requires Valid()
      ensures (exists c :: Eligible(c) && CheckTime(c.m_time, c.m_bStream, now)) <==>
                && m_pClock
                && ((exists c :: c in m_listPresentation && c.m_time <= now)
                    || (m_bRunning && exists c :: c in m_listStream && c.m_time + m_StreamTimeOffset <= now))
    {
      hide Ordered, Held;
      if m_pClock {
        if c :| c in m_listPresentation && c.m_time <= now {
          assert Eligible(c) && CheckTime(c.m_time, c.m_bStream, now);
        }
        if m_bRunning {
          if c :| c in m_listStream && c.m_time + m_StreamTimeOffset <= now {
            assert Eligible(c) && CheckTime(c.m_time, c.m_bStream, now);
          }
        }
      }
    }

    lemma FirstByTime(c: DeferredCommand)
      requires Valid() && Eligible(c) && forall d | Eligible(d) :: GoesFirst(c, d)
      ensures c in (if c.m_bStream then m_listStream else m_listPresentation)
      ensures var t := if c.m_bStream then c.m_time + m_StreamTimeOffset else c.m_time;
              && (forall d | d in m_listPresentation :: t <= d.m_time && (c.m_bStream ==> t < d.m_time))
              && (m_bRunning ==> forall d | d in m_listStream :: t <= d.m_time + m_StreamTimeOffset)
    {
      hide Ordered, Held;
      assert forall d | d in m_listPresentation :: Eligible(d) && GoesFirst(c, d);
      assert m_bRunning ==> forall d | d in m_listStream :: Eligible(d) && GoesFirst(c, d);
    }

    /** One pass of `GetDueCommand`; without a result the caller blocks. A
        command is returned exactly when some eligible command is due, and it
        is then the one that goes first of all eligible ones. */
    method GetDueCommand(now: int) returns (pCmd: DeferredCommand?)
      requires Valid()
      modifies m_listPresentation`m_cRef, m_listStream`m_cRef
      ensures Valid()
      ensures pCmd != null <==> exists c :: Eligible(c) && CheckTime(c.m_time, c.m_bStream, now)
      ensures pCmd != null ==>
                && Eligible(pCmd) && CheckTime(pCmd.m_time, pCmd.m_bStream, now)
                && (forall d | Eligible(d) :: GoesFirst(pCmd, d))
                && pCmd.m_cRef == old(pCmd.m_cRef) + 1
      ensures forall c | c in Queued() && c != pCmd :: c.m_cRef == old(c.m_cRef)
      ensures pCmd != null <==>
                && m_pClock
                && ((exists c :: c in m_listPresentation && c.m_time <= now)
                    || (m_bRunning && exists c :: c in m_listStream && c.m_time + m_StreamTimeOffset <= now))
      ensures pCmd != null ==>
                var t := if pCmd.m_bStream then pCmd.m_time + m_StreamTimeOffset else pCmd.m_time;
                && t <= now
                && (forall d | d in m_listPresentation :: t <= d.m_time && (pCmd.m_bStream ==> t < d.m_time))
                && (m_bRunning ==> forall d | d in m_listStream :: t <= d.m_time + m_StreamTimeOffset)
                && pCmd in (if pCmd.m_bStream then m_listStream else m_listPresentation)
    {
      hide ListValid;
      DueByTheClock(now);
      pCmd := Earliest();
      if pCmd != null {
        if CheckTime(pCmd.m_time, pCmd.m_bStream, now) {
          FirstByTime(pCmd);
          AddRef(pCmd);
        } else {
          NoneIsDue(pCmd, now);
          pCmd := null;
        }
      }
    }

    lemma NoneIsDue(c: DeferredCommand, now: int)
      requires Valid() && Eligible(c) && !CheckTime(c.m_time, c.m_bStream, now)
      requires forall d | Eligible(d) :: GoesFirst(c, d)
      ensures forall d | Eligible(d) :: !CheckTime(d.m_time, d.m_bStream, now)
    {
    }

    /** The choice between the heads of the two lists. */
    method Earliest() returns (pCmd: DeferredCommand?)
      requires Valid()
      ensures pCmd == null ==> forall c :: !Eligible(c)
      ensures pCmd != null ==> Eligible(pCmd) && forall d | Eligible(d) :: GoesFirst(pCmd, d)
    {
      pCmd := null;
      if m_listPresentation != [] {
        HeadGoesFirst(m_listPresentation, false);
        pCmd := m_listPresentation[0];
      }
      if m_bRunning {
        if m_listStream != [] {
          HeadGoesFirst(m_listStream, true);
          var pStrm := m_listStream[0];
          assert m_listStream[0] in m_listStream;
          var t := pStrm.m_time + m_StreamTimeOffset;
          assert m_listPresentation != [] ==> m_listPresentation[0] in m_listPresentation;
          if pCmd == null || t < pCmd.m_time {
            pCmd := pStrm;
          }
        }
      }
    }

    /** The three rules by which a queued command is due for a stream time, in
        their order: a presentation time that has passed, a stream time
        reached, and, while running, a presentation time that comes before the
        one the stream time maps to. */
    ghost function Rule(c: DeferredCommand, rtStream: int, now: int): nat
      reads this, c`m_time
    {
      if c in m_listPresentation && CheckTime(c.m_time, false, now) then 1
      else if c in m_listStream && c.m_time <= rtStream then 2
      else if c in m_listPresentation && m_bRunning && c.m_time <= rtStream + m_StreamTimeOffset then 3
      else 4
    }

    ghost predicate DueFor(c: DeferredCommand, rtStream: int, now: int)
      reads this, c`m_time
    {
      Rule(c, rtStream, now) <= 3
    }

    /** `GetCommandDueFor`: not found exactly when no queued command is due;
        otherwise a command due by the first rule that any command is due by,
        and the earliest in its list. By the third rule it is returned without
        a further reference. */
    method GetCommandDueFor(rtStream: int, now: int) returns (hr: HResult, pCmd: DeferredCommand?)
      requires Valid()
      modifies m_listPresentation`m_cRef, m_listStream`m_cRef
      ensures Valid()
      ensures hr == if exists c :: DueFor(c, rtStream, now) then Ok else NotFound
      ensures pCmd != null <==> hr == Ok
      ensures hr == Ok ==>
                && DueFor(pCmd, rtStream, now)
                && (forall d :: Rule(pCmd, rtStream, now) <= Rule(d, rtStream, now))
                && (forall d | d in ListOf(pCmd.m_bStream) :: pCmd.m_time <= d.m_time)
                && pCmd.m_cRef == old(pCmd.m_cRef) + (if Rule(pCmd, rtStream, now) <= 2 then 1 else 0)
      ensures forall c | c in Queued() && c != pCmd :: c.m_cRef == old(c.m_cRef)
      ensures hr == NotFound <==>
                && (m_pClock ==> forall c | c in m_listPresentation :: c.m_time > now)
                && (forall c | c in m_listStream :: c.m_time > rtStream)
                && (m_bRunning ==> forall c | c in m_listPresentation :: c.m_time > rtStream + m_StreamTimeOffset)
      ensures hr == Ok && pCmd in m_listStream ==>
                && pCmd.m_time <= rtStream
                && (m_pClock ==> forall c | c in m_listPresentation :: c.m_time > now)
      ensures hr == Ok && pCmd !in m_listStream && !(m_pClock && pCmd.m_time <= now) ==>
                && m_bRunning && pCmd.m_time <= rtStream + m_StreamTimeOffset
                && (forall c | c in m_listStream :: c.m_time > rtStream)
                && pCmd.m_cRef == old(pCmd.m_cRef)
    {
      hide Ordered, Before;
      var pStream: DeferredCommand?, pPresent: DeferredCommand? := null, null;
      if m_listStream != [] {
        HeadGoesFirst(m_listStream, true);
        pStream := m_listStream[0];
        assert m_listStream[0] in m_listStream;
      }
      if m_listPresentation != [] {
        HeadGoesFirst(m_listPresentation, false);
        pPresent := m_listPresentation[0];
        assert m_listPresentation[0] in m_listPresentation;
        assert !pPresent.m_bStream;
      }
      if pPresent != null && CheckTime(pPresent.m_time, false, now) {
        AddRef(pPresent);
        assert DueFor(pPresent, rtStream, now);
        return Ok, pPresent;
      }
      if pStream != null && pStream.m_time <= rtStream {
        AddRef(pStream);
        assert DueFor(pStream, rtStream, now);
        return Ok, pStream;
      }
      if m_bRunning && pPresent != null {
        if pPresent.m_time <= rtStream + m_StreamTimeOffset {
          assert DueFor(pPresent, rtStream, now);
          return Ok, pPresent;
        }
      }
      return NotFound, null;
    }
  }

  method QueueOfOne(clock: bool) returns (queue: CmdQueue, cmd: DeferredCommand)
    ensures queue.Valid() && fresh(queue) && fresh(cmd)
    ensures queue.m_listPresentation == [cmd] && queue.m_listStream == []
    ensures queue.m_bRunning && queue.m_StreamTimeOffset == 0 && queue.m_pClock == clock
    ensures cmd.m_time == 5 && !cmd.m_bStream && cmd.m_cRef == 2
  {
    queue := new CmdQueue();
    cmd := new DeferredCommand(5, false, queue);
    queue.Insert(cmd);
    assert queue.ListOf(false) == queue.m_listPresentation && queue.ListOf(true) == [];
    assert cmd in queue.m_listPresentation && forall c | c in queue.m_listPresentation :: c == cmd;
    OrderedIsUnique(queue.m_listPresentation, [cmd]);
    queue.Run(0);
    queue.SetSyncSource(clock);
  }

  /** A command due by the third rule alone comes without a reference for the
      caller, with none but the creator's and the queue's; with a clock the
      same command comes with one by the first rule. */
  method ThirdRuleAddsNoReference(clock: bool) returns (pCmd: DeferredCommand?)
    ensures pCmd != null && pCmd.m_cRef == if clock then 3 else 2
  {
    var queue, cmd := QueueOfOne(clock);
    var hr;
    assert queue.Rule(cmd, 5, 5) == if clock then 1 else 3;
    assert queue.DueFor(cmd, 5, 5);
    hide CmdQueue.ListValid, Ordered;
    hr, pCmd := queue.GetCommandDueFor(5, 5);
    assert queue.DueFor(cmd, 5, 5);
    assert pCmd in queue.m_listPresentation;
  }
}
