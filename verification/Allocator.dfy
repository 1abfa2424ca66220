/** `CMemAllocator` and the free list it keeps: the objects themselves, each
    locked section proved to do what `AllocatorState` says it does. */
module Allocator {
  import opened FixedWidth
  import opened LazySemaphore
  import opened Sequences
  import opened AllocatorState

  class MediaSample {
    var m_pNext: MediaSample?
    const m_pBuffer: nat
    const m_cbBuffer: nat

    constructor (pBuffer: nat, length: nat)
      ensures m_pBuffer == pBuffer && m_cbBuffer == length
    {
      m_pBuffer, m_cbBuffer := pBuffer, length;
      m_pNext := null;
    }
  }

  /** The free list: samples chained through `m_pNext`. */
  class SampleList {
    var m_List: MediaSample?
    var m_nOnList: nat
    ghost var items: seq<MediaSample>

    ghost predicate Valid()
      reads this, items
    {
      && m_nOnList == |items|
      && NoDup(items)
      && m_List == Link(items, 0)
      && forall i {:trigger items[i].m_pNext} | 0 <= i < |items| :: items[i].m_pNext == Link(items, i + 1)
    }

    constructor ()
      ensures Valid() && items == []
    {
      m_List, m_nOnList, items := null, 0, [];
    }

    method Add(pSample: MediaSample)
      requires Valid() && pSample !in items
      modifies this, pSample`m_pNext
      ensures Valid() && items == [pSample] + old(items)
    {
      pSample.m_pNext := m_List;
      m_List := pSample;
      m_nOnList := m_nOnList + 1;
      items := [pSample] + items;
      NoDupCons(pSample, old(items));
      hide NoDup;
      assert forall i | 1 <= i < |items| :: items[i] == old(items)[i - 1];
    }

    method RemoveHead() returns (pSample: MediaSample?)
      requires Valid()
      modifies this
      ensures Valid()
      ensures pSample == Link(old(items), 0)
      ensures items == if old(items) == [] then [] else old(items)[1..]
    {
      pSample := m_List;
      if pSample != null {
        m_List := pSample.m_pNext;
        m_nOnList := m_nOnList - 1;
        items := items[1..];
      }
    }

    /** Unlink a sample from anywhere in the list; nothing changes when it is
        not there. */
    method Remove(pSample: MediaSample)
      requires Valid()
      modifies this, items
      ensures Valid()
      ensures pSample !in old(items) ==> items == old(items)
      ensures pSample in old(items) ==>
                exists i :: 0 <= i < |old(items)| && old(items)[i] == pSample
                      && items == old(items)[..i] + old(items)[i + 1..]
    {
      var previous: MediaSample? := null;
      var search := m_List;
      ghost var i := 0;
      while search != null && search != pSample
        invariant 0 <= i <= |items|
        invariant search == Link(items, i)
        invariant previous == if i == 0 then null else items[i - 1]
        invariant forall k | 0 <= k < i :: items[k] != pSample
        decreases |items| - i
      {
        previous := search;
        search := search.m_pNext;
        i := i + 1;
      }
      if search != null {
        NoDupApart(items, i);
        if i > 0 {
          NoDupApart(items, i - 1);
        }
        NoDupCut(items, i);
        hide NoDup;
        UnlinkAt(pSample, previous, i);
      }
    }

    /** Unlink the sample at position i, whose predecessor is at hand. */
    method UnlinkAt(pSample: MediaSample, previous: MediaSample?, ghost i: nat)
      requires Valid() && i < |items| && items[i] == pSample
      requires previous == if i == 0 then null else items[i - 1]
      requires forall k | 0 <= k < |items| && k != i :: items[k] != pSample
      requires forall k | 0 <= k < |items| && k != i - 1 :: items[k] != previous
      requires NoDup(items[..i] + items[i + 1..])
      modifies this, items
      ensures Valid() && items == old(items)[..i] + old(items)[i + 1..]
    {
      hide NoDup;
      ghost var before := items;
      if previous == null {
        m_List := pSample.m_pNext;
      } else {
        previous.m_pNext := pSample.m_pNext;
      }
      pSample.m_pNext := null;
      m_nOnList := m_nOnList - 1;
      items := before[..i] + before[i + 1..];
      LinkCut(before, i);
      assert forall k | 0 <= k < |items| :: items[k] == if k < i then before[k] else before[k + 1];
    }
  }

  lemma LinkCut(q: seq<MediaSample>, i: nat)
    requires i < |q|
    ensures var cut := q[..i] + q[i + 1..];
            forall k: nat | k <= |cut| :: Link(cut, k) == Link(q, if k < i then k else k + 1)
  {
  }

  /** The link that leads to position i of the list. */
  ghost function Link(items: seq<MediaSample>, i: nat): MediaSample?
    requires i <= |items|
  {
    if i == |items| then null else items[i]
  }

  /** The k-th sample made has its prefix and data in the k-th slice, of n
      bytes, of the block at `base`. */
  ghost predicate Tiled(made: seq<MediaSample>, base: nat, n: nat, prefix: nat, size: nat) {
    forall k | 0 <= k < |made| ::
      made[k].m_pBuffer == base + k * n + prefix && made[k].m_cbBuffer == size
  }

  /** What `Alloc` leaves in memory for the properties p. */
  ghost predicate TiledFor(made: seq<MediaSample>, base: nat, p: Properties)
    requires RequestFits(p)
  {
    AlignedSizeFacts(p);
    |made| <= p.cBuffers && Tiled(made, base, AlignedSize(p).n, p.cbPrefix, p.cbBuffer)
  }

  lemma AlignedSizeFacts(p: Properties)
    requires RequestFits(p)
    ensures AlignedSize(p).n >= p.cbBuffer + p.cbPrefix
    ensures AlignedSize(p).n % p.cbAlign == 0
  {
    AlignedSizeExact(p, 0);
  }

  /** Two samples never share a byte, prefixes included; every slice lies in
      the block allocated and starts at a multiple of the alignment from its
      start. */
  lemma TiledSamplesAreDisjoint(made: seq<MediaSample>, base: nat, p: Properties, j: nat, k: nat)
    requires RequestFits(p) && TiledFor(made, base, p)
    requires j < k < |made|
    ensures made[j].m_pBuffer + made[j].m_cbBuffer <= made[k].m_pBuffer - p.cbPrefix
    ensures base <= made[j].m_pBuffer - p.cbPrefix
    ensures made[k].m_pBuffer + made[k].m_cbBuffer <= base + p.cBuffers * AlignedSize(p).n
    ensures (made[k].m_pBuffer - p.cbPrefix - base) % p.cbAlign == 0
  {
    AlignedSizeFacts(p);
    hide AlignedSize, RequestFits;
    var n := AlignedSize(p).n;
    SliceOrder(j, k, p.cBuffers, n);
    SliceIsAligned(k, n, p.cbAlign);
  }

  lemma SlicePosition(made: seq<MediaSample>, base: nat, p: Properties, k: nat)
    requires RequestFits(p) && TiledFor(made, base, p) && k < |made|
    ensures made[k].m_pBuffer - p.cbPrefix == base + k * AlignedSize(p).n
  {
    hide AlignedSize, RequestFits;
  }

  lemma SliceOrder(j: nat, k: nat, count: nat, n: nat)
    requires j < k < count
    ensures 0 <= j * n && j * n + n <= k * n && k * n + n <= count * n
  {
    MulMonotone(0, j, n);
    MulMonotone(j + 1, k, n);
    MulMonotone(k + 1, count, n);
  }

  lemma SliceIsAligned(k: nat, n: nat, al: int)
    requires al > 0 && n % al == 0
    ensures (k * n) % al == 0
  {
    var m := n / al;
    assert n == m * al;
    assert k * n == (k * m) * al;
    MultipleHasNoRemainder(k * m, al);
  }

  /** In memory the prefixes are aligned too, provided the block is, which a
      power of two that divides the granularity guarantees. */
  lemma TiledSamplesAreAligned(made: seq<MediaSample>, base: nat, p: Properties, k: nat, e: nat, granularity: Word32)
    requires RequestFits(p) && TiledFor(made, base, p) && k < |made|
    requires p.cbAlign == Pow2(e) && AlignmentAccepted(p.cbAlign, granularity)
    requires granularity > 0 && base % granularity == 0
    ensures (made[k].m_pBuffer - p.cbPrefix) % p.cbAlign == 0
  {
    hide AlignedSize, AlignmentAccepted, Pow2, Tiled, TiledFor;
    PowerOfTwoAccepted(e, p.cbAlign, granularity);
    AlignedSizeFacts(p);
    SlicePosition(made, base, p, k);
    var n, al := AlignedSize(p).n, p.cbAlign;
    BlockIsAligned(base, granularity, al);
    SliceIsAligned(k, n, al);
    SumIsAligned(base, k * n, al);
  }

  /** Exactly the powers of two among the accepted alignments keep the promise:
      for them, and for no others, every slice of every block that the system
      may return starts at a multiple of the alignment. */
  lemma SlicesAreAlignedExactly(p: Properties, g: nat, granularity: Word32)
    requires RequestFits(p) && p.cbAlign > 0 && granularity == Pow2(g) && AlignmentAccepted(p.cbAlign, granularity)
    ensures (exists e :: p.cbAlign == Pow2(e))
       <==> forall base: nat, k: nat | base % granularity == 0 :: SliceStart(base, k, p) % p.cbAlign == 0
  {
    hide AlignedSize, AlignmentAccepted, Pow2, SliceStart, RequestFits;
    AlignmentIsKeptExactly(p.cbAlign, g, granularity);
    if granularity % p.cbAlign == 0 {
      forall base: nat, k: nat | base % granularity == 0
        ensures SliceStart(base, k, p) % p.cbAlign == 0
      {
        SliceInAlignedBlock(base, k, p, granularity);
      }
    } else {
      FirstSlice(granularity, p);
      assert granularity % granularity == 0;
    }
  }

  lemma SliceInAlignedBlock(base: nat, k: nat, p: Properties, granularity: Word32)
    requires RequestFits(p) && granularity > 0 && base % granularity == 0 && granularity % p.cbAlign == 0
    ensures SliceStart(base, k, p) % p.cbAlign == 0
  {
    hide AlignedSize;
    AlignedSizeFacts(p);
    BlockIsAligned(base, granularity, p.cbAlign);
    SliceIsAligned(k, AlignedSize(p).n, p.cbAlign);
    MulMonotone(0, k, AlignedSize(p).n);
    SumIsAligned(base, k * AlignedSize(p).n, p.cbAlign);
  }

  lemma FirstSlice(base: nat, p: Properties)
    requires RequestFits(p)
    ensures SliceStart(base, 0, p) == base && p.cbAlign > 0
  {
  }

  /** Where the k-th prefix lies. */
  function SliceStart(base: nat, k: nat, p: Properties): nat
    requires RequestFits(p)
  {
    AlignedSizeFacts(p);
    MulMonotone(0, k, AlignedSize(p).n);
    base + k * AlignedSize(p).n
  }

  /** For one, an accepted alignment of 3 puts the first sample of a block at
      64K one byte past a multiple of 3. */
  lemma MisalignedAtThree(made: seq<MediaSample>, p: Properties)
    requires RequestFits(p) && p.cbAlign == 3 && TiledFor(made, 0x1_0000, p) && |made| > 0
    ensures AlignmentAccepted(3, 0x1_0000)
    ensures (made[0].m_pBuffer - p.cbPrefix) % 3 == 1
  {
    SlicePosition(made, 0x1_0000, p, 0);
    SixteenBits();
    ThreeIsAccepted(16, 0x1_0000);
  }

  lemma SixteenBits()
    ensures Pow2(16) == 0x1_0000
  {
    assert Pow2(4) == 0x10;
    assert Pow2(8) == 0x100;
    assert Pow2(12) == 0x1000;
  }

  lemma BlockIsAligned(base: nat, granularity: nat, al: int)
    requires al > 0 && granularity > 0 && base % granularity == 0 && granularity % al == 0
    ensures base % al == 0
  {
    assert base == (base / granularity) * granularity;
    SliceIsAligned(base / granularity, granularity, al);
  }

  lemma SumIsAligned(x: nat, y: nat, al: int)
    requires al > 0 && x % al == 0 && y % al == 0
    ensures (x + y) % al == 0
  {
    assert x + y == (x / al + y / al) * al;
    MultipleHasNoRemainder(x / al + y / al, al);
  }

  class MemAllocator {
    const m_lFree: SampleList
    var m_hSem: nat
    var m_lWaiting: nat
    var m_lCount: Int32
    var m_lAllocated: nat
    var m_lSize: Int32
    var m_lAlignment: Int32
    var m_lPrefix: Int32
    var m_bChanged: bool
    var m_bCommitted: bool
    var m_bDecommitInProgress: bool
    var m_pBuffer: nat
    var m_cRefSelf: int

    ghost predicate Valid()
      reads this, m_lFree, m_lFree.items
    {
      m_lFree.Valid()
    }

    ghost function Model(): Alloc<MediaSample>
      reads this, m_lFree
    {
      AllocatorState.Alloc.Alloc(m_lFree.items, Sem(m_lWaiting, m_hSem), m_lAllocated,
            Properties(m_lCount, m_lSize, m_lAlignment, m_lPrefix),
            m_bChanged, m_bCommitted, m_bDecommitInProgress, m_pBuffer != 0, m_cRefSelf)
    }

    constructor ()
      ensures Valid() && Model() == Created() && fresh(m_lFree)
    {
      m_lFree := new SampleList();
      m_hSem, m_lWaiting := 0, 0;
      m_lCount, m_lAllocated, m_lSize, m_lAlignment, m_lPrefix := 0, 0, 0, 0, 0;
      m_bChanged, m_bCommitted, m_bDecommitInProgress := false, false, false;
      m_pBuffer, m_cRefSelf := 0, 0;
    }

    method NotifySample()
      modifies this`m_hSem, this`m_lWaiting
      ensures Model() == old(Model()).(sem := old(Model()).sem.Notify())
      ensures m_lWaiting == 0
      ensures m_hSem == if old(m_hSem + m_lWaiting) <= 0x7FFF_FFFF then old(m_hSem + m_lWaiting) else old(m_hSem)
    {
      if m_lWaiting != 0 {
        if m_hSem + m_lWaiting <= SEM_MAX {
          m_hSem := m_hSem + m_lWaiting;
        }
        m_lWaiting := 0;
      }
    }

    /** `CMemAllocator::SetProperties`. */
    method SetProperties(pRequest: Properties, granularity: Word32) returns (hr: HResult)
      requires Valid()
      modifies this`m_lSize, this`m_lCount, this`m_lAlignment, this`m_lPrefix, this`m_bChanged
      ensures Valid()
      ensures (Model(), hr) == AllocatorState.SetProperties(old(Model()), pRequest, granularity)
      ensures hr == BadAlign <==> !AlignmentAccepted(pRequest.cbAlign, granularity)
      ensures hr == AlreadyCommitted ==> m_bCommitted
      ensures hr == BuffersOutstanding ==> !m_bCommitted && |m_lFree.items| < m_lAllocated
      ensures hr == NoError ==>
                && !m_bCommitted && |m_lFree.items| >= m_lAllocated && m_bChanged
                && m_lCount == pRequest.cBuffers && m_lAlignment == pRequest.cbAlign && m_lPrefix == pRequest.cbPrefix
                && m_lSize == RoundedSize(pRequest)
      ensures hr in {BadAlign, AlreadyCommitted, BuffersOutstanding, NoError}
      ensures hr != NoError ==> Model() == old(Model())
    {
      hide RoundedSize, And, Wrap32;
      if pRequest.cbAlign == 0 || And(granularity, ToWord32(Wrap32(pRequest.cbAlign - 1))) != 0 {
        return BadAlign;
      }
      if m_bCommitted {
        return AlreadyCommitted;
      }
      if m_lFree.m_nOnList < m_lAllocated {
        return BuffersOutstanding;
      }
      m_lSize := RoundSize(pRequest);
      m_lCount := pRequest.cBuffers;
      m_lAlignment := pRequest.cbAlign;
      m_lPrefix := pRequest.cbPrefix;
      m_bChanged := true;
      hr := NoError;
    }

    static method RoundSize(pRequest: Properties) returns (size: Int32)
      requires pRequest.cbAlign != 0
      ensures size == RoundedSize(pRequest)
    {
      var lSize: Int32 := Wrap32(pRequest.cbBuffer + pRequest.cbPrefix);
      RemainderInRange(lSize, pRequest.cbAlign);
      hide CRem;
      var lRemainder := CRem(lSize, pRequest.cbAlign);
      if lRemainder != 0 {
        lSize := Wrap32(Wrap32(lSize - lRemainder) + pRequest.cbAlign);
      }
      size := Wrap32(lSize - pRequest.cbPrefix);
    }

    /** `ReallyFree`: every sample on the free list and the block go. */
    method ReallyFree()
      requires Valid()
      modifies this`m_lAllocated, this`m_pBuffer, m_lFree
      ensures Valid()
      ensures Model() == old(Model()).(free := [], lAllocated := 0, hasBuffer := false)
    {
      var pSample := m_lFree.RemoveHead();
      while pSample != null
        invariant Valid()
        invariant pSample == null ==> m_lFree.items == []
        decreases |m_lFree.items|, if pSample == null then 0 else 1
      {
        pSample := m_lFree.RemoveHead();
      }
      m_lAllocated := 0;
      m_pBuffer := 0;
    }

    /** `CMemAllocator::Alloc`. `base` is what `VirtualAlloc` returns, zero
        when it fails; `supply` is the number of samples that can be created.
        The samples made tile the block in the order of their creation. */
    method Alloc(base: nat, supply: nat) returns (hr: HResult, ghost made: seq<MediaSample>)
      requires Valid()
      requires |m_lFree.items| == m_lAllocated && (m_pBuffer == 0 ==> m_lAllocated == 0)
      modifies this`m_lAllocated, this`m_pBuffer, this`m_bChanged, m_lFree
      ensures Valid()
      ensures (Model(), hr) == AllocMemory(old(Model()), base != 0, made)
      ensures fresh(made) && NoDup(made)
      ensures |made| ==
                        if old(m_bChanged) && PropertiesSet(Model().props)
                           && RequestFits(Model().props) && base != 0 then
                          if supply < m_lCount then supply else m_lCount
                        else 0
      ensures RequestFits(Model().props) ==> TiledFor(made, base, Model().props)
      ensures hr == SizeNotSet <==> m_lCount <= 0 || m_lSize <= 0 || m_lAlignment <= 0
      ensures hr != SizeNotSet && old(m_bChanged) ==>
                && hr == (if RequestFits(Model().props) && base != 0 && supply >= m_lCount then NoError
                          else OutOfMemory)
                && m_lFree.items == Reversed(made) && m_lAllocated == |made|
    {
      hide AlignedSize, RequestFits, NoDup, Tiled, MakeSamples;
      NoDupEmpty<MediaSample>();
      TiledForNone(base, Model().props);
      made := [];
      if m_lCount <= 0 || m_lSize <= 0 || m_lAlignment <= 0 {
        return SizeNotSet, made;
      }
      if !m_bChanged {
        return NoError, made;
      }
      if m_pBuffer != 0 {
        ReallyFree();
      }
      hr, made := AllocBlock(base, supply);
    }

    /** The rest of `Alloc`, with the old block gone. */
    method AllocBlock(base: nat, supply: nat) returns (hr: HResult, ghost made: seq<MediaSample>)
      requires Valid() && m_lFree.items == [] && m_lAllocated == 0 && m_pBuffer == 0
      requires PropertiesSet(Model().props)
      modifies this`m_lAllocated, this`m_pBuffer, this`m_bChanged, m_lFree
      ensures Valid()
      ensures (Model(), hr) == MakeSamples(old(Model()), base != 0, made)
      ensures fresh(made) && NoDup(made)
      ensures |made| == if RequestFits(Model().props) && base != 0 then
                          if supply < m_lCount then supply else m_lCount
                        else 0
      ensures RequestFits(Model().props) ==> TiledFor(made, base, Model().props)
      ensures hr == if RequestFits(Model().props) && base != 0 && supply >= m_lCount then NoError else OutOfMemory
      ensures m_lFree.items == Reversed(made) && m_lAllocated == |made|
    {
      hide AlignedSize, NoDup;
      NoDupEmpty<MediaSample>();
      made := [];
      if m_lSize < 0 || m_lPrefix < 0 || m_lCount < 0 {
        return OutOfMemory, made;
      }
      var size := RoundAgain(Properties(m_lCount, m_lSize, m_lAlignment, m_lPrefix));
      if size.Overflow? {
        return OutOfMemory, made;
      }
      if m_lCount * size.n > 0x7FFF_FFFF {
        return OutOfMemory, made;
      }
      m_pBuffer := base;
      if m_pBuffer == 0 {
        return OutOfMemory, made;
      }
      hr, made := FillBlock(size.n, supply);
      assert Reversed(made) + [] == Reversed(made);
    }

    /** The aligned size and its overflow checks. */
    static method RoundAgain(p: Properties) returns (size: Size)
      requires p.cbBuffer >= 0 && p.cbPrefix >= 0 && p.cbAlign > 0
      ensures size == AlignedSize(p)
      ensures size.Bytes? ==> size.n >= p.cbBuffer
    {
      var lAlignedSize: Int32 := Wrap32(p.cbBuffer + p.cbPrefix);
      if lAlignedSize < p.cbBuffer {
        return Overflow;
      }
      if p.cbAlign > 1 {
        RemainderInRange(lAlignedSize, p.cbAlign);
        hide CRem;
        var lRemainder := CRem(lAlignedSize, p.cbAlign);
        if lRemainder != 0 {
          var lNewSize := Wrap32(Wrap32(lAlignedSize + p.cbAlign) - lRemainder);
          if lNewSize < lAlignedSize {
            return Overflow;
          }
          lAlignedSize := lNewSize;
        }
      }
      size := Bytes(lAlignedSize);
    }

    /** The loop of `Alloc`. */
    method FillBlock(lAlignedSize: nat, supply: nat) returns (hr: HResult, ghost made: seq<MediaSample>)
      requires Valid() && m_lFree.items == [] && m_lAllocated == 0 && m_pBuffer != 0
      requires m_lCount >= 0 && m_lPrefix >= 0 && m_lSize >= 0
      modifies this`m_lAllocated, this`m_bChanged, m_lFree
      ensures Valid()
      ensures |made| == if supply < m_lCount then supply else m_lCount
      ensures hr == if supply < m_lCount then OutOfMemory else NoError
      ensures m_lFree.items == Reversed(made) && m_lAllocated == |made|
      ensures m_bChanged == if supply < m_lCount then old(m_bChanged) else false
      ensures fresh(made) && NoDup(made)
      ensures Tiled(made, m_pBuffer, lAlignedSize, m_lPrefix, m_lSize)
    {
      hide NoDup;
      made := [];
      NoDupEmpty<MediaSample>();
      var pNext: nat := m_pBuffer;
      while m_lAllocated < m_lCount
        invariant Valid()
        invariant m_lAllocated == |made| <= m_lCount && |made| <= supply
        invariant m_lFree.items == Reversed(made)
        invariant fresh(made) && NoDup(made)
        invariant pNext == m_pBuffer + |made| * lAlignedSize
        invariant Tiled(made, m_pBuffer, lAlignedSize, m_lPrefix, m_lSize)
        invariant m_bChanged == old(m_bChanged)
      {
        if m_lAllocated == supply {
          return OutOfMemory, made;
        }
        var pSample := new MediaSample(pNext + m_lPrefix, m_lSize);
        ReversedSnoc(made, pSample);
        NoDupSnoc(made, pSample);
        ReversedMembers(made, pSample);
        TiledSnoc(made, pSample, m_pBuffer, lAlignedSize, m_lPrefix, m_lSize);
        m_lFree.Add(pSample);
        made := made + [pSample];
        m_lAllocated := m_lAllocated + 1;
        pNext := pNext + lAlignedSize;
      }
      m_bChanged := false;
      hr := NoError;
    }

    /** The last part of `Commit`: get the memory, take it back or stay alive. */
    method CommitMemory(base: nat, supply: nat) returns (hr: HResult, ghost made: seq<MediaSample>)
      requires Valid() && m_bCommitted
      requires |m_lFree.items| == m_lAllocated && (m_pBuffer == 0 ==> m_lAllocated == 0)
      modifies this, m_lFree
      ensures Valid()
      ensures var (a, h) := AllocMemory(old(Model()), base != 0, made);
              && hr == h
              && Model() == if h != NoError then a.(committed := false) else a.(selfRefs := a.selfRefs + 1)
      ensures fresh(made) && NoDup(made) && |made| <= (if old(m_lCount) > 0 then old(m_lCount) else 0)
      ensures RequestFits(Model().props) ==> TiledFor(made, base, Model().props)
      ensures m_bCommitted == (hr == NoError) && m_cRefSelf == old(m_cRefSelf) + (if hr == NoError then 1 else 0)
    {
      hide RequestFits, NoDup, Tiled, AllocMemory;
      hr, made := Alloc(base, supply);
      if hr != NoError {
        m_bCommitted := false;
      } else {
        m_cRefSelf := m_cRefSelf + 1;
      }
    }

    /** `Commit`, all of it inside the lock. */
    method Commit(base: nat, supply: nat, ghost owed: nat) returns (hr: HResult, ghost made: seq<MediaSample>)
      requires Valid() && LifeCycle(Model(), owed)
      modifies this, m_lFree
      ensures Valid() && LifeCycle(Model(), owed)
      ensures (Model(), hr) == AllocatorState.Commit(old(Model()), base != 0, made)
      ensures fresh(made) && NoDup(made)
      ensures RequestFits(Model().props) ==> TiledFor(made, base, Model().props)
      ensures m_bCommitted <==> hr == NoError
      ensures old(m_bCommitted || m_bDecommitInProgress) ==>
                && hr == NoError && !m_bDecommitInProgress
                && m_lFree.items == old(m_lFree.items) && m_cRefSelf == old(m_cRefSelf)
      ensures !old(m_bCommitted || m_bDecommitInProgress) && hr == NoError ==> m_cRefSelf == old(m_cRefSelf) + 1
    {
      hide RequestFits, NoDup, Tiled, AllocMemory, LifeCycle;
      made := [];
      NoDupEmpty<MediaSample>();
      TiledForNone(base, Model().props);
      CommitOpening(Model(), owed);
      if m_bCommitted {
        return NoError, made;
      }
      m_bCommitted := true;
      if m_bDecommitInProgress {
        m_bDecommitInProgress := false;
        CommitKeepsLifeCycle(old(Model()), owed, base != 0, made);
        return NoError, made;
      }
      hr, made := CommitMemory(base, supply);
      CommitKeepsLifeCycle(old(Model()), owed, base != 0, made);
    }

    /** The locked section of `Decommit`. `Free` does nothing here. */
    method Decommit() returns (bRelease: bool)
      requires Valid()
      modifies this
      ensures Valid()
      ensures (Model(), bRelease) == AllocatorState.Decommit(old(Model()))
      ensures !m_bCommitted && m_lFree.items == old(m_lFree.items)
      ensures old(m_bCommitted || m_bDecommitInProgress) ==>
                && m_bDecommitInProgress == (|m_lFree.items| < m_lAllocated) && bRelease == !m_bDecommitInProgress
                && m_lWaiting == 0
    {
      bRelease := false;
      if !m_bCommitted {
        if !m_bDecommitInProgress {
          return;
        }
      }
      m_bCommitted := false;
      if m_lFree.m_nOnList < m_lAllocated {
        m_bDecommitInProgress := true;
      } else {
        m_bDecommitInProgress := false;
        bRelease := true;
      }
      NotifySample();
    }

    /** The locked section of `GetBuffer`. */
    method TryGetBuffer() returns (pSample: MediaSample?, committed: bool)
      requires Valid()
      modifies this`m_lWaiting, m_lFree
      ensures Valid()
      ensures var (a, r) := AllocatorState.GetBuffer(old(Model()));
              && Model() == a
              && committed == !r.Rejected?
              && pSample == match r { case Got(x) => x case _ => null }
      ensures committed == m_bCommitted
      ensures pSample == if committed && old(m_lFree.items) != [] then old(m_lFree.items)[0] else null
      ensures m_lFree.items == if pSample != null then old(m_lFree.items)[1..] else old(m_lFree.items)
      ensures m_lWaiting == old(m_lWaiting) + (if committed && pSample == null then 1 else 0)
    {
      pSample, committed := null, m_bCommitted;
      if !m_bCommitted {
        return;
      }
      pSample := m_lFree.RemoveHead();
      if pSample == null {
        m_lWaiting := m_lWaiting + 1;
      }
    }

    /** The locked section of `ReleaseBuffer`. */
    method ReleaseBuffer(pSample: MediaSample) returns (bRelease: bool)
      requires Valid() && pSample !in m_lFree.items
      modifies this, m_lFree, pSample
      ensures Valid()
      ensures (Model(), bRelease) == AllocatorState.ReleaseBuffer(old(Model()), pSample)
      ensures m_lFree.items == [pSample] + old(m_lFree.items) && m_lWaiting == 0
      ensures bRelease <==> old(m_bDecommitInProgress) && |m_lFree.items| == m_lAllocated
      ensures m_bDecommitInProgress == (old(m_bDecommitInProgress) && !bRelease) && m_bCommitted == old(m_bCommitted)
    {
      bRelease := false;
      m_lFree.Add(pSample);
      if m_lWaiting != 0 {
        NotifySample();
      }
      var l1 := m_lFree.m_nOnList;
      if m_bDecommitInProgress && l1 == m_lAllocated {
        m_bDecommitInProgress := false;
        bRelease := true;
      }
    }
  }

  lemma TiledForNone(base: nat, p: Properties)
    ensures RequestFits(p) ==> TiledFor([], base, p)
  {
  }

  /** What `Alloc` may assume when `Commit` calls it. */
  lemma CommitOpening<S>(a: AllocatorState.Alloc<S>, owed: nat)
    requires LifeCycle(a, owed)
    ensures !a.committed && !a.decommitting ==> |a.free| == a.lAllocated
    ensures !a.hasBuffer ==> a.lAllocated == 0
    ensures a.committed ==> !a.decommitting
  {
  }

  lemma TiledSnoc(made: seq<MediaSample>, x: MediaSample, base: nat, n: nat, prefix: nat, size: nat)
    requires Tiled(made, base, n, prefix, size)
    requires x.m_pBuffer == base + |made| * n + prefix && x.m_cbBuffer == size
    ensures Tiled(made + [x], base, n, prefix, size)
    ensures (|made| + 1) * n == |made| * n + n
  {
  }
}
