/** The state of a memory allocator as a value, and what each of its locked
    sections does to it. `S` stands for samples. */
module AllocatorState {
  import opened FixedWidth
  import opened LazySemaphore
  import opened Sequences

  datatype HResult =
    | NoError | SFalse
    | NotCommitted | AlreadyCommitted | BuffersOutstanding
    | BadAlign | SizeNotSet | OutOfMemory

  datatype Properties = Properties(cBuffers: Int32, cbBuffer: Int32, cbAlign: Int32, cbPrefix: Int32)

  /** `free` lists the head first; `selfRefs` is the net number of references
      the allocator has taken on itself. */
  datatype Alloc<S> = Alloc(
    free: seq<S>,
    sem: Sem,
    lAllocated: nat,
    props: Properties,
    changed: bool,
    committed: bool,
    decommitting: bool,
    hasBuffer: bool,
    selfRefs: int)

  function Created<S>(): Alloc<S> {
    Alloc([], Sem(0, 0), 0, Properties(0, 0, 0, 0), false, false, false, false, 0)
  }

  // ----- 32-bit signed arithmetic of the size computations -----

  function Wrap32(x: int): Int32
    requires -0x1_0000_0000 <= x < 0x1_0000_0000
  {
    if x >= 0x8000_0000 then x - 0x1_0000_0000
    else if x < -0x8000_0000 then x + 0x1_0000_0000
    else x
  }

  /** C's `%`: the remainder has the sign of the dividend. */
  function CRem(a: int, b: int): int
    requires b != 0
  {
    if a >= 0 then Abs(a) % Abs(b) else -(Abs(a) % Abs(b))
  }

  /** Bitwise and of unsigned words. */
  function And(x: nat, y: nat): nat
    decreases x
  {
    if x == 0 then 0 else (if x % 2 == 1 && y % 2 == 1 then 1 else 0) + 2 * And(x / 2, y / 2)
  }

  /** The alignment test of `SetProperties`. */
  predicate AlignmentAccepted(cbAlign: Int32, granularity: Word32) {
    cbAlign != 0 && And(granularity, ToWord32(Wrap32(cbAlign - 1))) == 0
  }

  /** The buffer size `SetProperties` settles on: prefix and data together are
      rounded up to the alignment. */
  function RoundedSize(req: Properties): Int32
    requires req.cbAlign != 0
  {
    var lSize := Wrap32(req.cbBuffer + req.cbPrefix);
    var lRemainder := CRem(lSize, req.cbAlign);
    RemainderInRange(lSize, req.cbAlign);
    var lRounded := if lRemainder != 0 then Wrap32(Wrap32(lSize - lRemainder) + req.cbAlign) else lSize;
    Wrap32(lRounded - req.cbPrefix)
  }

  lemma RemainderInRange(a: Int32, b: int)
    requires b != 0
    ensures -0x8000_0000 <= a - CRem(a, b) < 0x8000_0000
    ensures -0x8000_0000 <= CRem(a, b) < 0x8000_0000
    ensures a >= 0 ==> 0 <= CRem(a, b) < Abs(b)
  {
    var m := Abs(a);
    DivModIsQuotRem(m, Abs(b));
    QuotientBound(m, Abs(b), m / Abs(b), m % Abs(b), 0);
    MulMonotone(0, m / Abs(b), Abs(b));
  }

  function SetProperties<S>(a: Alloc<S>, req: Properties, granularity: Word32): (Alloc<S>, HResult) {
    if !AlignmentAccepted(req.cbAlign, granularity) then (a, BadAlign)
    else if a.committed then (a, AlreadyCommitted)
    else if |a.free| < a.lAllocated then (a, BuffersOutstanding)
    else (a.(props := req.(cbBuffer := RoundedSize(req)), changed := true), NoError)
  }

  /** The size of one sample with its prefix, or nothing when it overflows. */
  datatype Size = Overflow | Bytes(n: Int32)

  function AlignedSize(p: Properties): Size
    requires p.cbBuffer >= 0 && p.cbPrefix >= 0 && p.cbAlign > 0
  {
    var lAlignedSize := Wrap32(p.cbBuffer + p.cbPrefix);
    if lAlignedSize < p.cbBuffer then Overflow
    else
      RemainderInRange(lAlignedSize, p.cbAlign);
      var lRemainder := CRem(lAlignedSize, p.cbAlign);
      if p.cbAlign > 1 && lRemainder != 0 then
        var lNewSize := Wrap32(Wrap32(lAlignedSize + p.cbAlign) - lRemainder);
        if lNewSize < lAlignedSize then Overflow else Bytes(lNewSize)
      else
        Bytes(lAlignedSize)
  }

  predicate PropertiesSet(p: Properties) {
    p.cBuffers > 0 && p.cbBuffer > 0 && p.cbAlign > 0
  }

  /** The checks of `CMemAllocator::Alloc` before it asks for memory. */
  predicate RequestFits(p: Properties) {
    && PropertiesSet(p) && p.cbPrefix >= 0
    && AlignedSize(p).Bytes?
    && p.cBuffers * AlignedSize(p).n <= 0x7FFF_FFFF
  }

  /** `CMemAllocator::Alloc` once the old block is gone. `granted` says whether
      the new block could be had and `made` are the samples that could be
      created in it. */
  function MakeSamples<S>(a: Alloc<S>, granted: bool, made: seq<S>): (Alloc<S>, HResult) {
    if !RequestFits(a.props) || !granted then (a, OutOfMemory)
    else
      var filled := a.(hasBuffer := true, free := Reversed(made) + a.free, lAllocated := a.lAllocated + |made|);
      if |made| < a.props.cBuffers then (filled, OutOfMemory)
      else (filled.(changed := false), NoError)
  }

  /** `ReallyFree`, called when there is a block. */
  function FreeMemory<S>(a: Alloc<S>): Alloc<S> {
    if a.hasBuffer then a.(free := [], lAllocated := 0, hasBuffer := false) else a
  }

  function AllocMemory<S>(a: Alloc<S>, granted: bool, made: seq<S>): (Alloc<S>, HResult) {
    if !PropertiesSet(a.props) then (a, SizeNotSet)
    else if !a.changed then (a, NoError)
    else MakeSamples(FreeMemory(a), granted, made)
  }

  function Commit<S>(a: Alloc<S>, granted: bool, made: seq<S>): (Alloc<S>, HResult) {
    if a.committed then (a, NoError)
    else if a.decommitting then (a.(committed := true, decommitting := false), NoError)
    else
      var (a', hr) := AllocMemory(a.(committed := true), granted, made);
      if hr != NoError then (a'.(committed := false), hr)
      else (a'.(selfRefs := a'.selfRefs + 1), NoError)
  }

  /** The flag returned says whether the caller has to release the allocator's
      reference on itself once outside the lock. */
  function Decommit<S>(a: Alloc<S>): (Alloc<S>, bool) {
    if !a.committed && !a.decommitting then (a, false)
    else
      var outstanding := |a.free| < a.lAllocated;
      (a.(committed := false, decommitting := outstanding, sem := a.sem.Notify()), !outstanding)
  }

  function ReleaseBuffer<S>(a: Alloc<S>, sample: S): (Alloc<S>, bool) {
    var a' := a.(free := [sample] + a.free, sem := if a.sem.lWaiting != 0 then a.sem.Notify() else a.sem);
    if a'.decommitting && |a'.free| == a'.lAllocated then (a'.(decommitting := false), true)
    else (a', false)
  }

  datatype Attempt<S> = Rejected | Got(sample: S) | Empty

  /** The locked section of `GetBuffer`. */
  function GetBuffer<S>(a: Alloc<S>): (Alloc<S>, Attempt<S>) {
    if !a.committed then (a, Rejected)
    else if a.free == [] then (a.(sem := a.sem.SetWaiting()), Empty)
    else (a.(free := a.free[1..]), Got(a.free[0]))
  }

  // ----- What the size computations guarantee -----

  /** The arithmetic is that of 32-bit C: sums wrap, and the remainder has the
      sign of the dividend. */
  lemma SumsWrap(x: int)
    requires -0x1_0000_0000 <= x < 0x1_0000_0000
    ensures Wrap32(x) == x || Wrap32(x) == x + 0x1_0000_0000 || Wrap32(x) == x - 0x1_0000_0000
  {
  }

  lemma RemainderIsThatOfC(a: int, b: int) returns (q: int)
    requires b != 0
    ensures a == q * b + CRem(a, b) && IsTruncRemainder(a, Abs(b), CRem(a, b))
  {
    hide CRem, IsQuotRem, IsTruncRemainder;
    var p, r := QuotientAndRemainder(Abs(a), Abs(b));
    q := SignedDivision(a, b, p, r);
    SignOfRemainder(a, b);
  }

  lemma QuotientAndRemainder(m: nat, c: nat) returns (q: nat, r: nat)
    requires c > 0
    ensures IsQuotRem(m, c, q, r) && r == m % c
  {
    q, r := m / c, m % c;
    DivModIsQuotRem(m, c);
  }

  lemma SignOfRemainder(a: int, b: int)
    requires b != 0
    ensures CRem(a, b) == if a < 0 then -(Abs(a) % Abs(b)) else Abs(a) % Abs(b)
  {
  }

  lemma SignedDivision(a: int, b: int, q: int, r: int) returns (t: int)
    requires IsQuotRem(Abs(a), Abs(b), q, r) && q >= 0
    ensures var s := if a < 0 then -r else r; a - t * b == s && IsTruncRemainder(a, Abs(b), s)
  {
    hide IsTruncRemainder;
    t := if (a < 0) != (b < 0) then -q else q;
    ProductMagnitude(a, b, t, q);
    RemainderRange(a, Abs(b), q, r);
  }

  lemma RemainderRange(a: int, c: nat, q: int, r: int)
    requires IsQuotRem(Abs(a), c, q, r) && q >= 0
    ensures IsTruncRemainder(a, c, if a < 0 then -r else r)
  {
    MulMonotone(0, q, c);
  }

  ghost predicate NonOverflowing(req: Properties) {
    && req.cbBuffer >= 0 && req.cbPrefix >= 0 && req.cbAlign > 0
    && req.cbBuffer + req.cbPrefix + req.cbAlign - 1 < 0x8000_0000
  }

  /** The agreed size holds what was asked for, and size and prefix together
      are the least multiple of the alignment that does. */
  lemma RoundedSizeIsLeast(req: Properties, other: int)
    requires NonOverflowing(req)
    ensures RoundedSize(req) >= req.cbBuffer
    ensures (RoundedSize(req) + req.cbPrefix) % req.cbAlign == 0
    ensures other % req.cbAlign == 0 && other >= req.cbBuffer + req.cbPrefix ==>
              other >= RoundedSize(req) + req.cbPrefix
  {
    var sum, al := req.cbBuffer + req.cbPrefix, req.cbAlign;
    assert CRem(sum, al) == sum % al;
    hide CRem;
    RoundUp(sum, al, other);
  }

  lemma RoundUp(sum: nat, al: int, other: int)
    requires al > 0
    ensures var up := if sum % al != 0 then sum - sum % al + al else sum;
            up >= sum && up % al == 0 && (other % al == 0 && other >= sum ==> other >= up)
  {
    var up := if sum % al != 0 then sum - sum % al + al else sum;
    var k := if sum % al != 0 then sum / al + 1 else sum / al;
    assert up == k * al;
    MultipleHasNoRemainder(k, al);
    if other % al == 0 && other >= sum && other < up {
      var j := other / al;
      assert other == j * al;
      if j >= k {
        MulMonotone(k, j, al);
      } else {
        MulMonotone(j, k - 1, al);
      }
    }
  }

  lemma MultipleHasNoRemainder(k: int, al: int)
    requires al > 0
    ensures (k * al) % al == 0
  {
    var x := k * al;
    assert (x / al - k) * al == -(x % al);
    var d := x / al - k;
    if d >= 1 {
      MulMonotone(1, d, al);
    } else if d <= -1 {
      MulMonotone(d, -1, al);
    }
  }

  lemma AndStep(x: nat, y: nat)
    ensures And(x, y) == (if x % 2 == 1 && y % 2 == 1 then 1 else 0) + 2 * And(x / 2, y / 2)
  {
  }

  lemma {:induction false} AndLowBits(x: nat, k: nat)
    ensures And(x, Pow2(k) - 1) == x % Pow2(k)
    decreases k
  {
    if k == 0 {
      AndZero(x);
    } else {
      AndLowBits(x / 2, k - 1);
      AndLowBitsStep(x, Pow2(k - 1));
    }
  }

  lemma AndLowBitsStep(x: nat, p: nat)
    requires p > 0 && And(x / 2, p - 1) == (x / 2) % p
    ensures And(x, 2 * p - 1) == x % (2 * p)
  {
    hide And;
    AndStep(x, 2 * p - 1);
    assert (2 * p - 1) / 2 == p - 1 && (2 * p - 1) % 2 == 1;
    HalveRemainder(x, p);
  }

  lemma AndZero(x: nat)
    ensures And(x, 0) == 0
  {
  }

  lemma HalveRemainder(x: nat, p: nat)
    requires p > 0
    ensures x % (2 * p) == x % 2 + 2 * ((x / 2) % p)
  {
    var h := x / 2;
    DivModIsQuotRem(h, p);
    assert x == (h / p) * (2 * p) + (x % 2 + 2 * (h % p));
    QuotRemIsDivMod(x, 2 * p, h / p, x % 2 + 2 * (h % p));
  }

  /** For a power of two the test accepts exactly the divisors of the
      allocation granularity. */
  lemma PowerOfTwoAccepted(k: nat, cbAlign: Int32, granularity: Word32)
    requires cbAlign == Pow2(k)
    ensures AlignmentAccepted(cbAlign, granularity) <==> granularity % cbAlign == 0
  {
    AndLowBits(granularity, k);
  }

  lemma {:induction false} AndWithPowerOfTwo(g: nat, y: nat)
    ensures And(Pow2(g), y) == if (y / Pow2(g)) % 2 == 1 then Pow2(g) else 0
    decreases g
  {
    if g == 0 {
      AndStep(1, y);
    } else {
      AndWithPowerOfTwo(g - 1, y / 2);
      AndWithPowerOfTwoStep(Pow2(g - 1), y);
    }
  }

  lemma AndWithPowerOfTwoStep(p: nat, y: nat)
    requires p > 0 && And(p, y / 2) == if ((y / 2) / p) % 2 == 1 then p else 0
    ensures And(2 * p, y) == if (y / (2 * p)) % 2 == 1 then 2 * p else 0
  {
    hide And;
    AndStep(2 * p, y);
    assert (2 * p) / 2 == p && (2 * p) % 2 == 0;
    HalveQuotient(y, p);
  }

  lemma HalveQuotient(y: nat, p: nat)
    requires p > 0
    ensures y / (2 * p) == (y / 2) / p
  {
    var h := y / 2;
    DivModIsQuotRem(h, p);
    assert y == (h / p) * (2 * p) + (y % 2 + 2 * (h % p));
    QuotRemIsDivMod(y, 2 * p, h / p, y % 2 + 2 * (h % p));
  }

  /** With a granularity of 2^g the test looks at a single bit: every positive
      alignment up to the granularity passes, a power of two or not. */
  lemma AcceptedExactly(cbAlign: Int32, g: nat, granularity: Word32)
    requires granularity == Pow2(g)
    ensures AlignmentAccepted(cbAlign, granularity)
       <==> cbAlign != 0 && (ToWord32(Wrap32(cbAlign - 1)) / granularity) % 2 == 0
    ensures 0 < cbAlign <= granularity ==> AlignmentAccepted(cbAlign, granularity)
  {
    hide And, Pow2;
    var y := ToWord32(Wrap32(cbAlign - 1));
    AndWithPowerOfTwo(g, y);
    assert And(granularity, y) == if (y / granularity) % 2 == 1 then granularity else 0;
    DivModIsQuotRem(y, granularity);
    QuotientBound(y, granularity, y / granularity, y % granularity, 1);
  }

  lemma {:induction false} DividesPowerOfTwo(k: nat, a: nat, g: nat) returns (e: nat)
    requires k * a == Pow2(g)
    ensures a == Pow2(e)
    decreases g
  {
    assert Pow2(0) == 1;
    if g == 0 {
      FactorOfOne(k, a);
      e := 0;
    } else if a == 1 {
      e := 0;
    } else if a % 2 == 0 {
      var h := a / 2;
      assert k * a == 2 * (k * h);
      e := DividesPowerOfTwo(k, h, g - 1);
      e := e + 1;
    } else {
      OddFactor(k, a, Pow2(g - 1));
      var h := k / 2;
      assert k * a == 2 * (h * a);
      e := DividesPowerOfTwo(h, a, g - 1);
    }
  }

  lemma FactorOfOne(k: nat, a: nat)
    requires k * a == 1
    ensures a == 1
  {
    if a >= 2 {
      MulMonotone(if k == 0 then 0 else 1, k, a);
    }
  }

  lemma OddProduct(i: nat, j: nat)
    ensures (2 * i + 1) * (2 * j + 1) == 2 * (2 * (i * j) + i + j) + 1
  {
  }

  lemma OddFactor(k: nat, a: nat, p: nat)
    requires k * a == 2 * p && a % 2 == 1
    ensures k % 2 == 0
  {
    OddProduct(k / 2, a / 2);
    var rest := k % 2;
    assert k == 2 * (k / 2) + rest && a == 2 * (a / 2) + 1;
  }

  /** The alignments that keep their promise: with a granularity of 2^g, an
      accepted alignment divides it, and so divides the address of every block,
      exactly if it is a power of two. */
  lemma AlignmentIsKeptExactly(cbAlign: Int32, g: nat, granularity: Word32)
    requires granularity == Pow2(g) && cbAlign > 0 && AlignmentAccepted(cbAlign, granularity)
    ensures granularity % cbAlign == 0 <==> exists e :: cbAlign == Pow2(e)
    ensures granularity % cbAlign == 0 <==> forall base: nat | base % granularity == 0 :: base % cbAlign == 0
  {
    DividesEveryBase(granularity, cbAlign);
    if granularity % cbAlign == 0 {
      var e := DividesPowerOfTwo(granularity / cbAlign, cbAlign, g);
    } else if e :| cbAlign == Pow2(e) {
      PowerOfTwoAccepted(e, cbAlign, granularity);
    }
  }

  lemma DividesEveryBase(granularity: nat, al: nat)
    requires granularity > 0 && al > 0
    ensures granularity % al == 0 <==> forall base: nat | base % granularity == 0 :: base % al == 0
  {
    if granularity % al == 0 {
      forall base: nat | base % granularity == 0
        ensures base % al == 0
      {
        DividesMultiple(base, granularity, al);
      }
    } else {
      var base := granularity;
      assert base % granularity == 0 && base % al != 0;
    }
  }

  lemma DividesMultiple(base: nat, granularity: nat, al: nat)
    requires granularity > 0 && al > 0 && base % granularity == 0 && granularity % al == 0
    ensures base % al == 0
  {
    var m, k := base / granularity, granularity / al;
    assert base == m * granularity && granularity == k * al;
    assert base == (m * k) * al;
    MultipleHasNoRemainder(m * k, al);
  }

  /** Three divides no power of two, and yet is accepted by every granularity
      that is one, other than 2. */
  lemma ThreeIsAccepted(g: nat, granularity: Word32)
    requires granularity == Pow2(g)
    ensures AlignmentAccepted(3, granularity) <==> g != 1
    ensures granularity % 3 != 0
  {
    AcceptedExactly(3, g, granularity);
    assert Pow2(0) == 1 && Pow2(1) == 2;
    if g >= 2 {
      assert Pow2(g) == 2 * Pow2(g - 1) == 4 * Pow2(g - 2);
    }
    NotAMultipleOfThree(g);
  }

  lemma {:induction false} NotAMultipleOfThree(g: nat)
    ensures Pow2(g) % 3 != 0
  {
    if g > 0 {
      NotAMultipleOfThree(g - 1);
      DoublingKeepsRemainder(Pow2(g - 1), Pow2(g));
    }
  }

  lemma DoublingKeepsRemainder(x: nat, y: nat)
    requires x % 3 != 0 && y == 2 * x
    ensures y % 3 != 0
  {
  }

  // ----- What every locked section keeps -----

  /** The life cycle of an allocator that still owes itself `owed` releases:
      a pending decommit has buffers to wait for, an idle allocator has none,
      and there is one self-reference while it is committed or pending. */
  ghost predicate LifeCycle<S>(a: Alloc<S>, owed: nat) {
    && |a.free| <= a.lAllocated
    && (a.decommitting ==> !a.committed && |a.free| < a.lAllocated)
    && (!a.committed && !a.decommitting ==> |a.free| == a.lAllocated)
    && a.selfRefs == owed + (if a.committed || a.decommitting then 1 else 0)
    && (!a.hasBuffer ==> a.lAllocated == 0)
    && (PropertiesSet(a.props) && !a.changed ==> a.hasBuffer)
  }

  /** A commit that gets as far as freeing and remaking the samples. */
  ghost predicate Reallocates<S>(a: Alloc<S>) {
    !a.committed && !a.decommitting && PropertiesSet(a.props) && a.changed
  }

  lemma CommitKeepsLifeCycle<S>(a: Alloc<S>, owed: nat, granted: bool, made: seq<S>)
    requires LifeCycle(a, owed)
    requires Reallocates(a) ==> |made| <= a.props.cBuffers
    ensures LifeCycle(Commit(a, granted, made).0, owed)
    ensures var (a', hr) := Commit(a, granted, made);
            && (hr == NoError <==> a'.committed)
            && (hr == NoError && Reallocates(a) ==> |a'.free| == a'.lAllocated == a.props.cBuffers)
            && (hr != NoError ==> !a'.decommitting)
  {
  }

  lemma DecommitKeepsLifeCycle<S>(a: Alloc<S>, owed: nat)
    requires LifeCycle(a, owed)
    ensures var (a', release) := Decommit(a);
            && LifeCycle(a', if release then owed + 1 else owed)
            && !a'.committed
            && (a'.decommitting <==> |a.free| < a.lAllocated)
  {
  }

  lemma ReleaseKeepsLifeCycle<S>(a: Alloc<S>, owed: nat, sample: S)
    requires LifeCycle(a, owed) && |a.free| < a.lAllocated
    ensures var (a', release) := ReleaseBuffer(a, sample);
            && LifeCycle(a', if release then owed + 1 else owed)
            && (release <==> a.decommitting && |a.free| + 1 == a.lAllocated)
  {
  }

  lemma GetKeepsLifeCycle<S>(a: Alloc<S>, owed: nat)
    requires LifeCycle(a, owed)
    ensures LifeCycle(GetBuffer(a).0, owed)
  {
  }

  lemma SetPropertiesKeepsLifeCycle<S>(a: Alloc<S>, owed: nat, req: Properties, granularity: Word32)
    requires LifeCycle(a, owed)
    ensures var (a', hr) := SetProperties(a, req, granularity);
            && LifeCycle(a', owed)
            && (hr == NoError ==> |a.free| == a.lAllocated && !a.committed && !a.decommitting)
            && (hr != NoError ==> a' == a)
  {
  }

  /** Nobody is left counting on a wake-up that is due. */
  ghost predicate Notified<S>(a: Alloc<S>) {
    a.free != [] || !a.committed ==> a.sem.lWaiting == 0
  }

  /** Header invariant (1), for every locked section. */
  lemma SectionsKeepNotified<S>(a: Alloc<S>, owed: nat, sample: S, granted: bool,
                                made: seq<S>, req: Properties, granularity: Word32)
    requires LifeCycle(a, owed) && Notified(a)
    ensures Notified(GetBuffer(a).0)
    ensures Notified(ReleaseBuffer(a, sample).0)
    ensures Notified(Commit(a, granted, made).0)
    ensures Notified(Decommit(a).0)
    ensures Notified(SetProperties(a, req, granularity).0)
  {
  }

  /** Promised wake-ups change only when a thread is told to wait. */
  lemma SectionsKeepPromise<S>(a: Alloc<S>, sample: S, granted: bool, made: seq<S>,
                               req: Properties, granularity: Word32)
    requires a.sem.Promised() <= SEM_MAX
    ensures GetBuffer(a).0.sem.Promised() == a.sem.Promised() + (if GetBuffer(a).1.Empty? then 1 else 0)
    ensures ReleaseBuffer(a, sample).0.sem.Promised() == a.sem.Promised()
    ensures Commit(a, granted, made).0.sem == a.sem
    ensures Decommit(a).0.sem.Promised() == a.sem.Promised()
    ensures SetProperties(a, req, granularity).0.sem == a.sem
  {
  }

  lemma OtherChangesKeepLifeCycle<S>(a: Alloc<S>, owed: nat, sem: Sem)
    requires LifeCycle(a, owed)
    ensures LifeCycle(a.(sem := sem), owed)
    ensures owed > 0 ==> LifeCycle(a.(selfRefs := a.selfRefs - 1), owed - 1)
    ensures Notified(a) && sem.lWaiting == a.sem.lWaiting ==> Notified(a.(sem := sem))
    ensures Notified(a) ==> Notified(a.(selfRefs := a.selfRefs - 1))
  {
  }

  // ----- The size of one block -----

  /** `Alloc` rounds like `SetProperties` and misses no overflow: it finds a
      size exactly when the least multiple of the alignment that holds prefix
      and data is a positive 32-bit number, and then finds that multiple. */
  lemma AlignedSizeExact(p: Properties, n: int)
    requires p.cbBuffer >= 0 && p.cbPrefix >= 0 && p.cbAlign > 0
    ensures var sum := p.cbBuffer + p.cbPrefix;
            var up := if sum % p.cbAlign != 0 then sum - sum % p.cbAlign + p.cbAlign else sum;
            && up >= sum && up % p.cbAlign == 0
            && (n % p.cbAlign == 0 && n >= sum ==> n >= up)
            && AlignedSize(p) == if up < 0x8000_0000 then Bytes(up) else Overflow
  {
    var sum := p.cbBuffer + p.cbPrefix;
    RoundUp(sum, p.cbAlign, n);
    if sum < 0x8000_0000 {
      RemainderInRange(sum, p.cbAlign);
      assert CRem(sum, p.cbAlign) == sum % p.cbAlign;
    }
    hide CRem;
  }

  /** A block can be asked for exactly when it stays below 2^31 bytes, `up` being
      the least multiple of the alignment that holds prefix and data. */
  lemma BlockFitsExactly(p: Properties, up: int)
    requires p.cBuffers > 0 && p.cbBuffer > 0 && p.cbAlign > 0 && p.cbPrefix >= 0
    requires up % p.cbAlign == 0 && p.cbBuffer + p.cbPrefix <= up < p.cbBuffer + p.cbPrefix + p.cbAlign
    ensures RequestFits(p) <==> p.cBuffers * up < 0x8000_0000
  {
    hide AlignedSize;
    SizeIsTheLeast(p, up);
    MulMonotone(1, p.cBuffers, up);
  }

  lemma SizeIsTheLeast(p: Properties, up: int)
    requires p.cbBuffer > 0 && p.cbAlign > 0 && p.cbPrefix >= 0
    requires up % p.cbAlign == 0 && p.cbBuffer + p.cbPrefix <= up < p.cbBuffer + p.cbPrefix + p.cbAlign
    ensures AlignedSize(p) == if up < 0x8000_0000 then Bytes(up) else Overflow
  {
    hide AlignedSize;
    AlignedSizeExact(p, up);
    var sum := p.cbBuffer + p.cbPrefix;
    LeastIsUnique(sum, p.cbAlign, if sum % p.cbAlign != 0 then sum - sum % p.cbAlign + p.cbAlign else sum, up);
  }

  lemma LeastIsUnique(sum: nat, al: int, least: int, up: int)
    requires al > 0 && least == if sum % al != 0 then sum - sum % al + al else sum
    requires up % al == 0 && sum <= up < sum + al
    ensures least == up
  {
    RoundUp(sum, al, up);
    if up > least {
      var k, j := least / al, up / al;
      assert least == k * al && up == j * al;
      if j >= k + 1 {
        MulMonotone(k + 1, j, al);
      } else {
        MulMonotone(j, k, al);
      }
    }
  }

  /** What comes of an allocation with everything set: nothing is asked for
      when the properties are unchanged, and otherwise it succeeds exactly when
      the block fits and could be had, and all samples could be made in it. */
  lemma AllocationSucceedsExactly<S>(a: Alloc<S>, granted: bool, made: seq<S>, up: int)
    requires a.props.cBuffers > 0 && a.props.cbBuffer > 0 && a.props.cbAlign > 0 && a.props.cbPrefix >= 0
    requires up % a.props.cbAlign == 0
    requires a.props.cbBuffer + a.props.cbPrefix <= up < a.props.cbBuffer + a.props.cbPrefix + a.props.cbAlign
    requires a.changed && (a.hasBuffer || a.lAllocated == 0)
    ensures var (a', hr) := AllocMemory(a, granted, made);
            && (hr == NoError <==> granted && |made| >= a.props.cBuffers && a.props.cBuffers * up < 0x8000_0000)
            && (hr != NoError ==> hr == OutOfMemory && a'.changed)
            && (hr == NoError ==> a'.hasBuffer && !a'.changed && a'.lAllocated == |made|)
    ensures AllocMemory(a.(changed := false), granted, made) == (a.(changed := false), NoError)
  {
    BlockFitsExactly(a.props, up);
    hide RequestFits;
  }

  /** After an accepted `SetProperties` the two roundings agree, so that no
      byte lies between a sample's data and the next sample's prefix. */
  lemma RoundingTwiceIsRoundingOnce<S>(a: Alloc<S>, req: Properties, granularity: Word32)
    requires NonOverflowing(req)
    requires SetProperties(a, req, granularity).1 == NoError
    ensures var p := SetProperties(a, req, granularity).0.props;
            p.cbBuffer >= 0 && AlignedSize(p) == Bytes(p.cbBuffer + p.cbPrefix)
  {
    var p := SetProperties(a, req, granularity).0.props;
    RoundedSizeIsLeast(req, 0);
    hide RoundedSize;
    AlignedSizeExact(p, 0);
  }
}
