/** The frame statistics of `CBaseVideoRenderer`: running sums of lateness and
    of inter-frame time, and the standard deviations computed from them through
    `llMulDiv` and an integer square root. Reported times are in units of
    100 ns, samples in milliseconds. */
module FrameStatistics {
  import opened FixedWidth
  import opened ArithUtil

  const SECOND: int := 1000
  const LARGEST: int := SECOND * SECOND

  // ----- Sums of samples -----

  ghost function Sum(s: seq<int>): int {
    if s == [] then 0 else Sum(s[..|s| - 1]) + s[|s| - 1]
  }

  ghost function SumOfSquares(s: seq<int>): int {
    if s == [] then 0 else SumOfSquares(s[..|s| - 1]) + s[|s| - 1] * s[|s| - 1]
  }

  ghost predicate WithinASecond(s: seq<int>) {
    forall k | 0 <= k < |s| :: -SECOND <= s[k] <= SECOND
  }

  lemma SumsAppend(s: seq<int>, v: int)
    ensures Sum(s + [v]) == Sum(s) + v
    ensures SumOfSquares(s + [v]) == SumOfSquares(s) + v * v
  {
    assert (s + [v])[..|s|] == s;
  }

  lemma SquareBound(v: int)
    requires -SECOND <= v <= SECOND
    ensures 0 <= v * v <= LARGEST
  {
    if v >= 0 {
      MulMonotone(v, SECOND, v);
    } else {
      ProductSigns(v, v);
      MulMonotone(-v, SECOND, -v);
    }
  }

  lemma {:induction false} SumBounds(s: seq<int>)
    requires WithinASecond(s)
    ensures -SECOND * |s| <= Sum(s) <= SECOND * |s|
    ensures 0 <= SumOfSquares(s) <= LARGEST * |s|
  {
    if s != [] {
      SumBounds(s[..|s| - 1]);
      SquareBound(s[|s| - 1]);
    }
  }

  /** The sum of the squared distances from v is not negative. */
  lemma {:induction false} DistancesFrom(s: seq<int>, v: int)
    ensures SumOfSquares(s) - 2 * v * Sum(s) + |s| * (v * v) >= 0
  {
    if s != [] {
      var u, p := s[|s| - 1], s[..|s| - 1];
      DistancesFrom(p, v);
      DistancesStep(|p|, SumOfSquares(p), Sum(p), u, v);
    }
  }

  lemma DistancesStep(m: nat, q: int, t: int, u: int, v: int)
    requires q - 2 * v * t + m * (v * v) >= 0
    ensures (q + u * u) - 2 * v * (t + u) + (m + 1) * (v * v) >= 0
  {
    var d := u - v;
    SquareNonnegative(d);
    assert d * d == u * u - 2 * v * u + v * v;
    assert 2 * v * (t + u) == 2 * v * t + 2 * v * u;
    assert (m + 1) * (v * v) == m * (v * v) + v * v;
  }

  /** The Cauchy-Schwarz inequality for the two running sums. */
  lemma {:induction false} SquareOfSum(s: seq<int>)
    ensures |s| * SumOfSquares(s) >= Sum(s) * Sum(s)
  {
    if s != [] {
      var v, p := s[|s| - 1], s[..|s| - 1];
      SquareOfSum(p);
      DistancesFrom(p, v);
      SquareOfSumStep(|p|, SumOfSquares(p), Sum(p), v);
    }
  }

  lemma SquareOfSumStep(m: nat, q: int, t: int, v: int)
    requires m * q >= t * t && q - 2 * v * t + m * (v * v) >= 0
    ensures (m + 1) * (q + v * v) >= (t + v) * (t + v)
  {
    assert (m + 1) * (q + v * v) == m * q + m * (v * v) + q + v * v;
    assert (t + v) * (t + v) == t * t + 2 * v * t + v * v;
  }

  // ----- What the statistics stand for -----

  /** One call of `RecordFrameLateness`. */
  datatype Frame = Frame(trLate: Int32, trFrame: Int32)

  /** Lateness counts as at most a second either way. */
  function MillisecondsLate(trLate: Int32): (t: int)
    ensures -SECOND <= t <= SECOND
  {
    var t := TruncDiv(trLate, 10000);
    if t > SECOND then SECOND else if t < -SECOND then -SECOND else t
  }

  /** An inter-frame time that is negative or beyond a second counts as one. */
  function MillisecondsBetween(trFrame: Int32): (t: int)
    ensures 0 <= t <= SECOND
  {
    var t := TruncDiv(trFrame, 10000);
    if t > SECOND || t < 0 then SECOND else t
  }

  /** Both conversions, from the quotient that C's division by 10000 yields. */
  lemma ConversionsByQuotient(tr: Int32, q: int)
    requires IsTruncQuotient(tr, 10000, q)
    ensures MillisecondsLate(tr) == if q > 1000 then 1000 else if q < -1000 then -1000 else q
    ensures MillisecondsBetween(tr) == if 0 <= q <= 1000 then q else 1000
  {
    hide TruncDiv, IsTruncQuotient;
    TruncDivIsTheQuotient(tr, 10000, q);
  }

  /** The lateness of every frame since the reset but the first two. */
  ghost function LateSamples(frames: seq<Frame>): (s: seq<int>)
    ensures |s| == if |frames| >= 2 then |frames| - 2 else 0
    ensures forall k | 0 <= k < |s| :: s[k] == MillisecondsLate(frames[k + 2].trLate)
    ensures WithinASecond(s)
  {
    seq(if |frames| >= 2 then |frames| - 2 else 0,
        k requires 0 <= k < |frames| - 2 => MillisecondsLate(frames[k + 2].trLate))
  }

  /** The inter-frame time of every frame but the first three. */
  ghost function FrameSamples(frames: seq<Frame>): (s: seq<int>)
    ensures |s| == if |frames| >= 3 then |frames| - 3 else 0
    ensures forall k | 0 <= k < |s| :: s[k] == MillisecondsBetween(frames[k + 3].trFrame)
    ensures WithinASecond(s)
  {
    seq(if |frames| >= 3 then |frames| - 3 else 0,
        k requires 0 <= k < |frames| - 3 => MillisecondsBetween(frames[k + 3].trFrame))
  }

  lemma SamplesAppend(frames: seq<Frame>, f: Frame)
    ensures LateSamples(frames + [f])
         == if |frames| > 1 then LateSamples(frames) + [MillisecondsLate(f.trLate)] else []
    ensures FrameSamples(frames + [f])
         == if |frames| > 2 then FrameSamples(frames) + [MillisecondsBetween(f.trFrame)] else []
  {
  }

  /** The variance estimate for n observations: (S - T^2/n) / (n - 1), both
      divisions rounded down. */
  ghost function SampleVariance(s: seq<int>): int
    requires |s| >= 2
  {
    (SumOfSquares(s) - Sum(s) * Sum(s) / |s|) / (|s| - 1)
  }

  /** The renderer divides by one more than the number of samples summed. It
      so computes the variance of the samples and one further sample of 0. */
  ghost function Variance(s: seq<int>): int
    requires |s| >= 1
  {
    SampleVariance(s + [0])
  }

  /** The estimate lies in [0, 10^6] although its n is one too large, and no
      step of its computation leaves 64 bits. */
  lemma VarianceInRange(s: seq<int>)
    requires WithinASecond(s) && |s| >= 1
    ensures 0 <= Sum(s) * Sum(s) / (|s| + 1) <= SumOfSquares(s)
    ensures Variance(s) == (SumOfSquares(s) - Sum(s) * Sum(s) / (|s| + 1)) / |s|
    ensures 0 <= Variance(s) <= LARGEST
  {
    hide Sum, SumOfSquares, WithinASecond;
    SumsAppend(s, 0);
    SumBounds(s);
    SquareOfSum(s);
    EstimateInRange(|s|, SumOfSquares(s), Sum(s));
  }

  lemma EstimateInRange(m: nat, q: nat, t: int)
    requires m >= 1 && q <= LARGEST * m && m * q >= t * t
    ensures 0 <= t * t / (m + 1) <= q
    ensures 0 <= (q - t * t / (m + 1)) / m <= LARGEST
  {
    SquareNonnegative(t);
    OneMore(m, q);
    DivideWithin(t * t, m + 1, q);
    DivideWithin(q - t * t / (m + 1), m, LARGEST);
  }

  lemma OneMore(m: nat, q: nat)
    ensures (m + 1) * q == m * q + q
  {
  }

  lemma SquareNonnegative(v: int)
    ensures v * v >= 0
  {
  }

  lemma DivideWithin(n: nat, c: nat, bound: nat)
    requires c > 0 && n <= c * bound
    ensures 0 <= n / c <= bound
  {
    DivModIsQuotRem(n, c);
    QuotientBound(n, c, n / c, n % c, bound + 1);
    OneMore(bound, c);
  }

  // ----- The integer square root -----

  ghost function Root(x: nat): (r: nat)
    ensures r * r <= x < (r + 1) * (r + 1)
  {
    if x == 0 then 0
    else
      var r := Root(x - 1);
      if (r + 1) * (r + 1) <= x then r + 1 else r
  }

  /** What one Newton step y from s achieves, as distances from the root r. */
  lemma NewtonStep(x: nat, r: nat, s: nat, y: int)
    requires r >= 1 && r * r <= x < (r + 1) * (r + 1) && r <= s
    requires y == (s * s + x) / (2 * s)
    ensures r <= y && (y <= s || y <= r + 1)
    ensures var t := s - r; (y - r) * (2 * (r + t)) <= t * t + 2 * r
  {
    var t, u := s - r, y - r;
    DivModIsQuotRem(s * s + x, 2 * s);
    var rest := (s * s + x) % (2 * s);
    assert s * s + x == y * (2 * s) + rest;
    assert s * s == r * r + 2 * r * t + t * t;
    assert r * (2 * s) == 2 * r * r + 2 * r * t;
    assert y * (2 * s) == r * (2 * s) + u * (2 * s);
    assert u * (2 * s) == t * t + x - r * r - rest;
    if u <= -1 {
      MulMonotone(u, -1, 2 * s);
      SquareNonnegative(t);
    }
    if u >= t + 1 && u >= 2 {
      StepTooFar(r, t, u);
    }
  }

  lemma StepTooFar(r: nat, t: nat, u: nat)
    requires r >= 1 && u >= t + 1 && u >= 2
    ensures u * (2 * (r + t)) > t * t + 2 * r
  {
    MulMonotone(t + 1, u, 2 * (r + t));
    MulMonotone(2, u, 2 * (r + t));
    Expand(t, r, 1);
    MulMonotone(0, r, t);
    MulMonotone(0, t, t);
  }

  lemma LessByProduct(u: int, v: int, w: nat, n: int)
    requires u * w <= n < v * w
    ensures u < v
  {
    if v <= u {
      MulMonotone(v, u, w);
    }
  }

  lemma SquareLess(a: nat, b: nat)
    requires a * a < b * b
    ensures a < b
  {
    if b <= a {
      MulMonotone(b, a, a);
      MulMonotone(b, a, b);
    }
  }

  lemma Expand(r: int, t: int, k: int)
    ensures (r + k) * (2 * (r + t)) == 2 * (r * r) + 2 * (r * t) + 2 * (k * r) + 2 * (k * t)
  {
  }

  lemma ScaleProduct(k: int, u: int, w: int)
    ensures (k * u) * w == k * (u * w)
  {
  }

  /** From at most twice the root to within a quarter of it. */
  lemma FirstStep(r: nat, t: nat, u: nat)
    requires r >= 1 && t <= r && u * (2 * (r + t)) <= t * t + 2 * r
    ensures 4 * u <= r + 4
  {
    var w := 2 * (r + t);
    ScaleProduct(4, u, w);
    Expand(r, t, 5);
    MulMonotone(t, r, t);
    MulMonotone(t, r, r);
    LessByProduct(4 * u, r + 5, w, 4 * (t * t + 2 * r));
  }

  /** From a quarter of the root to about a fortieth of it. */
  lemma SecondStep(r: nat, t: nat, u: nat)
    requires r >= 1 && 4 * t <= r + 4 && u * (2 * (r + t)) <= t * t + 2 * r
    ensures 40 * u <= r + 49
  {
    var w := 2 * (r + t);
    ScaleProduct(40, u, w);
    Expand(r, t, 50);
    QuarterProducts(r, t);
    LessByProduct(40 * u, r + 50, w, 40 * (t * t + 2 * r));
  }

  lemma QuarterProducts(r: nat, t: nat)
    requires 4 * t <= r + 4
    ensures 4 * (t * t) <= r * t + 4 * t && 4 * (r * t) <= r * r + 4 * r
  {
    MulMonotone(4 * t, r + 4, t);
    MulMonotone(4 * t, r + 4, r);
  }

  /** For roots up to a thousand a fortieth is close enough to end within 1. */
  lemma ThirdStep(r: nat, t: nat, u: nat)
    requires 1 <= r <= SECOND && 40 * t <= r + 49 && u * (2 * (r + t)) <= t * t + 2 * r
    ensures u <= 1
  {
    MulMonotone(t, if t <= 4 then 4 else 26, t);
    LessByProduct(u, 2, 2 * (r + t), t * t + 2 * r);
  }

  /** `isqrt`. The root is never missed by much: for the variances that occur
      it is the square root rounded down, or one more. At 2^30 exactly the sum
      of the first step is no longer an `int`. */
  method ISqrt(x: Int32) returns (s: Int32)
    requires 0 <= x && x != 0x4000_0000
    ensures x > 0x4000_0000 ==> s == 0x8000
    ensures x < 0x4000_0000 ==> Root(x) <= s
    ensures x <= LARGEST ==> s <= Root(x) + 1
    ensures x == 0 ==> s == 0
  {
    s := 1;
    if x > 0x4000_0000 {
      s := 0x8000;
    } else {
      ghost var r := Root(x);
      assert x > 0 ==> r >= 1;
      while s * s < x
        invariant 1 <= s <= 0x8000
        invariant IsPowerOfTwoUpTo(s)
        invariant x > 0 ==> s <= 2 * r
        decreases 0x8000 - s
      {
        Below(s, r, x);
        s := 2 * s;
      }
      if x == 0 {
        s := 0;
      } else {
        AtLeastRoot(s, r, x);
        RootBelow(r, x);
        ghost var s0: nat := s;
        s := Average(s, x, r);
        ghost var s1: nat := s;
        FirstStep(r, s0 - r, s1 - r);
        if s >= 0 { s := Average(s, x, r); }
        ghost var s2: nat := s;
        SecondStep(r, s1 - r, s2 - r);
        if s >= 0 { s := Average(s, x, r); }
        if x <= LARGEST {
          ThirdStep(r, s2 - r, s - r);
        }
      }
    }
  }

  ghost predicate IsPowerOfTwoUpTo(s: int) {
    s in {1, 2, 4, 8, 0x10, 0x20, 0x40, 0x80, 0x100, 0x200, 0x400, 0x800, 0x1000, 0x2000, 0x4000, 0x8000}
  }

  /** One step of the iteration, in `int` arithmetic. */
  method Average(s: Int32, x: Int32, ghost r: nat) returns (y: Int32)
    requires 1 <= r <= s <= 0x8000 && r < 0x8000
    requires 0 < x < 0x4000_0000 && r * r <= x < (r + 1) * (r + 1)
    ensures r <= y <= 0x8000
    ensures (y - r) * (2 * (r + (s - r))) <= (s - r) * (s - r) + 2 * r
  {
    MulMonotone(s, 0x8000, s);
    var sum: Int32 := s * s + x;
    NewtonStep(x, r, s, sum / (2 * s));
    y := sum / (2 * s);
  }

  lemma Below(s: nat, r: nat, x: nat)
    requires s * s < x < (r + 1) * (r + 1) && x <= 0x4000_0000
    ensures s <= r && s < 0x8000
  {
    SquareLess(s, r + 1);
    SquareLess(s, 0x8000);
  }

  lemma AtLeastRoot(s: nat, r: nat, x: nat)
    requires r * r <= x <= s * s
    ensures r <= s
  {
    assert (s + 1) * (s + 1) == s * s + 2 * s + 1;
    SquareLess(r, s + 1);
  }

  lemma RootBelow(r: nat, x: nat)
    requires r * r <= x < 0x4000_0000
    ensures r < 0x8000
    ensures x <= LARGEST ==> r <= SECOND
  {
    SquareLess(r, 0x8000);
    if x <= LARGEST {
      SquareLess(r, SECOND + 1);
    }
  }

  // ----- The renderer -----

  class Renderer {
    var m_iTotAcc: Int64
    var m_iSumSqAcc: Int64
    var m_iSumFrameTime: Int64
    var m_iSumSqFrameTime: Int64
    var m_cFramesDrawn: Int32
    var m_pClock: bool
    /** The frames recorded since the last reset. */
    ghost var frames: seq<Frame>

    ghost predicate Valid()
      reads this
    {
      && m_cFramesDrawn == |frames|
      && m_iTotAcc == Sum(LateSamples(frames)) && m_iSumSqAcc == SumOfSquares(LateSamples(frames))
      && m_iSumFrameTime == Sum(FrameSamples(frames)) && m_iSumSqFrameTime == SumOfSquares(FrameSamples(frames))
    }

    constructor (pClock: bool)
      ensures Valid() && frames == [] && m_pClock == pClock
    {
      m_iTotAcc, m_iSumSqAcc, m_iSumFrameTime, m_iSumSqFrameTime := 0, 0, 0, 0;
      m_cFramesDrawn, m_pClock, frames := 0, pClock, [];
    }

    /** `ResetStreamingTimes`. */
    method ResetStreamingTimes()
      modifies this
      ensures Valid() && frames == [] && m_pClock == old(m_pClock)
    {
      m_cFramesDrawn := 0;
      m_iTotAcc := 0;
      m_iSumSqAcc := 0;
      m_iSumSqFrameTime := 0;
      m_iSumFrameTime := 0;
      frames := [];
    }

    /** `RecordFrameLateness`: the sums are those of the samples, and no sum
        leaves its 64 bits. */
    method RecordFrameLateness(trLate: Int32, trFrame: Int32)
      requires Valid() && m_cFramesDrawn < 0x7FFF_FFFF
      modifies this
      ensures Valid() && frames == old(frames) + [Frame(trLate, trFrame)] && m_pClock == old(m_pClock)
    {
      hide Sum, SumOfSquares, LateSamples, FrameSamples, WithinASecond;
      ghost var f := Frame(trLate, trFrame);
      SamplesAppend(frames, f);
      SumBounds(LateSamples(frames + [f]));
      SumBounds(FrameSamples(frames + [f]));
      SumsAppend(LateSamples(frames), MillisecondsLate(trLate));
      SumsAppend(FrameSamples(frames), MillisecondsBetween(trFrame));
      var tLate := TruncDiv(trLate, 10000);
      if tLate > SECOND || tLate < -SECOND {
        if m_cFramesDrawn <= 1 {
          tLate := 0;
        } else if tLate > 0 {
          tLate := SECOND;
        } else {
          tLate := -SECOND;
        }
      }
      if m_cFramesDrawn > 1 {
        m_iTotAcc := m_iTotAcc + tLate;
        m_iSumSqAcc := m_iSumSqAcc + tLate * tLate;
      }
      if m_cFramesDrawn > 2 {
        var tFrame := TruncDiv(trFrame, 10000);
        if tFrame > SECOND || tFrame < 0 {
          tFrame := SECOND;
        }
        m_iSumSqFrameTime := m_iSumSqFrameTime + tFrame * tFrame;
        m_iSumFrameTime := m_iSumFrameTime + tFrame;
      }
      m_cFramesDrawn := m_cFramesDrawn + 1;
      frames := frames + [f];
    }

    /** `GetStdDev`, for the samples s: without a clock or with too few samples
        0, otherwise the root of the variance, or one more. */
    method GetStdDev(nSamples: Int32, llSumSq: Int64, iTot: Int64, ghost s: seq<int>) returns (iResult: Int32)
      requires WithinASecond(s) && (nSamples > 1 || s != [] ==> nSamples == |s| + 1)
      requires llSumSq == SumOfSquares(s) && iTot == Sum(s)
      ensures !m_pClock || s == [] ==> iResult == 0
      ensures m_pClock && s != [] ==>
                var v := Variance(s); 0 <= v <= LARGEST && Root(v) <= iResult <= Root(v) + 1
    {
      if !m_pClock {
        return 0;
      }
      if nSamples <= 1 {
        return 0;
      }
      VarianceInRange(s);
      SumBounds(s);
      var n: Int64 := nSamples;
      MulDivOfSquare(iTot, n, llSumSq);
      var quotient := LlMulDiv(iTot, iTot, n, 0);
      var x: Int64 := llSumSq - quotient;
      x := x / (nSamples - 1);
      assert x >= 0;
      iResult := ISqrt(x);
    }

    lemma MulDivOfSquare(t: Int64, n: Int64, bound: Int64)
      requires n > 0 && 0 <= t * t / n <= bound
      ensures MulDiv(t, t, n, 0) == t * t / n
    {
      SquareNonnegative(t);
      MulDivExact(t, t, n, 0);
    }

    method GetDevSyncOffset() returns (iDev: Int32)
      requires Valid()
      ensures !m_pClock || |frames| <= 2 ==> iDev == 0
      ensures m_pClock && |frames| > 2 ==>
                var v := Variance(LateSamples(frames)); 0 <= v <= LARGEST && Root(v) <= iDev <= Root(v) + 1
    {
      iDev := GetStdDev(m_cFramesDrawn - 1, m_iSumSqAcc, m_iTotAcc, LateSamples(frames));
    }

    method GetJitter() returns (iJitter: Int32)
      requires Valid()
      ensures !m_pClock || |frames| <= 3 ==> iJitter == 0
      ensures m_pClock && |frames| > 3 ==>
                var v := Variance(FrameSamples(frames)); 0 <= v <= LARGEST && Root(v) <= iJitter <= Root(v) + 1
    {
      iJitter := GetStdDev(m_cFramesDrawn - 2, m_iSumSqFrameTime, m_iSumFrameTime, FrameSamples(frames));
    }
  }
}
