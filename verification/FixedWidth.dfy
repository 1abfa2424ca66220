/** Fixed-width integers as the C++ code sees them: unsigned and two's
    complement signed words of 32 and 64 bits, the casts between them, and the
    `ULARGE_INTEGER` union of one 64-bit word with its two 32-bit halves. */
module FixedWidth {

  type Word32 = x: int | 0 <= x < 0x1_0000_0000
  type Word64 = x: int | 0 <= x < 0x1_0000_0000_0000_0000
  type Int32 = x: int | -0x8000_0000 <= x < 0x8000_0000
  type Int64 = x: int | -0x8000_0000_0000_0000 <= x < 0x8000_0000_0000_0000

  const INT64_MIN: Int64 := -0x8000_0000_0000_0000
  const INT64_MAX: Int64 := 0x7FFF_FFFF_FFFF_FFFF

  /** The cast `(DWORDLONG)x` of a signed word. */
  function ToWord64(x: Int64): Word64 {
    if x < 0 then x + 0x1_0000_0000_0000_0000 else x
  }

  /** The cast `(LONGLONG)x` of an unsigned word. */
  function ToInt64(x: Word64): Int64 {
    if x < 0x8000_0000_0000_0000 then x else x - 0x1_0000_0000_0000_0000
  }

  /** The cast `(DWORD)x` of a signed word. */
  function ToWord32(x: Int32): Word32 {
    if x < 0 then x + 0x1_0000_0000 else x
  }

  /** Signed negation; the least value is its own negation. */
  function Neg64(x: Int64): Int64 {
    if x == INT64_MIN then INT64_MIN else -x
  }

  function Neg32(x: Int32): Int32 {
    if x == -0x8000_0000 then -0x8000_0000 else -x
  }

  /** Unsigned addition, losing the carry. */
  function Add64(x: Word64, y: Word64): Word64 {
    if x + y < 0x1_0000_0000_0000_0000 then x + y else x + y - 0x1_0000_0000_0000_0000
  }

  function Add32(x: Word32, y: Word32): Word32 {
    if x + y < 0x1_0000_0000 then x + y else x + y - 0x1_0000_0000
  }

  /** A value of at most 64 magnitude bits, cut down to a signed word. */
  function WrapInt64(x: int): Int64
    requires -0x1_0000_0000_0000_0000 < x < 0x1_0000_0000_0000_0000
  {
    if x > INT64_MAX then x - 0x1_0000_0000_0000_0000
    else if x < INT64_MIN then x + 0x1_0000_0000_0000_0000
    else x
  }

  /** `ULARGE_INTEGER`: the two halves of a 64-bit word. */
  datatype ULarge = ULarge(LowPart: Word32, HighPart: Word32) {
    function QuadPart(): Word64 {
      HighPart * 0x1_0000_0000 + LowPart
    }
  }

  /** Assignment to the 64-bit member of the union. */
  method SetQuad(q: Word64) returns (u: ULarge)
    ensures u.QuadPart() == q
  {
    u := ULarge(q % 0x1_0000_0000, q / 0x1_0000_0000);
  }

  function Abs(x: int): nat {
    if x < 0 then -x else x
  }

  ghost function Pow2(k: nat): (p: nat)
    ensures p > 0
  {
    if k == 0 then 1 else 2 * Pow2(k - 1)
  }

  /** C division: the quotient is rounded toward zero. */
  function TruncDiv(n: int, c: int): int
    requires c != 0
  {
    var q := Abs(n) / Abs(c);
    if (n < 0) != (c < 0) then -q else q
  }

  /** What C's `/` promises: the remainder is smaller than the divisor and has
      the sign of the dividend. */
  ghost predicate IsTruncQuotient(n: int, c: int, q: int)
    requires c != 0
  {
    IsTruncRemainder(n, Abs(c), n - q * c)
  }

  ghost predicate IsTruncRemainder(n: int, size: nat, r: int) {
    && Abs(r) < size
    && (r > 0 ==> n > 0)
    && (r < 0 ==> n < 0)
  }

  /** q and r are the quotient and remainder of unsigned division. */
  ghost predicate IsQuotRem(n: nat, c: nat, q: int, r: int) {
    n == q * c + r && 0 <= r < c
  }

  lemma MulMonotone(x: int, y: int, c: int)
    requires x <= y && 0 <= c
    ensures x * c <= y * c
  {
  }

  lemma ProductSigns(x: int, y: int)
    ensures (-x) * y == -(x * y) == x * (-y)
    ensures (-x) * (-y) == x * y
  {
  }

  lemma DivModIsQuotRem(n: nat, c: nat)
    requires c > 0
    ensures IsQuotRem(n, c, n / c, n % c)
  {
  }

  lemma QuotRemUnique(n: nat, c: nat, q: int, r: int, q': int, r': int)
    requires IsQuotRem(n, c, q, r) && IsQuotRem(n, c, q', r')
    ensures q == q' && r == r'
  {
    assert (q - q') * c == r' - r;
    if q - q' >= 1 {
      MulMonotone(1, q - q', c);
    } else if q - q' <= -1 {
      MulMonotone(q - q', -1, c);
    }
  }

  lemma QuotRemIsDivMod(n: nat, c: nat, q: int, r: int)
    requires IsQuotRem(n, c, q, r)
    ensures c > 0 && q == n / c && r == n % c
  {
    DivModIsQuotRem(n, c);
    QuotRemUnique(n, c, q, r, n / c, n % c);
  }

  lemma QuotientBound(n: nat, c: nat, q: int, r: int, bound: nat)
    requires IsQuotRem(n, c, q, r)
    ensures 0 <= q <= n
    ensures q < bound <==> n < bound * c
  {
    if q <= -1 {
      MulMonotone(q, -1, c);
    } else {
      MulMonotone(1, c, q);
    }
    if q < bound {
      MulMonotone(q + 1, bound, c);
    } else {
      MulMonotone(bound, q, c);
    }
  }

  lemma DivSmall(n: nat, c: nat, bound: nat)
    requires c > 0
    ensures n / c < bound <==> n < bound * c
  {
    DivModIsQuotRem(n, c);
    QuotientBound(n, c, n / c, n % c, bound);
  }

  lemma TruncDivMagnitude(n: int, c: int)
    requires c != 0
    ensures Abs(TruncDiv(n, c)) == Abs(n) / Abs(c)
  {
  }

  lemma TruncDivBelow(n: int, c: int, bound: nat)
    requires c != 0 && Abs(n) < bound * Abs(c)
    ensures Abs(TruncDiv(n, c)) < bound
  {
    hide TruncDiv;
    TruncDivMagnitude(n, c);
    DivSmall(Abs(n), Abs(c), bound);
  }

  lemma ProductMagnitude(n: int, c: int, q: int, q': int)
    requires q' == if (n < 0) != (c < 0) then -q else q
    ensures n - q * c == if n < 0 then -(Abs(n) - q' * Abs(c)) else Abs(n) - q' * Abs(c)
  {
    ProductSigns(q, c);
  }

  lemma RemainderMagnitude(n: int, c: int, q: int, q': int)
    requires c != 0 && q' == if (n < 0) != (c < 0) then -q else q
    ensures IsTruncQuotient(n, c, q) <==> IsQuotRem(Abs(n), Abs(c), q', Abs(n) - q' * Abs(c))
  {
    ProductMagnitude(n, c, q, q');
    if n == 0 && IsQuotRem(0, Abs(c), q', -(q' * Abs(c))) {
      QuotRemUnique(0, Abs(c), q', -(q' * Abs(c)), 0, 0);
    }
  }

  /** `TruncDiv` is C's quotient, and nothing else is. */
  lemma TruncDivIsTheQuotient(n: int, c: int, q: int)
    requires c != 0
    ensures IsTruncQuotient(n, c, q) <==> q == TruncDiv(n, c)
  {
    var q' := if (n < 0) != (c < 0) then -q else q;
    RemainderMagnitude(n, c, q, q');
    DivModIsQuotRem(Abs(n), Abs(c));
    hide IsQuotRem;
    hide IsTruncQuotient;
    if IsQuotRem(Abs(n), Abs(c), q', Abs(n) - q' * Abs(c)) {
      QuotRemIsDivMod(Abs(n), Abs(c), q', Abs(n) - q' * Abs(c));
    } else {
      WholeAndRest(Abs(n), Abs(c));
    }
  }

  lemma WholeAndRest(n: nat, c: nat)
    requires c > 0
    ensures n % c == n - (n / c) * c
  {
  }
}
