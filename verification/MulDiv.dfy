/** `llMulDiv` and `Int64x32Div32`: (a * b + d) / c through an intermediate of
    128 or 96 bits.

    A double-width intermediate is a pair (p0, p1) of words; its value is
    p1 * 2^64 + p0. The sign is kept apart in `bSign`. */
module ArithUtil {
  import opened FixedWidth

  // ----- What the two routines compute -----

  function Dividend(a: Int64, b: Int64, d: Int64): int {
    a * b + d
  }

  /** The sign flag with which the saturated value is chosen. For a nonzero
      dividend it is the sign of the quotient; a zero dividend keeps the sign
      of the product's operands. */
  function SaturatesLow(a: Int64, b: Int64, c: Int64, d: Int64): bool {
    var n := Dividend(a, b, d);
    (if n == 0 then (a < 0) != (b < 0) else n < 0) != (c < 0)
  }

  /** The dividend is too large for the divisor, or the divisor is zero. */
  predicate Overflows(n: int, c: Int64) {
    c == 0 || Abs(n) >= Abs(c) * 0x1_0000_0000_0000_0000
  }

  lemma QuotientFits(n: int, c: Int64)
    requires !Overflows(n, c)
    ensures c != 0 && -0x1_0000_0000_0000_0000 < TruncDiv(n, c) < 0x1_0000_0000_0000_0000
  {
    hide TruncDiv;
    TruncDivBelow(n, c, 0x1_0000_0000_0000_0000);
  }

  /** The quotient n/c cut to 64 bits, or the extreme value `low` asks for. */
  function QuotientOrExtreme(n: int, c: Int64, low: bool): Int64 {
    if Overflows(n, c) then
      if low then INT64_MIN else INT64_MAX
    else
      QuotientFits(n, c);
      WrapInt64(TruncDiv(n, c))
  }

  function MulDiv(a: Int64, b: Int64, c: Int64, d: Int64): Int64 {
    QuotientOrExtreme(Dividend(a, b, d), c, SaturatesLow(a, b, c, d))
  }

  /** The promise of both routines: the result is the quotient exactly when
      the quotient is a signed 64-bit value. */
  lemma MulDivExact(a: Int64, b: Int64, c: Int64, d: Int64)
    requires c != 0
    ensures MulDiv(a, b, c, d) == TruncDiv(Dividend(a, b, d), c)
       <==> INT64_MIN <= TruncDiv(Dividend(a, b, d), c) <= INT64_MAX
  {
    DivSmall(Abs(Dividend(a, b, d)), Abs(c), 0x1_0000_0000_0000_0000);
  }

  /** The same promise about any q that C's division may yield, without
      naming how the quotient is found. */
  lemma MulDivReturnsTheQuotient(a: Int64, b: Int64, c: Int64, d: Int64, q: Int64)
    requires c != 0 && IsTruncQuotient(Dividend(a, b, d), c, q)
    ensures MulDiv(a, b, c, d) == q
  {
    TruncDivIsTheQuotient(Dividend(a, b, d), c, q);
    MulDivExact(a, b, c, d);
  }

  /** Quotients the guard lets through although they need a 64th magnitude
      bit come back with the wrong sign, off by 2^64. The one such magnitude
      that is harmless is INT64_MIN itself. */
  lemma MulDivWraps(a: Int64, b: Int64, c: Int64, d: Int64)
    requires c != 0 && !Overflows(Dividend(a, b, d), c)
    requires !(INT64_MIN <= TruncDiv(Dividend(a, b, d), c) <= INT64_MAX)
    ensures MulDiv(a, b, c, d)
         == TruncDiv(Dividend(a, b, d), c)
         + (if TruncDiv(Dividend(a, b, d), c) > 0 then -0x1_0000_0000_0000_0000 else 0x1_0000_0000_0000_0000)
    ensures TruncDiv(Dividend(a, b, d), c) > 0 <==> MulDiv(a, b, c, d) < 0
    ensures TruncDiv(Dividend(a, b, d), c) < 0 <==> MulDiv(a, b, c, d) > 0
  {
    DivSmall(Abs(Dividend(a, b, d)), Abs(c), 0x1_0000_0000_0000_0000);
  }

  /** One of them: 2^62 times 2. */
  lemma TwoToThe63Wraps()
    ensures TruncDiv(Dividend(0x4000_0000_0000_0000, 2, 0), 1) == 0x8000_0000_0000_0000
    ensures MulDiv(0x4000_0000_0000_0000, 2, 1, 0) == INT64_MIN
  {
  }

  /** The guard fires for exactly the divisor zero and the quotients of 65 or
      more bits, and the value returned is then the extreme one on the side of
      the quotient. */
  lemma MulDivSaturates(a: Int64, b: Int64, c: Int64, d: Int64)
    ensures Overflows(Dividend(a, b, d), c) <==>
              c == 0 || Abs(TruncDiv(Dividend(a, b, d), c)) >= 0x1_0000_0000_0000_0000
    ensures c != 0 && Overflows(Dividend(a, b, d), c) ==>
              MulDiv(a, b, c, d) == if TruncDiv(Dividend(a, b, d), c) < 0 then INT64_MIN else INT64_MAX
    ensures c == 0 && Dividend(a, b, d) != 0 ==>
              MulDiv(a, b, c, d) == if Dividend(a, b, d) < 0 then INT64_MIN else INT64_MAX
  {
    if c != 0 {
      DivSmall(Abs(Dividend(a, b, d)), Abs(c), 0x1_0000_0000_0000_0000);
    }
  }

  /** A zero dividend over a zero divisor: the result depends on the signs of
      the factors although their product does not. */
  lemma ZeroOverZero(a: Int64, b: Int64, d: Int64)
    requires Dividend(a, b, d) == 0
    ensures MulDiv(a, b, 0, d) == if (a < 0) != (b < 0) then INT64_MIN else INT64_MAX
  {
  }

  // ----- The shared steps -----

  /** `EnlargedUnsignedDivide`: 64 bits by 32 bits, giving 32 bits of quotient.
      The quotient is cut to 32 bits; both callers divide only where it fits. */
  method EnlargedUnsignedDivide(dividend: ULarge, divisor: Word32) returns (quotient: Word32, remainder: Word32)
    requires dividend.HighPart < divisor
    ensures IsQuotRem(dividend.QuadPart(), divisor, quotient, remainder)
    ensures remainder < divisor
  {
    ghost var n := dividend.QuadPart();
    DivModIsQuotRem(n, divisor);
    QuotientBound(n, divisor, n / divisor, n % divisor, 0x1_0000_0000);
    hide IsQuotRem;
    quotient := dividend.QuadPart() / divisor;
    remainder := dividend.QuadPart() % divisor;
  }

  lemma LimbProduct(ah: nat, al: nat, bh: nat, bl: nat)
    ensures (ah * 0x1_0000_0000 + al) * (bh * 0x1_0000_0000 + bl)
         == ah * bh * 0x1_0000_0000_0000_0000 + (al * bh + ah * bl) * 0x1_0000_0000 + al * bl
  {
    var w := 0x1_0000_0000;
    calc {
      (ah * w + al) * (bh * w + bl);
      (ah * w) * (bh * w) + (ah * w) * bl + al * (bh * w) + al * bl;
      { assert (ah * w) * (bh * w) == (ah * bh) * (w * w); }
      (ah * bh) * (w * w) + (al * bh + ah * bl) * w + al * bl;
    }
  }

  lemma ProductBound(x: int, y: int, xMax: int, yMax: int)
    requires 0 <= x <= xMax && 0 <= y <= yMax
    ensures 0 <= x * y <= xMax * yMax
  {
    MulMonotone(x, xMax, y);
    MulMonotone(y, yMax, xMax);
  }

  /** The long multiplication by 32-bit limbs. Operands are magnitudes of
      signed values, so nothing overflows. */
  method LongMultiply(ua: ULarge, ub: ULarge) returns (p0: ULarge, p1: ULarge)
    requires ua.QuadPart() <= 0x8000_0000_0000_0000 && ub.QuadPart() <= 0x8000_0000_0000_0000
    ensures p1.QuadPart() * 0x1_0000_0000_0000_0000 + p0.QuadPart() == ua.QuadPart() * ub.QuadPart()
  {
    ProductBound(ua.LowPart, ub.LowPart, 0xFFFF_FFFF, 0xFFFF_FFFF);
    ProductBound(ua.LowPart, ub.HighPart, 0xFFFF_FFFF, 0x8000_0000);
    ProductBound(ua.HighPart, ub.LowPart, 0x8000_0000, 0xFFFF_FFFF);
    ProductBound(ua.HighPart, ub.HighPart, 0x8000_0000, 0x8000_0000);
    LimbProduct(ua.HighPart, ua.LowPart, ub.HighPart, ub.LowPart);

    p0 := SetQuad(ua.LowPart * ub.LowPart);
    var x := SetQuad(Add64(Add64(ua.LowPart * ub.HighPart, ua.HighPart * ub.LowPart), p0.HighPart));
    p0 := p0.(HighPart := x.LowPart);
    p1 := SetQuad(Add64(ua.HighPart * ub.HighPart, x.HighPart));
  }

  /** The extended addition: 32-bit words with carries below, the top words as
      they are. The carry out of the top is lost. */
  method ExtendedAdd(q0: ULarge, q1: ULarge, ud0: ULarge, ud1: Word64) returns (p0: ULarge, p1: ULarge)
    ensures var total := (q1.QuadPart() + ud1) * 0x1_0000_0000_0000_0000 + q0.QuadPart() + ud0.QuadPart();
            p1.QuadPart() * 0x1_0000_0000_0000_0000 + p0.QuadPart()
            == if total < 0x1_0000_0000_0000_0000_0000_0000_0000_0000 then total
               else total - 0x1_0000_0000_0000_0000_0000_0000_0000_0000
  {
    var uliTotal := SetQuad(ud0.LowPart + q0.LowPart);
    p0 := q0.(LowPart := uliTotal.LowPart);

    uliTotal := ULarge(uliTotal.HighPart, 0);
    uliTotal := SetQuad(uliTotal.QuadPart() + (ud0.HighPart + p0.HighPart));
    p0 := p0.(HighPart := uliTotal.LowPart);

    uliTotal := ULarge(uliTotal.HighPart, 0);
    assert uliTotal.QuadPart() * 0x1_0000_0000_0000_0000 + p0.QuadPart() == q0.QuadPart() + ud0.QuadPart();
    p1 := SetQuad(Add64(q1.QuadPart(), Add64(ud1, uliTotal.QuadPart())));
  }

  /** The addition of +d or -d, whichever `bSign` asks for, to a magnitude of
      at most 127 bits, and the return to sign and magnitude. */
  method AddSigned(q0: ULarge, q1: ULarge, d: Int64, sign: bool) returns (p0: ULarge, p1: ULarge, bSign: bool)
    requires q1.QuadPart() <= 0x4000_0000_0000_0000
    ensures var before := q1.QuadPart() * 0x1_0000_0000_0000_0000 + q0.QuadPart();
            var total := if sign then before - d else before + d;
            && p1.QuadPart() * 0x1_0000_0000_0000_0000 + p0.QuadPart() == Abs(total)
            && bSign == if d != 0 && total < 0 then !sign else sign
  {
    p0, p1, bSign := q0, q1, sign;
    if d != 0 {
      var ud0: ULarge, ud1: Word64;
      if bSign {
        ud0 := SetQuad(ToWord64(Neg64(d)));
        ud1 := if d > 0 then ToWord64(-1) else 0;
      } else {
        ud0 := SetQuad(ToWord64(d));
        ud1 := if d < 0 then ToWord64(-1) else 0;
      }
      p0, p1 := ExtendedAdd(p0, p1, ud0, ud1);

      if p1.HighPart >= 0x8000_0000 {
        bSign := !bSign;
        p0, p1 := Negate128(p0, p1);
      }
    }
  }

  /** Complement both words, add one, carry. */
  method Negate128(q0: ULarge, q1: ULarge) returns (p0: ULarge, p1: ULarge)
    requires q0.QuadPart() != 0 || q1.QuadPart() != 0
    ensures p1.QuadPart() * 0x1_0000_0000_0000_0000 + p0.QuadPart()
         == 0x1_0000_0000_0000_0000_0000_0000_0000_0000 - (q1.QuadPart() * 0x1_0000_0000_0000_0000 + q0.QuadPart())
  {
    p0 := SetQuad(0xFFFF_FFFF_FFFF_FFFF - q0.QuadPart());
    p1 := SetQuad(0xFFFF_FFFF_FFFF_FFFF - q1.QuadPart());
    p0 := SetQuad(Add64(p0.QuadPart(), 1));
    p1 := SetQuad(Add64(p1.QuadPart(), if p0.QuadPart() == 0 then 1 else 0));
  }

  // ----- Division -----

  lemma Pow2Of64()
    ensures Pow2(64) == 0x1_0000_0000_0000_0000
  {
    assert Pow2(8) == 0x100;
    assert Pow2(16) == 0x1_0000;
    assert Pow2(24) == 0x100_0000;
    assert Pow2(32) == 0x1_0000_0000;
    assert Pow2(40) == 0x100_0000_0000;
    assert Pow2(48) == 0x1_0000_0000_0000;
    assert Pow2(56) == 0x100_0000_0000_0000;
  }

  /** The invariant of the shift-subtract loop after i rounds, for the
      dividend `whole`: `unit` is 2^i, `room` is 2^(64-i), r is the quotient so
      far and (p0, p1) the shifted rest. */
  ghost predicate DivideInvariant(whole: nat, uc: nat, unit: nat, room: nat, k: int, r: nat, p0: nat, p1: nat) {
    && unit * room == 0x1_0000_0000_0000_0000
    && 0 <= k < room && p0 == k * unit
    && r < unit
    && p1 < uc
    && whole * unit == (r * uc + p1) * 0x1_0000_0000_0000_0000 + p0
  }

  lemma DivideRound(whole: nat, uc: nat, unit: nat, room: nat, k: nat, r: nat, p0: nat, p1: nat)
    requires DivideInvariant(whole, uc, unit, 2 * room, k, r, p0, p1)
    ensures 2 * r + 1 < 0x1_0000_0000_0000_0000
    ensures var carry := p0 >= 0x8000_0000_0000_0000;
            var k' := if carry then k - room else k;
            var p0' := 2 * p0 - (if carry then 0x1_0000_0000_0000_0000 else 0);
            var p1' := 2 * p1 + (if carry then 1 else 0);
            && 0 <= p0'
            && if uc <= p1' then DivideInvariant(whole, uc, 2 * unit, room, k', 2 * r + 1, p0', p1' - uc)
            else DivideInvariant(whole, uc, 2 * unit, room, k', 2 * r, p0', p1')
  {
    Doubled(unit, room);
    CarryIsTheTopBit(k, room, unit);
    Doubled(uc, r);
    Doubled(whole, unit);
    Doubled(k, unit);
    Doubled(k - room, unit);
    assert (k - room) * unit == k * unit - unit * room;
    assert (2 * r + 1) * uc == (2 * r) * uc + uc;
  }

  lemma Doubled(x: int, y: int)
    ensures x * (2 * y) == (2 * y) * x == (2 * x) * y == 2 * (x * y)
  {
  }

  lemma CarryIsTheTopBit(k: nat, room: nat, unit: nat)
    requires unit * room == 0x8000_0000_0000_0000
    ensures k * unit >= 0x8000_0000_0000_0000 <==> k >= room
    ensures unit <= 0x8000_0000_0000_0000
  {
    if k >= room {
      MulMonotone(room, k, unit);
    } else {
      MulMonotone(k + 1, room, unit);
    }
    MulMonotone(1, room, unit);
  }

  lemma DivideStart(whole: nat, uc: nat, p0: nat, p1: nat)
    requires p1 < uc && whole == p1 * 0x1_0000_0000_0000_0000 + p0
    requires p0 < 0x1_0000_0000_0000_0000
    ensures DivideInvariant(whole, uc, 1, 0x1_0000_0000_0000_0000, p0, 0, p0, p1)
  {
  }

  lemma DivideDone(whole: nat, uc: nat, k: nat, r: nat, p0: nat, p1: nat)
    requires DivideInvariant(whole, uc, 0x1_0000_0000_0000_0000, 1, k, r, p0, p1)
    ensures IsQuotRem(whole, uc, r, p1)
  {
  }

  lemma EvenLowPart(low: Word32, high: Word32, half: nat)
    requires high * 0x1_0000_0000 + low == 2 * half
    ensures low <= 0xFFFF_FFFE
  {
    assert low == 2 * (half - high * 0x8000_0000);
  }

  /** Shift the 128-bit value left by one place. */
  method ShiftLeft128(q0: ULarge, q1: ULarge) returns (p0: ULarge, p1: ULarge)
    requires q1.QuadPart() < 0x8000_0000_0000_0000
    ensures var carry := q0.QuadPart() >= 0x8000_0000_0000_0000;
            && p0.QuadPart() == 2 * q0.QuadPart() - (if carry then 0x1_0000_0000_0000_0000 else 0)
            && p1.QuadPart() == 2 * q1.QuadPart() + (if carry then 1 else 0)
  {
    p1 := SetQuad(Add64(q1.QuadPart(), q1.QuadPart()));
    assert p1.QuadPart() == 2 * q1.QuadPart();
    EvenLowPart(p1.LowPart, p1.HighPart, q1.QuadPart());
    if q0.HighPart >= 0x8000_0000 {
      p1 := p1.(LowPart := Add32(p1.LowPart, 1));
    }
    p0 := SetQuad(Add64(q0.QuadPart(), q0.QuadPart()));
  }

  /** Quotient so far and remaining 128-bit dividend. */
  datatype Division = Division(quotient: Word64, low: Word64, high: Word64)

  /** One round of shift, compare and subtract. */
  ghost function Round(v: Division, uc: Word64): Division
    requires v.high < uc <= 0x8000_0000_0000_0000
  {
    var carry := v.low >= 0x8000_0000_0000_0000;
    var high := 2 * v.high + (if carry then 1 else 0);
    Division(Add64(v.quotient, v.quotient) + (if uc <= high then 1 else 0),
             Add64(v.low, v.low),
             if uc <= high then high - uc else high)
  }

  ghost function Rounds(i: nat, v: Division, uc: Word64): (w: Division)
    requires v.high < uc <= 0x8000_0000_0000_0000
    ensures w.high < uc
  {
    if i == 0 then v else Round(Rounds(i - 1, v, uc), uc)
  }

  lemma {:induction false} RoundsKeepInvariant(i: nat, v: Division, uc: Word64) returns (k: nat)
    requires v.high < uc <= 0x8000_0000_0000_0000 && v.quotient == 0
    requires i <= 64
    ensures var w := Rounds(i, v, uc);
            DivideInvariant(v.high * 0x1_0000_0000_0000_0000 + v.low, uc,
                            Pow2(i), Pow2(64 - i), k, w.quotient, w.low, w.high)
  {
    var whole := v.high * 0x1_0000_0000_0000_0000 + v.low;
    hide DivideInvariant;
    if i == 0 {
      Pow2Of64();
      k := v.low;
      DivideStart(whole, uc, v.low, v.high);
    } else {
      k := RoundsKeepInvariant(i - 1, v, uc);
      var w := Rounds(i - 1, v, uc);
      DivideRound(whole, uc, Pow2(i - 1), Pow2(64 - i), k, w.quotient, w.low, w.high);
      k := if w.low >= 0x8000_0000_0000_0000 then k - Pow2(64 - i) else k;
    }
  }

  /** Sixty-four rounds divide. */
  lemma RoundsDivide(v: Division, uc: Word64)
    requires v.high < uc <= 0x8000_0000_0000_0000 && v.quotient == 0
    ensures var w := Rounds(64, v, uc);
            IsQuotRem(v.high * 0x1_0000_0000_0000_0000 + v.low, uc, w.quotient, w.high)
  {
    var k := RoundsKeepInvariant(64, v, uc);
    var w := Rounds(64, v, uc);
    Pow2Of64();
    hide DivideInvariant;
    hide IsQuotRem;
    assert Pow2(0) == 1;
    DivideDone(v.high * 0x1_0000_0000_0000_0000 + v.low, uc, k, w.quotient, w.low, w.high);
  }

  /** The loop body: shift the result and the dividend, compare, subtract. */
  method DivideStep(result: Word64, q0: ULarge, q1: ULarge, uc: Word64)
    returns (ullResult: Word64, p0: ULarge, p1: ULarge)
    requires q1.QuadPart() < uc <= 0x8000_0000_0000_0000
    ensures Division(ullResult, p0.QuadPart(), p1.QuadPart())
         == Round(Division(result, q0.QuadPart(), q1.QuadPart()), uc)
  {
    ullResult := Add64(result, result);
    p0, p1 := ShiftLeft128(q0, q1);
    if uc <= p1.QuadPart() {
      p1 := SetQuad(p1.QuadPart() - uc);
      ullResult := ullResult + 1;
    }
  }

  /** The long division. */
  method LongDivide(q0: ULarge, q1: ULarge, uc: Word64) returns (ullResult: Word64)
    requires q1.QuadPart() < uc <= 0x8000_0000_0000_0000
    ensures ullResult == Rounds(64, Division(0, q0.QuadPart(), q1.QuadPart()), uc).quotient
  {
    hide Round;
    var p0, p1 := q0, q1;
    ullResult := 0;
    for i := 0 to 64
      invariant Division(ullResult, p0.QuadPart(), p1.QuadPart())
                == Rounds(i, Division(0, q0.QuadPart(), q1.QuadPart()), uc)
    {
      ullResult, p0, p1 := DivideStep(ullResult, p0, p1, uc);
    }
  }

  /** The choice among the three divisions. */
  method UnsignedDivide(p0: ULarge, p1: ULarge, uc: Word64) returns (ullResult: Word64, ghost rest: Word64)
    requires p1.QuadPart() < uc <= 0x8000_0000_0000_0000
    ensures IsQuotRem(p1.QuadPart() * 0x1_0000_0000_0000_0000 + p0.QuadPart(), uc, ullResult, rest)
  {
    if p1.QuadPart() == 0 {
      ullResult, rest := DivideWord64(p0.QuadPart(), uc);
      return;
    }
    hide IsQuotRem;
    var ulic := SetQuad(uc);
    if ulic.HighPart == 0 {
      var uliResult: ULarge;
      uliResult, rest := DivideByWord(p0, p1.LowPart, ulic.LowPart);
      ullResult := uliResult.QuadPart();
    } else {
      ghost var start := Division(0, p0.QuadPart(), p1.QuadPart());
      RoundsDivide(start, uc);
      ullResult := LongDivide(p0, p1, uc);
      rest := Rounds(64, start, uc).high;
    }
  }

  /** The compiler's own 64-bit division. */
  method DivideWord64(n: Word64, c: Word64) returns (quotient: Word64, remainder: Word64)
    requires c != 0
    ensures IsQuotRem(n, c, quotient, remainder)
  {
    DivModIsQuotRem(n, c);
    QuotientBound(n, c, n / c, n % c, 0);
    hide IsQuotRem;
    quotient := n / c;
    remainder := n % c;
  }

  // ----- The two routines -----

  ghost function MagnitudeProduct(a: Int64, b: Int64): nat {
    ProductBound(Abs(a), Abs(b), 0x8000_0000_0000_0000, 0x8000_0000_0000_0000);
    Abs(a) * Abs(b)
  }

  /** The sign and magnitude the two routines arrive at are those of the
      dividend. */
  lemma SignedDividend(a: Int64, b: Int64, d: Int64)
    ensures var sign := (a < 0) != (b < 0);
            var n := Dividend(a, b, d);
            var total := if sign then MagnitudeProduct(a, b) - d else MagnitudeProduct(a, b) + d;
            && Abs(total) == Abs(n)
            && (if d != 0 && total < 0 then !sign else sign) == if n == 0 then sign else n < 0
  {
    ProductSigns(a, b);
  }

  lemma GuardMeansOverflow(n: int, c: Int64, high: Word64, low: Word64)
    requires Abs(n) == high * 0x1_0000_0000_0000_0000 + low
    ensures Abs(c) <= high <==> Overflows(n, c)
  {
  }

  /** The final negation and cast of the unsigned quotient. */
  lemma SignedResult(n: int, c: Int64, quotient: Word64, rest: int, bSign: bool)
    requires c != 0
    requires IsQuotRem(Abs(n), Abs(c), quotient, rest)
    requires n != 0 ==> bSign == ((n < 0) != (c < 0))
    ensures -0x1_0000_0000_0000_0000 < TruncDiv(n, c) < 0x1_0000_0000_0000_0000
    ensures (if bSign then Neg64(ToInt64(quotient)) else ToInt64(quotient)) == WrapInt64(TruncDiv(n, c))
  {
    QuotRemIsDivMod(Abs(n), Abs(c), quotient, rest);
    if n == 0 {
      QuotRemUnique(0, Abs(c), quotient, rest, 0, 0);
    }
  }

  /** Two digits of base 2^32 divided by one, the schoolbook way. */
  lemma TwoDigitDivision(c: nat, p1: nat, p0High: nat, p0Low: nat, q1: nat, r1: nat, q0: nat, r0: nat)
    requires IsQuotRem(p1 * 0x1_0000_0000 + p0High, c, q1, r1)
    requires IsQuotRem(r1 * 0x1_0000_0000 + p0Low, c, q0, r0)
    ensures IsQuotRem(p1 * 0x1_0000_0000_0000_0000 + p0High * 0x1_0000_0000 + p0Low, c, q1 * 0x1_0000_0000 + q0, r0)
  {
    assert (q1 * 0x1_0000_0000 + q0) * c == q1 * c * 0x1_0000_0000 + q0 * c;
  }

  /** The division by a 32-bit divisor. */
  method DivideByWord(q0: ULarge, p1: Word32, dwDivisor: Word32) returns (uliResult: ULarge, ghost rest: Word32)
    requires p1 < dwDivisor
    ensures IsQuotRem(p1 * 0x1_0000_0000_0000_0000 + q0.QuadPart(), dwDivisor, uliResult.QuadPart(), rest)
  {
    hide IsQuotRem;
    var p0 := q0;
    var high, low, remainder: Word32;
    high, remainder := EnlargedUnsignedDivide(ULarge(p0.HighPart, p1), dwDivisor);
    p0 := p0.(HighPart := remainder);
    low, remainder := EnlargedUnsignedDivide(p0, dwDivisor);
    uliResult := ULarge(low, high);
    TwoDigitDivision(dwDivisor, p1, q0.HighPart, q0.LowPart, high, p0.HighPart, low, remainder);
    rest := remainder;
  }

  /** `llMulDiv`. */
  method LlMulDiv(a: Int64, b: Int64, c: Int64, d: Int64) returns (r: Int64)
    ensures r == MulDiv(a, b, c, d)
  {
    hide MagnitudeProduct;
    hide Dividend;
    hide QuotientOrExtreme;
    var uc := ToWord64(if c >= 0 then c else Neg64(c));
    var p0, p1, bSign := MultiplyMagnitudes(a, b);
    SignedDividend(a, b, d);
    p0, p1, bSign := AddSigned(p0, p1, d, bSign);

    if c < 0 {
      bSign := !bSign;
    }
    r := DivideAndSign(Dividend(a, b, d), p0, p1, uc, c, bSign);
  }

  /** Magnitudes of a and b, their product, and its sign flag. */
  method MultiplyMagnitudes(a: Int64, b: Int64) returns (p0: ULarge, p1: ULarge, bSign: bool)
    ensures p1.QuadPart() * 0x1_0000_0000_0000_0000 + p0.QuadPart() == MagnitudeProduct(a, b)
    ensures p1.QuadPart() <= 0x4000_0000_0000_0000
    ensures bSign == ((a < 0) != (b < 0))
  {
    hide ULarge.QuadPart;
    var ua := SetQuad(ToWord64(if a >= 0 then a else Neg64(a)));
    var ub := SetQuad(ToWord64(if b >= 0 then b else Neg64(b)));
    bSign := (a < 0) != (b < 0);
    p0, p1 := LongMultiply(ua, ub);
    ProductBound(Abs(a), Abs(b), 0x8000_0000_0000_0000, 0x8000_0000_0000_0000);
  }

  /** The guard, the division and the final sign. */
  method DivideAndSign(ghost n: int, p0: ULarge, p1: ULarge, uc: Word64, ghost c: Int64, bSign: bool) returns (r: Int64)
    requires Abs(n) == p1.QuadPart() * 0x1_0000_0000_0000_0000 + p0.QuadPart()
    requires uc == Abs(c)
    requires n != 0 ==> bSign == ((n < 0) != (c < 0))
    ensures r == QuotientOrExtreme(n, c, bSign)
  {
    GuardMeansOverflow(n, c, p1.QuadPart(), p0.QuadPart());
    if uc <= p1.QuadPart() {
      return if bSign then INT64_MIN else INT64_MAX;
    }
    hide IsQuotRem;
    hide Overflows;
    var ullResult;
    ghost var rest;
    ullResult, rest := UnsignedDivide(p0, p1, uc);
    SignedResult(n, c, ullResult, rest, bSign);
    r := if bSign then Neg64(ToInt64(ullResult)) else ToInt64(ullResult);
  }

  /** `Int64x32Div32`: the 96-bit form. It returns what `llMulDiv` returns. */
  method Int64x32Div32(a: Int64, b: Int32, c: Int32, d: Int32) returns (r: Int64)
    ensures r == MulDiv(a, b, c, d)
  {
    hide MagnitudeProduct;
    hide Dividend;
    hide QuotientOrExtreme;
    var uc := ToWord32(if c >= 0 then c else Neg32(c));
    var p0, p1, bSign := MultiplyMagnitudes96(a, b);
    SignedDividend(a, b, d);
    p0, p1, bSign := AddSigned96(p0, p1, d, bSign);

    if c < 0 {
      bSign := !bSign;
    }
    r := DivideAndSign96(Dividend(a, b, d), p0, p1, uc, c, bSign);
  }

  method MultiplyMagnitudes96(a: Int64, b: Int32) returns (p0: ULarge, p1: Word32, bSign: bool)
    ensures p1 * 0x1_0000_0000_0000_0000 + p0.QuadPart() == MagnitudeProduct(a, b)
    ensures p1 <= 0x4000_0000
    ensures bSign == ((a < 0) != (b < 0))
  {
    hide ULarge.QuadPart;
    var ua := SetQuad(ToWord64(if a >= 0 then a else Neg64(a)));
    var ub := ToWord32(if b >= 0 then b else Neg32(b));
    bSign := (a < 0) != (b < 0);
    p0, p1 := LongMultiply96(ua, ub);
    ProductBound(Abs(a), Abs(b), 0x8000_0000_0000_0000, 0x8000_0000);
  }

  /** The multiplication by a single limb, skipping a zero high limb. */
  method LongMultiply96(ua: ULarge, ub: Word32) returns (p0: ULarge, p1: Word32)
    requires ua.QuadPart() <= 0x8000_0000_0000_0000 && ub <= 0x8000_0000
    ensures p1 * 0x1_0000_0000_0000_0000 + p0.QuadPart() == ua.QuadPart() * ub
  {
    ProductBound(ua.LowPart, ub, 0xFFFF_FFFF, 0x8000_0000);
    ProductBound(ua.HighPart, ub, 0x8000_0000, 0x8000_0000);
    LimbProduct(ua.HighPart, ua.LowPart, 0, ub);

    p0 := SetQuad(ua.LowPart * ub);
    if ua.HighPart != 0 {
      var x := SetQuad(Add64(ua.HighPart * ub, p0.HighPart));
      p0 := p0.(HighPart := x.LowPart);
      p1 := x.HighPart;
    } else {
      p1 := 0;
    }
  }

  method ExtendedAdd96(q0: ULarge, q1: Word32, ud0: ULarge, ud1: Word32) returns (p0: ULarge, p1: Word32)
    ensures var total := (q1 + ud1) * 0x1_0000_0000_0000_0000 + q0.QuadPart() + ud0.QuadPart();
            p1 * 0x1_0000_0000_0000_0000 + p0.QuadPart()
            == if total < 0x1_0000_0000_0000_0000_0000_0000 then total
               else total - 0x1_0000_0000_0000_0000_0000_0000
  {
    var uliTotal := SetQuad(ud0.LowPart + q0.LowPart);
    p0 := q0.(LowPart := uliTotal.LowPart);

    uliTotal := ULarge(uliTotal.HighPart, 0);
    uliTotal := SetQuad(uliTotal.QuadPart() + (ud0.HighPart + p0.HighPart));
    p0 := p0.(HighPart := uliTotal.LowPart);

    assert uliTotal.HighPart * 0x1_0000_0000_0000_0000 + p0.QuadPart() == q0.QuadPart() + ud0.QuadPart();
    p1 := Add32(q1, Add32(ud1, uliTotal.HighPart));
  }

  method AddSigned96(q0: ULarge, q1: Word32, d: Int32, sign: bool) returns (p0: ULarge, p1: Word32, bSign: bool)
    requires q1 <= 0x4000_0000
    ensures var before := q1 * 0x1_0000_0000_0000_0000 + q0.QuadPart();
            var total := if sign then before - d else before + d;
            && p1 * 0x1_0000_0000_0000_0000 + p0.QuadPart() == Abs(total)
            && bSign == if d != 0 && total < 0 then !sign else sign
  {
    p0, p1, bSign := q0, q1, sign;
    if d != 0 {
      var ud0: ULarge, ud1: Word32;
      if bSign {
        ud0 := SetQuad(ToWord64(-(d as int)));
        ud1 := if d > 0 then ToWord32(-1) else 0;
      } else {
        ud0 := SetQuad(ToWord64(d));
        ud1 := if d < 0 then ToWord32(-1) else 0;
      }
      p0, p1 := ExtendedAdd96(p0, p1, ud0, ud1);

      if p1 >= 0x8000_0000 {
        bSign := !bSign;
        p0, p1 := Negate96(p0, p1);
      }
    }
  }

  method Negate96(q0: ULarge, q1: Word32) returns (p0: ULarge, p1: Word32)
    requires q0.QuadPart() != 0 || q1 != 0
    ensures p1 * 0x1_0000_0000_0000_0000 + p0.QuadPart()
         == 0x1_0000_0000_0000_0000_0000_0000 - (q1 * 0x1_0000_0000_0000_0000 + q0.QuadPart())
  {
    p0 := SetQuad(0xFFFF_FFFF_FFFF_FFFF - q0.QuadPart());
    p1 := 0xFFFF_FFFF - q1;
    p0 := SetQuad(Add64(p0.QuadPart(), 1));
    p1 := Add32(p1, if p0.QuadPart() == 0 then 1 else 0);
  }

  method DivideAndSign96(ghost n: int, p0: ULarge, p1: Word32, uc: Word32, ghost c: Int32, bSign: bool)
    returns (r: Int64)
    requires Abs(n) == p1 * 0x1_0000_0000_0000_0000 + p0.QuadPart()
    requires uc == Abs(c)
    requires n != 0 ==> bSign == ((n < 0) != (c < 0))
    ensures r == QuotientOrExtreme(n, c, bSign)
  {
    GuardMeansOverflow(n, c, p1, p0.QuadPart());
    if uc <= p1 {
      return if bSign then INT64_MIN else INT64_MAX;
    }
    hide IsQuotRem;
    hide Overflows;
    var uliResult;
    ghost var rest;
    uliResult, rest := DivideByWordSkipping(p0, p1, uc);
    SignedResult(n, c, uliResult.QuadPart(), rest, bSign);
    r := if bSign then Neg64(ToInt64(uliResult.QuadPart())) else ToInt64(uliResult.QuadPart());
  }

  /** The two 32-bit divisions; the high one is skipped when its quotient
      would be zero, which leaves the dividend word as its own remainder. */
  method DivideByWordSkipping(q0: ULarge, p1: Word32, dwDivisor: Word32) returns (uliResult: ULarge, ghost rest: Word32)
    requires p1 < dwDivisor
    ensures IsQuotRem(p1 * 0x1_0000_0000_0000_0000 + q0.QuadPart(), dwDivisor, uliResult.QuadPart(), rest)
  {
    hide IsQuotRem;
    var p0 := q0;
    var high, low, remainder: Word32;
    var uliDividend := ULarge(p0.HighPart, p1);
    if uliDividend.QuadPart() >= dwDivisor {
      high, remainder := EnlargedUnsignedDivide(uliDividend, dwDivisor);
      p0 := p0.(HighPart := remainder);
    } else {
      high := 0;
      ZeroQuotient(uliDividend.QuadPart(), dwDivisor);
    }
    low, remainder := EnlargedUnsignedDivide(p0, dwDivisor);
    uliResult := ULarge(low, high);
    TwoDigitDivision(dwDivisor, p1, q0.HighPart, q0.LowPart, high, p0.HighPart, low, remainder);
    rest := remainder;
  }

  lemma ZeroQuotient(n: nat, c: nat)
    requires n < c
    ensures IsQuotRem(n, c, 0, n)
  {
  }
}
