/** The augmented part of the iLBC adaptive codebook (section 3.6.3.3 of
    RFC 3951), over the reals. `past` is the history up to the point that the
    C code's `buffer` points to: buffer[-k] is past[|past| - k]. */
module AugmentedCodebook {

  const SUBL := 40
  const CB_MAXGAIN: real := 1.3
  const EPS: real := 0.0000000000000002220446049250313

  // ----- The vectors and what is measured on them -----

  function Fade(alfa: real, x: real, y: real): real {
    (1.0 - alfa) * x + alfa * y
  }

  /** The weights go up by a fifth. */
  ghost function Weight(k: int): real {
    k as real * 0.2
  }

  /** Sample j of the vector for a lag: the history from one lag back, and,
      once that runs out, from two lags back. Over the last four samples before
      that point the one is faded into the other. */
  ghost function Sample(past: seq<real>, lag: int, j: int): real
    requires 20 <= lag <= SUBL && lag + 4 <= |past| && 0 <= j < SUBL
  {
    if j < lag - 4 then past[|past| - lag + j]
    else if j < lag then
      Fade(Weight(j - lag + 5), past[|past| - lag + j], past[|past| - 2 * lag + j])
    else past[|past| - 2 * lag + j]
  }

  ghost function AugmentedVec(past: seq<real>, lag: int): (v: seq<real>)
    requires 20 <= lag <= SUBL && lag + 4 <= |past|
    ensures |v| == SUBL
    ensures forall j | 0 <= j < SUBL :: v[j] == Sample(past, lag, j)
  {
    seq(SUBL, j requires 0 <= j < SUBL => Sample(past, lag, j))
  }

  /** The inner product of the first k samples. */
  ghost function Dot(u: seq<real>, v: seq<real>, k: nat): real
    requires k <= |u| && k <= |v|
  {
    if k == 0 then 0.0 else Dot(u, v, k - 1) + u[k - 1] * v[k - 1]
  }

  ghost function SquaredNorm(v: seq<real>): real {
    Dot(v, v, |v|)
  }

  function InverseEnergy(energy: real): real {
    if energy > 0.0 then 1.0 / (energy + EPS) else 0.0
  }

  /** How well a vector matches: the squared inner product over the energy. In
      stage 0 only vectors with a positive inner product are of use. */
  function MeasureOf(stage: int, crossDot: real, invenergy: real): real {
    if stage == 0 && crossDot <= 0.0 then -10000000.0 else crossDot * crossDot * invenergy
  }

  function GainOf(crossDot: real, invenergy: real): real {
    crossDot * invenergy
  }

  ghost function Inverse(past: seq<real>, lag: int): real
    requires 20 <= lag <= SUBL && lag + 4 <= |past|
  {
    InverseEnergy(SquaredNorm(AugmentedVec(past, lag)))
  }

  ghost function Cross(past: seq<real>, target: seq<real>, lag: int): real
    requires 20 <= lag <= SUBL && lag + 4 <= |past| && |target| == SUBL
  {
    Dot(target, AugmentedVec(past, lag), SUBL)
  }

  ghost function Measure(past: seq<real>, target: seq<real>, stage: int, lag: int): real
    requires 20 <= lag <= SUBL && lag + 4 <= |past| && |target| == SUBL
  {
    MeasureOf(stage, Cross(past, target, lag), Inverse(past, lag))
  }

  ghost function Gain(past: seq<real>, target: seq<real>, lag: int): real
    requires 20 <= lag <= SUBL && lag + 4 <= |past| && |target| == SUBL
  {
    GainOf(Cross(past, target, lag), Inverse(past, lag))
  }

  function Fabs(x: real): real {
    if x < 0.0 then -x else x
  }

  // ----- What the measure stands for -----

  ghost function ErrorTerm(x: real, y: real, g: real): real {
    (x - g * y) * (x - g * y)
  }

  /** The squared error left when g times v is taken from the target. */
  ghost function SquaredError(target: seq<real>, v: seq<real>, g: real, k: nat): real
    requires k <= |target| && k <= |v|
  {
    if k == 0 then 0.0 else SquaredError(target, v, g, k - 1) + ErrorTerm(target[k - 1], v[k - 1], g)
  }

  ghost function Quadratic(t: real, cross: real, energy: real, g: real): real {
    t - 2.0 * g * cross + g * g * energy
  }

  lemma SquareOfDifference(x: real, y: real, g: real)
    ensures ErrorTerm(x, y, g) == x * x - 2.0 * g * (x * y) + g * g * (y * y)
  {
    var z := g * y;
    assert (x - z) * (x - z) == x * x - 2.0 * (x * z) + z * z;
    assert x * z == g * (x * y);
    assert z * z == g * g * (y * y);
  }

  lemma Distribute(g: real, x: real, y: real)
    ensures g * (x + y) == g * x + g * y
  {
  }

  lemma ExpansionStep(t: real, c: real, n: real, x: real, y: real, g: real)
    ensures Quadratic(t, c, n, g) + ErrorTerm(x, y, g) == Quadratic(t + x * x, c + x * y, n + y * y, g)
  {
    SquareOfDifference(x, y, g);
    Distribute(2.0 * g, c, x * y);
    Distribute(g * g, n, y * y);
  }

  lemma {:induction false} ErrorExpansion(target: seq<real>, v: seq<real>, g: real, k: nat)
    requires k <= |target| && k <= |v|
    ensures SquaredError(target, v, g, k) == Quadratic(Dot(target, target, k), Dot(target, v, k), Dot(v, v, k), g)
  {
    hide Quadratic, ErrorTerm;
    if k == 0 {
      QuadraticOfZero(g);
    } else {
      var x, y := target[k - 1], v[k - 1];
      ErrorExpansion(target, v, g, k - 1);
      ExpansionStep(Dot(target, target, k - 1), Dot(target, v, k - 1), Dot(v, v, k - 1), x, y, g);
      assert Dot(target, target, k) == Dot(target, target, k - 1) + x * x;
      assert Dot(target, v, k) == Dot(target, v, k - 1) + x * y;
      assert Dot(v, v, k) == Dot(v, v, k - 1) + y * y;
    }
  }

  lemma QuadraticOfZero(g: real)
    ensures Quadratic(0.0, 0.0, 0.0, g) == 0.0
  {
  }

  /** The measure, but for the EPS in the inverse, is the squared error that
      the vector removes with its best gain, the inner product over the
      energy: no other gain removes more. */
  lemma MeasureIsTheErrorRemoved(target: seq<real>, v: seq<real>, g: real)
    requires |target| == |v| && SquaredNorm(v) > 0.0
    ensures var cross, energy := Dot(target, v, |v|), SquaredNorm(v);
            && SquaredError(target, v, cross / energy, |v|) == SquaredNorm(target) - cross * (cross / energy)
            && SquaredError(target, v, g, |v|) >= SquaredNorm(target) - cross * (cross / energy)
  {
    hide Dot, SquaredError, Quadratic;
    var cross, energy := Dot(target, v, |v|), SquaredNorm(v);
    var best := cross / energy;
    ErrorExpansion(target, v, best, |v|);
    ErrorExpansion(target, v, g, |v|);
    BestGain(SquaredNorm(target), cross, energy, best, g);
  }

  lemma BestGain(t: real, cross: real, energy: real, best: real, g: real)
    requires energy > 0.0 && best == cross / energy
    ensures Quadratic(t, cross, energy, best) == t - cross * best
    ensures Quadratic(t, cross, energy, g) >= t - cross * best
  {
    assert best * energy == cross;
    assert best * best * energy == best * cross;
    var d := g - best;
    assert d * d >= 0.0;
    assert (d * d) * energy >= 0.0;
    assert d * d == g * g - 2.0 * g * best + best * best;
    assert (d * d) * energy == g * g * energy - 2.0 * g * (best * energy) + best * (best * energy);
  }

  ghost function Product(x: real, y: real): real {
    x * y
  }

  lemma ProductIsPositive(x: real, y: real)
    requires x > 0.0 && y > 0.0
    ensures Product(x, y) > 0.0
  {
  }

  lemma NegativesCancel(x: real, y: real)
    requires x < 0.0 && y < 0.0
    ensures Product(x, y) > 0.0
  {
    var a, b := -x, -y;
    assert a * b > 0.0;
    assert a * b == x * y;
  }

  lemma ZeroTimes(y: real)
    ensures Product(0.0, y) == 0.0
  {
  }

  lemma SquareIsPositive(x: real)
    ensures Product(x, x) >= 0.0
    ensures x != 0.0 ==> Product(x, x) > 0.0
  {
    hide Product;
    if x > 0.0 {
      ProductIsPositive(x, x);
    } else if x < 0.0 {
      NegativesCancel(x, x);
    } else {
      ZeroTimes(x);
    }
  }

  lemma NormStep(v: seq<real>, k: nat)
    requires 0 < k <= |v|
    ensures Dot(v, v, k) == Dot(v, v, k - 1) + Product(v[k - 1], v[k - 1])
  {
  }

  lemma {:induction false} NormIsNotNegative(v: seq<real>, k: nat)
    requires k <= |v|
    ensures Dot(v, v, k) >= 0.0
  {
    hide Product;
    if k > 0 {
      NormIsNotNegative(v, k - 1);
      NormStep(v, k);
      SquareIsPositive(v[k - 1]);
    }
  }

  lemma ZeroNormStep(v: seq<real>, k: nat)
    requires 0 < k <= |v| && Dot(v, v, k) == 0.0
    ensures Dot(v, v, k - 1) == 0.0 && v[k - 1] == 0.0
  {
    hide Product, Dot;
    NormIsNotNegative(v, k - 1);
    NormStep(v, k);
    SquareIsPositive(v[k - 1]);
  }

  lemma {:induction false} ZeroVectorHasNoProduct(u: seq<real>, v: seq<real>, k: nat)
    requires k <= |u| && k <= |v| && Dot(v, v, k) == 0.0
    ensures Dot(u, v, k) == 0.0
  {
    if k > 0 {
      ZeroNormStep(v, k);
      ZeroVectorHasNoProduct(u, v, k - 1);
      assert u[k - 1] * v[k - 1] == 0.0;
    }
  }

  /** The measure of a lag, from the error alone: taken times energy and EPS it
      is the energy times the error that the vector removes at best. In stage 0
      a vector with no positive inner product is out of the question. */
  lemma MeasureFromTheError(past: seq<real>, target: seq<real>, stage: int, lag: int)
    requires 20 <= lag <= SUBL && lag + 4 <= |past| && |target| == SUBL
    ensures var v := AugmentedVec(past, lag);
            var cross, energy := Dot(target, v, 40), Dot(v, v, 40);
            && energy >= 0.0
            && (stage == 0 && cross <= 0.0 ==> Measure(past, target, stage, lag) == -10000000.0)
            && (energy > 0.0 && (stage != 0 || cross > 0.0) ==>
                  Measure(past, target, stage, lag) * (energy + EPS)
                  == energy * (Dot(target, target, 40) - SquaredError(target, v, cross / energy, 40)))
            && (energy == 0.0 && stage != 0 ==> Measure(past, target, stage, lag) == 0.0)
  {
    hide Dot, SquaredError, AugmentedVec;
    var v := AugmentedVec(past, lag);
    var cross, energy := Dot(target, v, 40), Dot(v, v, 40);
    NormIsNotNegative(v, 40);
    if energy > 0.0 {
      MeasureIsTheErrorRemoved(target, v, 0.0);
      InverseTimes(cross * cross, energy);
      EnergyTimesBest(cross, energy);
    }
  }

  /** The gain is the inner product over energy and EPS, also for the vector of
      zeros; a lag is admissible if the gain lies between -1.3 and 1.3. */
  lemma GainFromTheVector(past: seq<real>, target: seq<real>, lag: int)
    requires 20 <= lag <= SUBL && lag + 4 <= |past| && |target| == SUBL
    ensures var v := AugmentedVec(past, lag);
            && Gain(past, target, lag) * (Dot(v, v, 40) + EPS) == Dot(target, v, 40)
            && forall low, to | 20 <= low && to <= SUBL + 1 && to + 3 <= |past| ::
                 Admissible(past, target, low, to, lag)
                 <==> low <= lag < to && -1.3 < Gain(past, target, lag) < 1.3
  {
    hide Dot, AugmentedVec;
    var v := AugmentedVec(past, lag);
    NormIsNotNegative(v, 40);
    if Dot(v, v, 40) > 0.0 {
      InverseTimes(Dot(target, v, 40), Dot(v, v, 40));
    } else {
      ZeroVectorHasNoProduct(target, v, 40);
    }
  }

  lemma InverseTimes(x: real, energy: real)
    requires energy > 0.0
    ensures (x * InverseEnergy(energy)) * (energy + EPS) == x
  {
    var inverse := InverseEnergy(energy);
    assert inverse * (energy + EPS) == 1.0;
    Reassociate(x, inverse, energy + EPS);
  }

  lemma Reassociate(x: real, y: real, z: real)
    ensures (x * y) * z == x * (y * z)
  {
  }

  lemma EnergyTimesBest(cross: real, energy: real)
    requires energy > 0.0
    ensures energy * (cross * (cross / energy)) == cross * cross
  {
    assert (cross / energy) * energy == cross;
    Reassociate(cross, cross / energy, energy);
  }

  // ----- The recursive energy -----

  /** The energy of the history from i up to j. */
  ghost function Energy(past: seq<real>, i: nat, j: nat): real
    requires i <= j <= |past|
  {
    if i == j then 0.0 else Energy(past, i, j - 1) + past[j - 1] * past[j - 1]
  }

  lemma {:induction false} EnergyFromFront(past: seq<real>, i: nat, j: nat)
    requires i < j <= |past|
    ensures Energy(past, i, j) == past[i] * past[i] + Energy(past, i + 1, j)
  {
    if i + 1 == j {
      assert Energy(past, i, i) == 0.0;
    } else {
      EnergyFromFront(past, i, j - 1);
    }
  }

  /** The first samples of a vector are a stretch of the history. */
  lemma {:induction false} EnergyOfCopy(past: seq<real>, v: seq<real>, i: nat, k: nat)
    requires k <= |v| && i + k <= |past|
    requires forall j | 0 <= j < k :: v[j] == past[i + j]
    ensures Dot(v, v, k) == Energy(past, i, i + k)
  {
    if k > 0 {
      EnergyOfCopy(past, v, i, k - 1);
    }
  }

  // ----- The search -----

  /** The inner product over the first lag - 4 samples. */
  method CrossOfCopy(target: array<real>, buf: array<real>, end: nat, icount: nat, ghost v: seq<real>)
      returns (crossDot: real)
    requires target.Length == SUBL && end <= buf.Length && 20 <= icount <= SUBL && icount + 4 <= end
    requires v == AugmentedVec(buf[..end], icount)
    ensures crossDot == Dot(target[..], v, icount - 4)
  {
    crossDot := 0.0;
    var pp := end - icount;
    for j := 0 to icount - 4
      invariant pp == end - icount + j
      invariant crossDot == Dot(target[..], v, j)
    {
      assert v[j] == buf[pp];
      crossDot := crossDot + target[j] * buf[pp];
      pp := pp + 1;
    }
  }

  /** The interpolated samples. */
  method AddInterpolated(target: array<real>, buf: array<real>, end: nat, icount: nat,
                         energy0: real, crossDot0: real, ghost v: seq<real>)
      returns (energy: real, crossDot: real)
    requires target.Length == SUBL && end <= buf.Length && 20 <= icount <= SUBL && icount + 4 <= end
    requires v == AugmentedVec(buf[..end], icount)
    requires energy0 == Dot(v, v, icount - 4) && crossDot0 == Dot(target[..], v, icount - 4)
    ensures energy == Dot(v, v, icount) && crossDot == Dot(target[..], v, icount)
  {
    hide Fade;
    energy, crossDot := energy0, crossDot0;
    var alfa := 0.2;
    var ppo, ppi := end - 4, end - icount - 4;
    for j := icount - 4 to icount
      invariant ppo == end - icount + j && ppi == end - 2 * icount + j
      invariant alfa == Weight(j - icount + 5)
      invariant energy == Dot(v, v, j) && crossDot == Dot(target[..], v, j)
    {
      var weighted := Fade(alfa, buf[ppo], buf[ppi]);
      assert v[j] == weighted;
      ppo := ppo + 1;
      ppi := ppi + 1;
      energy := energy + weighted * weighted;
      crossDot := crossDot + target[j] * weighted;
      alfa := alfa + 0.2;
    }
  }

  /** The remaining samples. */
  method AddRemaining(target: array<real>, buf: array<real>, end: nat, icount: nat,
                      energy0: real, crossDot0: real, ghost v: seq<real>)
      returns (energy: real, crossDot: real)
    requires target.Length == SUBL && end <= buf.Length && 20 <= icount <= SUBL && icount + 4 <= end
    requires v == AugmentedVec(buf[..end], icount)
    requires energy0 == Dot(v, v, icount) && crossDot0 == Dot(target[..], v, icount)
    ensures energy == Dot(v, v, SUBL) && crossDot == Dot(target[..], v, SUBL)
  {
    energy, crossDot := energy0, crossDot0;
    var pp := end - icount;
    for j := icount to SUBL
      invariant pp == end - 2 * icount + j
      invariant energy == Dot(v, v, j) && crossDot == Dot(target[..], v, j)
    {
      assert v[j] == buf[pp];
      energy := energy + buf[pp] * buf[pp];
      crossDot := crossDot + target[j] * buf[pp];
      pp := pp + 1;
    }
  }

  /** Energy and inner product for one lag, given the energy of the first
      lag - 4 samples. */
  method EnergyAndCross(target: array<real>, buf: array<real>, end: nat, icount: nat, nrjRecursive: real)
      returns (energy: real, crossDot: real)
    requires target.Length == SUBL && end <= buf.Length && 20 <= icount <= SUBL && icount + 4 <= end
    requires nrjRecursive == Energy(buf[..end], end - icount, end - 4)
    ensures energy == SquaredNorm(AugmentedVec(buf[..end], icount))
    ensures crossDot == Cross(buf[..end], target[..], icount)
  {
    ghost var v := AugmentedVec(buf[..end], icount);
    EnergyOfCopy(buf[..end], v, end - icount, icount - 4);
    crossDot := CrossOfCopy(target, buf, end, icount, v);
    energy, crossDot := AddInterpolated(target, buf, end, icount, nrjRecursive, crossDot, v);
    energy, crossDot := AddRemaining(target, buf, end, icount, energy, crossDot, v);
  }

  /** The lags from `low` up to `to` whose gain is not too large. */
  ghost predicate Admissible(past: seq<real>, target: seq<real>, low: int, to: int, lag: int)
    requires 20 <= low && to <= SUBL + 1 && to + 3 <= |past| && |target| == SUBL
  {
    low <= lag < to && Fabs(Gain(past, target, lag)) < CB_MAXGAIN
  }

  /** The best so far: either no admissible lag beats the measure that came
      in, and nothing has changed, or the best is the first of the admissible
      lags with the largest measure. */
  ghost predicate IsBest(past: seq<real>, target: seq<real>, stage: int, startIndex: int, low: int, to: int,
                         measure0: real, index0: int, gain0: real, measure: real, index: int, gain: real)
    requires 20 <= low && to <= SUBL + 1 && to + 3 <= |past| && |target| == SUBL
  {
    && measure0 <= measure
    && (forall lag | Admissible(past, target, low, to, lag) :: Measure(past, target, stage, lag) <= measure)
    && if measure == measure0 then index == index0 && gain == gain0
       else
         var best := index - startIndex + 20;
         && Admissible(past, target, low, to, best)
         && measure == Measure(past, target, stage, best)
         && gain == Gain(past, target, best)
         && forall lag | Admissible(past, target, low, to, lag) && lag < best ::
              Measure(past, target, stage, lag) < measure
  }

  lemma BestStep(past: seq<real>, target: seq<real>, stage: int, startIndex: int, low: int, to: int,
                 measure0: real, index0: int, gain0: real, m: real, i: int, g: real, m': real, i': int, g': real)
    requires 20 <= low <= to <= SUBL && to + 4 <= |past| && |target| == SUBL
    requires IsBest(past, target, stage, startIndex, low, to, measure0, index0, gain0, m, i, g)
    requires var better := Measure(past, target, stage, to) > m && Fabs(Gain(past, target, to)) < CB_MAXGAIN;
             if better then
               m' == Measure(past, target, stage, to) && i' == startIndex + to - 20 && g' == Gain(past, target, to)
             else m' == m && i' == i && g' == g
    ensures IsBest(past, target, stage, startIndex, low, to + 1, measure0, index0, gain0, m', i', g')
  {
    hide Measure, Gain;
    assert forall lag | Admissible(past, target, low, to + 1, lag) ::
             Admissible(past, target, low, to, lag) || lag == to;
    assert forall lag | Admissible(past, target, low, to, lag) :: Admissible(past, target, low, to + 1, lag);
  }

  /** The energy of the first low - 5 samples before the first of a vector. */
  method InitialEnergy(buf: array<real>, end: nat, low: nat) returns (nrjRecursive: real)
    requires 20 <= low <= end <= buf.Length
    ensures nrjRecursive == Energy(buf[..end], end - low + 1, end - 4)
  {
    nrjRecursive := 0.0;
    var pp := end - low + 1;
    for j := 0 to low - 5
      invariant pp == end - low + 1 + j
      invariant nrjRecursive == Energy(buf[..end], end - low + 1, pp)
    {
      nrjRecursive := nrjRecursive + buf[pp] * buf[pp];
      pp := pp + 1;
    }
  }

  /** Measure the vector of the next lag, and take it if it is the best so far
      and its gain is not too large: then the best of the lags before it has
      become the best of the lags up to it. */
  method Compare(stage: int, crossDot: real, invenergy: real, tmpIndex: int, m: real, i: int, g: real,
                 ghost past: seq<real>, ghost target: seq<real>, ghost startIndex: int, ghost low: int, ghost lag: int,
                 ghost measure0: real, ghost index0: int, ghost gain0: real)
      returns (max_measure: real, best_index: int, gain: real)
    requires 20 <= low <= lag <= SUBL && lag + 4 <= |past| && |target| == SUBL && tmpIndex == startIndex + lag - 20
    requires crossDot == Cross(past, target, lag) && invenergy == Inverse(past, lag)
    requires IsBest(past, target, stage, startIndex, low, lag, measure0, index0, gain0, m, i, g)
    ensures IsBest(past, target, stage, startIndex, low, lag + 1, measure0, index0, gain0,
                   max_measure, best_index, gain)
  {
    hide Cross, Inverse, IsBest;
    max_measure, best_index, gain := m, i, g;
    var measure;
    if stage == 0 {
      measure := -10000000.0;
      if crossDot > 0.0 {
        measure := crossDot * crossDot * invenergy;
      }
    } else {
      measure := crossDot * crossDot * invenergy;
    }
    assert measure == Measure(past, target, stage, lag);
    var ftmp := crossDot * invenergy;
    assert ftmp == Gain(past, target, lag);
    if measure > max_measure && Fabs(ftmp) < CB_MAXGAIN {
      best_index := tmpIndex;
      max_measure := measure;
      gain := ftmp;
    }
    BestStep(past, target, stage, startIndex, low, lag, measure0, index0, gain0, m, i, g,
             max_measure, best_index, gain);
  }

  /** What the best is, lag by lag. */
  lemma BestMeans(past: seq<real>, target: seq<real>, stage: int, startIndex: int, low: int, to: int,
                  measure0: real, index0: int, gain0: real, measure: real, index: int, gain: real)
    requires 20 <= low && to <= SUBL + 1 && to + 3 <= |past| && |target| == SUBL
    requires IsBest(past, target, stage, startIndex, low, to, measure0, index0, gain0, measure, index, gain)
    ensures measure0 <= measure
    ensures forall lag | low <= lag < to && -1.3 < Gain(past, target, lag) < 1.3 ::
              Measure(past, target, stage, lag) <= measure
    ensures measure == measure0 ==> index == index0 && gain == gain0
    ensures measure > measure0 ==>
              var best := index - startIndex + 20;
              && low <= best < to && gain == Gain(past, target, best) && -1.3 < gain < 1.3
              && measure == Measure(past, target, stage, best)
              && forall lag | low <= lag < best && -1.3 < Gain(past, target, lag) < 1.3 ::
                   Measure(past, target, stage, lag) < measure
  {
    hide Measure, Gain;
    assert forall lag | low <= lag < to && -1.3 < Gain(past, target, lag) < 1.3 ::
        Admissible(past, target, low, to, lag);
  }

  /** `searchAugmentedCB`: the energies are those of the vectors that
      `createAugmentedVec` builds, and the best is taken over all lags. */
  method SearchAugmentedCB(low: nat, high: nat, stage: int, startIndex: int, target: array<real>,
                           buf: array<real>, end: nat, maxMeasure: real, bestIndex: int, bestGain: real,
                           energy: array<real>, invenergy: array<real>)
      returns (max_measure: real, best_index: int, gain: real)
    requires target.Length == SUBL && 20 <= low <= high + 1 && high <= SUBL
             && high + 4 <= end <= buf.Length && low <= end
    requires 0 <= startIndex + low - 20 && startIndex + high - 20 < energy.Length == invenergy.Length
    requires energy != invenergy && energy != target && energy != buf && invenergy != target && invenergy != buf
    modifies energy, invenergy
    ensures forall lag | low <= lag <= high ::
              && energy[startIndex + lag - 20] == SquaredNorm(AugmentedVec(buf[..end], lag))
              && invenergy[startIndex + lag - 20] == Inverse(buf[..end], lag)
    ensures forall k | 0 <= k < energy.Length && !(startIndex + low - 20 <= k <= startIndex + high - 20) ::
              energy[k] == old(energy[k]) && invenergy[k] == old(invenergy[k])
    ensures maxMeasure <= max_measure
    ensures forall lag | low <= lag <= high && -1.3 < Gain(buf[..end], target[..], lag) < 1.3 ::
              Measure(buf[..end], target[..], stage, lag) <= max_measure
    ensures max_measure == maxMeasure ==> best_index == bestIndex && gain == bestGain
    ensures max_measure > maxMeasure ==>
              var past, goal, best := buf[..end], target[..], best_index - startIndex + 20;
              && low <= best <= high && gain == Gain(past, goal, best) && -1.3 < gain < 1.3
              && max_measure == Measure(past, goal, stage, best)
              && forall lag | low <= lag < best && -1.3 < Gain(past, goal, lag) < 1.3 ::
                   Measure(past, goal, stage, lag) < max_measure
  {
    hide MeasureOf, GainOf, Cross, AugmentedVec, Dot, SquaredNorm, IsBest, Fabs;
    ghost var past, goal := buf[..end], target[..];
    max_measure, best_index, gain := maxMeasure, bestIndex, bestGain;
    var nrjRecursive := InitialEnergy(buf, end, low);
    var ppe := end - low;
    BestOfNone(past, goal, stage, startIndex, low, maxMeasure, bestIndex, bestGain);
    for icount := low to high + 1
      invariant ppe == end - icount
      invariant nrjRecursive == Energy(past, end - icount + 1, end - 4)
      invariant buf[..end] == past && target[..] == goal
      invariant forall lag | low <= lag < icount ::
                  && energy[startIndex + lag - 20] == SquaredNorm(AugmentedVec(past, lag))
                  && invenergy[startIndex + lag - 20] == Inverse(past, lag)
      invariant forall k | 0 <= k < energy.Length && !(startIndex + low - 20 <= k < startIndex + icount - 20) ::
                  energy[k] == old(energy[k]) && invenergy[k] == old(invenergy[k])
      invariant IsBest(past, goal, stage, startIndex, low, icount, maxMeasure, bestIndex, bestGain,
                       max_measure, best_index, gain)
    {
      var tmpIndex := startIndex + icount - 20;
      EnergyFromFront(past, end - icount, end - 4);
      nrjRecursive := nrjRecursive + buf[ppe] * buf[ppe];
      ppe := ppe - 1;
      var crossDot;
      energy[tmpIndex], crossDot := EnergyAndCross(target, buf, end, icount, nrjRecursive);
      if energy[tmpIndex] > 0.0 {
        invenergy[tmpIndex] := 1.0 / (energy[tmpIndex] + EPS);
      } else {
        invenergy[tmpIndex] := 0.0;
      }
      assert invenergy[tmpIndex] == Inverse(past, icount);
      assert crossDot == Cross(past, goal, icount);
      max_measure, best_index, gain :=
        Compare(stage, crossDot, invenergy[tmpIndex], tmpIndex, max_measure, best_index, gain,
                past, goal, startIndex, low, icount, maxMeasure, bestIndex, bestGain);
    }
    BestMeans(past, goal, stage, startIndex, low, high + 1, maxMeasure, bestIndex, bestGain,
              max_measure, best_index, gain);
  }

  lemma BestOfNone(past: seq<real>, target: seq<real>, stage: int, startIndex: int, low: int, m: real, i: int, g: real)
    requires 20 <= low <= SUBL + 1 && low + 3 <= |past| && |target| == SUBL
    ensures IsBest(past, target, stage, startIndex, low, low, m, i, g, m, i, g)
  {
  }

  // ----- Building a vector -----

  /** A vector sample by sample, with the weights of the four interpolated. */
  lemma VectorFromHistory(past: seq<real>, lag: int)
    requires 20 <= lag <= SUBL && lag + 4 <= |past|
    ensures var v, n := AugmentedVec(past, lag), |past|;
            && (forall j | 0 <= j < lag - 4 :: v[j] == past[n - lag + j])
            && v[lag - 4] == 0.8 * past[n - 4] + 0.2 * past[n - lag - 4]
            && v[lag - 3] == 0.6 * past[n - 3] + 0.4 * past[n - lag - 3]
            && v[lag - 2] == 0.4 * past[n - 2] + 0.6 * past[n - lag - 2]
            && v[lag - 1] == 0.2 * past[n - 1] + 0.8 * past[n - lag - 1]
            && (forall j | lag <= j < 40 :: v[j] == past[n - 2 * lag + j])
  {
  }

  method CopySamples(dst: array<real>, at: nat, src: array<real>, from: nat, n: nat)
    requires at + n <= dst.Length && from + n <= src.Length && dst != src
    modifies dst
    ensures forall k | at <= k < at + n :: dst[k] == src[from + (k - at)]
    ensures forall k | 0 <= k < dst.Length && !(at <= k < at + n) :: dst[k] == old(dst[k])
  {
    for i := 0 to n
      invariant forall k | at <= k < at + i :: dst[k] == src[from + (k - at)]
      invariant forall k | 0 <= k < dst.Length && !(at <= k < at + i) :: dst[k] == old(dst[k])
    {
      dst[at + i] := src[from + i];
    }
  }

  lemma FadedSample(past: seq<real>, lag: int, j: int)
    requires 20 <= lag <= SUBL && lag + 5 <= |past| && lag - 5 <= j < lag
    ensures AugmentedVec(past, lag)[j]
         == Fade(Weight(j - lag + 5), past[|past| - lag + j], past[|past| - 2 * lag + j])
    ensures Weight(j - lag + 6) == Weight(j - lag + 5) + 0.2
  {
  }

  lemma CopiedSamples(past: seq<real>, lag: int)
    requires 20 <= lag <= SUBL && lag + 5 <= |past|
    ensures forall j | 0 <= j < lag - 4 :: AugmentedVec(past, lag)[j] == past[|past| - lag + j]
    ensures forall j | lag <= j < SUBL :: AugmentedVec(past, lag)[j] == past[|past| - 2 * lag + j]
    ensures Weight(0) == 0.0
  {
  }

  /** `createAugmentedVec`. Its fifth interpolated sample from the end has
      weight 0 and is a copy like those before it. */
  method CreateAugmentedVec(index: nat, buf: array<real>, end: nat, cbVec: array<real>)
    requires 20 <= index <= SUBL && index + 5 <= end <= buf.Length && cbVec.Length == SUBL && cbVec != buf
    modifies cbVec
    ensures cbVec[..] == AugmentedVec(buf[..end], index)
  {
    hide Fade, AugmentedVec, Sample;
    ghost var past := buf[..end];
    ghost var v := AugmentedVec(past, index);
    CopiedSamples(past, index);
    var ilow := index - 5;
    CopySamples(cbVec, 0, buf, end - index, index);
    var alfa1, alfa := 0.2, 0.0;
    var ppo, ppi := end - 5, end - index - 5;
    for j := ilow to index
      invariant ppo == end - index + j && ppi == end - 2 * index + j
      invariant alfa == Weight(j - index + 5)
      invariant buf[..end] == past
      invariant forall k | 0 <= k < j :: cbVec[k] == v[k]
    {
      FadedSample(past, index, j);
      var weighted := Fade(alfa, buf[ppo], buf[ppi]);
      ppo := ppo + 1;
      ppi := ppi + 1;
      cbVec[j] := weighted;
      alfa := alfa + alfa1;
    }
    CopySamples(cbVec, index, buf, end - index, SUBL - index);
  }
}
