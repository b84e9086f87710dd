/** What the specification functions of the IQ balancer mean, in plain numbers: responses to simple inputs, closed forms
    and exact bounds (libairspyhf/src/iqbalancer.h:28-44, iqbalancer.c:197-338, 397-445). */
module BalancerLaws {
  import opened Arith
  import opened ComplexNumbers
  import opened Correction
  import opened BalancerSpec
  import opened BalancerSteps
  import opened RawEstimates

  // ---------------------------------------------------------------- DC canceller

  function Constant(c: Complex, n: nat): (s: seq<Complex>)
    ensures |s| == n
  {
    seq(n, i => c)
  }

  function Fade(n: nat): real {
    if n == 0 then 1.0 else 0.9999 * Fade(n - 1)
  }

  function Approached(c: Complex, f: real): Complex {
    Complex(c.re - c.re * f, c.im - c.im * f)
  }

  /** A constant input is forgotten geometrically: after n samples the average is 1 - 0.9999^n of it. */
  lemma {:induction false} ConstantAverage(c: Complex, n: nat)
    ensures Average(ZERO, Constant(c, n)) == Approached(c, Fade(n))
  {
    if n == 0 {
      assert c.re * 1.0 == c.re && c.im * 1.0 == c.im;
    } else {
      hide Follow, Approached;
      ConstantAverage(c, n - 1);
      assert Constant(c, n)[..n - 1] == Constant(c, n - 1);
      FollowConstant(c, Fade(n - 1));
    }
  }

  lemma FollowConstant(c: Complex, f: real)
    ensures Follow(Approached(c, f), c) == Approached(c, 0.9999 * f)
  {
    var u, v := c.re * f, c.im * f;
    FollowParts(c, u, v);
    assert c.re * (0.9999 * f) == 0.9999 * u && c.im * (0.9999 * f) == 0.9999 * v;
    hide Follow;
  }

  lemma FollowParts(c: Complex, u: real, v: real)
    ensures Follow(Complex(c.re - u, c.im - v), c) == Complex(c.re - 0.9999 * u, c.im - 0.9999 * v)
  {
  }

  /** And what is left of it in sample n is 0.9999^(n+1) of it: the average is updated before it is subtracted. */
  lemma ConstantCancelled(c: Complex, length: nat, n: nat)
    requires n < length
    ensures Cancelled(ZERO, Constant(c, length))[n] == Complex(c.re * Fade(n + 1), c.im * Fade(n + 1))
  {
    hide Average;
    assert Constant(c, length)[..n + 1] == Constant(c, n + 1);
    ConstantAverage(c, n + 1);
  }

  // ---------------------------------------------------------------- windows and powers

  /** A window with one strong sample is loud, one without any strong sample is not. */
  lemma LoudMeans(b: Block)
    ensures (exists i: nat :: i < 4096 && Strong(b[i], 0.01)) ==> Loud(b)
    ensures (forall i: nat :: i < 4096 ==> !Strong(b[i], 0.01 / 4096.0)) ==> !Loud(b)
  {
    hide Strong;
    if i: nat :| i < 4096 && Strong(b[i], 0.01) {
      PowerAtLeast(b, i);
      StrongMeans(b[i], 0.01);
    }
    if forall i: nat :: i < 4096 ==> !Strong(b[i], 0.01 / 4096.0) {
      forall z | z in b
        ensures z.re * z.re + z.im * z.im <= 0.01 / 4096.0
      {
        var i: nat :| i < |b| && b[i] == z;
        StrongMeans(z, 0.01 / 4096.0);
      }
      PowerWithin(b, 0.01 / 4096.0);
    }
  }

  predicate Strong(z: Complex, bound: real) {
    z.re * z.re + z.im * z.im > bound
  }

  lemma StrongMeans(z: Complex, bound: real)
    ensures Strong(z, bound) <==> z.re * z.re + z.im * z.im > bound
  {
  }

  /** The windows used are the loud ones among those that start at a multiple of the stride, as many as the integration
      allows and fit. */
  lemma AcceptedMeans(x: seq<Complex>, stride: nat, integration: int, b: Block)
    ensures b in AcceptedIn(x, stride, integration) <==> exists m: nat :: WindowIs(x, stride, integration, b, m)
  {
    var n := WindowCount(|x|, stride, integration);
    WindowFits(|x|, stride, integration, if n > 0 then n - 1 else 0);
    AcceptedAmong(x, stride, n, b);
    hide Accepted, WindowCount, Loud;
    forall m: nat
      ensures WindowIs(x, stride, integration, b, m) <==> AmongFirst(x, stride, n, b, m)
    {
      WindowFits(|x|, stride, integration, m);
    }
    if b in AcceptedIn(x, stride, integration) {
      var m: nat :| AmongFirst(x, stride, n, b, m);
      assert WindowIs(x, stride, integration, b, m);
    }
    if m: nat :| WindowIs(x, stride, integration, b, m) {
      assert AmongFirst(x, stride, n, b, m);
    }
  }

  ghost predicate WindowIs(x: seq<Complex>, stride: nat, integration: int, b: Block, m: nat) {
    m < integration && 0 <= m * stride && m * stride + 4096 <= |x| && b == x[m * stride..m * stride + 4096] && Loud(b)
  }

  ghost predicate AmongFirst(x: seq<Complex>, stride: nat, n: nat, b: Block, m: nat) {
    m < n && 0 <= m * stride && m * stride + 4096 <= |x| && b == x[m * stride..m * stride + 4096] && Loud(b)
  }

  lemma {:induction false} AcceptedAmong(x: seq<Complex>, stride: nat, n: nat, b: Block)
    requires n > 0 ==> (n - 1) * stride + FFT_BINS <= |x|
    ensures b in Accepted(x, stride, n) <==> exists m: nat :: AmongFirst(x, stride, n, b, m)
  {
    hide Loud;
    if n > 0 {
      EarlierFits(n, stride);
      AcceptedAmong(x, stride, n - 1, b);
      if b in Accepted(x, stride, n - 1) {
        var m: nat :| AmongFirst(x, stride, n - 1, b, m);
        assert AmongFirst(x, stride, n, b, m);
      } else if b in Accepted(x, stride, n) {
        assert AmongFirst(x, stride, n, b, n - 1);
      }
      if m: nat :| AmongFirst(x, stride, n, b, m) {
        if m < n - 1 {
          assert AmongFirst(x, stride, n - 1, b, m);
        }
      }
    }
  }

  /** One more window adds twice the product of mirrored bins to the correlation, but once at the centre bin 2048. */
  lemma CorrelationOf(ws: seq<Block>, w: Block, t: Tables, phase: real, amplitude: real, i: int)
    requires ValidTables(t) && 186 <= i <= 3910
    ensures var y, z := BlockSpectrum(w, t, phase, amplitude)[i], BlockSpectrum(w, t, phase, amplitude)[4096 - i];
            var k := if i == 2048 then 1.0 else 2.0;
            var before, after := CorrSum(ws, t, phase, amplitude, i), CorrSum(ws + [w], t, phase, amplitude, i);
            && after.re == before.re + k * (y.re * z.re - y.im * z.im)
            && after.im == before.im + k * (y.im * z.re + y.re * z.im)
  {
    hide BlockSpectrum, ValidTables, Add, Scale, Mul;
    assert (ws + [w])[..|ws|] == ws;
    var f := BlockSpectrum(w, t, phase, amplitude);
    assert CorrSum(ws + [w], t, phase, amplitude, i)
        == Add(CorrSum(ws, t, phase, amplitude, i), Scale(if i == 2048 then 1.0 else 2.0, Mul(f[i], f[4096 - i])));
    AddScaledProduct(CorrSum(ws, t, phase, amplitude, i), if i == 2048 then 1.0 else 2.0, f[i], f[4096 - i]);
  }

  lemma AddScaledProduct(a: Complex, k: real, y: Complex, z: Complex)
    ensures Add(a, Scale(k, Mul(y, z)))
            == Complex(a.re + k * (y.re * z.re - y.im * z.im), a.im + k * (y.im * z.re + y.re * z.im))
  {
  }

  /** A single spectral line z at bin p is image power |z|^2 in range, weighted by the boost window mirrored about the
      optimal bin unless that is the default. */
  lemma {:induction false} LineImagePower(f: Block, boost: seq<real>, optimalBin: int, p: nat, upto: int)
    requires |boost| == 4096 && 0 <= optimalBin <= 4096 && upto <= 3911 && p < 4096
    requires forall q: nat :: q < 4096 && q != p ==> f[q] == ZERO
    ensures ImagePower(f, boost, optimalBin, upto)
            == if 186 <= p < upto then
                 (f[p].re * f[p].re + f[p].im * f[p].im)
                 * (if optimalBin == 2048 then 1.0
                    else boost[if 4096 - p >= optimalBin then 4096 - p - optimalBin else optimalBin - (4096 - p)])
               else 0.0
    decreases upto
  {
    hide NormSq, ImageWeight;
    if upto > 186 {
      LineImagePower(f, boost, optimalBin, p, upto - 1);
      if upto - 1 == p {
        ImageWeightMeans(boost, optimalBin, p);
        NormParts(f[p]);
      } else {
        NoPower(f[upto - 1], ImageWeight(boost, optimalBin, upto - 1));
      }
    }
  }

  lemma ImageWeightMeans(boost: seq<real>, optimalBin: int, i: int)
    requires |boost| == 4096 && 0 <= optimalBin <= 4096 && 186 <= i <= 3910
    ensures ImageWeight(boost, optimalBin, i)
            == if optimalBin == 2048 then 1.0
               else boost[if 4096 - i >= optimalBin then 4096 - i - optimalBin else optimalBin - (4096 - i)]
  {
  }

  lemma NoPower(z: Complex, w: real)
    requires z == ZERO
    ensures NormSq(z) * w == 0.0
  {
    NormParts(ZERO);
  }

  // ---------------------------------------------------------------- utility

  /** The weight of bin i: less near the centre, more at the optimal point, and in proportion to how much stronger the
      mirrored bin is. */
  lemma WeightMeans(boost: seq<real>, t: Tables, optimalBin: int, i: int)
    requires |boost| == |t.boost| == 4096 && 0 <= optimalBin <= 4096 && 186 <= i <= 3910 && boost[i] >= 0.0
    ensures var distance := if i >= 2048 then i - 2048 else 2048 - i;
            var near := if distance > 186 then 1.0 else distance as real / 186.0;
            var point := if optimalBin == 2048 then 1.0
                         else t.boost[if optimalBin >= i then optimalBin - i else i - optimalBin];
            Weight(boost, t, optimalBin, i) * (boost[i] + 0.01) == near * point * boost[4096 - i]
  {
    RatioMeans(boost[4096 - i], boost[i]);
    hide BoostRatio;
    var distance := if i >= 2048 then i - 2048 else 2048 - i;
    var near := if distance > 186 then 1.0 else distance as real / 186.0;
    var point := if optimalBin == 2048 then 1.0 else t.boost[if optimalBin >= i then optimalBin - i else i - optimalBin];
    var r := BoostRatio(boost[4096 - i], boost[i]);
    assert distance as real * (1.0 / 186.0) == distance as real / 186.0;
    assert Weight(boost, t, optimalBin, i) == near * point * r;
    Regroup(near * point, r, boost[i] + 0.01, boost[4096 - i]);
  }

  lemma RatioMeans(mirror: real, own: real)
    requires own >= 0.0
    ensures BoostRatio(mirror, own) * (own + 0.01) == mirror
  {
    assert own + EPSILON > 0.0;
  }

  lemma Regroup(k: real, r: real, e: real, m: real)
    requires r * e == m
    ensures k * r * e == k * m
  {
  }

  /** A correlation z in one bin alone gives its weight times z, and nothing within two bins of the centre or out of
      range. */
  lemma {:induction false} LineUtility(c: seq<Complex>, boost: seq<real>, t: Tables, optimalBin: int, p: nat, upto: int)
    requires |c| == |t.boost| == 4096 && 0 <= optimalBin <= 4096 && NonNegative(boost) && upto <= 3911 && p < 4096
    requires forall q: nat :: q < 4096 && q != p ==> c[q] == ZERO
    ensures UtilitySum(c, boost, t, optimalBin, upto)
            == if 186 <= p < upto && (p < 2046 || p > 2050) then Scale(Weight(boost, t, optimalBin, p), c[p]) else ZERO
    decreases upto
  {
    hide Weight;
    if upto > 186 {
      LineUtility(c, boost, t, optimalBin, p, upto - 1);
      if upto - 1 != p {
        assert c[upto - 1] == ZERO;
        ScaleZero(Weight(boost, t, optimalBin, upto - 1));
      }
    }
  }

  lemma ScaleZero(r: real)
    ensures Scale(r, ZERO) == ZERO
  {
  }

  /** And it is additive in the correlation. */
  lemma {:induction false} UtilityAdds(c: seq<Complex>, d: seq<Complex>, e: seq<Complex>, boost: seq<real>, t: Tables,
                                       optimalBin: int, upto: int)
    requires |c| == |d| == |e| == |t.boost| == 4096 && 0 <= optimalBin <= 4096 && NonNegative(boost) && upto <= 3911
    requires forall q: nat :: q < 4096 ==> e[q] == Add(c[q], d[q])
    ensures UtilitySum(e, boost, t, optimalBin, upto)
            == Add(UtilitySum(c, boost, t, optimalBin, upto), UtilitySum(d, boost, t, optimalBin, upto))
    decreases upto
  {
    hide Weight, Scale, Add, NonNegative;
    if upto <= 186 {
      AddZero();
    } else {
      UtilityAdds(c, d, e, boost, t, optimalBin, upto - 1);
      assert e[upto - 1] == Add(c[upto - 1], d[upto - 1]);
      BinUsable(boost, upto - 1);
      var w := Weight(boost, t, optimalBin, upto - 1);
      ScaleAdds(w, c[upto - 1], d[upto - 1]);
      AddPairs(UtilitySum(c, boost, t, optimalBin, upto - 1), UtilitySum(d, boost, t, optimalBin, upto - 1),
               Scale(w, c[upto - 1]), Scale(w, d[upto - 1]));
    }
  }

  lemma BinUsable(boost: seq<real>, i: int)
    requires NonNegative(boost) && 186 <= i <= 3910
    ensures InRange(i) && |boost| == 4096 && boost[i] >= 0.0
  {
  }

  lemma AddZero()
    ensures Add(ZERO, ZERO) == ZERO
  {
  }

  lemma AddPairs(a: Complex, b: Complex, x: Complex, y: Complex)
    ensures Add(Add(a, b), Add(x, y)) == Add(Add(a, x), Add(b, y))
  {
  }

  lemma ScaleAdds(r: real, a: Complex, b: Complex)
    ensures Scale(r, Add(a, b)) == Add(Scale(r, a), Scale(r, b))
  {
  }

  // ---------------------------------------------------------------- the secant step

  /** Where the two utilities differ by more than a tenth, the step is the point of [-50, 50] nearest to r, the zero of the
      line through them in units of one step; elsewhere there is no step. */
  lemma StepNearest(a: real, b: real, r: real, other: real)
    ensures -0.1 <= a - b <= 0.1 ==> StepMu(a, b) == 0.0
    ensures !(-0.1 <= a - b <= 0.1) && (a - b) * r == a ==> -50.0 <= StepMu(a, b) <= 50.0
    ensures !(-0.1 <= a - b <= 0.1) && (a - b) * r == a && -50.0 <= other <= 50.0 ==>
              Magnitude(StepMu(a, b) - r) <= Magnitude(other - r)
  {
    if !(-0.1 <= a - b <= 0.1) && (a - b) * r == a {
      QuotientIs(a, a - b, r);
    }
  }

  lemma QuotientIs(a: real, d: real, r: real)
    requires d != 0.0 && d * r == a
    ensures a / d == r
  {
  }

  // ---------------------------------------------------------------- smoothing

  /** The correction in use is the plain mean of the last four raw estimates, or of all while there are fewer. */
  lemma MeanOfLatest(h: seq<real>, start: real)
    ensures |h| == 0 ==> Smoothed(h, start) == start
    ensures |h| == 1 ==> Smoothed(h, start) == h[0]
    ensures |h| == 2 ==> Smoothed(h, start) == (h[0] + h[1]) / 2.0
    ensures |h| == 3 ==> Smoothed(h, start) == (h[0] + h[1] + h[2]) / 3.0
    ensures var n := |h|;
            n >= 4 ==> Smoothed(h, start) == (h[n - 1] + h[n - 2] + h[n - 3] + h[n - 4]) / 4.0
  {
    assert |h| > 0 ==> TailSum(h, 1) == h[|h| - 1];
    assert |h| > 1 ==> TailSum(h, 2) == h[|h| - 1] + h[|h| - 2];
    assert |h| > 2 ==> TailSum(h, 3) == h[|h| - 1] + h[|h| - 2] + h[|h| - 3];
    assert |h| > 3 ==> TailSum(h, 4) == h[|h| - 1] + h[|h| - 2] + h[|h| - 3] + h[|h| - 4];
  }

  // ---------------------------------------------------------------- the ramp

  /** Sample i of n is corrected with the straight line from the new value at the first sample to the old at the last. */
  lemma RampedSample(x: seq<Complex>, lastPhase: real, phase: real, lastAmplitude: real, amplitude: real, i: nat)
    returns (ph: real, am: real)
    requires |x| >= 2 && i < |x|
    ensures var n := |x| - 1;
            && ph * n as real == i as real * lastPhase + (n - i) as real * phase
            && am * n as real == i as real * lastAmplitude + (n - i) as real * amplitude
    ensures var z := x[i];
            Ramped(x, lastPhase, phase, lastAmplitude, amplitude)[i]
            == Complex((z.re + ph * z.im) * (1.0 + am), (z.im + ph * z.re) * (1.0 - am))
  {
    ph, am := Ramp(lastPhase, phase, i, |x|), Ramp(lastAmplitude, amplitude, i, |x|);
    RampLine(lastPhase, phase, i, |x|);
    RampLine(lastAmplitude, amplitude, i, |x|);
    CorrectPart(x[i], ph, am);
    hide Correct, Ramp;
  }

  lemma RampLine(last: real, current: real, i: nat, length: nat)
    requires length >= 2 && i < length
    ensures Ramp(last, current, i, length) * (length - 1) as real == i as real * last + (length - 1 - i) as real * current
  {
    var n := (length - 1) as real;
    var s := i as real * last + (length - 1 - i) as real * current;
    assert s * (1.0 / n) * n == s * ((1.0 / n) * n);
    assert (1.0 / n) * n == 1.0;
  }
}
