/** What the estimator of libairspyhf/src/iqbalancer.c:254-445 is for. A front end that is linear in the signal and in its
    conjugate turns a signal z into A z + B conj(z); the second part is the image. The utility the estimator measures is,
    up to one real factor, the image left after the correction, and in a balanced front end each step shrinks a wrong
    correction to at most 0.27 of itself. */
module ImageRemoval {
  import opened ComplexNumbers
  import opened DiscreteFourier
  import opened FastFourier
  import opened Correction
  import opened BalancerSpec
  import opened BalancerSteps
  import opened BalancerLaws
  import opened RawEstimates

  /** `w` is what the front end makes of `z`. */
  ghost predicate Received(w: Block, z: Block, a: Complex, b: Complex) {
    forall n: nat :: n < FFT_BINS ==> w[n] == Add(Mul(a, z[n]), Mul(b, Conj(z[n])))
  }

  /** What is left of the signal, and of its image, after the correction. */
  function Kept(a: Complex, b: Complex, phase: real, amplitude: real): Complex {
    Add(Mul(Alpha(phase, amplitude), a), Mul(Beta(phase, amplitude), Conj(b)))
  }

  function Image(a: Complex, b: Complex, phase: real, amplitude: real): Complex {
    Add(Mul(Alpha(phase, amplitude), b), Mul(Beta(phase, amplitude), Conj(a)))
  }

  lemma CorrectedFrontEnd(z: Complex, a: Complex, b: Complex, phase: real, amplitude: real)
    ensures Correct(Add(Mul(a, z), Mul(b, Conj(z))), phase, amplitude)
            == Add(Mul(Kept(a, b, phase, amplitude), z), Mul(Image(a, b, phase, amplitude), Conj(z)))
  {
    var w, al, be := Add(Mul(a, z), Mul(b, Conj(z))), Alpha(phase, amplitude), Beta(phase, amplitude);
    CorrectMixes(w, phase, amplitude);
    ConjMix(a, b, z);
    hide Mul, Add, Conj, Correct, Alpha, Beta;
    MulDistrib(al, Mul(a, z), Mul(b, Conj(z)));
    MulDistrib(be, Mul(Conj(a), Conj(z)), Mul(Conj(b), z));
    MulAssoc(al, a, z);
    MulAssoc(al, b, Conj(z));
    MulAssoc(be, Conj(a), Conj(z));
    MulAssoc(be, Conj(b), z);
    MulDistrib(z, Mul(al, a), Mul(be, Conj(b)));
    MulDistrib(Conj(z), Mul(al, b), Mul(be, Conj(a)));
    AddSwap4(Mul(Mul(al, a), z), Mul(Mul(al, b), Conj(z)), Mul(Mul(be, Conj(a)), Conj(z)), Mul(Mul(be, Conj(b)), z));
  }

  lemma ConjMix(a: Complex, b: Complex, z: Complex)
    ensures Conj(Add(Mul(a, z), Mul(b, Conj(z)))) == Add(Mul(Conj(a), Conj(z)), Mul(Conj(b), z))
  {
    ConjMul(a, z);
    ConjMul(b, Conj(z));
    hide Mul;
  }

  lemma AddSwap4(p: Complex, q: Complex, r: Complex, s: Complex)
    ensures Add(Add(p, q), Add(r, s)) == Add(Add(p, s), Add(q, r))
  {
  }

  // ---------------------------------------------------------------- one window

  ghost function SignalSpectrum(z: Block, t: Tables): Block
    requires ValidTables(t)
  {
    BinsArePowerOfTwo();
    PlainSpectrum(z, t.win, t.tw)
  }

  /** No line of the signal has a partner at the mirrored frequency, so that all correlation is image. */
  ghost predicate Unpaired(z: Block, t: Tables)
    requires ValidTables(t)
  {
    forall i: int :: InRange(i) ==> Mul(SignalSpectrum(z, t)[i], SignalSpectrum(z, t)[FFT_BINS - i]) == ZERO
  }

  /** The power of the signal at bin i and its mirror. */
  ghost function PairPower(z: Block, t: Tables, i: int): real
    requires ValidTables(t) && InRange(i)
  {
    NormSq(SignalSpectrum(z, t)[i]) + NormSq(SignalSpectrum(z, t)[FFT_BINS - i])
  }

  lemma WindowMeasures(w: Block, z: Block, t: Tables, a: Complex, b: Complex, phase: real, amplitude: real, i: int)
    requires ValidTables(t) && UnitModulus(t.tw) && InRange(i) && Received(w, z, a, b) && Unpaired(z, t)
    ensures MirrorProduct(BlockSpectrum(w, t, phase, amplitude), i)
            == Scale(PairPower(z, t, i), Mul(Kept(a, b, phase, amplitude), Image(a, b, phase, amplitude)))
  {
    hide Mul, Add, Conj, Correct, Kept, Image, NormSq, Scale, PlainSpectrum, Spectrum, Twiddles;
    BinsArePowerOfTwo();
    var c, k, m := CorrectAll(w, phase, amplitude), Kept(a, b, phase, amplitude), Image(a, b, phase, amplitude);
    forall n: nat | n < FFT_BINS
      ensures c[n] == Add(Mul(k, z[n]), Mul(m, Conj(z[n])))
    {
      CorrectedFrontEnd(z[n], a, b, phase, amplitude);
    }
    SpectrumIs(w, t.win, t.tw, phase, amplitude);
    MixedBin(z, c, t.win, t.tw, k, m, i);
    MixedBin(z, c, t.win, t.tw, k, m, FFT_BINS - i);
    var u, v := SignalSpectrum(z, t)[i], SignalSpectrum(z, t)[FFT_BINS - i];
    MixedProduct(k, m, u, v);
    OnlyImage(Mul(k, k), Mul(m, m), Scale(NormSq(u) + NormSq(v), Mul(k, m)));
  }

  lemma OnlyImage(p: Complex, q: Complex, x: Complex)
    ensures Add(Add(Mul(p, ZERO), x), Mul(q, Conj(ZERO))) == x
  {
    MulOne(p);
    MulOne(q);
    assert Conj(ZERO) == ZERO;
    hide Mul;
  }

  // ---------------------------------------------------------------- an integration

  /** The windows as received from the signal blocks. */
  ghost predicate AllReceived(ws: seq<Block>, zs: seq<Block>, t: Tables, a: Complex, b: Complex)
    requires ValidTables(t)
  {
    |ws| == |zs| && forall j: nat :: j < |ws| ==> Received(ws[j], zs[j], a, b) && Unpaired(zs[j], t)
  }

  ghost function PairSum(zs: seq<Block>, t: Tables, i: int): real
    requires ValidTables(t) && InRange(i)
  {
    if |zs| == 0 then 0.0 else PairSum(zs[..|zs| - 1], t, i) + Multiplicity(i) * PairPower(zs[|zs| - 1], t, i)
  }

  lemma {:induction false} SumMeasures(ws: seq<Block>, zs: seq<Block>, t: Tables, a: Complex, b: Complex,
                                       phase: real, amplitude: real, i: int)
    requires ValidTables(t) && UnitModulus(t.tw) && InRange(i) && AllReceived(ws, zs, t, a, b)
    ensures CorrSum(ws, t, phase, amplitude, i)
            == Scale(PairSum(zs, t, i), Mul(Kept(a, b, phase, amplitude), Image(a, b, phase, amplitude)))
    ensures PairSum(zs, t, i) >= 0.0
  {
    hide Received, Unpaired, PairPower, MirrorProduct, BlockSpectrum, Kept, Image, Mul, Add, Scale, ValidTables, UnitModulus;
    var g := Mul(Kept(a, b, phase, amplitude), Image(a, b, phase, amplitude));
    if |ws| == 0 {
      ScaleNone(g);
    } else {
      var n := |ws| - 1;
      SumMeasures(ws[..n], zs[..n], t, a, b, phase, amplitude, i);
      WindowMeasures(ws[n], zs[n], t, a, b, phase, amplitude, i);
      ScaleScale(Multiplicity(i), PairPower(zs[n], t, i), g);
      ScaleSum(PairSum(zs[..n], t, i), Multiplicity(i) * PairPower(zs[n], t, i), g);
      PairNonNegative(zs[n], t, i);
    }
  }

  lemma ScaleNone(g: Complex)
    ensures Scale(0.0, g) == ZERO
  {
  }

  lemma ScaleScale(r: real, s: real, g: Complex)
    ensures Scale(r, Scale(s, g)) == Scale(r * s, g)
  {
  }

  lemma PairNonNegative(z: Block, t: Tables, i: int)
    requires ValidTables(t) && InRange(i)
    ensures Multiplicity(i) * PairPower(z, t, i) >= 0.0
  {
    NormSqNonNegative(SignalSpectrum(z, t)[i]);
    NormSqNonNegative(SignalSpectrum(z, t)[FFT_BINS - i]);
    hide NormSq, SignalSpectrum, ValidTables;
    NonNegativeProduct(Multiplicity(i), PairPower(z, t, i));
  }

  lemma NonNegativeProduct(x: real, y: real)
    requires x >= 0.0 && y >= 0.0
    ensures x * y >= 0.0
  {
  }

  /** The factor: the signal's power in the bins used, as the utility weights them. */
  ghost function Strength(zs: seq<Block>, boost: seq<real>, t: Tables, optimalBin: int, upto: int): real
    requires ValidTables(t) && 0 <= optimalBin <= FFT_BINS && NonNegative(boost) && upto <= FFT_BINS - EDGE_BINS_TO_SKIP + 1
    decreases upto
  {
    if upto <= EDGE_BINS_TO_SKIP then 0.0
    else
      var i := upto - 1;
      Strength(zs, boost, t, optimalBin, i)
      + if Abs(i - FFT_BINS / 2) > CENTER_BINS_TO_SKIP then Weight(boost, t, optimalBin, i) * PairSum(zs, t, i) else 0.0
  }

  /** The utility is the image times what is kept of the signal, times that factor. */
  lemma {:induction false} UtilityMeasures(c: seq<Complex>, boost: seq<real>, ws: seq<Block>, zs: seq<Block>, t: Tables,
                                           a: Complex, b: Complex, phase: real, amplitude: real, optimalBin: int, upto: int)
    requires ValidTables(t) && UnitModulus(t.tw) && AllReceived(ws, zs, t, a, b) && CorrHolds(c, ws, t, phase, amplitude)
    requires 0 <= optimalBin <= FFT_BINS && NonNegative(boost) && upto <= FFT_BINS - EDGE_BINS_TO_SKIP + 1
    ensures UtilitySum(c, boost, t, optimalBin, upto)
            == Scale(Strength(zs, boost, t, optimalBin, upto), Mul(Kept(a, b, phase, amplitude), Image(a, b, phase, amplitude)))
    decreases upto
  {
    hide AllReceived, CorrSum, PairSum, Weight, Kept, Image, Mul, Add, Scale, UnitModulus, Twiddles;
    var g := Mul(Kept(a, b, phase, amplitude), Image(a, b, phase, amplitude));
    if upto <= EDGE_BINS_TO_SKIP {
      ScaleNone(g);
    } else {
      var i := upto - 1;
      UtilityMeasures(c, boost, ws, zs, t, a, b, phase, amplitude, optimalBin, i);
      if Abs(i - FFT_BINS / 2) > CENTER_BINS_TO_SKIP {
        SumMeasures(ws, zs, t, a, b, phase, amplitude, i);
        var w, p, before := Weight(boost, t, optimalBin, i), PairSum(zs, t, i), Strength(zs, boost, t, optimalBin, i);
        assert c[i] == Scale(p, g);
        assert UtilitySum(c, boost, t, optimalBin, upto) == Add(Scale(before, g), Scale(w, Scale(p, g)));
        ScaleScale(w, p, g);
        ScaleSum(before, w * p, g);
        assert Strength(zs, boost, t, optimalBin, upto) == before + w * p;
      }
    }
  }

  /** The factor is never negative, with a boost window that is not. */
  lemma {:induction false} StrengthNonNegative(ws: seq<Block>, zs: seq<Block>, boost: seq<real>, t: Tables, a: Complex, b: Complex,
                                               optimalBin: int, upto: int)
    requires ValidTables(t) && UnitModulus(t.tw) && AllReceived(ws, zs, t, a, b)
    requires 0 <= optimalBin <= FFT_BINS && NonNegative(boost) && upto <= FFT_BINS - EDGE_BINS_TO_SKIP + 1
    requires forall x <- t.boost :: x >= 0.0
    ensures Strength(zs, boost, t, optimalBin, upto) >= 0.0
    decreases upto
  {
    hide AllReceived, PairSum, Weight, UnitModulus, Twiddles, NonNegative, CorrSum, Kept, Image, Mul, Scale;
    if upto > EDGE_BINS_TO_SKIP {
      var i := upto - 1;
      StrengthNonNegative(ws, zs, boost, t, a, b, optimalBin, i);
      SumMeasures(ws, zs, t, a, b, 0.0, 0.0, i);
      Usable(boost, t, i);
      WeightNonNegative(boost, t, optimalBin, i);
      NonNegativeProduct(Weight(boost, t, optimalBin, i), PairSum(zs, t, i));
    }
  }

  lemma Usable(boost: seq<real>, t: Tables, i: int)
    requires ValidTables(t) && NonNegative(boost) && InRange(i)
    ensures |boost| == |t.boost| == FFT_BINS && boost[i] >= 0.0
  {
  }

  lemma WeightNonNegative(boost: seq<real>, t: Tables, optimalBin: int, i: int)
    requires |t.boost| == FFT_BINS && 0 <= optimalBin <= FFT_BINS && NonNegative(boost) && InRange(i)
    requires forall x <- t.boost :: x >= 0.0
    ensures Weight(boost, t, optimalBin, i) >= 0.0
  {
    var distance := Abs(i - FFT_BINS / 2);
    var w := if distance > EDGE_BINS_TO_SKIP then 1.0 else (distance as real) * (1.0 / (EDGE_BINS_TO_SKIP as real));
    var v := if optimalBin != FFT_BINS / 2 then w * t.boost[Abs(optimalBin - i)] else w;
    assert optimalBin != FFT_BINS / 2 ==> t.boost[Abs(optimalBin - i)] in t.boost;
    if optimalBin != FFT_BINS / 2 {
      NonNegativeProduct(w, t.boost[Abs(optimalBin - i)]);
    }
    RatioNonNegative(boost[FFT_BINS - i], boost[i]);
    hide BoostRatio;
    NonNegativeProduct(v, BoostRatio(boost[FFT_BINS - i], boost[i]));
  }

  lemma RatioNonNegative(mirror: real, own: real)
    requires mirror >= 0.0 && own >= 0.0
    ensures BoostRatio(mirror, own) >= 0.0
  {
  }

  // ---------------------------------------------------------------- the step

  function ByPhase(phase: real, amplitude: real): real {
    phase * (1.0 - amplitude * amplitude)
  }

  function ByAmplitude(phase: real, amplitude: real): real {
    amplitude * (1.0 + phase * phase)
  }

  /** Without any imbalance of the front end the correction itself is what makes the image. */
  lemma Balanced(phase: real, amplitude: real)
    ensures Mul(Kept(ONE, ZERO, phase, amplitude), Image(ONE, ZERO, phase, amplitude))
            == Complex(ByAmplitude(phase, amplitude), ByPhase(phase, amplitude))
  {
    hide Mul, Kept, Image;
    var q := amplitude * phase;
    KeptBalanced(phase, amplitude);
    ProductBalanced(q, phase, amplitude);
    Factor(amplitude, phase, 1.0);
    Factor(phase, amplitude, -1.0);
  }

  lemma Factor(x: real, y: real, sign: real)
    requires sign == 1.0 || sign == -1.0
    ensures x + sign * ((x * y) * y) == x * (1.0 + sign * (y * y))
  {
  }

  lemma KeptBalanced(phase: real, amplitude: real)
    ensures Kept(ONE, ZERO, phase, amplitude) == Complex(1.0, -(amplitude * phase))
    ensures Image(ONE, ZERO, phase, amplitude) == Complex(amplitude, phase)
  {
    MulOne(Alpha(phase, amplitude));
    MulOne(Beta(phase, amplitude));
    assert Conj(ZERO) == ZERO && Conj(ONE) == ONE;
    hide Mul;
  }

  lemma ProductBalanced(q: real, phase: real, amplitude: real)
    ensures Mul(Complex(1.0, -q), Complex(amplitude, phase)) == Complex(amplitude + q * phase, phase - q * amplitude)
  {
    MulParts(1.0, -q, amplitude, phase);
    hide Mul;
    NegatedProduct(q, phase);
    NegatedProduct(q, amplitude);
  }

  lemma MulParts(x: real, y: real, u: real, v: real)
    ensures Mul(Complex(x, y), Complex(u, v)) == Complex(x * u - y * v, y * u + x * v)
  {
  }

  lemma NegatedProduct(q: real, x: real)
    ensures (-q) * x == -(q * x)
  {
  }

  /** A measured step from (phase, amplitude) in a balanced front end, for signals of any strength: the phase and the
      amplitude estimated next are at most 0.27 of the ones in use. */
  lemma StepShrinks(strength: real, phase: real, amplitude: real)
    requires -0.3 <= phase <= 0.3 && -0.3 <= amplitude <= 0.3
    ensures var here := Scale(strength, Mul(Kept(ONE, ZERO, phase, amplitude), Image(ONE, ZERO, phase, amplitude)));
            var ahead := Scale(strength, Mul(Kept(ONE, ZERO, phase + 0.01, amplitude + 0.01),
                                             Image(ONE, ZERO, phase + 0.01, amplitude + 0.01)));
            Closer(phase, here.im, ahead.im) && Closer(amplitude, here.re, ahead.re)
  {
    hide Mul, Kept, Image, Closer, ByPhase, ByAmplitude;
    Balanced(phase, amplitude);
    Balanced(phase + 0.01, amplitude + 0.01);
    var x, y := Mul(Kept(ONE, ZERO, phase, amplitude), Image(ONE, ZERO, phase, amplitude)),
                Mul(Kept(ONE, ZERO, phase + 0.01, amplitude + 0.01), Image(ONE, ZERO, phase + 0.01, amplitude + 0.01));
    PhaseShrinks(strength, phase, amplitude, Scale(strength, x).im, Scale(strength, y).im);
    AmplitudeShrinks(strength, phase, amplitude, Scale(strength, x).re, Scale(strength, y).re);
  }

  /** What one step does to v, with utility a here and b one step further: if they can be told apart, it leaves at most
      0.27 of v. */
  predicate Closer(v: real, a: real, b: real) {
    var next := v + 0.01 * StepMu(a, b);
    if Measurable(a, b) then -0.27 * Size(v) <= next <= 0.27 * Size(v) else next == v
  }

  function Size(x: real): real {
    if x < 0.0 then -x else x
  }

  /** If the utility is s v k here and its slope is s (k + d) with d small against k, the secant step nearly hits zero. */
  lemma SecantShrinks(v: real, s: real, k: real, d: real, x: real, y: real, a: real, b: real)
    requires -0.3 <= v <= 0.3 && k + d >= 0.72 && -0.19 <= d <= 0.19
    requires x == v * k && y - x == 0.01 * (k + d) && a == s * x && b == s * y
    ensures Closer(v, a, b)
  {
    hide StepMu, Measurable;
    var next := Quotient(v * d, k + d);
    Fraction(v, d, k + d, next);
    NextIs(v, k, d, next, x);
    StepIs(s, k + d, x, y, 100.0 * (next - v), a, b);
  }

  lemma Quotient(z: real, e: real) returns (q: real)
    requires e != 0.0
    ensures q * e == z
  {
    q := z / e;
  }

  lemma NextIs(v: real, k: real, d: real, next: real, x: real)
    requires next * (k + d) == v * d && x == v * k
    ensures (k + d) * (100.0 * (next - v)) == -100.0 * x
  {
    var e := k + d;
    assert v * e == x + v * d;
    assert e * (100.0 * (next - v)) == 100.0 * (next * e) - 100.0 * (v * e);
  }

  lemma StepIs(s: real, e: real, x: real, y: real, r: real, a: real, b: real)
    requires y - x == 0.01 * e && e * r == -100.0 * x && -50.0 <= r <= 50.0 && a == s * x && b == s * y
    ensures StepMu(a, b) == if Measurable(a, b) then r else 0.0
  {
    assert (x - y) * r == x by {
      assert (x - y) * r == -0.01 * (e * r);
    }
    assert (a - b) * r == a by {
      assert a - b == s * (x - y);
      assert (s * (x - y)) * r == s * ((x - y) * r);
    }
    if Measurable(a, b) {
      QuotientIs(a, a - b, r);
    }
  }

  lemma Fraction(v: real, d: real, e: real, next: real)
    requires -0.3 <= v <= 0.3 && e >= 0.72 && -0.19 <= d <= 0.19 && next * e == v * d
    ensures -0.27 * Size(v) <= next <= 0.27 * Size(v)
  {
    ProductBound(v, d, Size(v), 0.19);
    QuotientBound(next, e, 0.27 * Size(v));
  }

  lemma QuotientBound(x: real, e: real, m: real)
    requires m >= 0.0 && e >= 0.72 && -(0.72 * m) <= x * e <= 0.72 * m
    ensures -m <= x <= m
  {
    var y := x * e;
    if x >= 0.0 {
      assert x * (e - 0.72) >= 0.0;
    } else {
      assert -x * (e - 0.72) >= 0.0;
    }
    assert x * (e - 0.72) == y - 0.72 * x;
  }

  lemma ProductBound(x: real, y: real, m: real, n: real)
    requires -m <= x <= m && -n <= y <= n
    ensures -(m * n) <= x * y <= m * n
  {
    assert (m - x) * (n + y) >= 0.0 && (m + x) * (n - y) >= 0.0;
    assert (m - x) * (n - y) >= 0.0 && (m + x) * (n + y) >= 0.0;
    var xy, u, w := x * y, m * y, x * n;
    assert (m - x) * (n + y) == m * n + u - w - xy && (m + x) * (n - y) == m * n - u + w - xy;
    assert (m - x) * (n - y) == m * n - u - w + xy && (m + x) * (n + y) == m * n + u + w + xy;
  }

  lemma PhaseShrinks(s: real, phase: real, amplitude: real, a: real, b: real)
    requires -0.3 <= phase <= 0.3 && -0.3 <= amplitude <= 0.3
    requires a == s * ByPhase(phase, amplitude) && b == s * ByPhase(phase + 0.01, amplitude + 0.01)
    ensures Closer(phase, a, b)
  {
    hide Closer, ByPhase;
    var k, d := PhaseSlope(phase, amplitude);
    SecantShrinks(phase, s, k, d, ByPhase(phase, amplitude), ByPhase(phase + 0.01, amplitude + 0.01), a, b);
  }

  lemma AmplitudeShrinks(s: real, phase: real, amplitude: real, a: real, b: real)
    requires -0.3 <= phase <= 0.3 && -0.3 <= amplitude <= 0.3
    requires a == s * ByAmplitude(phase, amplitude) && b == s * ByAmplitude(phase + 0.01, amplitude + 0.01)
    ensures Closer(amplitude, a, b)
  {
    hide Closer, ByAmplitude;
    var k, d := AmplitudeSlope(phase, amplitude);
    SecantShrinks(amplitude, s, k, d, ByAmplitude(phase, amplitude), ByAmplitude(phase + 0.01, amplitude + 0.01), a, b);
  }

  lemma PhaseSlope(p: real, a: real) returns (k: real, d: real)
    requires -0.3 <= p <= 0.3 && -0.3 <= a <= 0.3
    ensures k + d >= 0.72 && -0.19 <= d <= 0.19
    ensures var x, y := ByPhase(p, a), ByPhase(p + 0.01, a + 0.01);
            x == p * k && y - x == 0.01 * (k + d)
  {
    var u := a * a;
    var c := p * (2.0 * a + 0.01);
    k, d := 1.0 - u, -(0.02 * a + 0.0001) - c;
    ProductBound(p, 2.0 * a + 0.01, 0.3, 0.61);
    ProductBound(a, a, 0.3, 0.3);
    NextSquare(a);
    SlopeParts(p, k, -1.0, 2.0 * a + 0.01);
  }

  lemma AmplitudeSlope(p: real, a: real) returns (k: real, d: real)
    requires -0.3 <= p <= 0.3 && -0.3 <= a <= 0.3
    ensures k + d >= 0.72 && -0.19 <= d <= 0.19
    ensures var x, y := ByAmplitude(p, a), ByAmplitude(p + 0.01, a + 0.01);
            x == a * k && y - x == 0.01 * (k + d)
  {
    var u := p * p;
    var c := a * (2.0 * p + 0.01);
    k, d := 1.0 + u, 0.02 * p + 0.0001 + c;
    ProductBound(a, 2.0 * p + 0.01, 0.3, 0.61);
    NonNegativeProduct(Size(p), Size(p));
    assert u == Size(p) * Size(p);
    NextSquare(p);
    SlopeParts(a, k, 1.0, 2.0 * p + 0.01);
  }

  lemma NextSquare(a: real)
    ensures (a + 0.01) * (a + 0.01) == a * a + 0.01 * (2.0 * a + 0.01)
  {
  }

  /** With the other factor going from k to k + 0.01 sign m. */
  lemma SlopeParts(v: real, k: real, sign: real, m: real)
    requires sign == 1.0 || sign == -1.0
    ensures (v + 0.01) * (k + 0.01 * (sign * m)) - v * k == 0.01 * (k + 0.01 * (sign * m) + sign * (v * m))
  {
    var q := v * m;
    assert v * (k + 0.01 * (sign * m)) == v * k + 0.01 * (sign * q);
  }

  // ---------------------------------------------------------------- many steps

  function Shrunk(n: nat): (r: real)
    ensures 0.0 < r <= 1.0
  {
    if n == 0 then 1.0 else 0.27 * Shrunk(n - 1)
  }

  /** Estimate k is at most 0.27 of the value in use before it, which is the mean of the four estimates before. */
  ghost predicate AlwaysShrinks(h: seq<real>, start: real) {
    forall k: nat :: k < |h| ==> Size(h[k]) <= 0.27 * Size(Smoothed(h[..k], start))
  }

  /** What n shrinking steps leave of a size. */
  function Left(n: nat, size: real): real {
    Shrunk(n) * size
  }

  /** Then the estimates, and the value in use, go to zero geometrically in spite of the smoothing. */
  lemma {:induction false} SettlesGeometrically(h: seq<real>, start: real, j: nat)
    requires AlwaysShrinks(h, start) && j < |h|
    ensures Size(h[j]) <= Shrunk(1 + j / 4) * Size(start)
  {
    hide Smoothed, Left, Shrunk, Size;
    var before, bound := h[..j], Left(j / 4, Size(start));
    forall k: nat | j - 4 <= k < j
      ensures Size(before[k]) <= bound
    {
      SettlesGeometrically(h, start, k);
      LeftFalls(j / 4, 1 + k / 4, start);
    }
    if j == 0 {
      StartLeft(before, start);
    } else {
      MeanWithin(before, start, bound);
    }
    assert h[j] == h[j as nat];
    LeftNext(j / 4, Size(start));
  }

  lemma StartLeft(h: seq<real>, start: real)
    requires |h| == 0
    ensures Smoothed(h, start) == start && Left(0, Size(start)) == Size(start)
  {
  }

  lemma LeftNext(n: nat, x: real)
    ensures Shrunk(1 + n) * x == 0.27 * Left(n, x)
  {
  }

  lemma LeftFalls(m: nat, n: nat, start: real)
    requires m <= n
    ensures Shrunk(n) * Size(start) <= Left(m, Size(start))
  {
    ShrunkFalls(m, n);
    ScaledFalls(Shrunk(n), Shrunk(m), Size(start));
  }

  lemma {:induction false} ShrunkFalls(m: nat, n: nat)
    requires m <= n
    ensures Shrunk(n) <= Shrunk(m)
  {
    if m < n {
      ShrunkFalls(m, n - 1);
    }
  }

  lemma ScaledFalls(x: real, y: real, z: real)
    requires x <= y && z >= 0.0
    ensures x * z <= y * z
  {
  }

  /** The mean of the newest estimates is within what all of them are within. */
  lemma MeanWithin(h: seq<real>, start: real, bound: real)
    requires |h| > 0 && forall k: nat :: |h| - 4 <= k < |h| ==> Size(h[k]) <= bound
    ensures Size(Smoothed(h, start)) <= bound
  {
    MeanOfLatest(h, start);
    hide Smoothed;
    assert Size(h[|h| - 1]) <= bound && (|h| >= 2 ==> Size(h[|h| - 2]) <= bound);
    assert (|h| >= 3 ==> Size(h[|h| - 3]) <= bound) && (|h| >= 4 ==> Size(h[|h| - 4]) <= bound);
  }
}
