/** The loops of the IQ balancer that work on one buffer: DC canceller, spectrum of one window, aliased correlation
    update, boost update, utility and correction ramp (libairspyhf/src/iqbalancer.c:197-338, 448-470). */
module BalancerSteps {
  import opened ComplexNumbers
  import opened DiscreteFourier
  import opened FastFourier
  import opened Correction
  import opened BalancerSpec

  // ---------------------------------------------------------------- DC canceller

  /** One step of the running average. */
  function Follow(avg: Complex, z: Complex): Complex {
    Complex(avg.re + DC_TIME_CONST * (z.re - avg.re), avg.im + DC_TIME_CONST * (z.im - avg.im))
  }

  function Average(avg: Complex, x: seq<Complex>): Complex {
    if |x| == 0 then avg else Follow(Average(avg, x[..|x| - 1]), x[|x| - 1])
  }

  function Cancelled(avg: Complex, x: seq<Complex>): (s: seq<Complex>)
    ensures |s| == |x|
  {
    seq(|x|, i requires 0 <= i < |x| => Sub(x[i], Average(avg, x[..i + 1])))
  }

  /** Lines 197-224; the pair of averages is one complex number here. */
  method CancelDc(iq: array<Complex>, avg0: Complex, skipEval: bool) returns (avg: Complex)
    modifies iq
    ensures avg == if skipEval then avg0 else Average(avg0, old(iq[..]))
    ensures skipEval ==> forall p: nat :: p < iq.Length ==> iq[p] == Sub(old(iq[p]), avg0)
    ensures !skipEval ==> iq[..] == Cancelled(avg0, old(iq[..]))
  {
    hide Follow, Sub;
    ghost var x := iq[..];
    avg := avg0;
    if skipEval {
      var i := 0;
      while i < iq.Length
        invariant 0 <= i <= iq.Length
        invariant forall p: nat :: p < iq.Length ==> iq[p] == if p < i then Sub(x[p], avg0) else x[p]
      {
        iq[i] := Sub(iq[i], avg);
        i := i + 1;
      }
    } else {
      var i := 0;
      while i < iq.Length
        invariant 0 <= i <= iq.Length && avg == Average(avg0, x[..i])
        invariant forall p: nat :: p < iq.Length ==> iq[p] == if p < i then Sub(x[p], Average(avg0, x[..p + 1])) else x[p]
      {
        assert x[..i + 1][..i] == x[..i];
        avg := Follow(avg, iq[i]);
        iq[i] := Sub(iq[i], avg);
        i := i + 1;
      }
      assert x[..i] == x;
    }
  }

  predicate Within(z: Complex, b: real) {
    -b <= z.re <= b && -b <= z.im <= b
  }

  lemma FollowWithin(avg: Complex, z: Complex, b: real)
    requires Within(avg, b) && Within(z, b)
    ensures Within(Follow(avg, z), b)
  {
  }

  /** Inputs in [-b, b] keep the averages there, whatever the number of samples. */
  lemma {:induction false} AverageWithin(avg: Complex, x: seq<Complex>, b: real)
    requires Within(avg, b) && forall i: nat :: i < |x| ==> Within(x[i], b)
    ensures Within(Average(avg, x), b)
  {
    if |x| > 0 {
      AverageWithin(avg, x[..|x| - 1], b);
      FollowWithin(Average(avg, x[..|x| - 1]), x[|x| - 1], b);
    }
  }

  /** ... and the cancelled samples in [-2b, 2b]. */
  lemma CancelledWithin(avg: Complex, x: seq<Complex>, b: real)
    requires Within(avg, b) && forall i: nat :: i < |x| ==> Within(x[i], b)
    ensures forall i: nat :: i < |x| ==> Within(Cancelled(avg, x)[i], 2.0 * b)
  {
    forall i: nat | i < |x|
      ensures Within(Cancelled(avg, x)[i], 2.0 * b)
    {
      AverageWithin(avg, x[..i + 1], b);
    }
  }

  /** Splitting a stream into calls does not change what is cancelled. */
  lemma {:induction false} AverageConcat(avg: Complex, x: seq<Complex>, y: seq<Complex>)
    ensures Average(avg, x + y) == Average(Average(avg, x), y)
  {
    if |y| == 0 {
      assert x + y == x;
    } else {
      AverageConcat(avg, x, y[..|y| - 1]);
      assert (x + y)[..|x + y| - 1] == x + y[..|y| - 1];
    }
  }

  lemma CancelledConcat(avg: Complex, x: seq<Complex>, y: seq<Complex>)
    ensures Cancelled(avg, x + y) == Cancelled(avg, x) + Cancelled(Average(avg, x), y)
  {
    hide Cancelled, Average;
    forall i: nat | i < |x + y|
      ensures Cancelled(avg, x + y)[i] == (Cancelled(avg, x) + Cancelled(Average(avg, x), y))[i]
    {
      CancelledPieceAt(avg, x, y, i);
    }
  }

  lemma CancelledPieceAt(avg: Complex, x: seq<Complex>, y: seq<Complex>, i: nat)
    requires i < |x| + |y|
    ensures Cancelled(avg, x + y)[i]
            == if i < |x| then Cancelled(avg, x)[i] else Cancelled(Average(avg, x), y)[i - |x|]
  {
    hide Average, Sub;
    if i < |x| {
      assert (x + y)[..i + 1] == x[..i + 1];
    } else {
      assert (x + y)[..i + 1] == x + y[..i - |x| + 1];
      AverageConcat(avg, x, y[..i - |x| + 1]);
    }
  }

  // ---------------------------------------------------------------- one window

  /** Lines 283-284 on a block already corrected. */
  method Analyse(fftPtr: array<Complex>, t: Tables, ghost b: Block, ghost phase: real, ghost amplitude: real)
    requires ValidTables(t) && fftPtr.Length == FFT_BINS && fftPtr[..] == CorrectAll(b, phase, amplitude)
    modifies fftPtr
    ensures fftPtr[..] == BlockSpectrum(b, t, phase, amplitude)
  {
    BinsArePowerOfTwo();
    Window(fftPtr, t.win);
    Fft(fftPtr, t.tw);
  }

  /** Lines 285-293. */
  method MirrorUpdate(fftPtr: array<Complex>, ccorr: array<Complex>)
    requires fftPtr != ccorr && fftPtr.Length == ccorr.Length == FFT_BINS
    modifies ccorr
    ensures forall p: int :: InRange(p) ==>
              ccorr[p] == Add(old(ccorr[Fold(p)]), Scale(Multiplicity(p), MirrorProduct(fftPtr[..], p)))
    ensures forall p: int :: InRange(p) ==> ccorr[p] == ccorr[FFT_BINS - p]
  {
    hide Add, Mul, Scale, MirrorPartly;
    ghost var c0, f := ccorr[..], fftPtr[..];
    var i, j := EDGE_BINS_TO_SKIP, FFT_BINS - EDGE_BINS_TO_SKIP;
    MirrorStart(c0, f);
    while i <= FFT_BINS - EDGE_BINS_TO_SKIP
      invariant EDGE_BINS_TO_SKIP <= i <= FFT_BINS - EDGE_BINS_TO_SKIP + 1 && j == FFT_BINS - i
      invariant MirrorPartly(ccorr[..], c0, f, i)
    {
      MirrorStep(ccorr[..], c0, f, i);
      ghost var c := ccorr[..];
      var cc := Mul(fftPtr[i], fftPtr[j]);
      ccorr[i] := Add(ccorr[i], cc);
      ccorr[j] := ccorr[i];
      assert cc == MirrorProduct(f, i);
      assert ccorr[..] == c[i := Add(c[i], cc)][j := Add(c[i], cc)];
      i, j := i + 1, j - 1;
    }
    MirrorEnd(ccorr[..], c0, f);
  }

  /** Lines 296-308. */
  method BoostUpdate(fftPtr: array<Complex>, t: Tables, optimalBin: int, boost: array<real>, imagePower0: real)
    returns (imagePower: real)
    requires fftPtr.Length == boost.Length == FFT_BINS && |t.boost| == FFT_BINS && 0 <= optimalBin <= FFT_BINS
    modifies boost
    ensures forall p: int :: InRange(p) ==> boost[p] == old(boost[p]) + NormSq(fftPtr[p])
    ensures imagePower == imagePower0 + ImagePower(fftPtr[..], t.boost, optimalBin, FFT_BINS - EDGE_BINS_TO_SKIP + 1)
  {
    hide NormSq;
    ghost var b0 := boost[..];
    imagePower := imagePower0;
    var i := EDGE_BINS_TO_SKIP;
    while i <= FFT_BINS - EDGE_BINS_TO_SKIP
      invariant EDGE_BINS_TO_SKIP <= i <= FFT_BINS - EDGE_BINS_TO_SKIP + 1
      invariant forall p: int :: InRange(p) ==> boost[p] == if p < i then b0[p] + NormSq(fftPtr[p]) else b0[p]
      invariant imagePower == imagePower0 + ImagePower(fftPtr[..], t.boost, optimalBin, i)
    {
      var power := NormSq(fftPtr[i]);
      boost[i] := boost[i] + power;
      if optimalBin == FFT_BINS / 2 {
        imagePower := imagePower + power;
      } else {
        imagePower := imagePower + power * t.boost[Abs(FFT_BINS - i - optimalBin)];
      }
      i := i + 1;
    }
  }

  lemma PowersExtend(b: seq<real>, b0: seq<real>, total: real, image: real, ws: seq<Block>, w: Block, t: Tables,
                     phase: real, amplitude: real, optimalBin: int)
    requires ValidTables(t) && 0 <= optimalBin <= FFT_BINS && |b| == FFT_BINS
    requires PowersHold(b0, total, image, ws, t, phase, amplitude, optimalBin)
    requires forall p: int :: InRange(p) ==> b[p] == b0[p] + NormSq(BlockSpectrum(w, t, phase, amplitude)[p])
    ensures PowersHold(b, total + Power(w),
                       image + ImagePower(BlockSpectrum(w, t, phase, amplitude), t.boost, optimalBin,
                                          FFT_BINS - EDGE_BINS_TO_SKIP + 1),
                       ws + [w], t, phase, amplitude, optimalBin)
  {
    hide NormSq, BlockSpectrum, ValidTables, ImagePower, Power;
    assert (ws + [w])[..|ws|] == ws;
  }

  /** Lines 266-310: one pass of the window loop. */
  method AccumulateWindow(iq: array<Complex>, n: nat, ccorr: array<Complex>, t: Tables, phase: real, amplitude: real,
                          step: int, m: nat, powerFlag: array<int>, boost: array<real>, optimalBin: int,
                          total0: real, image0: real, ghost ws: seq<Block>)
    returns (hit: bool, total: real, image: real)
    requires ValidTables(t) && 0 <= optimalBin <= FFT_BINS && iq != ccorr
    requires n + FFT_BINS <= iq.Length && m < powerFlag.Length && boost.Length == ccorr.Length == FFT_BINS
    requires |t.boost| == FFT_BINS
    requires CorrHolds(ccorr[..], ws, t, phase, amplitude)
    requires step == 0 ==> PowersHold(boost[..], total0, image0, ws, t, phase, amplitude, optimalBin)
    requires step != 0 ==> powerFlag[m] == FlagOf(Loud(BlockAt(iq[..], n)))
    modifies ccorr, boost, powerFlag
    ensures hit == Loud(BlockAt(iq[..], n))
    ensures CorrHolds(ccorr[..], if hit then ws + [BlockAt(iq[..], n)] else ws, t, phase, amplitude)
    ensures step == 0 ==> PowersHold(boost[..], total, image, if hit then ws + [BlockAt(iq[..], n)] else ws,
                                     t, phase, amplitude, optimalBin)
    ensures step == 0 ==> powerFlag[..] == old(powerFlag[..])[m := FlagOf(hit)]
    ensures step != 0 ==> boost[..] == old(boost[..]) && powerFlag[..] == old(powerFlag[..]) && total == total0 && image == image0
  {
    hide CorrHolds, PowersHold, BlockSpectrum, CorrectAll, Power, MirrorProduct, NormSq, Add, Scale, ImagePower, ValidTables;
    ghost var b := BlockAt(iq[..], n);
    ghost var c0, b0 := ccorr[..], boost[..];
    total, image := total0, image0;
    var fftPtr := CopyBlock(iq, n);
    var power := AdjustBenchmark(fftPtr, phase, amplitude, step != 0);
    if step == 0 {
      if power > MINIMUM_POWER {
        powerFlag[m] := 1;
        total := total + power;
      } else {
        powerFlag[m] := 0;
      }
    }
    hit := powerFlag[m] == 1;
    if hit {
      Analyse(fftPtr, t, b, phase, amplitude);
      MirrorUpdate(fftPtr, ccorr);
      CorrExtend(ccorr[..], c0, ws, b, t, phase, amplitude);
      if step == 0 {
        image := BoostUpdate(fftPtr, t, optimalBin, boost, image);
        PowersExtend(boost[..], b0, total0, image0, ws, b, t, phase, amplitude, optimalBin);
      }
    }
  }

  method CopyBlock(iq: array<Complex>, n: nat) returns (block: array<Complex>)
    requires n + FFT_BINS <= iq.Length
    ensures fresh(block) && block.Length == FFT_BINS && block[..] == BlockAt(iq[..], n)
  {
    block := new Complex[FFT_BINS];
    forall i | 0 <= i < FFT_BINS {
      block[i] := iq[n + i];
    }
  }

  // ---------------------------------------------------------------- utility and the secant step

  function Weight(boost: seq<real>, t: Tables, optimalBin: int, i: int): real
    requires |boost| == |t.boost| == FFT_BINS && 0 <= optimalBin <= FFT_BINS && InRange(i)
    requires boost[i] >= 0.0
  {
    var distance := Abs(i - FFT_BINS / 2);
    var w := if distance > EDGE_BINS_TO_SKIP then 1.0 else (distance as real) * (1.0 / (EDGE_BINS_TO_SKIP as real));
    var v := if optimalBin != FFT_BINS / 2 then w * t.boost[Abs(optimalBin - i)] else w;
    v * BoostRatio(boost[FFT_BINS - i], boost[i])
  }

  function BoostRatio(mirror: real, own: real): real
    requires own >= 0.0
  {
    mirror / (own + EPSILON)
  }

  ghost predicate NonNegative(boost: seq<real>) {
    |boost| == FFT_BINS && forall i: int :: InRange(i) ==> boost[i] >= 0.0
  }

  lemma BoostsNonNegative(b: seq<real>, ws: seq<Block>, t: Tables, phase: real, amplitude: real)
    requires ValidTables(t) && BoostHolds(b, ws, t, phase, amplitude)
    ensures NonNegative(b)
  {
    forall i: int | InRange(i)
      ensures b[i] >= 0.0
    {
      BoostNonNegative(ws, t, phase, amplitude, i);
    }
  }

  /** The weighted correlation over the bins below `upto` that are not too close to the centre. */
  function UtilitySum(c: seq<Complex>, boost: seq<real>, t: Tables, optimalBin: int, upto: int): Complex
    requires |c| == |t.boost| == FFT_BINS && 0 <= optimalBin <= FFT_BINS && NonNegative(boost)
    requires upto <= FFT_BINS - EDGE_BINS_TO_SKIP + 1
    decreases upto
  {
    if upto <= EDGE_BINS_TO_SKIP then ZERO
    else
      var i := upto - 1;
      var acc := UtilitySum(c, boost, t, optimalBin, i);
      if Abs(i - FFT_BINS / 2) > CENTER_BINS_TO_SKIP then Add(acc, Scale(Weight(boost, t, optimalBin, i), c[i])) else acc
  }

  ghost function Utility(c: seq<Complex>, boost: seq<real>, t: Tables, optimalBin: int): Complex
    requires |c| == |t.boost| == FFT_BINS && 0 <= optimalBin <= FFT_BINS && NonNegative(boost)
  {
    UtilitySum(c, boost, t, optimalBin, FFT_BINS - EDGE_BINS_TO_SKIP + 1)
  }

  /** Lines 316-338. */
  method ComputeUtility(ccorr: array<Complex>, boost: array<real>, t: Tables, optimalBin: int) returns (acc: Complex)
    requires ccorr.Length == |t.boost| == FFT_BINS && 0 <= optimalBin <= FFT_BINS && NonNegative(boost[..])
    ensures acc == Utility(ccorr[..], boost[..], t, optimalBin)
  {
    hide Add, Scale, Weight;
    acc := ZERO;
    var i, j := EDGE_BINS_TO_SKIP, FFT_BINS - EDGE_BINS_TO_SKIP;
    while i <= FFT_BINS - EDGE_BINS_TO_SKIP
      invariant EDGE_BINS_TO_SKIP <= i <= FFT_BINS - EDGE_BINS_TO_SKIP + 1 && j == FFT_BINS - i
      invariant acc == UtilitySum(ccorr[..], boost[..], t, optimalBin, i)
    {
      var distance := Abs(i - FFT_BINS / 2);
      if distance > CENTER_BINS_TO_SKIP {
        var weight := ComputeWeight(boost, t, optimalBin, i, j, distance);
        acc := Add(acc, Scale(weight, ccorr[i]));
      }
      i, j := i + 1, j - 1;
    }
  }

  /** Lines 327-332. */
  method ComputeWeight(boost: array<real>, t: Tables, optimalBin: int, i: int, j: int, distance: int) returns (weight: real)
    requires boost.Length == |t.boost| == FFT_BINS && 0 <= optimalBin <= FFT_BINS && InRange(i) && j == FFT_BINS - i
    requires boost[i] >= 0.0 && distance == Abs(i - FFT_BINS / 2)
    ensures weight == Weight(boost[..], t, optimalBin, i)
  {
    hide BoostRatio;
    var invskip := 1.0 / (EDGE_BINS_TO_SKIP as real);
    weight := if distance > EDGE_BINS_TO_SKIP then 1.0 else (distance as real) * invskip;
    if optimalBin != FFT_BINS / 2 {
      weight := weight * t.boost[Abs(optimalBin - i)];
    }
    weight := weight * BoostRatio(boost[j], boost[i]);
  }

  /** The two utilities differ enough for a secant. */
  predicate Measurable(a: real, b: real) {
    a - b > MIN_DELTA_MU || b - a > MIN_DELTA_MU
  }

  /** Lines 397-409 and 413-425: one clamped secant step. */
  function StepMu(a: real, b: real): real {
    var mu := a - b;
    if Measurable(a, b) then
      var q := a / mu;
      if q < -MAX_MU then -MAX_MU else if q > MAX_MU then MAX_MU else q
    else 0.0
  }

  /** The step is bounded, and when it is not clamped it lands on the zero of the line through the two measured
      utilities, a at the current value and b one step further. */
  lemma SecantStep(a: real, b: real)
    ensures -MAX_MU <= StepMu(a, b) <= MAX_MU
    ensures Measurable(a, b) && -MAX_MU < StepMu(a, b) < MAX_MU ==> a + (b - a) * StepMu(a, b) == 0.0
    ensures a == 0.0 ==> StepMu(a, b) == 0.0
  {
    var d := a - b;
    if Measurable(a, b) {
      assert (a / d) * d == a;
    }
  }

  // ---------------------------------------------------------------- correction ramp

  /** Interpolated value at sample i: the new value first, the old one last (as the code has it). */
  function Ramp(last: real, current: real, i: nat, length: nat): real
    requires length != 1
  {
    ((i as real) * last + ((length - 1 - i) as real) * current) * (1.0 / ((length - 1) as real))
  }

  function Ramped(x: seq<Complex>, lastPhase: real, phase: real, lastAmplitude: real, amplitude: real): (s: seq<Complex>)
    requires |x| != 1
    ensures |s| == |x|
  {
    seq(|x|, i requires 0 <= i < |x| =>
      Correct(x[i], Ramp(lastPhase, phase, i, |x|), Ramp(lastAmplitude, amplitude, i, |x|)))
  }

  /** Lines 453-466. */
  method ApplyRamp(iq: array<Complex>, lastPhase: real, phase: real, lastAmplitude: real, amplitude: real)
    requires iq.Length != 1
    modifies iq
    ensures iq[..] == Ramped(old(iq[..]), lastPhase, phase, lastAmplitude, amplitude)
  {
    hide Skew, Gain, Ramp;
    ghost var x := iq[..];
    var i := 0;
    while i < iq.Length
      invariant 0 <= i <= iq.Length
      invariant forall p: nat :: p < iq.Length ==>
                  iq[p] == if p >= i then x[p]
                           else Correct(x[p], Ramp(lastPhase, phase, p, |x|), Ramp(lastAmplitude, amplitude, p, |x|))
    {
      var ph, am := Ramp(lastPhase, phase, i, iq.Length), Ramp(lastAmplitude, amplitude, i, iq.Length);
      iq[i] := Skew(iq[i], ph);
      iq[i] := Gain(iq[i], am);
      i := i + 1;
    }
  }

  /** The ramp runs from the new value to the old one and never leaves the interval between them. */
  lemma RampBounds(last: real, current: real, i: nat, length: nat)
    requires length >= 2 && i < length
    ensures Ramp(last, current, 0, length) == current
    ensures Ramp(last, current, length - 1, length) == last
    ensures last <= current ==> last <= Ramp(last, current, i, length) <= current
    ensures current <= last ==> current <= Ramp(last, current, i, length) <= last
  {
    var n, k := (length - 1) as real, i as real;
    var inv := 1.0 / n;
    assert n * inv == 1.0;
    var f := k * inv;
    assert 0.0 <= f <= 1.0 by {
      assert (n - k) * inv >= 0.0;
      assert (n - k) * inv == n * inv - k * inv;
    }
    RampForm(last, current, n, k, inv);
    RampForm(last, current, n, 0.0, inv);
    RampForm(last, current, n, n, inv);
    assert Ramp(last, current, i, length) == current + f * (last - current);
    assert Ramp(last, current, 0, length) == current;
    assert Ramp(last, current, length - 1, length) == last;
    Between(Ramp(last, current, i, length), last, current, f);
  }

  lemma RampForm(last: real, current: real, n: real, k: real, inv: real)
    requires n * inv == 1.0
    ensures (k * last + (n - k) * current) * inv == current + (k * inv) * (last - current)
  {
    assert (n - k) * current == n * current - k * current;
    assert (k * last + (n * current - k * current)) * inv == k * last * inv + n * current * inv - k * current * inv;
    assert n * current * inv == current * (n * inv);
    assert k * last * inv == (k * inv) * last;
    assert k * current * inv == (k * inv) * current;
  }

  lemma Between(v: real, last: real, current: real, f: real)
    requires 0.0 <= f <= 1.0 && v == current + f * (last - current)
    ensures last <= current ==> last <= v <= current
    ensures current <= last ==> current <= v <= last
  {
    var d := last - current;
    assert v == current + f * d && v == last - (1.0 - f) * d;
    if d >= 0.0 {
      ProductSign(f, d);
      ProductSign(1.0 - f, d);
    } else {
      ProductSign(f, -d);
      ProductSign(1.0 - f, -d);
    }
  }

  lemma ProductSign(x: real, y: real)
    requires x >= 0.0 && y >= 0.0
    ensures x * y >= 0.0
  {
  }
}
