/** Constants and specification functions of the IQ balancer (libairspyhf/src/iqbalancer.h:29-59). */
module BalancerSpec {
  import opened ComplexNumbers
  import opened BitReversal
  import opened DiscreteFourier
  import opened FastFourier
  import opened Correction

  const FFT_BINS: nat := 4096
  const EDGE_BINS_TO_SKIP: nat := 186 // FFTBins / 22
  const CENTER_BINS_TO_SKIP: nat := 2
  const MAX_LOOKBACK: nat := 4
  const PHASE_STEP: real := 0.01
  const AMPLITUDE_STEP: real := 0.01
  const MAX_MU: real := 50.0
  const MIN_DELTA_MU: real := 0.1
  const DC_TIME_CONST: real := 0.0001
  const MINIMUM_POWER: real := 0.01
  const POWER_THRESHOLD: real := 0.5
  const BUFFERS_TO_SKIP_ON_RESET: int := 2
  const MAX_POWER_DECAY: real := 0.98
  const BOOST_WINDOW_NORM: real := 0.8 / 95.0
  const EPSILON: real := 0.01
  const WORKING_BUFFER_LENGTH: nat := 12288 // FFTBins * (1 + FFTIntegration / FFTOverlap), in both configurations

  /** The static tables: analysis window, boost window, stage roots. Their values do not matter here. */
  datatype Tables = Tables(win: seq<real>, boost: seq<real>, tw: nat -> Complex)

  ghost predicate ValidTables(t: Tables) {
    |t.win| == FFT_BINS && |t.boost| == FFT_BINS && Twiddles(t.tw)
  }

  type Block = s: seq<Complex> | |s| == FFT_BINS ghost witness seq(FFT_BINS, i => ZERO)

  lemma BinsArePowerOfTwo()
    ensures IsPowerOfTwo(FFT_BINS)
  {
    assert Pow2(12) == 4096;
  }

  lemma MiddleBin()
    ensures FFT_BINS / 2 == 2048
  {
  }

  predicate InRange(i: int) {
    EDGE_BINS_TO_SKIP <= i <= FFT_BINS - EDGE_BINS_TO_SKIP
  }

  ghost function BlockSpectrum(b: Block, t: Tables, phase: real, amplitude: real): Block
    requires ValidTables(t)
  {
    BinsArePowerOfTwo();
    Spectrum(b, t.win, t.tw, phase, amplitude)
  }

  // ---------------------------------------------------------------- what an integration accumulates

  /** F[i] F[N-i]. */
  function MirrorProduct(f: Block, i: int): Complex
    requires InRange(i)
  {
    Mul(f[i], f[FFT_BINS - i])
  }

  /** The aliased update counts every bin twice except the centre. */
  function Multiplicity(i: int): real {
    if 2 * i == FFT_BINS then 1.0 else 2.0
  }

  ghost function CorrSum(ws: seq<Block>, t: Tables, phase: real, amplitude: real, i: int): Complex
    requires ValidTables(t) && InRange(i)
  {
    if |ws| == 0 then ZERO
    else Add(CorrSum(ws[..|ws| - 1], t, phase, amplitude, i),
             Scale(Multiplicity(i), MirrorProduct(BlockSpectrum(ws[|ws| - 1], t, phase, amplitude), i)))
  }

  ghost function BoostSum(ws: seq<Block>, t: Tables, phase: real, amplitude: real, i: int): real
    requires ValidTables(t) && InRange(i)
  {
    if |ws| == 0 then 0.0
    else BoostSum(ws[..|ws| - 1], t, phase, amplitude, i) + NormSq(BlockSpectrum(ws[|ws| - 1], t, phase, amplitude)[i])
  }

  function PowerSum(ws: seq<Block>): real {
    if |ws| == 0 then 0.0 else PowerSum(ws[..|ws| - 1]) + Power(ws[|ws| - 1])
  }

  function Abs(x: int): nat {
    if x < 0 then -x else x
  }

  /** The image weight of bin i: flat at the default optimal point, else the boost window mirrored about it. */
  function ImageWeight(boost: seq<real>, optimalBin: int, i: int): real
    requires |boost| == FFT_BINS && 0 <= optimalBin <= FFT_BINS && InRange(i)
  {
    if 2 * optimalBin == FFT_BINS then 1.0 else boost[Abs(FFT_BINS - i - optimalBin)]
  }

  /** Image power of the bins below `upto`. */
  function ImagePower(f: Block, boost: seq<real>, optimalBin: int, upto: int): real
    requires |boost| == FFT_BINS && 0 <= optimalBin <= FFT_BINS && upto <= FFT_BINS - EDGE_BINS_TO_SKIP + 1
    decreases upto
  {
    if upto <= EDGE_BINS_TO_SKIP then 0.0
    else ImagePower(f, boost, optimalBin, upto - 1) + NormSq(f[upto - 1]) * ImageWeight(boost, optimalBin, upto - 1)
  }

  ghost function ImagePowerSum(ws: seq<Block>, t: Tables, phase: real, amplitude: real, optimalBin: int): real
    requires ValidTables(t) && 0 <= optimalBin <= FFT_BINS
  {
    if |ws| == 0 then 0.0
    else ImagePowerSum(ws[..|ws| - 1], t, phase, amplitude, optimalBin)
         + ImagePower(BlockSpectrum(ws[|ws| - 1], t, phase, amplitude), t.boost, optimalBin, FFT_BINS - EDGE_BINS_TO_SKIP + 1)
  }

  ghost predicate CorrHolds(c: seq<Complex>, ws: seq<Block>, t: Tables, phase: real, amplitude: real)
    requires ValidTables(t)
  {
    |c| == FFT_BINS && forall i: int :: InRange(i) ==> c[i] == CorrSum(ws, t, phase, amplitude, i)
  }

  ghost predicate BoostHolds(b: seq<real>, ws: seq<Block>, t: Tables, phase: real, amplitude: real)
    requires ValidTables(t)
  {
    |b| == FFT_BINS && forall i: int :: InRange(i) ==> b[i] == BoostSum(ws, t, phase, amplitude, i)
  }

  lemma EmptySums(t: Tables, phase: real, amplitude: real, c: seq<Complex>, b: seq<real>)
    requires ValidTables(t) && |c| == |b| == FFT_BINS
    requires forall i: nat :: i < FFT_BINS ==> c[i] == ZERO
    requires forall i: nat :: i < FFT_BINS ==> b[i] == 0.0
    ensures CorrHolds(c, [], t, phase, amplitude) && BoostHolds(b, [], t, phase, amplitude)
  {
  }

  lemma {:induction false} BoostNonNegative(ws: seq<Block>, t: Tables, phase: real, amplitude: real, i: int)
    requires ValidTables(t) && InRange(i)
    ensures BoostSum(ws, t, phase, amplitude, i) >= 0.0
  {
    if |ws| > 0 {
      BoostNonNegative(ws[..|ws| - 1], t, phase, amplitude, i);
      NormSqNonNegative(BlockSpectrum(ws[|ws| - 1], t, phase, amplitude)[i]);
    }
  }

  lemma NormSqNonNegative(z: Complex)
    ensures NormSq(z) >= 0.0
  {
    SquareNonNegative(z.re);
    SquareNonNegative(z.im);
  }

  lemma SquareNonNegative(x: real)
    ensures x * x >= 0.0
  {
  }

  /** The accumulated correlation is symmetric about the centre bin. */
  lemma {:induction false} CorrSymmetric(ws: seq<Block>, t: Tables, phase: real, amplitude: real, i: int)
    requires ValidTables(t) && InRange(i)
    ensures CorrSum(ws, t, phase, amplitude, i) == CorrSum(ws, t, phase, amplitude, FFT_BINS - i)
  {
    if |ws| > 0 {
      hide Mul, Add, Scale, BlockSpectrum;
      CorrSymmetric(ws[..|ws| - 1], t, phase, amplitude, i);
      var f := BlockSpectrum(ws[|ws| - 1], t, phase, amplitude);
      MulComm(f[i], f[FFT_BINS - i]);
    }
  }

  // ---------------------------------------------------------------- the aliased update of lines 285-293

  function Fold(i: int): int {
    if 2 * i <= FFT_BINS then i else FFT_BINS - i
  }

  /** How often the pair of bin p has been visited once the loop stands at i. */
  function Visits(p: int, i: int): int {
    (if Fold(p) < i then 1 else 0) + (if FFT_BINS - Fold(p) < i && 2 * p != FFT_BINS then 1 else 0)
  }

  ghost predicate MirrorPartly(c: seq<Complex>, c0: seq<Complex>, f: Block, i: int) {
    |c| == |c0| == FFT_BINS
    && forall p: int :: InRange(p) ==>
         c[p] == if Visits(p, i) == 0 then c0[p] else Add(c0[Fold(p)], Scale(Visits(p, i) as real, MirrorProduct(f, p)))
  }

  lemma MirrorStart(c0: seq<Complex>, f: Block)
    requires |c0| == FFT_BINS
    ensures MirrorPartly(c0, c0, f, EDGE_BINS_TO_SKIP)
  {
  }

  lemma AddTwice(c: Complex, m: Complex)
    ensures Add(c, m) == Add(c, Scale(1.0, m))
    ensures Add(Add(c, Scale(1.0, m)), m) == Add(c, Scale(2.0, m))
  {
  }

  lemma MirrorStep(c: seq<Complex>, c0: seq<Complex>, f: Block, i: int)
    requires InRange(i) && MirrorPartly(c, c0, f, i)
    ensures var s := Add(c[i], MirrorProduct(f, i));
            MirrorPartly(c[i := s][FFT_BINS - i := s], c0, f, i + 1)
  {
    hide Add, Scale, Mul;
    var j := FFT_BINS - i;
    MulComm(f[i], f[j]);
    AddTwice(c0[Fold(i)], MirrorProduct(f, i));
    assert Fold(i) == Fold(j);
    forall p: int | InRange(p) && p != i && p != j
      ensures Visits(p, i + 1) == Visits(p, i)
    {
    }
  }

  /** After the loop every in-range bin has gained its product with its mirror, twice off the centre and once on it,
      and the result is symmetric even if the start was not. */
  lemma MirrorEnd(c: seq<Complex>, c0: seq<Complex>, f: Block)
    requires MirrorPartly(c, c0, f, FFT_BINS - EDGE_BINS_TO_SKIP + 1)
    ensures forall p: int :: InRange(p) ==> c[p] == Add(c0[Fold(p)], Scale(Multiplicity(p), MirrorProduct(f, p)))
    ensures forall p: int :: InRange(p) ==> c[p] == c[FFT_BINS - p]
  {
    hide Add, Scale, Mul;
    forall p: int | InRange(p)
      ensures c[p] == Add(c0[Fold(p)], Scale(Multiplicity(p), MirrorProduct(f, p))) && c[p] == c[FFT_BINS - p]
    {
      MulComm(f[p], f[FFT_BINS - p]);
      assert Visits(p, FFT_BINS - EDGE_BINS_TO_SKIP + 1) as real == Multiplicity(p);
    }
  }

  lemma CorrExtend(c: seq<Complex>, c0: seq<Complex>, ws: seq<Block>, w: Block, t: Tables, phase: real, amplitude: real)
    requires ValidTables(t) && |c| == FFT_BINS && CorrHolds(c0, ws, t, phase, amplitude)
    requires var f := BlockSpectrum(w, t, phase, amplitude);
             forall p: int :: InRange(p) ==> c[p] == Add(c0[Fold(p)], Scale(Multiplicity(p), MirrorProduct(f, p)))
    ensures CorrHolds(c, ws + [w], t, phase, amplitude)
  {
    hide Add, Scale, Mul, BlockSpectrum, ValidTables;
    assert (ws + [w])[..|ws|] == ws;
    forall p: int | InRange(p)
      ensures c[p] == CorrSum(ws + [w], t, phase, amplitude, p)
    {
      CorrSymmetric(ws, t, phase, amplitude, p);
    }
  }

  // ---------------------------------------------------------------- the windows of one working buffer

  ghost function BlockAt(x: seq<Complex>, n: nat): Block
    requires n + FFT_BINS <= |x|
  {
    x[n..n + FFT_BINS]
  }

  ghost predicate Loud(b: Block) {
    Power(b) > MINIMUM_POWER
  }

  /** The windows among the first m with enough power. */
  ghost function Accepted(x: seq<Complex>, stride: nat, m: nat): seq<Block>
    requires m > 0 ==> (m - 1) * stride + FFT_BINS <= |x|
  {
    if m == 0 then []
    else
      EarlierFits(m, stride);
      Accepted(x, stride, m - 1)
      + if Loud(BlockAt(x, (m - 1) * stride)) then [BlockAt(x, (m - 1) * stride)] else []
  }

  lemma EarlierFits(m: nat, stride: nat)
    requires m > 0
    ensures 0 <= (m - 1) * stride
    ensures m > 1 ==> (m - 2) * stride <= (m - 1) * stride
  {
    if m > 1 {
      assert (m - 1) * stride == (m - 2) * stride + stride;
    }
  }

  /** How many windows the loop of lines 264-311 visits. */
  ghost function WindowCount(length: nat, stride: nat, integration: int): nat {
    if integration <= 0 || length < FFT_BINS then 0
    else if stride == 0 then integration
    else if integration <= (length - FFT_BINS) / stride + 1 then integration
    else (length - FFT_BINS) / stride + 1
  }

  lemma WindowFits(length: nat, stride: nat, integration: int, m: nat)
    ensures integration >= 0 ==> WindowCount(length, stride, integration) <= integration
    ensures m < WindowCount(length, stride, integration)
       <==> m * stride + FFT_BINS <= length && m < integration
  {
    if stride > 0 && length >= FFT_BINS {
      var q := (length - FFT_BINS) / stride;
      assert q * stride <= length - FFT_BINS < (q + 1) * stride by { DivBounds(length - FFT_BINS, stride); }
      if m <= q {
        MulLe(m, q, stride);
      } else {
        MulLe(q + 1, m, stride);
      }
    } else {
      assert m * stride >= 0;
    }
  }

  lemma DivBounds(a: nat, b: nat)
    requires b > 0
    ensures (a / b) * b <= a < (a / b + 1) * b
  {
  }

  lemma MulLe(a: nat, b: nat, c: nat)
    requires a <= b
    ensures a * c <= b * c
  {
  }

  ghost function AcceptedIn(x: seq<Complex>, stride: nat, integration: int): seq<Block> {
    var m := WindowCount(|x|, stride, integration);
    WindowFits(|x|, stride, integration, if m > 0 then m - 1 else 0);
    Accepted(x, stride, m)
  }

  function FlagOf(loud: bool): int {
    if loud then 1 else 0
  }

  /** The power flags of the first m windows. */
  ghost predicate Flagged(flags: seq<int>, x: seq<Complex>, stride: nat, m: nat) {
    m <= |flags| && forall q: nat :: q < m ==> FlagAt(flags, x, stride, q)
  }

  ghost predicate FlagAt(flags: seq<int>, x: seq<Complex>, stride: nat, q: nat)
    requires q < |flags|
  {
    0 <= q * stride && (q * stride + FFT_BINS <= |x| ==> flags[q] == FlagOf(Loud(BlockAt(x, q * stride))))
  }

  /** Everything the first pass (step 0) accumulates besides the correlation. */
  ghost predicate PowersHold(b: seq<real>, total: real, image: real, ws: seq<Block>, t: Tables,
                             phase: real, amplitude: real, optimalBin: int)
    requires ValidTables(t) && 0 <= optimalBin <= FFT_BINS
  {
    && BoostHolds(b, ws, t, phase, amplitude)
    && total == PowerSum(ws)
    && image == ImagePowerSum(ws, t, phase, amplitude, optimalBin)
  }

  lemma AcceptNext(x: seq<Complex>, stride: nat, m: nat, ws: seq<Block>)
    requires 0 <= m * stride && m * stride + FFT_BINS <= |x|
    ensures m > 0 ==> 0 <= (m - 1) * stride && (m - 1) * stride + FFT_BINS <= |x|
    ensures var b := BlockAt(x, m * stride);
            && |Accepted(x, stride, m + 1)| == |Accepted(x, stride, m)| + (if Loud(b) then 1 else 0)
            && ws + Accepted(x, stride, m + 1)
               == if Loud(b) then (ws + Accepted(x, stride, m)) + [b] else ws + Accepted(x, stride, m)
  {
    hide Loud, BlockAt;
    EarlierFits(m + 1, stride);
    var b := BlockAt(x, m * stride);
    var a := Accepted(x, stride, m);
    assert Accepted(x, stride, m + 1) == a + if Loud(b) then [b] else [];
    hide Accepted;
    assert ws + (a + [b]) == (ws + a) + [b];
    assert a + [] == a;
  }

  lemma AcceptNone(x: seq<Complex>, stride: nat, ws: seq<Block>)
    ensures Accepted(x, stride, 0) == [] && ws + Accepted(x, stride, 0) == ws
  {
  }

  lemma NoFlags(flags: seq<int>, x: seq<Complex>, stride: nat)
    ensures Flagged(flags, x, stride, 0)
  {
  }

  lemma FlagNext(flags: seq<int>, x: seq<Complex>, stride: nat, m: nat)
    requires m < |flags| && Flagged(flags, x, stride, m) && 0 <= m * stride && m * stride + FFT_BINS <= |x|
    ensures Flagged(flags[m := FlagOf(Loud(BlockAt(x, m * stride)))], x, stride, m + 1)
  {
    hide Loud;
    var flags' := flags[m := FlagOf(Loud(BlockAt(x, m * stride)))];
    forall q: nat | q < m + 1
      ensures FlagAt(flags', x, stride, q)
    {
      if q < m {
        assert FlagAt(flags, x, stride, q);
      }
    }
  }

  lemma FlagRead(flags: seq<int>, x: seq<Complex>, stride: nat, m: nat, q: nat)
    requires Flagged(flags, x, stride, m) && q < m && 0 <= q * stride && q * stride + FFT_BINS <= |x|
    ensures flags[q] == FlagOf(Loud(BlockAt(x, q * stride)))
  {
    hide Loud;
    assert FlagAt(flags, x, stride, q);
  }
}
