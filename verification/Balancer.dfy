/** The IQ balancer as the object the library keeps between calls (libairspyhf/src/iqbalancer.c:38-73, 254-554).
    Ghost fields record the history the estimator works from; `Valid` ties the accumulators to it. */
module Balancer {
  import opened Arith
  import opened ComplexNumbers
  import opened Correction
  import opened BalancerSpec
  import opened BalancerSteps
  import opened BalancerLaws
  import opened ImageRemoval
  import opened DiscreteFourier
  import opened RawEstimates

  method ZeroedFlags(n: nat) returns (flags: array<int>)
    ensures fresh(flags) && flags.Length == n && forall m: nat :: m < n ==> flags[m] == 0
  {
    flags := new int[n](i => 0);
  }

  method NewBuffer(call: seq<Complex>) returns (iq: array<Complex>)
    ensures fresh(iq) && iq[..] == call
  {
    iq := new Complex[|call|](n requires 0 <= n < |call| => call[n]);
  }

  class IqBalancer {
    const tables: Tables
    const corr: array<Complex>
    const corrPlus: array<Complex>
    const workingBuffer: array<Complex>
    const boost: array<real>
    const rawPhases: array<real>
    const rawAmplitudes: array<real>
    var powerFlag: array<int>

    var phase: real
    var lastPhase: real
    var amplitude: real
    var lastAmplitude: real
    var iavg: real
    var qavg: real
    var integratedTotalPower: real
    var integratedImagePower: real
    var maximumImagePower: real

    var skippedBuffers: int
    var buffersToSkip: int
    var workingBufferPos: int
    var fftIntegration: int
    var fftOverlap: int
    var correlationIntegration: int
    var noOfAvg: int
    var noOfRaw: int
    var rawPtr: int
    var optimalBin: int
    var resetFlag: bool

    ghost var windows: seq<Block> // windows summed since the accumulators were last cleared
    ghost const phase0: real
    ghost const amplitude0: real
    ghost var phaseHistory: seq<real> // every raw estimate so far, oldest first
    ghost var amplitudeHistory: seq<real>
    ghost var inputs: seq<Complex> // every sample offered for evaluation
    ghost var stream: seq<Complex> // the same, DC cancelled
    ghost var evaluated: seq<seq<Complex>> // working buffers handed to the estimator

    ghost predicate Shape()
      reads `optimalBin, `fftOverlap, `fftIntegration, `powerFlag
    {
      && ValidTables(tables) && |tables.boost| == FFT_BINS
      && corr.Length == corrPlus.Length == boost.Length == FFT_BINS && workingBuffer.Length == WORKING_BUFFER_LENGTH
      && rawPhases.Length == rawAmplitudes.Length == MAX_LOOKBACK
      && corr != corrPlus && corr != workingBuffer && corrPlus != workingBuffer
      && boost != rawPhases && boost != rawAmplitudes && rawPhases != rawAmplitudes
      && 0 <= optimalBin <= FFT_BINS && fftOverlap >= 1 && fftIntegration >= 0 && powerFlag.Length == fftIntegration
    }

    /** Both correlations, the boost and the total power are sums over the same windows, for one fixed correction and
        its one-step offset. */
    ghost predicate Accumulated()
      requires ValidTables(tables)
      reads `windows, `phase, `amplitude, `integratedTotalPower, corr, corrPlus, boost
    {
      && CorrHolds(corr[..], windows, tables, phase, amplitude)
      && CorrHolds(corrPlus[..], windows, tables, phase + PHASE_STEP, amplitude + AMPLITUDE_STEP)
      && BoostHolds(boost[..], windows, tables, phase, amplitude)
      && integratedTotalPower == PowerSum(windows)
    }

    /** The image power too, as long as the weighting point has not been moved. */
    ghost predicate ImageAccumulated()
      requires ValidTables(tables) && 0 <= optimalBin <= FFT_BINS
      reads `windows, `phase, `amplitude, `optimalBin, `integratedImagePower
    {
      integratedImagePower == ImagePowerSum(windows, tables, phase, amplitude, optimalBin)
    }

    ghost predicate Integrating()
      requires ValidTables(tables) && 0 <= optimalBin <= FFT_BINS
      reads `windows, `phase, `amplitude, `optimalBin, `integratedImagePower, `integratedTotalPower, `noOfAvg, `resetFlag
      reads corr, corrPlus, boost
    {
      noOfAvg > 0 ==> |windows| == noOfAvg && Accumulated() && (!resetFlag ==> ImageAccumulated())
    }

    ghost predicate Averaging()
      requires rawPhases.Length == rawAmplitudes.Length == MAX_LOOKBACK
      reads `phaseHistory, `amplitudeHistory, `rawPtr, `noOfRaw, `phase, `amplitude, rawPhases, rawAmplitudes
    {
      && |phaseHistory| == |amplitudeHistory|
      && RingOf(rawPhases[..], phaseHistory, rawPtr, noOfRaw)
      && RingOf(rawAmplitudes[..], amplitudeHistory, rawPtr, noOfRaw)
      && phase == Smoothed(phaseHistory, phase0) && amplitude == Smoothed(amplitudeHistory, amplitude0)
      && Drifted(phaseHistory, phase0, PHASE_STEP * MAX_MU)
      && Drifted(amplitudeHistory, amplitude0, AMPLITUDE_STEP * MAX_MU)
    }

    /** The stream is the DC-cancelled input, however it was cut into calls. */
    ghost predicate Cancelling()
      reads `stream, `inputs, `iavg, `qavg
    {
      stream == Cancelled(ZERO, inputs) && Complex(iavg, qavg) == Average(ZERO, inputs)
    }

    /** The working buffer holds the newest samples of the stream. */
    ghost predicate Assembling()
      requires workingBuffer.Length == WORKING_BUFFER_LENGTH
      reads `workingBufferPos, `stream, workingBuffer
    {
      && 0 <= workingBufferPos < WORKING_BUFFER_LENGTH
      && workingBufferPos <= |stream|
      && workingBuffer[..workingBufferPos] == stream[|stream| - workingBufferPos..]
    }

    ghost predicate Valid()
      reads `optimalBin, `fftOverlap, `fftIntegration, `powerFlag, `noOfAvg, `resetFlag
      reads `windows, `phase, `amplitude, `integratedImagePower, `integratedTotalPower
      reads `phaseHistory, `amplitudeHistory, `rawPtr, `noOfRaw, `workingBufferPos, `stream, `inputs, `iavg, `qavg
      reads corr, corrPlus, boost, rawPhases, rawAmplitudes, workingBuffer
    {
      Shape() && Integrating() && Averaging() && Cancelling() && Assembling()
    }

    /** Lines 531-554; the tables stand for the static windows. */
    constructor (t: Tables, initialPhase: real, initialAmplitude: real)
      requires ValidTables(t)
      ensures Valid() && tables == t && phase == initialPhase && amplitude == initialAmplitude
      ensures buffersToSkip == 2 && fftIntegration == 4 && fftOverlap == 2 && correlationIntegration == 16
      ensures optimalBin == 2048 && !resetFlag && noOfAvg == 0 && maximumImagePower == 0.0
      ensures skippedBuffers == 0 && workingBufferPos == 0 && lastPhase == lastAmplitude == iavg == qavg == 0.0
      ensures stream == [] && inputs == [] && evaluated == [] && phaseHistory == []
      ensures fresh(corr) && fresh(corrPlus) && fresh(boost) && fresh(rawPhases) && fresh(rawAmplitudes)
      ensures fresh(workingBuffer) && fresh(powerFlag)
    {
      MiddleBin();
      hide *;
      tables := t;
      phase, amplitude := initialPhase, initialAmplitude;
      phase0, amplitude0 := initialPhase, initialAmplitude;
      lastPhase, lastAmplitude, iavg, qavg := 0.0, 0.0, 0.0, 0.0;
      integratedTotalPower, integratedImagePower, maximumImagePower := 0.0, 0.0, 0.0;
      optimalBin := FFT_BINS / 2;
      buffersToSkip, fftIntegration, fftOverlap, correlationIntegration := 2, 4, 2, 16;
      skippedBuffers, workingBufferPos, noOfAvg, noOfRaw, rawPtr := 0, 0, 0, 0, 0;
      resetFlag := false;
      windows, phaseHistory, amplitudeHistory, inputs, stream, evaluated := [], [], [], [], [], [];
      corr := new Complex[FFT_BINS];
      corrPlus := new Complex[FFT_BINS];
      workingBuffer := new Complex[WORKING_BUFFER_LENGTH];
      boost := new real[FFT_BINS];
      rawPhases := new real[MAX_LOOKBACK];
      rawAmplitudes := new real[MAX_LOOKBACK];
      powerFlag := new int[4];
      new;
      Started();
    }

    /** The freshly created state satisfies the invariant. */
    lemma Started()
      requires ValidTables(tables)
      requires corr.Length == corrPlus.Length == boost.Length == FFT_BINS && workingBuffer.Length == WORKING_BUFFER_LENGTH
      requires rawPhases.Length == rawAmplitudes.Length == MAX_LOOKBACK
      requires corr != corrPlus && corr != workingBuffer && corrPlus != workingBuffer
      requires boost != rawPhases && boost != rawAmplitudes && rawPhases != rawAmplitudes
      requires optimalBin == FFT_BINS / 2 && fftOverlap == 2 && fftIntegration == 4 == powerFlag.Length
      requires noOfAvg == noOfRaw == rawPtr == workingBufferPos == 0
      requires phaseHistory == [] && amplitudeHistory == [] && inputs == [] && stream == []
      requires phase == phase0 && amplitude == amplitude0 && iavg == 0.0 && qavg == 0.0
      ensures Valid()
    {
      hide Accumulated, ImageAccumulated;
    }

    /** Lines 502-515. */
    method SetOptimalPoint(w0: real)
      requires Valid()
      modifies this`optimalBin, this`resetFlag
      ensures Valid() && resetFlag
      ensures -0.5 <= w0 <= 0.5 ==> optimalBin == (FFT_BINS as real * (0.5 + w0)).Floor
      ensures w0 < -0.5 ==> optimalBin == 0
      ensures w0 > 0.5 ==> optimalBin == FFT_BINS
    {
      hide Accumulated, ImageAccumulated, Averaging, Assembling, Cancelling, ValidTables;
      var w := if w0 < -0.5 then -0.5 else if w0 > 0.5 then 0.5 else w0;
      optimalBin := (FFT_BINS as real * (0.5 + w)).Floor;
      resetFlag := true;
    }

    /** Lines 517-529. */
    method Configure(skip: int, integration: int, overlap: int, correlation: int)
      requires Valid() && integration >= 0 && overlap >= 1
      modifies this`buffersToSkip, this`fftIntegration, this`fftOverlap, this`correlationIntegration
      modifies this`powerFlag, this`resetFlag
      ensures Valid() && resetFlag && fresh(powerFlag)
      ensures buffersToSkip == skip && fftIntegration == integration && fftOverlap == overlap
      ensures correlationIntegration == correlation && forall m: nat :: m < integration ==> powerFlag[m] == 0
    {
      hide *;
      var flags := ZeroedFlags(integration);
      buffersToSkip, fftIntegration, fftOverlap, correlationIntegration := skip, integration, overlap, correlation;
      powerFlag := flags;
      resetFlag := true;
      Reconfigured();
    }

    /** Reconfiguring touches neither the accumulators nor the histories. */
    twostate lemma Reconfigured()
      requires old(Valid()) && resetFlag
      requires fftOverlap >= 1 && fftIntegration >= 0 && powerFlag.Length == fftIntegration
      requires unchanged(corr, corrPlus, boost, rawPhases, rawAmplitudes, workingBuffer)
      requires unchanged(`phase, `amplitude, `windows, `noOfAvg, `integratedTotalPower, `integratedImagePower, `optimalBin)
      requires unchanged(`phaseHistory, `amplitudeHistory, `rawPtr, `noOfRaw)
      requires unchanged(`workingBufferPos, `stream, `inputs, `iavg, `qavg)
      ensures Valid()
    {
      hide Accumulated, ImageAccumulated, Averaging, Assembling, Cancelling, ValidTables;
    }

    /** The distance between successive windows (line 264). */
    function WindowStride(): nat
      requires fftOverlap >= 1
      reads `fftOverlap
    {
      FFT_BINS / fftOverlap
    }

    /** Lines 254-314. `step` 0 measures at the current correction and records which windows are loud; `step` 1 repeats
        the same windows one step further. */
    method ComputeCorr(iq: array<Complex>, ccorr: array<Complex>, step: int, ghost ws: seq<Block>) returns (count: int)
      requires Shape() && (step == 0 || step == 1) && iq != ccorr && ccorr.Length == FFT_BINS
      requires CorrHolds(ccorr[..], ws, tables, phase + (step as real) * PHASE_STEP, amplitude + (step as real) * AMPLITUDE_STEP)
      requires step == 0 ==> PowersHold(boost[..], integratedTotalPower, integratedImagePower, ws, tables,
                                        phase + (step as real) * PHASE_STEP, amplitude + (step as real) * AMPLITUDE_STEP,
                                        optimalBin)
      requires step != 0 ==>
                 Flagged(powerFlag[..], iq[..], WindowStride(), WindowCount(iq.Length, WindowStride(), fftIntegration))
      modifies ccorr, boost, powerFlag, this`integratedTotalPower, this`integratedImagePower
      ensures count == |AcceptedIn(iq[..], WindowStride(), fftIntegration)|
      ensures CorrHolds(ccorr[..], ws + AcceptedIn(iq[..], WindowStride(), fftIntegration), tables,
                        phase + (step as real) * PHASE_STEP, amplitude + (step as real) * AMPLITUDE_STEP)
      ensures step == 0 ==>
                && PowersHold(boost[..], integratedTotalPower, integratedImagePower,
                              ws + AcceptedIn(iq[..], WindowStride(), fftIntegration), tables,
                              phase + (step as real) * PHASE_STEP, amplitude + (step as real) * AMPLITUDE_STEP, optimalBin)
                && Flagged(powerFlag[..], iq[..], WindowStride(), WindowCount(iq.Length, WindowStride(), fftIntegration))
      ensures step != 0 ==> boost[..] == old(boost[..]) && powerFlag[..] == old(powerFlag[..])
                            && unchanged(`integratedTotalPower, `integratedImagePower)
    {
      var ph := phase + (step as real) * PHASE_STEP;
      var am := amplitude + (step as real) * AMPLITUDE_STEP;
      hide CorrHolds, PowersHold, Loud, BlockAt, Accepted, ValidTables, PowerSum, Flagged, WindowCount, FlagOf;
      ghost var x := iq[..];
      var stride := FFT_BINS / fftOverlap;
      count := 0;
      var n, m := 0, 0;
      WindowFits(iq.Length, stride, fftIntegration, 0);
      AcceptNone(x, stride, ws);
      NoFlags(powerFlag[..], x, stride);
      while n <= iq.Length - FFT_BINS && m < fftIntegration
        invariant 0 <= m <= WindowCount(iq.Length, stride, fftIntegration) && n == m * stride
        invariant m > 0 ==> (m - 1) * stride + FFT_BINS <= iq.Length
        invariant count == |Accepted(x, stride, m)|
        invariant CorrHolds(ccorr[..], ws + Accepted(x, stride, m), tables, ph, am)
        invariant step == 0 ==>
                    && PowersHold(boost[..], integratedTotalPower, integratedImagePower, ws + Accepted(x, stride, m),
                                  tables, ph, am, optimalBin)
                    && Flagged(powerFlag[..], x, stride, m)
        invariant step != 0 ==> boost[..] == old(boost[..]) && powerFlag[..] == old(powerFlag[..])
                                && unchanged(`integratedTotalPower, `integratedImagePower)
        decreases fftIntegration - m
      {
        WindowFits(iq.Length, stride, fftIntegration, m);
        AcceptNext(x, stride, m, ws);
        if step == 0 {
          FlagNext(powerFlag[..], x, stride, m);
        } else {
          FlagRead(powerFlag[..], x, stride, WindowCount(iq.Length, stride, fftIntegration), m);
        }
        var hit, total, image := AccumulateWindow(iq, n, ccorr, tables, ph, am, step, m, powerFlag, boost, optimalBin,
                                                  integratedTotalPower, integratedImagePower, ws + Accepted(x, stride, m));
        if step == 0 {
          integratedTotalPower, integratedImagePower := total, image;
        }
        if hit {
          count := count + 1;
        }
        n := n + FFT_BINS / fftOverlap;
        m := m + 1;
      }
      WindowFits(iq.Length, stride, fftIntegration, m);
    }

    /** Lines 360-364. */
    method ClearAccumulators()
      requires Shape()
      modifies corr, corrPlus, boost, `integratedTotalPower, `integratedImagePower, `windows
      ensures windows == [] && Accumulated() && ImageAccumulated()
    {
      hide ValidTables;
      integratedImagePower, integratedTotalPower := 0.0, 0.0;
      windows := [];
      forall i | 0 <= i < FFT_BINS {
        boost[i] := 0.0;
      }
      forall i | 0 <= i < FFT_BINS {
        corr[i] := ZERO;
      }
      forall i | 0 <= i < FFT_BINS {
        corrPlus[i] := ZERO;
      }
      EmptySums(tables, phase, amplitude, corr[..], boost[..]);
      EmptySums(tables, phase + PHASE_STEP, amplitude + AMPLITUDE_STEP, corrPlus[..], boost[..]);
      hide CorrHolds, BoostHolds;
    }

    /** The loud windows of one working buffer. */
    ghost function LoudWindows(iq: array<Complex>): seq<Block>
      requires fftOverlap >= 1
      reads `fftOverlap, `fftIntegration, iq
    {
      AcceptedIn(iq[..], WindowStride(), fftIntegration)
    }

    /** Which these are: those of 4096 samples starting at a multiple of 4096 / fftOverlap, at most fftIntegration of them,
        that are loud. */
    lemma LoudWindowsAre(iq: array<Complex>, b: Block)
      requires fftOverlap >= 1
      ensures b in LoudWindows(iq) <==> exists m: nat :: WindowIs(iq[..], 4096 / fftOverlap, fftIntegration, b, m)
    {
      hide AcceptedIn, WindowIs;
      AcceptedMeans(iq[..], 4096 / fftOverlap, fftIntegration, b);
    }

    /** Lines 369-374: both passes over the same windows. */
    method Accumulate(iq: array<Complex>) returns (count: int)
      requires Shape() && Accumulated() && ImageAccumulated() && iq != corr && iq != corrPlus
      modifies corr, corrPlus, boost, powerFlag, `integratedTotalPower, `integratedImagePower, `windows
      ensures windows == old(windows) + LoudWindows(iq) && count == |LoudWindows(iq)|
      ensures Accumulated() && ImageAccumulated()
    {
      hide ValidTables, CorrHolds, BoostHolds, PowerSum, ImagePowerSum, Flagged, WindowCount, AcceptedIn;
      ghost var ws := windows;
      count := ComputeCorr(iq, corr, 0, ws);
      if count == 0 {
        assert ws + LoudWindows(iq) == ws;
        return;
      }
      var again := ComputeCorr(iq, corrPlus, 1, ws);
      windows := ws + LoudWindows(iq);
    }

    /** Lines 346-379: the reset and skip counter, and the decision that an integration is complete. */
    method Integrate(iq: array<Complex>) returns (full: bool)
      requires Shape() && Integrating() && iq != corr && iq != corrPlus
      modifies corr, corrPlus, boost, powerFlag, `noOfAvg, `resetFlag, `maximumImagePower
      modifies `integratedTotalPower, `integratedImagePower, `windows
      ensures Integrating() && !resetFlag
      ensures old(resetFlag) ==>
                !full && noOfAvg == -1 && maximumImagePower == 0.0 && windows == old(windows)
      ensures !old(resetFlag) && old(noOfAvg) < 0 ==>
                !full && noOfAvg == old(noOfAvg) + 1 && windows == old(windows) && maximumImagePower == old(maximumImagePower)
      ensures !old(resetFlag) && old(noOfAvg) >= 0 ==>
                && maximumImagePower == old(maximumImagePower) * 0.98
                && windows == (if old(noOfAvg) == 0 then [] else old(windows)) + LoudWindows(iq)
                && full == (LoudWindows(iq) != [] && |windows| > correlationIntegration * fftIntegration)
                && noOfAvg == (if full then 0 else if LoudWindows(iq) == [] then old(noOfAvg) else |windows|)
      ensures full ==> Accumulated() && ImageAccumulated()
    {
      hide Accumulated, ImageAccumulated, ValidTables, LoudWindows;
      full := false;
      if resetFlag {
        resetFlag := false;
        noOfAvg := -BUFFERS_TO_SKIP_ON_RESET;
        maximumImagePower := 0.0;
      }
      if noOfAvg < 0 {
        noOfAvg := noOfAvg + 1;
        return;
      } else if noOfAvg == 0 {
        ClearAccumulators();
      }
      maximumImagePower := maximumImagePower * MAX_POWER_DECAY;
      var i := Accumulate(iq);
      if i == 0 {
        return;
      }
      noOfAvg := noOfAvg + i;
      if noOfAvg <= correlationIntegration * fftIntegration {
        return;
      }
      noOfAvg := 0;
      full := true;
    }

    /** What is compared with the decayed maximum (lines 381-392): total power at the default point, else image power. */
    function Score(): real
      reads `optimalBin, `integratedTotalPower, `integratedImagePower
    {
      if optimalBin == FFT_BINS / 2 then integratedTotalPower
      else integratedImagePower - integratedTotalPower * BOOST_WINDOW_NORM
    }

    function Threshold(maximum: real): real
      reads `optimalBin
    {
      if optimalBin == FFT_BINS / 2 then maximum else maximum * POWER_THRESHOLD
    }

    /** The utility at the current correction and one step further. */
    ghost function UtilityHere(): Complex
      requires Shape() && NonNegative(boost[..])
      reads this, corr, boost
    {
      Utility(corr[..], boost[..], tables, optimalBin)
    }

    ghost function UtilityAhead(): Complex
      requires Shape() && NonNegative(boost[..])
      reads this, corrPlus, boost
    {
      Utility(corrPlus[..], boost[..], tables, optimalBin)
    }

    /** What the estimator measures: with the windows received through a front end that turns z into a z + b conj(z), both
        utilities are the image left after the correction, times what is left of the signal, times one factor. */
    lemma MeasuresImage(zs: seq<Block>, a: Complex, b: Complex) returns (strength: real)
      requires Shape() && Accumulated() && NonNegative(boost[..]) && UnitModulus(tables.tw)
      requires AllReceived(windows, zs, tables, a, b) && forall x <- tables.boost :: x >= 0.0
      ensures strength >= 0.0
      ensures UtilityHere() == Scale(strength, Mul(Kept(a, b, phase, amplitude), Image(a, b, phase, amplitude)))
      ensures UtilityAhead()
              == Scale(strength, Mul(Kept(a, b, phase + 0.01, amplitude + 0.01), Image(a, b, phase + 0.01, amplitude + 0.01)))
    {
      hide AllReceived, CorrHolds, BoostHolds, NonNegative, Kept, Image, Scale, Mul, UtilitySum, Strength, UnitModulus;
      strength := Strength(zs, boost[..], tables, optimalBin, 3911);
      StrengthNonNegative(windows, zs, boost[..], tables, a, b, optimalBin, 3911);
      UtilityMeasures(corr[..], boost[..], windows, zs, tables, a, b, phase, amplitude, optimalBin, 3911);
      UtilityMeasures(corrPlus[..], boost[..], windows, zs, tables, a, b, phase + 0.01, amplitude + 0.01, optimalBin, 3911);
    }

    /** So with a balanced front end the step of `Stepped` takes a wrong phase and a wrong amplitude to at most 0.27 of
        themselves, unless the utilities are too close to tell and it leaves them as they are. */
    lemma StepsToBalance(zs: seq<Block>)
      requires Shape() && Accumulated() && NonNegative(boost[..]) && UnitModulus(tables.tw)
      requires AllReceived(windows, zs, tables, ONE, ZERO) && forall x <- tables.boost :: x >= 0.0
      requires -0.3 <= phase <= 0.3 && -0.3 <= amplitude <= 0.3
      ensures Closer(phase, UtilityHere().im, UtilityAhead().im) && Closer(amplitude, UtilityHere().re, UtilityAhead().re)
    {
      hide AllReceived, CorrHolds, BoostHolds, NonNegative, Kept, Image, Mul, UtilityHere, UtilityAhead, UnitModulus, Closer;
      var s := MeasuresImage(zs, ONE, ZERO);
      StepShrinks(s, phase, amplitude);
    }

    /** Lines 381-392. */
    method PassesGate() returns (ok: bool)
      modifies `maximumImagePower
      ensures ok == (Score() >= Threshold(old(maximumImagePower)))
      ensures maximumImagePower == if ok then Score() else old(maximumImagePower)
      ensures optimalBin == 2048 ==>
                (ok <==> integratedTotalPower >= old(maximumImagePower)) && (ok ==> maximumImagePower == integratedTotalPower)
      ensures optimalBin != 2048 ==>
                && (ok <==> integratedImagePower - integratedTotalPower * (0.8 / 95.0) >= old(maximumImagePower) / 2.0)
                && (ok ==> maximumImagePower == integratedImagePower - integratedTotalPower * (0.8 / 95.0))
    {
      ok := true;
      if optimalBin == FFT_BINS / 2 {
        if integratedTotalPower < maximumImagePower {
          return false;
        }
        maximumImagePower := integratedTotalPower;
      } else {
        if integratedImagePower - integratedTotalPower * BOOST_WINDOW_NORM < maximumImagePower * POWER_THRESHOLD {
          return false;
        }
        maximumImagePower := integratedImagePower - integratedTotalPower * BOOST_WINDOW_NORM;
      }
    }

    /** Lines 429-445: a raw estimate enters the ring and the mean of the ring becomes the correction in use. */
    method PushRaw(rawPhase: real, rawAmplitude: real)
      requires rawPhases.Length == rawAmplitudes.Length == MAX_LOOKBACK && rawPhases != rawAmplitudes
      requires Averaging()
      requires Near(rawPhase, phase, PHASE_STEP * MAX_MU) && Near(rawAmplitude, amplitude, AMPLITUDE_STEP * MAX_MU)
      modifies `phase, `amplitude, `noOfRaw, `rawPtr, `phaseHistory, `amplitudeHistory, rawPhases, rawAmplitudes
      ensures Averaging()
      ensures phaseHistory == old(phaseHistory) + [rawPhase] && amplitudeHistory == old(amplitudeHistory) + [rawAmplitude]
    {
      hide RingOf, Drifted, Near;
      RingPush(rawPhases[..], phaseHistory, rawPtr, noOfRaw, rawPhase);
      RingPush(rawAmplitudes[..], amplitudeHistory, rawPtr, noOfRaw, rawAmplitude);
      RingSize(rawPhases[..], phaseHistory, rawPtr, noOfRaw);
      RingSize(rawAmplitudes[..], amplitudeHistory, rawPtr, noOfRaw);
      DriftPush(phaseHistory, phase0, PHASE_STEP * MAX_MU, rawPhase);
      DriftPush(amplitudeHistory, amplitude0, AMPLITUDE_STEP * MAX_MU, rawAmplitude);
      ghost var p0, a0 := rawPhases[..], rawAmplitudes[..];
      phaseHistory, amplitudeHistory := phaseHistory + [rawPhase], amplitudeHistory + [rawAmplitude];
      if noOfRaw < MAX_LOOKBACK {
        noOfRaw := noOfRaw + 1;
      }
      rawAmplitudes[rawPtr] := rawAmplitude;
      rawPhases[rawPtr] := rawPhase;
      assert rawPhases[..] == p0[rawPtr := rawPhase] && rawAmplitudes[..] == a0[rawPtr := rawAmplitude];
      var p, a := SumRings(rawPhases, rawAmplitudes, rawPtr, noOfRaw, rawPhase, rawAmplitude, phaseHistory, amplitudeHistory);
      phase := p / (noOfRaw as real);
      amplitude := a / (noOfRaw as real);
      rawPtr := (rawPtr + 1) % MAX_LOOKBACK;
    }

    /** The estimate moved by one clamped secant step if the score reached the threshold, and else not at all. */
    twostate predicate Stepped(maximum: real)
      requires Shape() && NonNegative(boost[..])
      reads this, corr, corrPlus, boost
    {
      if Score() < Threshold(maximum) then
        maximumImagePower == maximum && unchanged(`phase, `amplitude, `phaseHistory, `amplitudeHistory)
      else
        && maximumImagePower == Score()
        && phaseHistory == old(phaseHistory) + [old(phase) + 0.01 * StepMu(UtilityHere().im, UtilityAhead().im)]
        && amplitudeHistory
           == old(amplitudeHistory) + [old(amplitude) + 0.01 * StepMu(UtilityHere().re, UtilityAhead().re)]
    }

    /** Lines 381-445: the clamped secant step from the two utilities. */
    method UpdateEstimate()
      requires Shape() && Averaging() && NonNegative(boost[..])
      modifies `maximumImagePower
      modifies `phase, `amplitude, `noOfRaw, `rawPtr, `phaseHistory, `amplitudeHistory, rawPhases, rawAmplitudes
      ensures Averaging()
      ensures Stepped(old(maximumImagePower))
    {
      hide Utility, NonNegative, ValidTables, RingOf, Drifted, Smoothed, StepMu, Score, Threshold;
      var ok := PassesGate();
      if !ok {
        return;
      }
      var a := ComputeUtility(corr, boost, tables, optimalBin);
      var b := ComputeUtility(corrPlus, boost, tables, optimalBin);
      SecantStep(a.im, b.im);
      SecantStep(a.re, b.re);
      PushRaw(phase + PHASE_STEP * StepMu(a.im, b.im), amplitude + AMPLITUDE_STEP * StepMu(a.re, b.re));
    }

    /** Lines 340-446. A changed correction always starts a new integration. */
    method EstimateImbalance(iq: array<Complex>)
      requires Shape() && Integrating() && Averaging() && iq != corr && iq != corrPlus
      modifies corr, corrPlus, boost, powerFlag, `noOfAvg, `resetFlag, `maximumImagePower
      modifies `integratedTotalPower, `integratedImagePower, `windows, `evaluated
      modifies `phase, `amplitude, `noOfRaw, `rawPtr, `phaseHistory, `amplitudeHistory, rawPhases, rawAmplitudes
      ensures Integrating() && Averaging() && !resetFlag && evaluated == old(evaluated) + [iq[..]]
      ensures var complete := !old(resetFlag) && old(noOfAvg) >= 0 && LoudWindows(iq) != []
                              && |windows| > correlationIntegration * fftIntegration;
              && windows == (if old(resetFlag) || old(noOfAvg) < 0 then old(windows)
                             else (if old(noOfAvg) == 0 then [] else old(windows)) + LoudWindows(iq))
              && noOfAvg == (if old(resetFlag) then -1
                             else if old(noOfAvg) < 0 then old(noOfAvg) + 1
                             else if complete then 0
                             else if LoudWindows(iq) == [] then old(noOfAvg) else |windows|)
              && (if complete then
                    NonNegative(boost[..]) && Stepped(old(maximumImagePower) * 0.98)
                  else
                    && unchanged(`phase, `amplitude, `phaseHistory, `amplitudeHistory)
                    && maximumImagePower == (if old(resetFlag) then 0.0
                                             else if old(noOfAvg) < 0 then old(maximumImagePower)
                                             else old(maximumImagePower) * 0.98))
    {
      hide Accumulated, ImageAccumulated, Averaging, ValidTables, NonNegative, LoudWindows;
      hide Score, Threshold, RingOf, UtilityHere, UtilityAhead;
      evaluated := evaluated + [iq[..]];
      var full := Integrate(iq);
      if !full {
        return;
      }
      BoostUsable();
      UpdateEstimate();
    }

    /** The accumulated boost can be divided by. */
    lemma BoostUsable()
      requires ValidTables(tables) && Accumulated()
      ensures NonNegative(boost[..])
    {
      BoostsNonNegative(boost[..], windows, tables, phase, amplitude);
    }

    /** Lines 480-486: copies as much of a DC-cancelled call as fits. */
    method CopyCall(iq: array<Complex>)
      requires workingBuffer.Length == WORKING_BUFFER_LENGTH && Assembling() && iq != workingBuffer
      modifies workingBuffer, `workingBufferPos, `stream
      ensures stream == old(stream) + iq[..]
      ensures workingBufferPos == if old(workingBufferPos) + iq.Length < WORKING_BUFFER_LENGTH
                                  then old(workingBufferPos) + iq.Length else WORKING_BUFFER_LENGTH
      ensures var start := old(|stream| - workingBufferPos);
              workingBuffer[..workingBufferPos] == stream[start..start + workingBufferPos]
    {
      ghost var start, held := |stream| - workingBufferPos, workingBuffer[..workingBufferPos];
      var count := WORKING_BUFFER_LENGTH - workingBufferPos;
      if count >= iq.Length {
        count := iq.Length;
      }
      forall i | 0 <= i < count {
        workingBuffer[workingBufferPos + i] := iq[i];
      }
      NewestOf(stream, held, iq[..], count);
      stream := stream + iq[..];
      workingBufferPos := workingBufferPos + count;
      assert workingBuffer[..workingBufferPos] == held + iq[..count];
    }

    /** What a call of `len` samples does to the assembly and, through it, to the estimator. */
    twostate predicate Advanced(len: nat)
      reads `workingBufferPos, `skippedBuffers, `evaluated, `phase, `amplitude, `phaseHistory, `stream, `buffersToSkip
    {
      if old(workingBufferPos) + len < WORKING_BUFFER_LENGTH then
        && workingBufferPos == old(workingBufferPos) + len
        && unchanged(`skippedBuffers, `evaluated, `phase, `amplitude, `phaseHistory)
      else
        && workingBufferPos == 0
        && skippedBuffers == NextSkipped(old(skippedBuffers), buffersToSkip)
        && evaluated == old(evaluated) + Handed(old(skippedBuffers), buffersToSkip, stream, old(|stream| - workingBufferPos))
    }

    /** Lines 487-495: a full working buffer starts over, and goes to the estimator if enough others have been skipped. */
    method HandOver()
      requires Shape() && Integrating() && Averaging()
      modifies `workingBufferPos, `skippedBuffers, `evaluated
      modifies corr, corrPlus, boost, powerFlag, `noOfAvg, `resetFlag, `maximumImagePower
      modifies `integratedTotalPower, `integratedImagePower, `windows
      modifies `phase, `amplitude, `noOfRaw, `rawPtr, `phaseHistory, `amplitudeHistory, rawPhases, rawAmplitudes
      ensures Integrating() && Averaging() && workingBufferPos == 0
      ensures skippedBuffers == NextSkipped(old(skippedBuffers), buffersToSkip)
      ensures evaluated == old(evaluated) + if old(skippedBuffers) + 1 > buffersToSkip then [workingBuffer[..]] else []
    {
      hide Integrating, Averaging, ValidTables;
      workingBufferPos := 0;
      skippedBuffers := skippedBuffers + 1;
      if skippedBuffers > buffersToSkip {
        skippedBuffers := 0;
        EstimateImbalance(workingBuffer);
      }
    }

    /** Lines 480-496: appends a DC-cancelled call to the working buffer and, when the buffer is full, hands every
        (buffersToSkip + 1)-th one to the estimator. What does not fit is dropped, so a block is always contiguous. */
    method TakeBlock(iq: array<Complex>)
      requires Shape() && Integrating() && Averaging() && Assembling()
      requires iq != corr && iq != corrPlus && iq != workingBuffer
      modifies workingBuffer, `workingBufferPos, `skippedBuffers, `stream, `evaluated
      modifies corr, corrPlus, boost, powerFlag, `noOfAvg, `resetFlag, `maximumImagePower
      modifies `integratedTotalPower, `integratedImagePower, `windows
      modifies `phase, `amplitude, `noOfRaw, `rawPtr, `phaseHistory, `amplitudeHistory, rawPhases, rawAmplitudes
      ensures Integrating() && Averaging() && Assembling()
      ensures stream == old(stream) + iq[..]
      ensures Advanced(iq.Length)
    {
      hide Integrating, Averaging, ValidTables;
      ghost var start := |stream| - workingBufferPos;
      CopyCall(iq);
      if workingBufferPos >= WORKING_BUFFER_LENGTH {
        assert workingBuffer[..] == workingBuffer[..workingBufferPos];
        HandOver();
      }
    }

    /** Lines 448-470. */
    method AdjustPhaseAmplitude(iq: array<Complex>)
      requires iq.Length != 1
      modifies iq, `lastPhase, `lastAmplitude
      ensures lastPhase == phase && lastAmplitude == amplitude
      ensures iq[..] == Ramped(old(iq[..]), old(lastPhase), phase, old(lastAmplitude), amplitude)
    {
      ApplyRamp(iq, lastPhase, phase, lastAmplitude, amplitude);
      lastPhase, lastAmplitude := phase, amplitude;
    }

    /** Line 476 with lines 197-224: the averages keep running through whatever is evaluated. */
    method RemoveDc(iq: array<Complex>, skipEval: bool)
      requires Cancelling()
      modifies iq, `iavg, `qavg, `inputs
      ensures skipEval ==> Cancelling() && unchanged(`inputs) && iq[..] == Shifted(old(iq[..]), old(Complex(iavg, qavg)))
      ensures !skipEval ==>
                && inputs == old(inputs) + old(iq[..]) && Complex(iavg, qavg) == Average(ZERO, inputs)
                && stream + iq[..] == Cancelled(ZERO, inputs)
    {
      hide Average, Cancelled, Shifted;
      ghost var x, avg0 := iq[..], Complex(iavg, qavg);
      var avg := CancelDc(iq, Complex(iavg, qavg), skipEval);
      iavg, qavg := avg.re, avg.im;
      if skipEval {
        ShiftedIs(iq[..], x, avg0);
      } else {
        AverageConcat(ZERO, inputs, x);
        CancelledConcat(ZERO, inputs, x);
        inputs := inputs + x;
      }
    }

    /** Lines 476-497: cancels DC and, unless told to skip it, feeds the estimator. */
    method CancelAndEvaluate(iq: array<Complex>, skipEval: bool)
      requires Valid() && iq != corr && iq != corrPlus && iq != workingBuffer
      modifies iq, workingBuffer, `workingBufferPos, `skippedBuffers, `stream, `evaluated, `inputs, `iavg, `qavg
      modifies corr, corrPlus, boost, powerFlag, `noOfAvg, `resetFlag, `maximumImagePower
      modifies `integratedTotalPower, `integratedImagePower, `windows
      modifies `phase, `amplitude, `noOfRaw, `rawPtr, `phaseHistory, `amplitudeHistory, rawPhases, rawAmplitudes
      ensures Valid()
      ensures skipEval ==>
                && unchanged(`inputs, `stream, `evaluated, `workingBufferPos, `skippedBuffers, `phase, `amplitude, `phaseHistory)
                && iq[..] == Shifted(old(iq[..]), old(Complex(iavg, qavg)))
      ensures !skipEval ==>
                inputs == old(inputs) + old(iq[..]) && stream == old(stream) + iq[..] && Advanced(iq.Length)
    {
      hide Integrating, Averaging, ValidTables, Average, Cancelled, Shifted, Handed, NextSkipped;
      RemoveDc(iq, skipEval);
      if !skipEval {
        TakeBlock(iq);
      }
    }

    /** Lines 472-500: one call. */
    method Process(iq: array<Complex>, skipEval: bool)
      requires Valid() && iq.Length != 1
      requires iq != corr && iq != corrPlus && iq != workingBuffer
      modifies iq, workingBuffer, `workingBufferPos, `skippedBuffers, `stream, `evaluated, `inputs, `iavg, `qavg
      modifies corr, corrPlus, boost, powerFlag, `noOfAvg, `resetFlag, `maximumImagePower
      modifies `integratedTotalPower, `integratedImagePower, `windows
      modifies `phase, `amplitude, `noOfRaw, `rawPtr, `phaseHistory, `amplitudeHistory, rawPhases, rawAmplitudes
      modifies `lastPhase, `lastAmplitude
      ensures Valid() && lastPhase == phase && lastAmplitude == amplitude
      ensures skipEval ==>
                && unchanged(`inputs, `stream, `evaluated, `workingBufferPos, `skippedBuffers, `phase, `amplitude, `phaseHistory)
                && iq[..] == Ramped(Shifted(old(iq[..]), old(Complex(iavg, qavg))),
                                    old(lastPhase), phase, old(lastAmplitude), amplitude)
      ensures !skipEval ==>
                && inputs == old(inputs) + old(iq[..]) && old(stream) <= stream && Advanced(iq.Length)
                && |stream| == old(|stream|) + iq.Length
                && iq[..] == Ramped(stream[old(|stream|)..], old(lastPhase), phase, old(lastAmplitude), amplitude)
    {
      hide *;
      ghost var s0 := stream;
      CancelAndEvaluate(iq, skipEval);
      if !skipEval {
        assert stream[|s0|..] == iq[..];
      }
      AdjustPhaseAmplitude(iq);
    }

    /** After k raw estimates the correction is within k clamped steps of the initial one. */
    lemma CorrectionBound()
      requires rawPhases.Length == rawAmplitudes.Length == MAX_LOOKBACK && Averaging()
      ensures var k := |phaseHistory| as real;
              phase0 - 0.5 * k <= phase <= phase0 + 0.5 * k && amplitude0 - 0.5 * k <= amplitude <= amplitude0 + 0.5 * k
    {
      SmoothedNear(phaseHistory, phase0, PHASE_STEP * MAX_MU);
      SmoothedNear(amplitudeHistory, amplitude0, AMPLITUDE_STEP * MAX_MU);
    }

    /** Every call so far had `len` samples and every (toSkip + 1)-th block was evaluated: the blocks are cut from the
        stream without gaps. */
    ghost predicate InStep(len: nat, toSkip: nat)
      reads `stream, `workingBufferPos, `skippedBuffers, `evaluated, `buffersToSkip
    {
      buffersToSkip == toSkip && OnSchedule(stream, workingBufferPos, skippedBuffers, evaluated, len, toSkip)
    }

    /** For any call length dividing the working buffer, one more call keeps the schedule. */
    twostate lemma StaysInStep(len: nat, toSkip: nat)
      requires len > 0 && WORKING_BUFFER_LENGTH % len == 0
      requires old(InStep(len, toSkip)) && unchanged(`buffersToSkip)
      requires old(stream) <= stream && |stream| == old(|stream|) + len && Advanced(len)
      ensures InStep(len, toSkip)
    {
      ScheduleNext(old(stream), old(workingBufferPos), old(skippedBuffers), old(evaluated),
                   stream, workingBufferPos, skippedBuffers, evaluated, len, toSkip);
    }

    lemma StreamIsCancelled()
      requires Valid()
      ensures stream == Cancelled(ZERO, inputs)
    {
      hide Shape, Integrating, Averaging, Assembling;
    }

    /** One call with a buffer of its own. */
    method ProcessCall(call: seq<Complex>, ghost toSkip: nat)
      requires Valid() && InStep(|call|, toSkip) && |call| != 1 && WORKING_BUFFER_LENGTH % |call| == 0
      modifies this, workingBuffer, corr, corrPlus, boost, powerFlag, rawPhases, rawAmplitudes
      ensures Valid() && InStep(|call|, toSkip) && inputs == old(inputs) + call && powerFlag == old(powerFlag)
    {
      hide Valid, Scheduled, NextSkipped, Handed;
      ghost var s, pos, skipped, done := stream, workingBufferPos, skippedBuffers, evaluated;
      var iq := NewBuffer(call);
      Process(iq, false);
      ScheduleNext(s, pos, skipped, done, stream, workingBufferPos, skippedBuffers, evaluated, |call|, toSkip);
    }

    /** A whole run of calls of one length. */
    method ProcessAll(calls: seq<seq<Complex>>, len: nat, ghost toSkip: nat)
      requires Valid() && InStep(len, toSkip) && len != 1 && WORKING_BUFFER_LENGTH % len == 0
      requires forall c <- calls :: |c| == len
      modifies this, workingBuffer, corr, corrPlus, boost, powerFlag, rawPhases, rawAmplitudes
      ensures Valid() && InStep(len, toSkip) && inputs == old(inputs) + Joined(calls)
    {
      hide Valid, InStep;
      var i := 0;
      while i < |calls|
        invariant 0 <= i <= |calls|
        invariant Valid() && InStep(len, toSkip) && inputs == old(inputs) + Joined(calls[..i]) && powerFlag == old(powerFlag)
      {
        assert calls[i] in calls;
        JoinedNext(calls, i);
        ProcessCall(calls[i], toSkip);
        i := i + 1;
      }
      assert calls[..i] == calls;
    }
  }

  /** All the samples of some calls, in order. */
  ghost function Joined(calls: seq<seq<Complex>>): seq<Complex> {
    if calls == [] then [] else Joined(calls[..|calls| - 1]) + calls[|calls| - 1]
  }

  lemma JoinedNext(calls: seq<seq<Complex>>, i: nat)
    requires i < |calls|
    ensures Joined(calls[..i + 1]) == Joined(calls[..i]) + calls[i]
  {
    assert calls[..i + 1][..i] == calls[..i];
  }

  /** From creation on: configured once and then called with blocks of one length, the balancer has cancelled DC on the
      whole input, cut the result into gap-free working buffers, and handed exactly every (toSkip + 1)-th of them to the
      estimator. */
  method FromCreation(t: Tables, phase: real, amplitude: real, toSkip: nat, integration: nat, overlap: int, correlation: int,
                      calls: seq<seq<Complex>>, len: nat)
    returns (b: IqBalancer)
    requires ValidTables(t) && overlap >= 1
    requires len > 1 && WORKING_BUFFER_LENGTH % len == 0 && forall c <- calls :: |c| == len
    ensures b.Valid() && b.inputs == Joined(calls) && b.stream == Cancelled(ZERO, Joined(calls))
    ensures var blocks := |b.stream| / WORKING_BUFFER_LENGTH;
            && b.workingBufferPos == |b.stream| % WORKING_BUFFER_LENGTH
            && blocks * WORKING_BUFFER_LENGTH <= |b.stream| && b.evaluated == Scheduled(b.stream, blocks, toSkip)
    ensures |b.evaluated| == |b.stream| / 12288 / (toSkip + 1)
    ensures forall k: nat :: k < |b.evaluated| ==> IsBlock(b.evaluated[k], b.stream, (k + 1) * (toSkip + 1) - 1)
  {
    hide IqBalancer.Valid;
    b := new IqBalancer(t, phase, amplitude);
    b.Configure(toSkip, integration, overlap, correlation);
    b.ProcessAll(calls, len, toSkip);
    assert [] + Joined(calls) == Joined(calls);
    b.StreamIsCancelled();
    DivMod(|b.stream|, WORKING_BUFFER_LENGTH);
    ScheduledBlocks(b.stream, |b.stream| / WORKING_BUFFER_LENGTH, toSkip);
  }

  /** The n-th stretch of 12288 samples, from 0. */
  ghost predicate IsBlock(block: seq<Complex>, s: seq<Complex>, n: int) {
    0 <= n * 12288 && n * 12288 + 12288 <= |s| && block == s[n * 12288..n * 12288 + 12288]
  }

  /** The k-th evaluated block is the last one of the k-th group of toSkip + 1. */
  lemma {:induction false} ScheduledBlocks(s: seq<Complex>, b: nat, toSkip: nat)
    requires b * WORKING_BUFFER_LENGTH <= |s|
    ensures |Scheduled(s, b, toSkip)| == b / (toSkip + 1)
    ensures forall k: nat :: k < |Scheduled(s, b, toSkip)| ==>
              IsBlock(Scheduled(s, b, toSkip)[k], s, (k + 1) * (toSkip + 1) - 1)
  {
    hide IsBlock;
    if b == 0 {
      DivModUnique(0, toSkip + 1, 0, 0);
    } else {
      ScheduledBlocks(s, b - 1, toSkip);
      NextQuotient(b - 1, toSkip + 1);
      if b % (toSkip + 1) == 0 {
        BlockIs(s, b - 1);
        DivMod(b, toSkip + 1);
      }
    }
  }

  lemma NextQuotient(n: nat, m: nat)
    requires m > 0
    ensures (n + 1) / m == n / m + (if (n + 1) % m == 0 then 1 else 0)
  {
    DivMod(n, m);
    var q, r := n / m, n % m;
    if r + 1 == m {
      assert (q + 1) * m == q * m + m;
      DivModUnique(n + 1, m, q + 1, 0);
    } else {
      DivModUnique(n + 1, m, q, r + 1);
    }
  }

  lemma BlockIs(s: seq<Complex>, n: nat)
    requires (n + 1) * WORKING_BUFFER_LENGTH <= |s|
    ensures IsBlock(s[n * WORKING_BUFFER_LENGTH..(n + 1) * WORKING_BUFFER_LENGTH], s, n)
  {
  }

  /** Position, skip counter and evaluated blocks are those of the stream length. */
  ghost predicate OnSchedule(s: seq<Complex>, pos: int, skipped: int, evaluated: seq<seq<Complex>>, len: nat, toSkip: nat) {
    && len > 0 && |s| % len == 0
    && pos == |s| % WORKING_BUFFER_LENGTH
    && skipped == (|s| / WORKING_BUFFER_LENGTH) % (toSkip + 1)
    && (DivMod(|s|, WORKING_BUFFER_LENGTH); evaluated == Scheduled(s, |s| / WORKING_BUFFER_LENGTH, toSkip))
  }

  /** One call further. */
  lemma ScheduleNext(s: seq<Complex>, pos: int, skipped: int, evaluated: seq<seq<Complex>>,
                     s': seq<Complex>, pos': int, skipped': int, evaluated': seq<seq<Complex>>, len: nat, toSkip: nat)
    requires WORKING_BUFFER_LENGTH % (if len > 0 then len else 1) == 0 && OnSchedule(s, pos, skipped, evaluated, len, toSkip)
    requires s <= s' && |s'| == |s| + len
    requires if pos + len < WORKING_BUFFER_LENGTH then pos' == pos + len && skipped' == skipped && evaluated' == evaluated
             else pos' == 0 && skipped' == NextSkipped(skipped, toSkip)
                  && evaluated' == evaluated + Handed(skipped, toSkip, s', |s| - pos)
    ensures OnSchedule(s', pos', skipped', evaluated', len, toSkip)
  {
    var n, b := |s|, |s| / WORKING_BUFFER_LENGTH;
    CallFits(n, len, WORKING_BUFFER_LENGTH);
    NextTurn(b, toSkip);
    SchedulePrefix(s, s', b, toSkip);
  }

  /** The blocks among the first b of the stream that are evaluated. */
  ghost function Scheduled(stream: seq<Complex>, b: nat, toSkip: nat): seq<seq<Complex>>
    requires b * WORKING_BUFFER_LENGTH <= |stream|
  {
    if b == 0 then []
    else Scheduled(stream, b - 1, toSkip)
         + if b % (toSkip + 1) == 0 then [stream[(b - 1) * WORKING_BUFFER_LENGTH..b * WORKING_BUFFER_LENGTH]] else []
  }

  lemma {:induction false} SchedulePrefix(s: seq<Complex>, s': seq<Complex>, b: nat, toSkip: nat)
    requires b * WORKING_BUFFER_LENGTH <= |s| && s <= s'
    ensures Scheduled(s, b, toSkip) == Scheduled(s', b, toSkip)
  {
    if b > 0 {
      SchedulePrefix(s, s', b - 1, toSkip);
      assert s[(b - 1) * WORKING_BUFFER_LENGTH..b * WORKING_BUFFER_LENGTH]
          == s'[(b - 1) * WORKING_BUFFER_LENGTH..b * WORKING_BUFFER_LENGTH];
    }
  }

  lemma NewestOf(s: seq<Complex>, held: seq<Complex>, x: seq<Complex>, n: nat)
    requires |held| <= |s| && s[|s| - |held|..] == held && n <= |x|
    ensures (s + x)[|s| - |held|..|s| + n] == held + x[..n]
  {
    assert s == s[..|s| - |held|] + held;
  }

  /** A call whose length divides the buffer never straddles two blocks. */
  lemma CallFits(n: nat, len: nat, w: nat)
    requires len > 0 && w > 0 && n % len == 0 && w % len == 0
    ensures n % w + len <= w && (n + len) % len == 0
    ensures n % w + len < w ==> (n + len) % w == n % w + len && (n + len) / w == n / w
    ensures n % w + len == w ==> (n + len) % w == 0 && (n + len) / w == n / w + 1
  {
    DivMod(n, w);
    DivMod(n, len);
    DivMod(w, len);
    AddPeriod(n, len);
    var q := n / len - (n / w) * (w / len);
    assert (n / w) * w == ((n / w) * (w / len)) * len by {
      assert w == (w / len) * len;
      MulTriple(n / w, w / len, len);
    }
    assert n % w == q * len by {
      assert q * len == (n / len) * len - ((n / w) * (w / len)) * len;
    }
    if q >= w / len {
      MulMono(w / len, q, len);
    }
    MulMono(q + 1, w / len, len);
    assert (q + 1) * len == q * len + len;
    if n % w + len < w {
      DivModUnique(n + len, w, n / w, n % w + len);
    } else {
      assert (n / w + 1) * w == (n / w) * w + w;
      DivModUnique(n + len, w, n / w + 1, 0);
    }
  }

  lemma MulTriple(a: int, b: int, c: int)
    ensures a * (b * c) == (a * b) * c
  {
  }

  /** The skip counter is the block number modulo toSkip + 1. */
  lemma NextTurn(b: nat, toSkip: nat)
    ensures NextSkipped(b % (toSkip + 1), toSkip) == (b + 1) % (toSkip + 1)
    ensures b % (toSkip + 1) + 1 > toSkip <==> (b + 1) % (toSkip + 1) == 0
  {
    var m := toSkip + 1;
    DivMod(b, m);
    if b % m + 1 > toSkip {
      assert (b / m + 1) * m == (b / m) * m + m;
      DivModUnique(b + 1, m, b / m + 1, 0);
    } else {
      DivModUnique(b + 1, m, b / m, b % m + 1);
    }
  }

  /** A block with a constant offset removed. */
  function Shifted(x: seq<Complex>, offset: Complex): (s: seq<Complex>)
    ensures |s| == |x|
  {
    seq(|x|, i requires 0 <= i < |x| => Sub(x[i], offset))
  }

  lemma ShiftedIs(s: seq<Complex>, x: seq<Complex>, offset: Complex)
    requires |s| == |x| && forall p: nat :: p < |x| ==> s[p] == Sub(x[p], offset)
    ensures s == Shifted(x, offset)
  {
  }

  /** The working buffer handed over when a block completes, if this one is evaluated. */
  ghost function Handed(skipped: int, toSkip: int, stream: seq<Complex>, start: int): seq<seq<Complex>> {
    if skipped + 1 > toSkip then [CompletedBlock(stream, start)] else []
  }

  function NextSkipped(skipped: int, toSkip: int): int {
    if skipped + 1 > toSkip then 0 else skipped + 1
  }

  ghost function CompletedBlock(stream: seq<Complex>, start: int): seq<Complex> {
    if 0 <= start && start + WORKING_BUFFER_LENGTH <= |stream| then stream[start..start + WORKING_BUFFER_LENGTH] else []
  }
}
