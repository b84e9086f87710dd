/** The tuning and conversion half of the device object of libairspyhf/src/airspyhf.c: the fields changed by the control
    calls (lines 1194-1420, 1519-1523, 1579-1596) and by the conversion of one block (lines 316-361). Results of control
    transfers are parameters. */
module Receivers {
  import opened ComplexNumbers
  import opened Tuning
  import opened Words
  import opened Balancer
  import opened BalancerSteps
  import opened Trigonometry
  import opened FineTuning
  import Phasor

  /** One raw sample as it arrives: two 16-bit integers. */
  datatype Sample = Sample(im: int, re: int)

  /** The C library functions the code calls, and the filter gain that goes with the byte the device reports. */
  datatype Maths = Maths(trig: Trig, filterGain: int -> real)

  const SAMPLE_SCALE := 1.0 / 32768.0

  function ToComplex(x: Sample, gain: real): Complex {
    Complex(x.re as real * gain, x.im as real * gain)
  }

  function Scaled(src: seq<Sample>, gain: real): (s: seq<Complex>)
    ensures |s| == |src|
    ensures forall i: nat :: i < |s| ==> s[i].re == src[i].re as real * gain && s[i].im == src[i].im as real * gain
  {
    seq(|src|, i requires 0 <= i < |src| => ToComplex(src[i], gain))
  }

  /** Raw 16-bit samples never leave the square of half-width `filterGain`, the bound the DC canceller keeps. */
  lemma ScaledWithin(src: seq<Sample>, filterGain: real, gain: real)
    requires filterGain >= 0.0 && gain == SAMPLE_SCALE * filterGain
    requires forall s <- src :: -32768 <= s.re <= 32767 && -32768 <= s.im <= 32767
    ensures forall i: nat :: i < |src| ==>
              && Within(Scaled(src, gain)[i], filterGain)
              && 32768.0 * Scaled(src, gain)[i].re == src[i].re as real * filterGain
              && 32768.0 * Scaled(src, gain)[i].im == src[i].im as real * filterGain
  {
    hide Scaled;
    forall i: nat | i < |src|
      ensures Within(Scaled(src, gain)[i], filterGain)
      ensures 32768.0 * Scaled(src, gain)[i].re == src[i].re as real * filterGain
      ensures 32768.0 * Scaled(src, gain)[i].im == src[i].im as real * filterGain
    {
      assert src[i] in src;
      ComponentWithin(src[i].re, filterGain, gain);
      ComponentWithin(src[i].im, filterGain, gain);
    }
  }

  lemma ComponentWithin(v: int, filterGain: real, gain: real)
    requires filterGain >= 0.0 && -32768 <= v <= 32767 && gain == SAMPLE_SCALE * filterGain
    ensures -filterGain <= v as real * gain <= filterGain
    ensures 32768.0 * (v as real * gain) == v as real * filterGain
  {
    var f := v as real / 32768.0;
    assert v as real * gain == f * filterGain by {
      assert gain == filterGain / 32768.0;
    }
    Products(f, filterGain);
  }

  lemma Products(f: real, g: real)
    requires g >= 0.0 && -1.0 <= f <= 1.0
    ensures -g <= f * g <= g
  {
  }

  class Receiver {
    const balancer: IqBalancer
    const maths: Maths
    const samplerates: seq<int>
    const lowIfRates: seq<bool>

    var currentSamplerate: int
    var isLowIf: bool
    var enableDsp: bool
    var freqHz: real
    var freqKhz: int
    var freqDeltaHz: real
    var freqShift: real
    var calibrationPpb: int
    var optimalPoint: real
    var filterGain: real
    var vec: Complex

    ghost var sent: seq<Transfer> // every SET_FREQ transfer, oldest first
    ghost var turns: seq<Complex> // every rotation of the phasor since streaming started

    ghost predicate Rates() {
      |samplerates| == |lowIfRates| > 0 && (forall r <- samplerates :: 0 < r < U32) && OnUnitCircle(maths.trig)
    }

    /** As far as the library knows, a zero-IF rate is never used with an LO below its floor. */
    ghost predicate FloorKept()
      reads `isLowIf, `freqKhz
    {
      !isLowIf ==> freqKhz >= 180
    }

    /** As far as the library knows, LO, residual shift and reported offset add up to the calibrated request: ppb parts in
        10^9 above the frequency asked for. */
    ghost predicate OnFrequency()
      reads `freqHz, `calibrationPpb, `freqKhz, `freqDeltaHz, `freqShift
    {
      Tunes(1000.0 * freqKhz as real - freqDeltaHz + freqShift, freqHz, calibrationPpb)
    }

    /** The library's idea of the LO is the device's. */
    ghost predicate InSync()
      requires WellSent(sent)
      reads `freqKhz, `sent
    {
      freqKhz == Taken(sent)
    }

    /** The two properties of the device itself. */
    ghost predicate DeviceFloorKept()
      requires WellSent(sent)
      reads `isLowIf, `sent
    {
      !isLowIf ==> Taken(sent) >= 180
    }

    ghost predicate DeviceOnFrequency()
      requires WellSent(sent)
      reads `freqHz, `calibrationPpb, `sent, `freqDeltaHz, `freqShift
    {
      Tunes(1000.0 * Taken(sent) as real - freqDeltaHz + freqShift, freqHz, calibrationPpb)
    }

    /** The shift left to the mixer is as small as the LO's grid and floor allow. */
    ghost predicate Residual()
      reads `freqHz, `calibrationPpb, `freqDeltaHz, `freqShift, `enableDsp, `isLowIf
    {
      SmallResidual(freqHz, calibrationPpb, enableDsp, isLowIf, freqDeltaHz, freqShift)
    }

    /** The LO the current settings call for. */
    function Wanted(freq: real): int
      reads `calibrationPpb, `enableDsp, `isLowIf
    {
      TargetKhz(freq, calibrationPpb, enableDsp, isLowIf)
    }

    /** The transfer for an LO, if one is sent. */
    ghost function Request(needed: bool, khz: int, result: int): seq<Transfer> {
      if needed then [Transfer(Encode(khz), result)] else []
    }

    /** What holds after every call, however its transfers ended. */
    ghost predicate Ready()
      reads `freqHz, `calibrationPpb, `sent, `freqKhz, `isLowIf, `currentSamplerate
    {
      && Rates() && currentSamplerate > 0
      && Representable(freqHz, calibrationPpb)
      && WellSent(sent) && NeverRepeats(sent)
      && 0 <= freqKhz < U32 && freqKhz == Believed(sent)
      && (sent != [] && NoneShort(sent) ==> FloorKept())
    }

    ghost predicate Mixing()
      reads `vec, `turns
    {
      Phasor.Tuned(vec, turns) && Phasor.Unit(turns)
    }

    /** Lines 989-1098, with the firmware's answers as parameters. */
    constructor (b: IqBalancer, m: Maths, rates: seq<int>, lowIf: seq<bool>, ppb: int)
      requires |rates| == |lowIf| > 0 && (forall r <- rates :: 0 < r < U32) && OnUnitCircle(m.trig)
      ensures Ready() && Mixing() && balancer == b && maths == m && samplerates == rates && lowIfRates == lowIf
      ensures sent == [] && turns == [] && freqHz == freqDeltaHz == freqShift == 0.0 && freqKhz == 0
      ensures calibrationPpb == ppb && currentSamplerate == rates[0] && isLowIf == lowIf[0] && enableDsp
    {
      balancer, maths, samplerates, lowIfRates := b, m, rates, lowIf;
      currentSamplerate, isLowIf, enableDsp := rates[0], lowIf[0], true;
      freqHz, freqKhz, freqDeltaHz, freqShift := 0.0, 0, 0.0, 0.0;
      calibrationPpb, optimalPoint, filterGain := ppb, 0.0, 1.0;
      vec := ONE;
      sent, turns := [], [];
      new;
      assert rates[0] in rates;
      assert Calibrated(0.0, ppb) == 0.0;
      assert vec == Scale(1.0, ONE);
    }

    /** Lines 1224-1245 and 1376-1396: one SET_FREQ transfer; the remembered LO changes unless it was short. */
    method SendLo(khz: int, result: int) returns (ok: bool)
      requires 0 <= khz < U32 && khz != freqKhz && LibusbResult(result)
      requires WellSent(sent) && NeverRepeats(sent) && freqKhz == Believed(sent)
      modifies `freqKhz, `sent
      ensures ok == !Short(result)
      ensures sent == old(sent) + [Transfer(Encode(khz), result)]
      ensures WellSent(sent) && NeverRepeats(sent) && freqKhz == Believed(sent)
      ensures freqKhz == if ok then khz else old(freqKhz)
      ensures Taken(sent) == if result == 4 then khz else old(Taken(sent))
      ensures NoneShort(sent) <==> old(NoneShort(sent)) && ok
      ensures ok <==> result < 0 || result == 4
      ensures var b := sent[|sent| - 1].bytes;
              && (forall i: nat :: i < 4 ==> 0 <= b[i] <= 255)
              && khz == b[0] * 16_777_216 + b[1] * 65_536 + b[2] * 256 + b[3]
    {
      var buf := Encode(khz);
      DecodeEncode(khz);
      Extend(sent, Transfer(buf, result));
      sent := sent + [Transfer(buf, result)];
      ok := !Short(result);
      if ok {
        freqKhz := khz;
      }
    }

    /** Lines 1366-1420. */
    method SetFreqDouble(freq: real, setResult: int, delta: Reply) returns (ok: bool)
      requires Ready() && balancer.Valid() && Representable(freq, calibrationPpb)
      requires LibusbResult(setResult) && (delta.result == 4 ==> DeltaBytes(delta.bytes))
      modifies `freqKhz, `sent, `freqDeltaHz, `freqHz, `freqShift, balancer`optimalBin, balancer`resetFlag
      ensures Ready() && balancer.Valid()
      ensures var khz := Wanted(freq);
              var sends := old(freqKhz) != khz;
              && (ok <==> !sends || !Short(setResult))
              && sent == old(sent) + Request(sends, khz, setResult)
              && (ok ==> freqKhz == khz && freqHz == freq && FloorKept() && OnFrequency() && Residual())
              && Taken(sent) == (if sends && setResult == 4 then khz else old(Taken(sent)))
              && (old(InSync()) ==> (InSync() <==> !sends || setResult >= 0))
              && (old(InSync()) ==> (ok && DeviceOnFrequency() <==> !sends || setResult == 4))
              && (old(InSync()) ==> (DeviceFloorKept() <==> !sends || setResult == 4 || old(DeviceFloorKept())))
      ensures ok && freqKhz != old(freqKhz) ==>
                balancer.resetFlag && (delta.result == 4 ==> freqDeltaHz == DecodeDelta(delta.bytes))
      ensures delta.result != 4 ==> unchanged(`freqDeltaHz)
      ensures !ok ==> unchanged(`freqKhz, `freqDeltaHz, `freqHz, `freqShift) && unchanged(balancer`resetFlag, balancer`optimalBin)
      ensures freqKhz == old(freqKhz) ==> unchanged(`freqDeltaHz) && unchanged(balancer`resetFlag, balancer`optimalBin)
    {
      hide Believed, Taken, NeverRepeats, Encode, DecodeDelta, Calibrated, IfShift, TargetKhz, IqBalancer.Valid;
      hide OnUnitCircle, NoneShort, SmallResidual, Tunes;
      var adjusted := Calibrated(freq, calibrationPpb);
      var khz := TargetKhz(freq, calibrationPpb, enableDsp, isLowIf);
      if freqKhz != khz {
        var acked := SendLo(khz, setResult);
        if !acked {
          return false;
        }
        if delta.result == 4 {
          freqDeltaHz := DecodeDelta(delta.bytes);
        }
        balancer.SetOptimalPoint(optimalPoint);
      }
      freqHz := freq;
      freqShift := adjusted - khz as real * 1000.0 + freqDeltaHz;
      ShiftSettles(freq, calibrationPpb, enableDsp, isLowIf, freqDeltaHz, freqShift, khz);
      ShiftSettles(freq, calibrationPpb, enableDsp, isLowIf, freqDeltaHz, freqShift, Taken(sent));
      ok := true;
    }

    /** Lines 1519-1523: on failure the new calibration stays but the tuning is the old one. */
    method SetCalibration(ppb: int, setResult: int, delta: Reply) returns (ok: bool)
      requires Ready() && balancer.Valid() && Representable(freqHz, ppb)
      requires LibusbResult(setResult) && (delta.result == 4 ==> DeltaBytes(delta.bytes))
      modifies `calibrationPpb
      modifies `freqKhz, `sent, `freqDeltaHz, `freqHz, `freqShift, balancer`optimalBin, balancer`resetFlag
      ensures Ready() && balancer.Valid() && calibrationPpb == ppb && freqHz == old(freqHz)
      ensures var khz := Wanted(freqHz);
              var sends := old(freqKhz) != khz;
              && (ok <==> !sends || !Short(setResult))
              && sent == old(sent) + Request(sends, khz, setResult)
              && (ok ==> freqKhz == khz && FloorKept() && OnFrequency() && Residual())
              && (old(InSync()) ==> (InSync() <==> !sends || setResult >= 0))
              && (old(InSync() && DeviceOnFrequency()) ==>
                  (DeviceOnFrequency() <==>
                   !sends || setResult == 4 || (Short(setResult) && (freqHz == 0.0 || ppb == old(calibrationPpb)))))
              && (old(InSync()) ==> (DeviceFloorKept() <==> !sends || setResult == 4 || old(DeviceFloorKept())))
      ensures ok && freqKhz != old(freqKhz) ==>
                balancer.resetFlag && (delta.result == 4 ==> freqDeltaHz == DecodeDelta(delta.bytes))
      ensures !ok && old(OnFrequency()) ==> (OnFrequency() <==> freqHz == 0.0 || ppb == old(calibrationPpb))
    {
      hide Believed, Taken, NeverRepeats, Encode, DecodeDelta, IfShift, TargetKhz, IqBalancer.Valid, Calibrated;
      hide OnUnitCircle, NoneShort;
      CalibratedInjective(freqHz, calibrationPpb, ppb);
      calibrationPpb := ppb;
      ok := SetFreqDouble(freqHz, setResult, delta);
    }

    /** Lines 1199-1215: the index of a rate, or the argument itself when it is already an index. */
    method FindRate(samplerate: int) returns (index: int)
      requires Rates() && samplerate >= 0
      ensures samplerate <= 100 || samplerate !in samplerates ==> index == samplerate
      ensures samplerate > 100 && samplerate in samplerates ==>
                && 0 <= index < |samplerates| && samplerates[index] == samplerate
                && samplerate !in samplerates[..index]
    {
      index := samplerate;
      if samplerate > MAX_SAMPLERATE_INDEX {
        for i := 0 to |samplerates|
          invariant index == samplerate && samplerate !in samplerates[..i]
        {
          if samplerate == samplerates[i] {
            index := i;
            break;
          }
        }
      }
    }

    /** Lines 1217-1246: the rate takes effect, and an LO too low for zero IF is raised first. */
    method SelectRate(i: int, floorResult: int) returns (acked: bool)
      requires Ready() && 0 <= i < |samplerates| && LibusbResult(floorResult)
      modifies `currentSamplerate, `isLowIf, `freqKhz, `sent
      ensures Ready() && currentSamplerate == samplerates[i] && isLowIf == lowIfRates[i]
      ensures var raise := !isLowIf && old(freqKhz) < 180;
              && acked == (raise ==> !Short(floorResult))
              && freqKhz == (if raise && acked then 180 else old(freqKhz))
              && sent == old(sent) + Request(raise, 180, floorResult)
              && Taken(sent) == (if raise && floorResult == 4 then 180 else old(Taken(sent)))
    {
      hide Believed, Taken, NeverRepeats, Encode, OnUnitCircle, NoneShort, Representable;
      assert samplerates[i] in samplerates;
      currentSamplerate, isLowIf := samplerates[i], lowIfRates[i];
      acked := true;
      if !isLowIf && freqKhz < MIN_ZERO_IF_LO {
        acked := SendLo(MIN_ZERO_IF_LO, floorResult);
      }
    }

    /** What the library believes after the final retune of set_samplerate, whose result is ignored. */
    twostate predicate Retuned(ok: bool, before: int, khz: int, setResult: int)
      reads `freqKhz, `freqHz, `calibrationPpb, `freqDeltaHz, `freqShift, `enableDsp, `isLowIf
    {
      if ok && (before == khz || !Short(setResult)) then
        freqKhz == khz && OnFrequency() && Residual()
      else
        && freqKhz == before && unchanged(`freqShift, `freqDeltaHz)
        && (old(OnFrequency()) ==> (OnFrequency() <==> freqKhz == old(freqKhz)))
    }

    /** Where the device is then, if the library's idea of it was right: the LO is at or above the floor exactly if no raise
        was needed, or the raise or a later retune got through; and it is on frequency exactly if the last change asked
        for got through or nothing was changed at all. */
    twostate predicate Reached(raise: bool, floorResult: int, ok: bool, before: int, khz: int, setResult: int)
      requires WellSent(sent)
      reads `freqKhz, `freqHz, `calibrationPpb, `freqDeltaHz, `freqShift, `isLowIf, `sent
    {
      var sends := ok && before != khz;
      var lost := raise && floorResult < 0;
      && (InSync() <==> if sends then setResult == 4 || (Short(setResult) && !lost) else !lost)
      && (DeviceFloorKept() <==> !raise || floorResult == 4 || (sends && setResult == 4))
      && (old(WellSent(sent) && DeviceOnFrequency()) ==>
          (DeviceOnFrequency() <==>
           if ok && !sends then !lost
           else (sends && setResult == 4) || ((sends ==> Short(setResult)) && !(raise && floorResult == 4))))
    }

    /** What choosing rate `index` does: `raise` says whether the LO is raised to the floor first. */
    twostate predicate RateUsed(index: int, floorResult: int, rateResult: int, setResult: int, ok: bool)
      requires |samplerates| == |lowIfRates| && 0 <= index < |samplerates| && old(WellSent(sent)) && WellSent(sent)
      reads `currentSamplerate, `isLowIf, `freqKhz, `freqHz, `calibrationPpb, `freqDeltaHz, `freqShift, `enableDsp, `sent
    {
      && currentSamplerate == samplerates[index] && isLowIf == lowIfRates[index]
      && var raise := !isLowIf && old(freqKhz) < 180;
         var before := if raise && !Short(floorResult) then 180 else old(freqKhz);
         var khz := Wanted(freqHz);
         var sends := ok && before != khz;
         && (ok <==> (raise ==> !Short(floorResult)) && rateResult == 0)
         && sent == old(sent) + Request(raise, 180, floorResult) + Request(sends, khz, setResult)
         && Retuned(ok, before, khz, setResult)
         && (FloorKept() <==> !(raise && Short(floorResult)))
         && (old(InSync()) ==> Reached(raise, floorResult, ok, before, khz, setResult))
    }

    /** Lines 1217-1285. The result of the final retune is ignored, so success says the rate is set, not that the
        receiver is on frequency. */
    method UseRate(i: int, floorResult: int, rateResult: int, gain: Reply, setResult: int, delta: Reply) returns (ok: bool)
      requires Ready() && balancer.Valid() && 0 <= i < |samplerates|
      requires LibusbResult(floorResult) && LibusbResult(setResult)
      requires (gain.result == 1 ==> gain.bytes != []) && (delta.result == 4 ==> DeltaBytes(delta.bytes))
      modifies `currentSamplerate, `isLowIf, `filterGain
      modifies `freqKhz, `sent, `freqDeltaHz, `freqHz, `freqShift, balancer`optimalBin, balancer`resetFlag
      ensures Ready() && balancer.Valid() && freqHz == old(freqHz)
      ensures RateUsed(i, floorResult, rateResult, setResult, ok)
      ensures ok ==> filterGain == if gain.result == 1 then maths.filterGain(gain.bytes[0]) else 1.0
    {
      hide Believed, Taken, NeverRepeats, Encode, DecodeDelta, Calibrated, IfShift, TargetKhz, IqBalancer.Valid;
      hide OnUnitCircle, NoneShort, WellSent, Representable, DeltaBytes, SmallResidual, BestLo;
      var acked := SelectRate(i, floorResult);
      if !acked {
        return false;
      }
      if rateResult != 0 {
        return false;
      }
      filterGain := if gain.result == 1 then maths.filterGain(gain.bytes[0]) else 1.0;
      var retuned := SetFreqDouble(freqHz, setResult, delta);
      ok := true;
    }

    /** Lines 1194-1285: the rate that the argument names or indexes is used, if there is one. */
    method SetSamplerate(samplerate: int, floorResult: int, rateResult: int, gain: Reply, setResult: int, delta: Reply)
      returns (ok: bool, ghost index: int)
      requires Ready() && balancer.Valid() && samplerate >= 0
      requires LibusbResult(floorResult) && LibusbResult(setResult)
      requires (gain.result == 1 ==> gain.bytes != []) && (delta.result == 4 ==> DeltaBytes(delta.bytes))
      modifies `currentSamplerate, `isLowIf, `filterGain
      modifies `freqKhz, `sent, `freqDeltaHz, `freqHz, `freqShift, balancer`optimalBin, balancer`resetFlag
      ensures Ready() && balancer.Valid() && freqHz == old(freqHz)
      ensures samplerate <= 100 || samplerate !in samplerates ==> index == samplerate
      ensures samplerate > 100 && samplerate in samplerates ==>
                && 0 <= index < |samplerates| && samplerates[index] == samplerate
                && samplerate !in samplerates[..index]
      ensures index >= |samplerates| ==>
                !ok && unchanged(`currentSamplerate, `isLowIf, `freqKhz, `sent, `filterGain, `freqShift, `freqDeltaHz)
      ensures 0 <= index < |samplerates| ==> RateUsed(index, floorResult, rateResult, setResult, ok)
      ensures ok ==> filterGain == if gain.result == 1 then maths.filterGain(gain.bytes[0]) else 1.0
    {
      hide IqBalancer.Valid, Believed, Taken, NeverRepeats, OnUnitCircle, NoneShort, Representable, DeltaBytes;
      var i := FindRate(samplerate);
      index := i;
      if i >= |samplerates| {
        return false, i;
      }
      ok := UseRate(i, floorResult, rateResult, gain, setResult, delta);
    }

    /** In a run where every SET_FREQ transfer moved its four bytes, the device itself holds the remembered LO, and never
        one below the floor at a zero-IF rate. */
    lemma DeviceHoldsLo()
      requires Ready() && sent != [] && forall t <- sent :: t.result == 4
      ensures Taken(sent) == freqKhz && (!isLowIf ==> Taken(sent) >= 180)
    {
      assert NoneFailed(sent) && NoneShort(sent);
      BeliefHoldsIff(sent);
    }

    /** Lines 1592-1596: the LO offset that goes with the new setting is not applied until the next tuning call. */
    method SetLibDsp(flag: bool)
      modifies `enableDsp
      ensures enableDsp == flag
    {
      enableDsp := flag;
    }

    /** Line 1320: streaming starts with an unturned phasor. */
    method ResetPhasor()
      modifies `vec, `turns
      ensures Mixing() && turns == []
    {
      vec, turns := ONE, [];
      assert vec == Scale(1.0, ONE);
    }

    /** Lines 316-361. `mid` is the block before fine tuning: the scaled input, or, for a zero-IF rate with processing
        on, the balancer's DC-cancelled stream under its ramped correction. */
    method ConvertSamples(src: array<Sample>, dest: array<Complex>) returns (ghost mid: seq<Complex>)
      requires Rates() && currentSamplerate > 0 && Mixing() && balancer.Valid()
      requires src.Length == dest.Length != 1
      requires dest != balancer.corr && dest != balancer.corrPlus && dest != balancer.workingBuffer
      modifies dest, `vec, `turns
      modifies balancer, balancer.workingBuffer, balancer.corr, balancer.corrPlus, balancer.boost, balancer.powerFlag
      modifies balancer.rawPhases, balancer.rawAmplitudes
      ensures Mixing() && balancer.Valid() && |mid| == dest.Length
      ensures var raw := Scaled(old(src[..]), SAMPLE_SCALE * filterGain);
              if enableDsp && !isLowIf then
                && balancer.inputs == old(balancer.inputs) + raw
                && old(balancer.stream) <= balancer.stream && |balancer.stream| == old(|balancer.stream|) + |raw|
                && mid == Ramped(balancer.stream[old(|balancer.stream|)..], old(balancer.lastPhase), balancer.phase,
                                 old(balancer.lastAmplitude), balancer.amplitude)
              else
                mid == raw && unchanged(balancer)
      ensures var rot := Rotation(maths.trig, freqShift, currentSamplerate);
              if enableDsp && freqShift != 0.0 then
                && turns == old(turns) + Phasor.Repeat(rot, dest.Length)
                && forall i: nat :: i < dest.Length ==> dest[i] == Phasor.Mixed(mid[i], old(turns), rot, i)
              else
                dest[..] == mid && turns == old(turns) && vec == old(vec)
    {
      hide IqBalancer.Valid, Phasor.Tuned, Phasor.Mixed, Ramped, Scaled, Rotation, OnUnitCircle;
      ScaleBlock(src, dest, SAMPLE_SCALE * filterGain);
      if enableDsp && !isLowIf {
        balancer.Process(dest, false);
      }
      mid := dest[..];
      if enableDsp && freqShift != 0.0 {
        var rot := Rotation(maths.trig, freqShift, currentSamplerate);
        RotationUnit(maths.trig, freqShift, currentSamplerate);
        vec := Phasor.FineTune(dest, vec, rot, turns);
        turns := turns + Phasor.Repeat(rot, dest.Length);
      }
    }
  }

  // ----- Instances of what goes wrong -----

  const NO_REPLY := Reply(0, [])

  /** `airspyhf_set_samplerate` on a fresh zero-IF device, with a negative error on the transfer that raises the LO and
      none after it: it reports success, the library believes 180 kHz, and the device has been told nothing. */
  method RaiseLost(b: IqBalancer, m: Maths) returns (r: Receiver, ok: bool)
    requires b.Valid() && OnUnitCircle(m.trig)
    modifies b`optimalBin, b`resetFlag
    ensures ok && r.FloorKept() && r.OnFrequency()
    ensures WellSent(r.sent) && Taken(r.sent) == 0 && !r.DeviceFloorKept() && !r.DeviceOnFrequency()
  {
    hide IqBalancer.Valid, OnUnitCircle;
    r := new Receiver(b, m, [768000], [false], 0);
    RoundSmall();
    ghost var index;
    ok, index := r.SetSamplerate(0, -7, 0, NO_REPLY, 4, NO_REPLY);
  }

  lemma RoundSmall()
    ensures Representable(0.0, 0) && TargetKhz(0.0, 0, true, false) == 180 && Calibrated(0.0, 0) == 0.0
  {
  }

  /** A short reply to the same transfer is noticed, but the zero-IF rate is already in force without an LO. */
  method RaiseRefused(b: IqBalancer, m: Maths) returns (r: Receiver, ok: bool)
    requires b.Valid() && OnUnitCircle(m.trig)
    modifies b`optimalBin, b`resetFlag
    ensures !ok && !r.FloorKept() && WellSent(r.sent) && !r.DeviceFloorKept()
  {
    hide IqBalancer.Valid, OnUnitCircle;
    r := new Receiver(b, m, [768000], [false], 0);
    ghost var index;
    ok, index := r.SetSamplerate(0, 2, 0, NO_REPLY, 4, NO_REPLY);
  }

  /** A negative error on a plain tuning request passes for success, and asking again sends nothing. */
  method RequestLost(b: IqBalancer, m: Maths) returns (r: Receiver, ok: bool, again: bool)
    requires b.Valid() && OnUnitCircle(m.trig)
    modifies b`optimalBin, b`resetFlag
    ensures ok && again && r.OnFrequency() && |r.sent| == 1
    ensures WellSent(r.sent) && Taken(r.sent) == 0 && !r.DeviceOnFrequency()
  {
    hide IqBalancer.Valid, OnUnitCircle;
    r := new Receiver(b, m, [768000], [false], 0);
    SevenMegahertz();
    ok := r.SetFreqDouble(7_000_000.0, -7, NO_REPLY);
    again := r.SetFreqDouble(7_000_000.0, 4, NO_REPLY);
  }

  lemma SevenMegahertz()
    ensures Representable(7_000_000.0, 0) && TargetKhz(7_000_000.0, 0, true, false) == 7005
    ensures Calibrated(7_000_000.0, 0) == 7_000_000.0
  {
  }

  /** What the calibration does: 100 MHz at a low-IF rate with a crystal ten parts in a million slow is asked for 1 kHz up. */
  method CalibratedUp(b: IqBalancer, m: Maths) returns (r: Receiver, ok: bool)
    requires b.Valid() && OnUnitCircle(m.trig)
    modifies b`optimalBin, b`resetFlag
    ensures ok && r.freqKhz == 100_001 && r.freqShift == 0.0 && r.calibrationPpb == 10_000
  {
    hide IqBalancer.Valid, OnUnitCircle;
    r := new Receiver(b, m, [192000], [true], 10_000);
    HundredMegahertz();
    ok := r.SetFreqDouble(100_000_000.0, 4, NO_REPLY);
  }

  lemma HundredMegahertz()
    ensures Calibrated(100_000_000.0, 10_000) == 100_001_000.0
    ensures Representable(100_000_000.0, 10_000) && TargetKhz(100_000_000.0, 10_000, true, true) == 100_001
  {
    assert Calibrated(100_000_000.0, 10_000) == 100_001_000.0;
  }

  /** Leaving a low-IF rate tuned to 179 kHz: every transfer but the last one works, the last one is short, and the call
      still reports success although LO and shift no longer add up, on the device or in the library. */
  method RetuneIgnored(b: IqBalancer, m: Maths) returns (r: Receiver, ok: bool)
    requires b.Valid() && OnUnitCircle(m.trig)
    modifies b`optimalBin, b`resetFlag
    ensures ok && !r.OnFrequency() && WellSent(r.sent) && r.InSync() && !r.DeviceOnFrequency()
  {
    hide IqBalancer.Valid, OnUnitCircle, Encode, Believed, Taken, NeverRepeats, NoneShort, Calibrated, TargetKhz, Representable;
    r := new Receiver(b, m, [192000, 768000], [true, false], 0);
    LongWave();
    var tuned := r.SetFreqDouble(179_000.0, 4, NO_REPLY);
    ghost var index;
    ok, index := r.SetSamplerate(1, 4, 0, NO_REPLY, 2, NO_REPLY);
  }

  lemma LongWave()
    ensures Representable(179_000.0, 0) && TargetKhz(179_000.0, 0, true, true) == 179
    ensures TargetKhz(179_000.0, 0, true, false) == 184
  {
  }

  /** Lines 328-332. */
  method ScaleBlock(src: array<Sample>, dest: array<Complex>, gain: real)
    requires src.Length == dest.Length
    modifies dest
    ensures dest[..] == Scaled(src[..], gain)
  {
    for i := 0 to dest.Length
      invariant forall p: nat :: p < i ==> dest[p] == ToComplex(src[p], gain)
    {
      dest[i] := ToComplex(src[i], gain);
    }
    assert dest[..] == Scaled(src[..], gain);
  }

  lemma CalibratedInjective(freqHz: real, ppb: int, other: int)
    ensures Calibrated(freqHz, ppb) == Calibrated(freqHz, other) <==> freqHz == 0.0 || ppb == other
  {
    assert Calibrated(freqHz, ppb) - Calibrated(freqHz, other) == freqHz * (ppb as real - other as real) * 0.000000001;
  }
}
