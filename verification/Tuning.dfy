/** The arithmetic of libairspyhf/src/airspyhf.c:1217-1282, 1365-1420 and the record of what was sent to the device.
    A SET_FREQ transfer returns the number of bytes moved or a negative libusb error; lines 1240 and 1391 compare that
    `int` with an unsigned size, so only a short count is noticed and a negative error passes for success. */
module Tuning {
  import opened Arith
  import opened BitReversal
  import opened Words

  const MIN_ZERO_IF_LO := 180
  const MIN_LOW_IF_LO := 84
  const DEFAULT_IF_SHIFT := 5000.0
  const MAX_SAMPLERATE_INDEX := 100

  /** A control transfer's return value and the bytes it left in the buffer. */
  datatype Reply = Reply(result: int, bytes: seq<int>)

  /** One SET_FREQ transfer: what was offered and what libusb returned. */
  datatype Transfer = Transfer(bytes: seq<int>, result: int)

  // ----- The LO -----

  /** C's `round`: to the nearest integer, halves away from zero. */
  function Round(x: real): int {
    if x >= 0.0 then (x + 0.5).Floor else -(-x + 0.5).Floor
  }

  function Calibrated(freqHz: real, ppb: int): real {
    freqHz * (1_000_000_000.0 + ppb as real) * 0.000000001
  }

  /** `hz` is the frequency with the calibration applied: as many parts in 10^9 above it as `ppb` says. */
  predicate Tunes(hz: real, freqHz: real, ppb: int) {
    1_000_000_000.0 * (hz - freqHz) == freqHz * ppb as real
  }

  lemma CalibratedTunes(freqHz: real, ppb: int, hz: real)
    ensures Tunes(hz, freqHz, ppb) <==> hz == Calibrated(freqHz, ppb)
    ensures Calibrated(freqHz, ppb) == freqHz + freqHz * ppb as real / 1_000_000_000.0
  {
    var p := freqHz * ppb as real;
    assert freqHz * (1_000_000_000.0 + ppb as real) == 1_000_000_000.0 * freqHz + p;
  }

  function IfShift(dsp: bool, lowIf: bool): real {
    if dsp && !lowIf then DEFAULT_IF_SHIFT else 0.0
  }

  function MinLo(lowIf: bool): int {
    if lowIf then MIN_LOW_IF_LO else MIN_ZERO_IF_LO
  }

  /** The conversion to `uint32_t` on line 1372 is defined. */
  predicate Representable(freqHz: real, ppb: int) {
    forall dsp, lowIf :: 0 <= Round((Calibrated(freqHz, ppb) + IfShift(dsp, lowIf)) / 1000.0) < U32
  }

  /** Line 1372. */
  function TargetKhz(freqHz: real, ppb: int, dsp: bool, lowIf: bool): (khz: int)
    ensures khz >= MinLo(lowIf)
    ensures Representable(freqHz, ppb) ==> khz < U32
  {
    var k := Round((Calibrated(freqHz, ppb) + IfShift(dsp, lowIf)) / 1000.0);
    if MinLo(lowIf) > k then MinLo(lowIf) else k
  }

  lemma RoundWithin(x: real)
    ensures -0.5 <= x - Round(x) as real <= 0.5
    ensures x >= 0.0 ==> x - Round(x) as real < 0.5
    ensures x <= 0.0 ==> x - Round(x) as real > -0.5
  {
  }

  /** The LO that would be best: the calibrated request, raised by the IF of a zero-IF rate with processing on. */
  function BestLo(freqHz: real, ppb: int, dsp: bool, lowIf: bool): real {
    freqHz + freqHz * ppb as real / 1_000_000_000.0 + if dsp && !lowIf then 5000.0 else 0.0
  }

  /** How far the best LO, in Hz, is from the one chosen. */
  function LoError(freqHz: real, ppb: int, dsp: bool, lowIf: bool, khz: int): real {
    BestLo(freqHz, ppb, dsp, lowIf) - 1000.0 * khz as real
  }

  /** The chosen LO is the closest whole kHz the architecture allows, clamped or not, and the higher of two equally close
      ones. */
  lemma TargetIsClosest(freqHz: real, ppb: int, dsp: bool, lowIf: bool, other: int)
    requires other >= if lowIf then 84 else 180
    ensures var khz := TargetKhz(freqHz, ppb, dsp, lowIf);
            && khz >= (if lowIf then 84 else 180)
            && Magnitude(LoError(freqHz, ppb, dsp, lowIf, khz)) <= Magnitude(LoError(freqHz, ppb, dsp, lowIf, other))
            && (other > khz ==>
                Magnitude(LoError(freqHz, ppb, dsp, lowIf, khz)) < Magnitude(LoError(freqHz, ppb, dsp, lowIf, other)))
  {
    BestIs(freqHz, ppb, dsp, lowIf);
    hide BestLo, Calibrated, IfShift, Round;
    var x := BestLo(freqHz, ppb, dsp, lowIf) / 1000.0;
    ClosestInteger(x, MinLo(lowIf), other);
  }

  lemma BestIs(freqHz: real, ppb: int, dsp: bool, lowIf: bool)
    ensures BestLo(freqHz, ppb, dsp, lowIf) == Calibrated(freqHz, ppb) + IfShift(dsp, lowIf)
    ensures IfShift(dsp, lowIf) == if dsp && !lowIf then 5000.0 else 0.0
  {
    CalibratedTunes(freqHz, ppb, 0.0);
    hide Calibrated;
  }

  lemma ClosestInteger(x: real, least: int, other: int)
    requires other >= least >= 0
    ensures var k := if least > Round(x) then least else Round(x);
            && Magnitude(x - k as real) <= Magnitude(x - other as real)
            && (other > k ==> Magnitude(x - k as real) < Magnitude(x - other as real))
  {
    RoundWithin(x);
    hide Round;
    var k := if least > Round(x) then least else Round(x);
    if other > k {
      assert other as real >= k as real + 1.0;
    } else if other < k {
      assert other as real <= k as real - 1.0;
    }
  }

  /** It is within half a kHz exactly when the floor does not bind by more than that. */
  lemma TargetWithinHalf(freqHz: real, ppb: int, dsp: bool, lowIf: bool)
    ensures var khz := TargetKhz(freqHz, ppb, dsp, lowIf);
            && LoError(freqHz, ppb, dsp, lowIf, khz) <= 500.0
            && (LoError(freqHz, ppb, dsp, lowIf, khz) >= -500.0 <==>
                BestLo(freqHz, ppb, dsp, lowIf) >= (if lowIf then 84_000.0 else 180_000.0) - 500.0)
  {
    BestIs(freqHz, ppb, dsp, lowIf);
    hide BestLo, Calibrated, IfShift;
    RoundWithin(BestLo(freqHz, ppb, dsp, lowIf) / 1000.0);
  }

  /** The shift left to the mixer, beside the IF offset, is at most 500 Hz; but it is more below zero exactly when the best
      LO lies more than 500 Hz below the floor. */
  predicate SmallResidual(freqHz: real, ppb: int, dsp: bool, lowIf: bool, deltaHz: real, shift: real) {
    var offset := if dsp && !lowIf then 5000.0 else 0.0;
    && shift - deltaHz + offset <= 500.0
    && (shift - deltaHz + offset >= -500.0 <==>
        BestLo(freqHz, ppb, dsp, lowIf) >= (if lowIf then 84_000.0 else 180_000.0) - 500.0)
  }

  /** The shift of line 1416 makes up for what the LO misses, and for no other LO. */
  lemma ShiftSettles(freqHz: real, ppb: int, dsp: bool, lowIf: bool, deltaHz: real, shift: real, lo: int)
    requires shift == Calibrated(freqHz, ppb) - TargetKhz(freqHz, ppb, dsp, lowIf) as real * 1000.0 + deltaHz
    ensures SmallResidual(freqHz, ppb, dsp, lowIf, deltaHz, shift)
    ensures Tunes(1000.0 * lo as real - deltaHz + shift, freqHz, ppb) <==> lo == TargetKhz(freqHz, ppb, dsp, lowIf)
  {
    var khz := TargetKhz(freqHz, ppb, dsp, lowIf);
    TargetWithinHalf(freqHz, ppb, dsp, lowIf);
    BestIs(freqHz, ppb, dsp, lowIf);
    CalibratedTunes(freqHz, ppb, 1000.0 * lo as real - deltaHz + shift);
    hide BestLo, Calibrated, TargetKhz, Tunes;
    assert lo < khz ==> lo as real <= khz as real - 1.0;
  }

  // ----- Bytes -----

  /** Lines 1376-1379: shifts and masks of a 32-bit word. */
  function Encode(khz: int): (bytes: seq<int>)
    ensures |bytes| == 4
  {
    [(khz / 0x100_0000) % 0x100, (khz / 0x1_0000) % 0x100, (khz / 0x100) % 0x100, khz % 0x100]
  }

  /** The LO the device reads out of the four bytes. */
  function Decode(bytes: seq<int>): int
    requires |bytes| == 4
  {
    bytes[0] * 0x100_0000 + bytes[1] * 0x1_0000 + bytes[2] * 0x100 + bytes[3]
  }

  lemma DecodeEncode(khz: int)
    requires 0 <= khz < U32
    ensures Decode(Encode(khz)) == khz
    ensures forall i :: 0 <= i < 4 ==> 0 <= Encode(khz)[i] < 0x100
  {
    var a, b, c := khz / 0x100, khz / 0x1_0000, khz / 0x100_0000;
    assert khz == a * 0x100 + khz % 0x100;
    assert b == a / 0x100 && c == b / 0x100;
    assert c < 0x100;
  }

  predicate DeltaBytes(bytes: seq<int>) {
    |bytes| == 4 && (forall i :: 0 <= i < 4 ==> 0 <= bytes[i] < 0x100) && bytes[0] <= 30
  }

  function Signed8(b: int): int {
    if b >= 0x80 then b - 0x100 else b
  }

  /** Line 1410, in Hz. */
  function DecodeDelta(bytes: seq<int>): real
    requires DeltaBytes(bytes)
  {
    (Signed8(bytes[3]) * 0x1_0000 + bytes[2] * 0x100 + bytes[1]) as real * 1000.0 / Pow2(bytes[0]) as real
  }

  /** Every fixed-point offset v / 2^e kHz with a signed 24-bit v has exactly one encoding, little-endian two's
      complement after the exponent, and it decodes to that offset. */
  lemma DeltaRoundTrip(v: int, e: nat)
    requires -0x80_0000 <= v < 0x80_0000 && e <= 30
    ensures var u := if v < 0 then v + 0x100_0000 else v;
            var bytes := [e, u % 0x100, (u / 0x100) % 0x100, u / 0x1_0000];
            && DeltaBytes(bytes)
            && DecodeDelta(bytes) == v as real * 1000.0 / Pow2(e) as real
  {
    var u := if v < 0 then v + 0x100_0000 else v;
    assert u / 0x1_0000 == (u / 0x100) / 0x100;
    assert Signed8(u / 0x1_0000) * 0x1_0000 + ((u / 0x100) % 0x100) * 0x100 + u % 0x100 == v;
  }

  // ----- What the library noticed and what the device took -----

  /** The comparison `result < sizeof(buf)` after the usual conversions. */
  predicate Short(result: int) {
    (if result < 0 then result + U64 else result) < 4
  }

  /** libusb moves at most the four bytes offered; its error codes are small negative numbers. */
  predicate LibusbResult(result: int) {
    -100 < result <= 4
  }

  /** The value the library remembers: the last transfer it did not find short, zero at first. */
  function Believed(sent: seq<Transfer>): int
    requires WellSent(sent)
  {
    if sent == [] then 0
    else if Short(Last(sent).result) then Believed(Front(sent))
    else Decode(Last(sent).bytes)
  }

  /** The value the device holds: the last transfer that moved all four bytes, zero at first. */
  function Taken(sent: seq<Transfer>): int
    requires WellSent(sent)
  {
    if sent == [] then 0
    else if Last(sent).result != 4 then Taken(Front(sent))
    else Decode(Last(sent).bytes)
  }

  function Last(sent: seq<Transfer>): Transfer
    requires sent != []
  {
    sent[|sent| - 1]
  }

  function Front(sent: seq<Transfer>): seq<Transfer>
    requires sent != []
  {
    sent[..|sent| - 1]
  }

  predicate WellSent(sent: seq<Transfer>) {
    forall t <- sent :: |t.bytes| == 4 && LibusbResult(t.result)
  }

  /** No transfer repeats the value the library already believes set. */
  predicate NeverRepeats(sent: seq<Transfer>)
    requires WellSent(sent)
  {
    sent == [] || (Decode(Last(sent).bytes) != Believed(Front(sent)) && NeverRepeats(Front(sent)))
  }

  predicate NoneFailed(sent: seq<Transfer>) {
    forall t <- sent :: t.result >= 0
  }

  predicate NoneShort(sent: seq<Transfer>) {
    forall t <- sent :: !Short(t.result)
  }

  lemma Extend(sent: seq<Transfer>, t: Transfer)
    requires WellSent(sent) && |t.bytes| == 4 && LibusbResult(t.result)
    ensures WellSent(sent + [t])
    ensures Believed(sent + [t]) == if Short(t.result) then Believed(sent) else Decode(t.bytes)
    ensures Taken(sent + [t]) == if t.result == 4 then Decode(t.bytes) else Taken(sent)
    ensures NeverRepeats(sent) && Decode(t.bytes) != Believed(sent) ==> NeverRepeats(sent + [t])
    ensures NoneShort(sent + [t]) <==> NoneShort(sent) && !Short(t.result)
  {
    var all := sent + [t];
    assert all[..|all| - 1] == sent;
    assert all[|all| - 1] == t;
    assert forall u <- sent :: u in all;
    assert t in all;
  }

  /** The library's idea of the LO was right after every transfer so far. */
  predicate AlwaysRight(sent: seq<Transfer>)
    requires WellSent(sent)
  {
    Believed(sent) == Taken(sent) && (sent == [] || AlwaysRight(Front(sent)))
  }

  /** That is so if and only if no transfer ended with a negative error. */
  lemma {:induction false} BeliefHoldsIff(sent: seq<Transfer>)
    requires WellSent(sent) && NeverRepeats(sent)
    ensures AlwaysRight(sent) <==> NoneFailed(sent)
  {
    if sent != [] {
      var front, t := Front(sent), Last(sent);
      BeliefHoldsIff(front);
      assert front + [t] == sent;
      assert NoneFailed(sent) <==> NoneFailed(front) && t.result >= 0;
    }
  }

  /** An error on the first request already breaks it, and nothing is sent when the same frequency is asked for again. */
  lemma LostRequest()
    ensures var sent := [Transfer(Encode(7000), -7)];
            WellSent(sent) && NeverRepeats(sent) && Believed(sent) == 7000 && Taken(sent) == 0
  {
    DecodeEncode(7000);
    Extend([], Transfer(Encode(7000), -7));
    assert [] + [Transfer(Encode(7000), -7)] == [Transfer(Encode(7000), -7)];
  }
}
