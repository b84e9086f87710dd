/** The four-slot ring of raw estimates against an unbounded history (libairspyhf/src/iqbalancer.c:429-442). */
module RawEstimates {
  import opened BalancerSpec

  /** The ring holds the newest estimates of the history, newest just before `ptr`. */
  ghost predicate RingOf(ring: seq<real>, h: seq<real>, ptr: int, count: int) {
    && |ring| == MAX_LOOKBACK
    && ptr == |h| % MAX_LOOKBACK
    && count == (if |h| < MAX_LOOKBACK then |h| else MAX_LOOKBACK)
    && forall q: nat :: q < count ==> ring[Slot(|h|, q)] == h[|h| - 1 - q]
  }

  /** The slot of the q-th newest of n estimates. */
  function Slot(n: nat, q: nat): (s: nat)
    requires q < n && q < MAX_LOOKBACK
    ensures s < MAX_LOOKBACK
  {
    (n - 1 - q) % MAX_LOOKBACK
  }

  /** Sum of the n newest estimates, newest first. */
  function TailSum(h: seq<real>, n: nat): real
    requires n <= |h|
  {
    if n == 0 then 0.0 else TailSum(h, n - 1) + h[|h| - n]
  }

  function Lookback(h: seq<real>): nat {
    if |h| < MAX_LOOKBACK then |h| else MAX_LOOKBACK
  }

  /** The value in use: the mean of the newest estimates, or the initial value before the first. */
  function Smoothed(h: seq<real>, start: real): real {
    if |h| == 0 then start else TailSum(h, Lookback(h)) / (Lookback(h) as real)
  }

  ghost predicate Near(x: real, y: real, d: real) {
    y - d <= x <= y + d
  }

  function Steps(k: nat, step: real): real {
    (k as real) * step
  }

  /** The k-th raw estimate is at most k steps away from the start. */
  ghost predicate Drifted(h: seq<real>, start: real, step: real) {
    forall j: nat :: j < |h| ==> Near(h[j], start, Steps(j + 1, step))
  }

  lemma RingSize(ring: seq<real>, h: seq<real>, ptr: int, count: int)
    requires RingOf(ring, h, ptr, count)
    ensures 0 <= ptr < MAX_LOOKBACK && ptr == |h| % MAX_LOOKBACK && count == Lookback(h)
  {
  }

  lemma RingPush(ring: seq<real>, h: seq<real>, ptr: int, count: int, x: real)
    requires RingOf(ring, h, ptr, count)
    ensures RingOf(ring[ptr := x], h + [x], (ptr + 1) % MAX_LOOKBACK, if count < MAX_LOOKBACK then count + 1 else count)
  {
    var h' := h + [x];
    var count' := if count < MAX_LOOKBACK then count + 1 else count;
    forall q: nat | q < count'
      ensures ring[ptr := x][Slot(|h'|, q)] == h'[|h'| - 1 - q]
    {
      if q > 0 {
        assert Slot(|h'|, q) == Slot(|h|, q - 1);
      }
    }
  }

  lemma {:induction false} TailSumNear(h: seq<real>, start: real, d: real, n: nat)
    requires n <= |h| && forall k: nat :: k < |h| ==> Near(h[k], start, d)
    ensures Near(TailSum(h, n), Steps(n, start), Steps(n, d))
  {
    if n > 0 {
      hide Steps;
      TailSumNear(h, start, d, n - 1);
      OneStepMore(n - 1, start);
      OneStepMore(n - 1, d);
      assert Near(h[|h| - n], start, d);
    }
  }

  lemma FewerSteps(k: nat, n: nat, step: real)
    requires k <= n && step >= 0.0
    ensures Steps(k, step) <= Steps(n, step)
  {
    assert ((n - k) as real) * step >= 0.0;
    assert n as real == k as real + (n - k) as real;
  }

  lemma OneStepMore(k: nat, step: real)
    ensures Steps(k + 1, step) == Steps(k, step) + step
  {
    assert (k + 1) as real == k as real + 1.0;
  }

  /** After k estimates the value in use is within k steps of the initial one. */
  lemma SmoothedNear(h: seq<real>, start: real, step: real)
    requires step >= 0.0 && Drifted(h, start, step)
    ensures Near(Smoothed(h, start), start, Steps(|h|, step))
  {
    if |h| == 0 {
      assert Steps(0, step) == 0.0;
    } else {
      hide Steps;
      var n, d := Lookback(h), Steps(|h|, step);
      forall k: nat | k < |h|
        ensures Near(h[k], start, d)
      {
        FewerSteps(k + 1, |h|, step);
        assert Near(h[k], start, Steps(k + 1, step));
      }
      hide Near, Drifted;
      TailSumNear(h, start, d, n);
      MeanNear(TailSum(h, n), n as real, start, d);
    }
  }

  lemma MeanNear(s: real, n: real, start: real, d: real)
    requires n >= 1.0 && Near(s, n * start, n * d)
    ensures Near(s / n, start, d)
  {
    var m := s / n;
    assert m * n == s;
    assert n * start - n * d == (start - d) * n && n * start + n * d == (start + d) * n;
    if m < start - d {
      Strict(m, start - d, n);
    } else if m > start + d {
      Strict(start + d, m, n);
    }
  }

  lemma Strict(x: real, y: real, n: real)
    requires x < y && n >= 1.0
    ensures x * n < y * n
  {
  }

  /** A new raw estimate one clamped step from the value in use keeps the drift bound. */
  lemma DriftPush(h: seq<real>, start: real, step: real, x: real)
    requires step >= 0.0 && Drifted(h, start, step) && Near(x, Smoothed(h, start), step)
    ensures Drifted(h + [x], start, step)
  {
    SmoothedNear(h, start, step);
    OneStepMore(|h|, step);
    hide Steps, Smoothed;
    forall j: nat | j < |h + [x]|
      ensures Near((h + [x])[j], start, Steps(j + 1, step))
    {
      if j < |h| {
        assert (h + [x])[j] == h[j];
      }
    }
  }

  /** Lines 433-439: walks the two rings backwards from the slot just written. */
  method SumRings(rawPhases: array<real>, rawAmplitudes: array<real>, rawPtr: int, noOfRaw: int, phase0: real, amplitude0: real,
                  ghost hp: seq<real>, ghost ha: seq<real>)
    returns (phase: real, amplitude: real)
    requires |hp| == |ha| > 0 && rawPtr == (|hp| - 1) % MAX_LOOKBACK
    requires phase0 == hp[|hp| - 1] && amplitude0 == ha[|ha| - 1]
    requires RingOf(rawPhases[..], hp, (rawPtr + 1) % MAX_LOOKBACK, noOfRaw)
    requires RingOf(rawAmplitudes[..], ha, (rawPtr + 1) % MAX_LOOKBACK, noOfRaw)
    ensures noOfRaw == Lookback(hp) == Lookback(ha)
    ensures phase == TailSum(hp, noOfRaw) && amplitude == TailSum(ha, noOfRaw)
  {
    phase, amplitude := phase0, amplitude0;
    var i, j := rawPtr, 0;
    while j < noOfRaw - 1
      invariant 0 <= j <= noOfRaw - 1 && i == Slot(|hp|, j)
      invariant phase == TailSum(hp, j + 1) && amplitude == TailSum(ha, j + 1)
    {
      i := (i + MAX_LOOKBACK - 1) % MAX_LOOKBACK;
      assert i == Slot(|hp|, j + 1);
      phase := phase + rawPhases[i];
      amplitude := amplitude + rawAmplitudes[i];
      j := j + 1;
    }
  }
}
