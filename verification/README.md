# Airspy HF+ host library: a model with proofs

This project models the algorithms of the Airspy HF+ host software and proves what they compute. It covers the four
places where the software is more than plumbing:

* **The IQ balancer** (`libairspyhf/src/iqbalancer.c`). `ComplexNumbers`, `BitReversal`, `DiscreteFourier` and
  `FastFourier` prove the in-place radix-2 transform equal to the quadratic definition for every power-of-two length;
  `Trigonometry` and `Tones` derive its roots from the addition theorems and its response to a tone. `Correction` derives
  the effect of the imbalance correction on the spectrum. `BalancerSpec`, `BalancerSteps`, `RawEstimates` and `Balancer`
  follow the estimator across calls as a class over arrays, with ghost histories tying each accumulator to what it is a
  sum of. `BalancerLaws` says in plain numbers what each specification function computes, and `ImageRemoval` what the
  estimator is for: it measures the image left by the correction, and its steps shrink it.
* **The streaming engine** (`libairspyhf/src/airspyhf.c`). `SampleRing` and `BufferFlow` describe the buffers and what
  they contain, `StreamingEngine` the program points of the consumer, the completion callback, the transfer thread and the
  stopping thread as interleaved atomic steps (each read of a volatile flag is a step of its own), `StreamingRuns` the
  safety and shutdown of whole runs, `StreamingProgress` that an undisturbed stream goes on and what is queued is
  delivered. `DeviceBuffers` has the lock regions, allocation and release as code over arrays.
* **Tuning and conversion** (same file). `Phasor` is the self-normalising mixer, `FineTuning` what it does to a tone,
  `Tuning` the arithmetic and the record of what was sent, `Receivers` the object the control and conversion calls
  update.
* **The tools.** `GetoptScan` is the meaning of a command line, `Getopts` the permuting parser that must agree with it
  (conventions: section 12.2 of the Base Definitions of POSIX.1-2017), `GetoptLaws` the option string read on its own
  terms and the round trip of written command lines. `RxDigits` is the number printer and parser of
  `airspyhf_rx`, `RxLimit` its sample limit.

`Arith`, `Words` and `Wrappers` are shared. `dafny verify dfyconfig.toml` checks everything.

## Conventions

* `float` and `double` are exact reals. `cos` and `sin` enter as hypotheses: twiddles tw(l) with tw(1) = -1 and
  tw(l)^2 = tw(l-1), of unit length where a statement needs it; `Trigonometry` derives these from the addition theorems
  and cos^2 + sin^2 = 1, which is all that is assumed of `cos` and `sin` anywhere.
* Window and boost tables are arbitrary arrays of the right size (boost not negative where a division needs it).
* Integers are unbounded where the original cannot overflow; the wrap-arounds that matter are written out: the drop
  counter modulo 2^32, the byte limit modulo 2^64, the comparison of an `int` with an unsigned size, the LO as four bytes.
* libusb, malloc, fwrite and the firmware's answers are parameters. A control transfer returns a byte count or a negative
  error, as libusb documents; one that did not move all its bytes is taken to have changed nothing on the device.
* C strings are sequences without their terminator; a null `nextchar` and an empty one are the same value, as they are to
  the code.
* Atomicity: lock regions, the conversion outside the lock, one hardware write, one completion callback between its
  reads of flags, and each line of `kill_io_threads`. A completion callback runs only inside a libusb call of the
  transfer thread or of the stopping thread (whose synchronous control transfers handle events too), and holds that
  thread there. Memory is sequentially consistent and callbacks are serialised.

## What turned out not to hold

* **An empty take during a stop.** The consumer can leave its wait loop because `stop_requested` reads true (line 381),
  then find it cleared by line 504 before reading it again on line 385 while `streaming` is still set, and so take a slot
  although nothing is queued. `StreamingRuns.ExactIffNoEmptyTake` shows this is the only way exact delivery can fail,
  `EmptyTakeWindow` and `ExactBeforeStop` confine it to lines 504-508 of a stop, `EmptyTakeReachable` gives the
  interleaving in which the converted buffer is at the same time attached to a transfer in flight. Buffer ownership and
  shutdown are not affected.
* **Failed LO transfers are taken for successful ones.** `result < sizeof(buf)` compares an `int` with a `size_t`, so a
  negative libusb error is not "less" and `freq_khz` is updated although the device received nothing
  (lines 1240 and 1391). Asking for the same frequency again then sends nothing. `Tuning.BeliefHoldsIff` gives the exact
  condition for a run, `Receivers.RequestLost` an instance.
* **Below the zero-IF floor.** From a state where library and device agree, selecting a zero-IF rate leaves the device at
  or above 180 kHz exactly if no raise of the LO was needed, or all four bytes of the raise or of the retune after it
  moved (`Reached` in the contract of `Receivers.Receiver.UseRate`). It fails after a short reply
  (`Receivers.RaiseRefused`, noticed) and after an error (`Receivers.RaiseLost`, reported as success).
* **Success without tuning.** `airspyhf_set_samplerate` ignores the result of its final retune
  (`Receivers.RetuneIgnored`), a failed `airspyhf_set_calibration` keeps the new calibration with the old shift, and any
  of the calls may have lost its request to an error. For a call made while library and device agree and are on
  frequency, the contracts say exactly when the library's own fields still add up afterwards, and exactly when the
  device is still on frequency.
* **Negative counts.** `parse_u64` accepts a minus sign and wraps (`RxDigits.NegativeWraps`).
* **0xFF as an option.** Where plain `char` is signed, an option character 0xFF is returned as -1 and ends the caller's
  loop early (`Getopts.Getopt.Run`); no other option does (`Getopts.AllHeard`).
* **The sample limit wraps.** For n >= 2^61 samples the limit is 8n modulo 2^64 (`RxLimit.Receive`), although the
  tool's own check admits every n < 2^63.
* **Permutation is not quite invisible.** When the last argument is an option lacking its argument, re-reading the
  permuted list would find one (`GetoptScan.PermutedReread`, `GetoptScan.LackFilledByPermuting`).

In each case the model follows the code.

## Model

| member | source | states |
|---|---|---|
| FastFourier.Fft | libairspyhf/src/iqbalancer.c:114-195 | For every power-of-two length, the buffer ends up holding the textbook transform of what it held, bin (i + N/2) mod N at position i |
| DiscreteFourier.DftSplit | libairspyhf/src/iqbalancer.c:151-186 | The quadratic definition of a 2h-point bin is the bin of the even samples plus the twiddled bin of the odd ones: what makes the stages right |
| DiscreteFourier.Butterfly | libairspyhf/src/iqbalancer.c:170-177 | Both outputs of one butterfly are bins k and k + h of the joined transform, from tw(l)^h = -1 |
| BitReversal.RevInvolution | libairspyhf/src/iqbalancer.c:131-138 | Bit reversal undoes itself, so the i < j swaps are a permutation |
| BitReversal.RevSuccessor | libairspyhf/src/iqbalancer.c:140-148 | What adding one does to the reversed counter: gain the top bit, or hand the carry down |
| FastFourier.NextReversed | libairspyhf/src/iqbalancer.c:140-148 | The inner carry loop terminates for every i < N - 1 and turns Rev(i) into Rev(i + 1) |
| FastFourier.BitReverse | libairspyhf/src/iqbalancer.c:129-149 | The whole reordering puts sample Rev(i) at position i, each exchange made once |
| FastFourier.ReorderSwap | libairspyhf/src/iqbalancer.c:133-138 | One conditional exchange extends the reordered prefix by one position and disturbs nothing already placed |
| FastFourier.PartialStep | libairspyhf/src/iqbalancer.c:151-186 | After stage l every block of 2^l positions holds the transform of one residue class; one more stage merges pairs of blocks |
| FastFourier.CombinePair | libairspyhf/src/iqbalancer.c:166-178 | One pass of the innermost loop combines exactly the pair (i, i + h) and leaves every other position |
| FastFourier.Butterflies | libairspyhf/src/iqbalancer.c:164-178 | All pairs of one offset, with the running twiddle |
| FastFourier.Stage | libairspyhf/src/iqbalancer.c:153-185 | A stage computed with the running twiddle u equals the stage value defined with powers of the root |
| FastFourier.StageRefines | libairspyhf/src/iqbalancer.c:153-185 | A stage takes the partial transforms of level l - 1 to those of level l |
| FastFourier.PartialTransform | libairspyhf/src/iqbalancer.c:114-195 | After the last stage the partial transform is the textbook transform at every bin |
| FastFourier.HalfSwap | libairspyhf/src/iqbalancer.c:188-194 | The half swap moves bin (i + N/2) mod N to position i |
| Trigonometry.StageRootsAre | libairspyhf/src/iqbalancer.c:159-160 | From the addition theorems and cos^2 + sin^2 = 1 alone, the roots the code computes with cos and -sin satisfy what the transform proofs assume, and the quarter-turn root is -i: a forward transform |
| Tones.ToneBins | libairspyhf/src/iqbalancer.c:114-195 | A pure tone of bin j has transform N at bin j and zero at every other bin |
| Tones.ToneLands | libairspyhf/src/iqbalancer.c:114-195 | so what the code leaves in the buffer for it is N at position (j + N/2) mod N and zero elsewhere |
| Correction.AdjustBenchmark | libairspyhf/src/iqbalancer.c:226-244 | Corrects every sample of the block in place; the sum is the power the block had before correction, or zero when skipped |
| Correction.Window | libairspyhf/src/iqbalancer.c:104-112 | Scales sample i by window[i] in place and touches nothing else |
| Correction.CorrectMixes | libairspyhf/src/iqbalancer.c:226-244 | The two-step correction equals alpha z + beta conj(z) with alpha = 1 - i amplitude phase and beta = amplitude + i phase |
| Correction.DftConj | libairspyhf/src/iqbalancer.c:254-314 | Transforming the conjugate conjugates the mirrored bin |
| Correction.MirroredBins | libairspyhf/src/iqbalancer.c:285-293 | Positions i and FFTBins - i after the half swap are bins k and -k |
| Correction.MixedBin | libairspyhf/src/iqbalancer.c:226-293 | Mixing every sample with its conjugate, a z + b conj(z), mixes mirrored bins of the spectrum the same way |
| Correction.CorrectedBin | libairspyhf/src/iqbalancer.c:226-293 | Y[i] = alpha X[i] + beta conj(X[N - i]), X being the windowed transform of the uncorrected block |
| Correction.ImageCorrelation | libairspyhf/src/iqbalancer.c:285-293 | Closed form of the image correlation Y[i] Y[N - i] from the uncorrected spectrum |
| BalancerSpec.CorrSymmetric | libairspyhf/src/iqbalancer.c:285-293 | The accumulated correlation is symmetric: bin i equals bin FFTBins - i |
| BalancerSpec.MirrorStep | libairspyhf/src/iqbalancer.c:287-292 | One turn of the aliased update, where a bin may already hold the sum written through its mirror |
| BalancerSpec.MirrorEnd | libairspyhf/src/iqbalancer.c:285-293 | From a symmetric start the whole update adds twice the mirror product at every in-range bin and once at the centre |
| BalancerLaws.CorrelationOf | libairspyhf/src/iqbalancer.c:285-293 | One more window adds, in components, twice the product of bins i and 4096 - i, and once at bin 2048 |
| BalancerSteps.MirrorUpdate | libairspyhf/src/iqbalancer.c:285-293 | The loop does exactly that to the array, in place |
| BalancerSteps.BoostUpdate | libairspyhf/src/iqbalancer.c:294-309 | Adds the power of every in-range bin and, off centre, the image power |
| BalancerLaws.LineImagePower | libairspyhf/src/iqbalancer.c:294-309 | A single spectral line z at bin p counts |z|^2 towards the image power, times the boost window at |4096 - p - optimal_bin| off the default point |
| BalancerSteps.Analyse | libairspyhf/src/iqbalancer.c:283-284 | A copied and corrected block becomes its centred windowed spectrum |
| BalancerSpec.WindowFits | libairspyhf/src/iqbalancer.c:264-266 | Every window the loop visits lies inside the working buffer, for every overlap and integration setting |
| BalancerSpec.FlagRead | libairspyhf/src/iqbalancer.c:268-282 | The second pass accepts exactly the windows the first pass flagged as loud |
| BalancerLaws.LoudMeans | libairspyhf/src/iqbalancer.c:268-282 | One sample above 0.01 in power makes a window loud; none above 0.01/4096 makes it not |
| Balancer.IqBalancer.LoudWindowsAre | libairspyhf/src/iqbalancer.c:264-282 | The windows used are exactly the loud runs of 4096 samples starting at multiples of 4096 / fftOverlap, the first fftIntegration that fit |
| Balancer.IqBalancer.ComputeCorr | libairspyhf/src/iqbalancer.c:254-314 | Both passes extend a sum over windows by the loud windows of this buffer, at the given step of correction, and count them |
| Balancer.IqBalancer.Accumulate | libairspyhf/src/iqbalancer.c:369-374 | corr, corr_plus, boost and the powers stay sums over one and the same set of windows |
| Balancer.IqBalancer.Integrate | libairspyhf/src/iqbalancer.c:340-379 | Reset, skip and integrate counting: while no_of_avg > 0, and when the threshold passes, the accumulators hold exactly no_of_avg windows taken with one fixed correction since the last clear, whatever came before |
| Balancer.IqBalancer.PassesGate | libairspyhf/src/iqbalancer.c:381-392 | At the default weighting point the estimate goes ahead exactly if the total power is at least the decayed maximum, elsewhere exactly if the image power less its expected share is at least half of it; then and only then the maximum becomes that score, which off the default point may lower it |
| BalancerSteps.ComputeUtility | libairspyhf/src/iqbalancer.c:316-338 | The loop computes the weighted sum over the in-range bins away from the centre |
| BalancerLaws.WeightMeans | libairspyhf/src/iqbalancer.c:324-332 | weight(i) (boost[i] + 0.01) = near(i) * window(|optimal_bin - i|) * boost[4096 - i]: which bin divides which, and the slope near the centre |
| BalancerLaws.LineUtility | libairspyhf/src/iqbalancer.c:316-338 | A correlation in one bin alone gives its weight times it, and nothing within two bins of the centre or at the edges |
| BalancerLaws.UtilityAdds | libairspyhf/src/iqbalancer.c:316-338 | and the utility is additive, so that determines it |
| BalancerSteps.SecantStep | libairspyhf/src/iqbalancer.c:397-427 | Unless clamped the step lands on the zero of the line through the two measured utilities |
| BalancerLaws.StepNearest | libairspyhf/src/iqbalancer.c:397-427 | With r that zero, the step is the point of [-50, 50] nearest to r, sign included; where the utilities differ by no more than 0.1 it is 0 |
| RawEstimates.RingPush | libairspyhf/src/iqbalancer.c:429-442 | Writing at raw_ptr and advancing it keeps the ring equal to the newest estimates of an unbounded history |
| RawEstimates.SumRings | libairspyhf/src/iqbalancer.c:433-441 | The averaging loop returns the means of the last min(k, 4) raw estimates |
| RawEstimates.SmoothedNear | libairspyhf/src/iqbalancer.c:397-445 | After k raw estimates the mean is within k clamped steps of the initial value |
| RawEstimates.DriftPush | libairspyhf/src/iqbalancer.c:397-445 | Every further clamped step keeps every recorded estimate within that bound |
| BalancerLaws.MeanOfLatest | libairspyhf/src/iqbalancer.c:429-442 | The correction in use is the plain mean of the last four raw estimates, or of all while there are fewer |
| Balancer.IqBalancer.PushRaw | libairspyhf/src/iqbalancer.c:429-445 | One raw pair is appended to the history, the ring follows it, and the correction in use is the new mean |
| Balancer.IqBalancer.EstimateImbalance | libairspyhf/src/iqbalancer.c:340-446 | The whole outcome of one call, case by case: reset, skipped buffer, nothing loud, integration continued, integration complete and below the threshold, or complete and the correction moved by one clamped secant step; all estimator invariants kept |
| Balancer.IqBalancer.CorrectionBound | libairspyhf/src/iqbalancer.c:397-445 | \|phase_k - phase_0\| <= k PhaseStep MaxMu and likewise for the amplitude, for every sequence of correlations |
| ImageRemoval.CorrectedFrontEnd | libairspyhf/src/iqbalancer.c:226-244 | Behind a front end that turns z into A z + B conj(z), the corrected sample is K z + M conj(z), with K and M in closed form |
| ImageRemoval.WindowMeasures | libairspyhf/src/iqbalancer.c:283-293 | For a signal with no line at the mirror of another, the correlation of bins i and N - i is K M times the power in the two bins |
| ImageRemoval.UtilityMeasures | libairspyhf/src/iqbalancer.c:254-338 | and the utility over a whole integration is K M times one real factor that does not depend on the correction |
| Balancer.IqBalancer.MeasuresImage | libairspyhf/src/iqbalancer.c:254-396 | So both utilities the estimator compares are the image left by the correction (times K), with the same factor >= 0 |
| ImageRemoval.StepShrinks | libairspyhf/src/iqbalancer.c:395-427 | With a balanced front end and phase, amplitude in [-0.3, 0.3], a measurable secant step leaves at most 0.27 of each |
| Balancer.IqBalancer.StepsToBalance | libairspyhf/src/iqbalancer.c:395-427 | The same for the accumulators of the object: the estimator moves the correction towards balance, whatever the signal strength and boost |
| ImageRemoval.SettlesGeometrically | libairspyhf/src/iqbalancer.c:429-445 | Iterated through the four-fold smoothing, estimate j is at most 0.27^(1 + j/4) of the start |
| Balancer.IqBalancer.SetOptimalPoint | libairspyhf/src/iqbalancer.c:502-515 | Chooses the bin at the clamped position, requests a reset, and keeps every invariant |
| Balancer.IqBalancer.Configure | libairspyhf/src/iqbalancer.c:517-529 | Takes the new settings with a fresh all-clear flag array, requests a reset, and keeps every invariant |
| BalancerSteps.CancelDc | libairspyhf/src/iqbalancer.c:197-224 | Subtracts the running average sample by sample in place, or the frozen average when evaluation is skipped |
| BalancerLaws.ConstantAverage | libairspyhf/src/iqbalancer.c:197-224 | After n samples of a constant c the running average is (1 - 0.9999^n) c |
| BalancerLaws.ConstantCancelled | libairspyhf/src/iqbalancer.c:197-224 | and 0.9999^(n+1) of it is left in sample n |
| BalancerSteps.CancelledConcat | libairspyhf/src/iqbalancer.c:197-224 | Cutting the stream into calls does not change what is cancelled |
| BalancerSteps.AverageWithin | libairspyhf/src/iqbalancer.c:197-224 | With inputs and initial average in [-B, B] the average stays there |
| BalancerSteps.CancelledWithin | libairspyhf/src/iqbalancer.c:197-224 | and the cancelled samples stay in [-2B, 2B] |
| Balancer.IqBalancer.CopyCall | libairspyhf/src/iqbalancer.c:480-486 | The working buffer takes what fits of the call, right after what it held |
| Balancer.IqBalancer.TakeBlock | libairspyhf/src/iqbalancer.c:480-496 | A completed working buffer is a contiguous piece of the DC-cancelled stream and goes to the estimator in its turn; what does not fit is dropped, never reordered |
| Balancer.CallFits | libairspyhf/src/iqbalancer.c:480-486 | A call whose length divides the working buffer never straddles two blocks |
| Balancer.NextTurn | libairspyhf/src/iqbalancer.c:491-495 | The skip counter is the block number modulo buffers_to_skip + 1 |
| Balancer.IqBalancer.StaysInStep | libairspyhf/src/iqbalancer.c:472-500 | For every call length dividing the working buffer, one more call keeps the blocks gap-free and the evaluated ones exactly every (buffers_to_skip + 1)-th |
| Balancer.IqBalancer.ProcessAll | libairspyhf/src/iqbalancer.c:472-500 | Any number of such calls from any state on schedule: still on schedule, all invariants kept, and the whole input is in the history |
| Balancer.FromCreation | libairspyhf/src/iqbalancer.c:472-554 | The run theorem: created, configured once, called with blocks of one dividing length, the balancer has cancelled DC on the whole input, cut it into gap-free working buffers and evaluated exactly every (buffers_to_skip + 1)-th |
| BalancerSteps.ApplyRamp | libairspyhf/src/iqbalancer.c:448-470 | Applies to sample i the correction interpolated at i/(length - 1), starting from the new value |
| BalancerSteps.RampBounds | libairspyhf/src/iqbalancer.c:455-456 | The ramp goes from the new value at the first sample to the old one at the last, never outside the two |
| BalancerLaws.RampedSample | libairspyhf/src/iqbalancer.c:448-470 | Sample i of n, in components: corrected with the straight line from the new value at 0 to the old one at n - 1 |
| Balancer.IqBalancer.Process | libairspyhf/src/iqbalancer.c:472-500 | One call: the stream grows by the DC-cancelled input, which is returned under the ramped correction; all invariants kept |
| SampleRing.ArriveHolds | libairspyhf/src/airspyhf.c:437-454 | A completion, stored or dropped, keeps the ring equal to the accepted-but-untaken completions in order, and does not touch the slot in use outside the lock |
| SampleRing.TakeHolds | libairspyhf/src/airspyhf.c:390-392 | Advancing tail while leaving the count alone hands over the next accepted completion and keeps its slot out of the producer's reach |
| SampleRing.ReleaseHolds | libairspyhf/src/airspyhf.c:411-412 | Dropping the count after processing frees exactly that slot |
| SampleRing.DeliveredCounts | libairspyhf/src/airspyhf.c:391-406 | The losses handed to the callback add up, modulo 2^32 and exactly while none has wrapped, to the completions lost before the last delivered one |
| SampleRing.QueuedCounts | libairspyhf/src/airspyhf.c:437-454 | So do the losses stored in the queued slots, for the completions after those taken |
| BufferFlow.ExchangeHolds | libairspyhf/src/airspyhf.c:433-456 | The pointer swap keeps all 24 buffers distinct, the completed contents where they are expected, and exact delivery |
| BufferFlow.WriteHolds | libairspyhf/src/airspyhf.c:268-292 | Hardware writing into a transfer in flight disturbs neither a queued buffer nor the one in use |
| BufferFlow.TakeStep | libairspyhf/src/airspyhf.c:385-398 | Taking keeps exactness if and only if something was queued |
| BufferFlow.DeliverStep | libairspyhf/src/airspyhf.c:400-409 | The callback receives the next accepted completion with the loss before it |
| BufferFlow.ConvertedBufferIsSafe | libairspyhf/src/airspyhf.c:379-413 | The buffer being converted outside the lock is attached to no transfer |
| BufferFlow.LossAccounting | libairspyhf/src/airspyhf.c:391-454 | The counters of the program account for every loss: delivered, in use, queued and still running together equal completions minus accepted ones, modulo 2^32 and exactly while no counter has wrapped; the accepted ones are delivered, queued or in use |
| BufferFlow.ConsecutiveDeliveries | libairspyhf/src/airspyhf.c:391-404 | Consecutive callbacks got completions s < s' with s' = s + 1 + reported drops (modulo 2^32), each with its own contents, in completion order |
| BufferFlow.FirstDelivery | libairspyhf/src/airspyhf.c:391-404 | The first callback reports every completion lost before it |
| StreamingEngine.StepKeeps | libairspyhf/src/airspyhf.c:363-525 | Every atomic step of every party keeps the invariant; exactness is lost only by taking from an empty queue |
| StreamingRuns.RunInvariant | libairspyhf/src/airspyhf.c:363-525 | The invariant holds in every state of every run |
| StreamingRuns.OwnershipConserved | libairspyhf/src/airspyhf.c:437-441 | In every state of every run the slots and transfers hold the same 24 pairwise distinct buffers |
| StreamingRuns.ExactIffNoEmptyTake | libairspyhf/src/airspyhf.c:379-413 | A run is exact throughout if and only if line 385 is never passed with nothing queued |
| StreamingRuns.EmptyTakeWindow | libairspyhf/src/airspyhf.c:379-389 | That needs a stop in progress between lines 504 and 508 |
| StreamingRuns.ExactBeforeStop | libairspyhf/src/airspyhf.c:379-413 | Until a stop reaches line 504 every interleaving is exact and the converted buffer is detached |
| StreamingRuns.EmptyTakeReachable | libairspyhf/src/airspyhf.c:379-413 | An interleaving that does it, with the callback run by the transfer thread inside its event call: the consumer converts a buffer no transfer filled while that buffer is attached to a transfer in flight |
| StreamingRuns.ShutdownProgress | libairspyhf/src/airspyhf.c:483-519 | After the signal the consumer is in no unsignalled wait, some thread can always step in its own code or in the callback it runs, and when the stop returns both threads have exited |
| StreamingRuns.BoundedShutdown | libairspyhf/src/airspyhf.c:498-525 | From the signal on, in any interleaving, the consumer takes no buffer and at most 7 steps, all three threads at most 16 in their own code and at most 55 in completion callbacks |
| StreamingRuns.NoCallbackAfterRefusal | libairspyhf/src/airspyhf.c:406-415 | Once the user callback has returned nonzero it is never called again |
| StreamingProgress.NoLostWakeUp | libairspyhf/src/airspyhf.c:381-454 | In every state of every run, stopped or not, a consumer in an unsignalled wait has an empty queue |
| StreamingProgress.StreamsOn | libairspyhf/src/airspyhf.c:363-496 | In every state of a run without refusing callback, failed transfer, submission or event call, or stop, `streaming` is set, no thread is on its way out, and delivery is exact |
| StreamingProgress.OffOnlyByTrouble | libairspyhf/src/airspyhf.c:363-525 | In any run the step that clears `streaming` is one after a failed transfer, submission or event call, after a refusing callback, or during a stop |
| StreamingProgress.TroubleSwitchesOff | libairspyhf/src/airspyhf.c:400-505 | and each of them leads there: the failure is noticed in its step and the next step of that thread clears the flag |
| StreamingProgress.OffForGood | libairspyhf/src/airspyhf.c:363-525 | Once cleared it stays so |
| StreamingProgress.StopObeyed | libairspyhf/src/airspyhf.c:379-496 | While stop_requested is set, in any interleaving: at most 10 more consumer and 5 more transfer-thread steps before they exit, at most one more delivery and one more queued completion |
| StreamingProgress.CompletionsInOrder | libairspyhf/src/airspyhf.c:422-469 | In such a run completion k is arrival k: none is abandoned or overtaken |
| StreamingProgress.DeliveryBound | libairspyhf/src/airspyhf.c:377-415 | Liveness: whatever is queued is delivered after at most 9 of the consumer's own steps per buffer in any interleaving, and until then the consumer can take its next step |
| StreamingProgress.DeliveredWithin | libairspyhf/src/airspyhf.c:377-415 | In particular n queued buffers are delivered within 9n of its steps |
| StreamingProgress.QueuedWithin | libairspyhf/src/airspyhf.c:422-463 | n further completions reach the queue within 6n steps of the completion callback |
| StreamingProgress.NothingLost | libairspyhf/src/airspyhf.c:437-454 | While one of the eight slots is free at every arrival, every arrival is accepted |
| StreamingProgress.NthCallbackGetsNthCompletion | libairspyhf/src/airspyhf.c:363-469 | and then callback k is given completion k with zero drops reported |
| DeviceBuffers.Device.EnqueueOrDrop | libairspyhf/src/airspyhf.c:437-454 | The in-place code of the lock region is exactly the atomic step of the state machine |
| DeviceBuffers.Device.TakeSlot | libairspyhf/src/airspyhf.c:390-392 | Likewise for taking a slot |
| DeviceBuffers.Device.ReleaseSlot | libairspyhf/src/airspyhf.c:412 | Likewise for releasing it |
| DeviceBuffers.Device.AllocateTransfers | libairspyhf/src/airspyhf.c:211-266 | Succeeds exactly if every allocation does; then all 24 buffers are distinct and non-null |
| DeviceBuffers.Device.FreeTransfers | libairspyhf/src/airspyhf.c:176-209 | Frees every non-null buffer reachable from transfers and slots, in order, and leaves all of them null |
| DeviceBuffers.ReleasedExactlyOnce | libairspyhf/src/airspyhf.c:176-209 | With ownership conserved, each buffer is freed exactly once wherever the swaps left it |
| StreamingRuns.ReleasedAfterRun | libairspyhf/src/airspyhf.c:176-209 | After any run, what freeing the transfers and then the slots frees is every allocated buffer once and nothing else |
| Phasor.RotateTuned | libairspyhf/src/airspyhf.c:307-314 | Any rotation keeps the phasor a real multiple of the product of all rotations: no phase error accumulates |
| Phasor.GainSettles | libairspyhf/src/airspyhf.c:307-314 | For unit rotations and any retuning the multiple stays in [0.99, 1], and its squared distance from 0.99 shrinks by at least a factor 0.99 per sample |
| Phasor.GainConverges | libairspyhf/src/airspyhf.c:307-314 | After k samples the squared length is 0.99 to within 0.01 * 0.99^k |
| Phasor.StaysNormalised | libairspyhf/src/airspyhf.c:307-314 | Even with rotations whose squared length is off by up to 1e-5, the multiple stays positive and the squared length in [0.975, 1.005] for ever |
| Phasor.FineTune | libairspyhf/src/airspyhf.c:349-359 | Sample i is multiplied by gain times earlier product times rot^(i+1), and the carried vector is the phasor of the extended history |
| Phasor.MixedPower | libairspyhf/src/airspyhf.c:349-359 | Mixing changes the power of a sample by at most -2.5% or +0.5%, however long the stream |
| FineTuning.RotationUndoes | libairspyhf/src/airspyhf.c:345-350 | The rotation times the advance (cos a, sin a) of a tone at freq_shift is 1, with a * samplerate = 2 pi freq_shift |
| FineTuning.ToneStopped | libairspyhf/src/airspyhf.c:349-359 | A tone at freq_shift comes out of a block constant up to the gain, after any earlier rotations |
| FineTuning.ToneStands | libairspyhf/src/airspyhf.c:316-361 | and from the start of a stream as the same point in every sample of every block, at 0.99 to 1 times its strength |
| Receivers.Receiver.ConvertSamples | libairspyhf/src/airspyhf.c:316-361 | Scaling, then for zero IF the balancer, then mixing when there is a shift: what each configuration leaves in `dest`, and that all state invariants survive |
| Receivers.ScaledWithin | libairspyhf/src/airspyhf.c:326-332 | 32768 times a converted component is the sample times the filter gain, and it stays within the filter gain, the bound the DC canceller needs |
| Tuning.TargetIsClosest | libairspyhf/src/airspyhf.c:1369-1372 | No whole kHz from the floor (180, or 84 at low IF) up is closer to f + f ppb / 10^9 plus the 5 kHz IF where it applies; of two equally close ones it is the higher |
| Tuning.ShiftSettles | libairspyhf/src/airspyhf.c:1370-1417 | The shift makes LO - delta + shift exceed f by f ppb / 10^9, for the chosen LO and for no other, and is as small as grid and floor allow |
| Tuning.TargetWithinHalf | libairspyhf/src/airspyhf.c:1369-1372 | It is within 500 Hz of what is wanted exactly when the wanted LO is not more than 500 Hz below the floor |
| Tuning.DecodeEncode | libairspyhf/src/airspyhf.c:1376-1379 | The four bytes read back as the LO, for every 32-bit value |
| Tuning.DeltaRoundTrip | libairspyhf/src/airspyhf.c:1408-1411 | Every signed 24-bit offset at every exponent up to 30 survives its encoding |
| Tuning.BeliefHoldsIff | libairspyhf/src/airspyhf.c:1381-1396 | The remembered LO agreed with the device's after every SET_FREQ transfer of a run if and only if none of them ended in a negative error |
| Tuning.LostRequest | libairspyhf/src/airspyhf.c:1391-1396 | A failing first request: the library believes 7000 kHz and the device has nothing |
| Receivers.Receiver.SendLo | libairspyhf/src/airspyhf.c:1224-1245 | The remembered LO changes unless the transfer was short; every transfer carries a value not already believed set |
| Receivers.Receiver.SetFreqDouble | libairspyhf/src/airspyhf.c:1366-1420 | Exactly what is sent and what the device then holds. On success freq_khz is the closest allowed LO, 10^9 (LO - delta + shift - f) = f ppb, the residual bound and the zero-IF floor hold, and the balancer is reset if the LO moved; on failure nothing else changes. If the remembered LO was the device's, it still is exactly unless a transfer ended in an error, and the call has put the device itself on frequency exactly if no transfer was needed or all four bytes moved |
| Receivers.Receiver.SetCalibration | libairspyhf/src/airspyhf.c:1519-1523 | The same at the stored frequency: what is sent, and, from a state in step and on frequency, exactly when library and device are on frequency and the device above the floor afterwards, also when the call fails |
| Receivers.Receiver.FindRate | libairspyhf/src/airspyhf.c:1199-1210 | A rate above 100 becomes its first index in the supported list, anything else is taken as an index |
| Receivers.Receiver.UseRate | libairspyhf/src/airspyhf.c:1217-1285 | Which rate, architecture and gain result; exactly which transfers are sent; what the library believes, the result of the final retune being ignored; and, from a state where the remembered LO was the device's, exactly when the device ends in step with it and above the floor, and, if it was on frequency, exactly when it still is |
| Receivers.Receiver.SetSamplerate | libairspyhf/src/airspyhf.c:1194-1285 | The rate used is the first one equal to an argument above 100, else the one it indexes; out of range nothing changes and the call fails; else all that UseRate states |
| Receivers.RaiseLost | libairspyhf/src/airspyhf.c:1222-1246 | Instance: an error raising the LO to the zero-IF floor is taken for success and the device has no LO |
| Receivers.RaiseRefused | libairspyhf/src/airspyhf.c:1217-1243 | Instance: a short reply there is noticed, but the zero-IF rate is already in force below the floor |
| Receivers.RequestLost | libairspyhf/src/airspyhf.c:1374-1396 | Instance: an error on a tuning request passes for success, and asking again sends nothing |
| Receivers.CalibratedUp | libairspyhf/src/airspyhf.c:1366-1420 | Instance: 100 MHz with 10000 ppb at a low-IF rate tunes to 100001 kHz |
| Receivers.RetuneIgnored | libairspyhf/src/airspyhf.c:1282-1284 | Instance: only the final retune fails, and success is reported off frequency |
| Receivers.Receiver.DeviceHoldsLo | libairspyhf/src/airspyhf.c:1224-1245 | In runs without transfer failures the device holds freq_khz and at a zero-IF rate never less than 180 kHz |
| Getopts.Getopt.Exchange | tools/getopt/getopt.c:301-380 | Swaps the two adjacent blocks in place, each in its own order, leaves the rest, relocates both indices, and terminates |
| Getopts.BottomMoved | tools/getopt/getopt.c:340-356 | Moving the shorter bottom block to the top leaves a smaller rotation with the same result |
| Getopts.TopMoved | tools/getopt/getopt.c:357-373 | Likewise when the top block is the shorter one |
| Getopts.Getopt.SkipOperands | tools/getopt/getopt.c:585-601 | Options are gathered, operands walked over, nothing beyond is touched |
| Getopts.Getopt.Stop | tools/getopt/getopt.c:603-642 | The three places a scan can end, and the final arrangement of argv at each |
| Getopts.Getopt.Character | tools/getopt/getopt.c:805-998 | One option character: code, optarg, optopt, and how far nextchar and optind move, in all five cases |
| Getopts.Getopt.Next | tools/getopt/getopt.c:536-1000 | One call reports the next event of the reference scan and leaves the rest of that scan ahead; or returns -1 with argv and optind as the whole scan demands |
| Getopts.Getopt.Run | tools/getopt/getopt.c:536-1000 | A whole run returns exactly the events of the non-permuting scan; argv ends as program name, options with arguments and any "--", skipped operands, rest, with optind at the first of those. The run ends early only where the signed option character 0xFF is returned as -1 |
| GetoptScan.StablePartition | tools/getopt/getopt.c:95-105 | Options and operands are a stable merge of the elements looked at, and the rest is an untouched suffix |
| GetoptScan.OperandsOnly | tools/getopt/getopt.c:566-601 | Only elements without option syntax are passed over |
| GetoptScan.OneCharacter | tools/getopt/getopt.c:803-998 | One character step is one event of the reference scan |
| GetoptLaws.FlagRead | tools/getopt/getopt.c:803-827 | A character declared without a colon is reported by itself and the element is read on |
| GetoptLaws.RequiredRead | tools/getopt/getopt.c:967-994 | One declared with one colon takes the rest of its element, else the next element, else is reported missing as '?', or ':' if the option string starts so |
| GetoptLaws.OptionalRead | tools/getopt/getopt.c:952-966 | One declared with two takes the rest of its element or nothing |
| GetoptLaws.UnknownRead | tools/getopt/getopt.c:812-827 | Any other character, and the colon, is reported as '?' and the element is read on |
| GetoptLaws.ClusterOfFlags | tools/getopt/getopt.c:803-998 | With no colon in the option string, an element is one option per character |
| GetoptLaws.OperandRead | tools/getopt/getopt.c:562-616 | The empty string, "-" and anything not starting with a dash is passed over, or ends a strict scan |
| GetoptLaws.ReadBack | tools/getopt/getopt.c:536-1000 | Round trip: every command line written for an option string (clusters, attached, separate and optional arguments) up to "--" is read back as meant, and what follows is left alone |
| GetoptLaws.RxReadBack | tools/src/airspyhf_rx.c:443 | The same for the option string of airspyhf_rx |
| GetoptLaws.RxInstance | tools/src/airspyhf_rx.c:443 | `-dz` is the two options d and z |
| GetoptScan.PermutedReread | tools/getopt/getopt.c:95-105 | A strict POSIX scan of the permuted list reports the same options and stops at the operands, if and only if the last option did not lack its argument with something moved behind it |
| GetoptScan.LackFilledByPermuting | tools/getopt/getopt.c:976-990 | The exception happens: `file -o` with optstring `o:` |
| Getopts.AllHeard | tools/getopt/getopt.c:803-827 | No other option string or argument list makes a code that reads as the end |
| RxDigits.XorSwap | tools/src/airspyhf_rx.c:262-267 | The three exclusive-ors exchange two bytes of the buffer |
| RxDigits.StringRev | tools/src/airspyhf_rx.c:255-269 | Reverses the string up to its terminator in place and leaves the rest of the buffer |
| RxDigits.PrintBackwards | tools/src/airspyhf_rx.c:280-290 | The do-while loop leaves the reversed decimal notation |
| RxDigits.U64toa | tools/src/airspyhf_rx.c:271-299 | Never fails for a 64-bit value; the buffer starts with the decimal notation and its terminator |
| RxDigits.DecimalValue | tools/src/airspyhf_rx.c:271-299 | The notation is digits only, worth its number, without leading zeros |
| RxDigits.DecimalUnique | tools/src/airspyhf_rx.c:271-299 | and is the only such notation of it |
| RxDigits.ParseU64 | tools/src/airspyhf_rx.c:200-225 | Accepts exactly the strings that are, after the base prefix, a number as `strtoull` reads it to the end, with its value: saturated at 2^64 - 1, or negated modulo 2^64 after a minus sign |
| RxDigits.StrToUll | tools/src/airspyhf_rx.c:217-219 | Blanks, sign, prefix and the longest run of digits: all of the string is read exactly if it is such a number |
| RxDigits.NegativeWraps | tools/src/airspyhf_rx.c:217-220 | A negative count -v is accepted as 2^64 - v |
| RxDigits.RoundTrip | tools/src/airspyhf_rx.c:200-299 | Printing then parsing returns the number, for every 64-bit value |
| RxDigits.DecimalNotation | tools/src/airspyhf_rx.c:271-299 | The printer uses the digits "0123456789" |
| RxDigits.PrefixedRoundTrip | tools/src/airspyhf_rx.c:205-220 | "0x" or "0X" with hexadecimal digits in either case and "0b" or "0B" with binary ones are worth the number they denote, for every 64-bit value |
| RxDigits.Saturates | tools/src/airspyhf_rx.c:217-220 | A decimal number above 2^64 - 1 is read as 2^64 - 1 |
| RxDigits.BlanksAndPlus | tools/src/airspyhf_rx.c:217-220 | Blanks and a plus sign in front change nothing |
| RxDigits.EndsInDigit | tools/src/airspyhf_rx.c:217-224 | Nothing is accepted that does not end in a digit |
| RxDigits.StartsRight | tools/src/airspyhf_rx.c:217-224 | nor anything that starts otherwise than with a decimal digit, a blank or a sign |
| RxLimit.Writer.RxCallback | tools/src/airspyhf_rx.c:301-356 | While it returns 0 the file is everything offered; a complete write answered -1 means exactly `limit` bytes are in the file, reached with this block |
| RxLimit.Receive | tools/src/airspyhf_rx.c:301-529 | For every sequence of blocks with complete writes: when it first asks to stop, the file is the first 8n mod 2^64 bytes, which is 8n if and only if n < 2^61 |

## Left out

- BalancerSteps.ApplyRamp: a block of exactly one sample is excluded, because the original then divides zero by zero and the result has no real value.
- Balancer.IqBalancer.Process: a call of exactly one sample is excluded, for the same reason as in ApplyRamp; the `length` argument is always the length of the array, so several calls on parts of one array are several calls.
- Balancer.IqBalancer.StaysInStep: stated for call lengths dividing the working buffer and a fixed non-negative buffers_to_skip, as ProcessAll and FromCreation are; for other lengths TakeBlock says what is dropped.
- Balancer.IqBalancer.Configure: a negative integration count or an overlap below one, which the original would pass on to its allocation and division, is excluded.
- Getopts.Getopt.Next: option strings starting with `-` or `+` and the `W;` extension are excluded (`GetoptScan.Plain`), and with them RETURN_IN_ORDER; the original skips the prefix only on the initialising call, so later calls read another option string.
- Getopts.Getopt.Run: the same option strings; also long options (`longopts` not null), changes to `optind` by the caller between calls, and calls after the first -1.
- RxDigits.ParseU64: the 0b prefix that `strtoull` itself accepts in base 2 from ISO C23 on; the rules are those of C11.
- Tuning.DeltaRoundTrip: exponents above 30, for which the shift in the original is undefined.
- Tuning.Representable: requests whose rounded LO does not fit 32 bits unsigned, for which the conversion in the original is undefined.
- Receivers.Receiver.ConvertSamples: a control call during the conversion; the two are taken as separate steps.
- Receivers.Receiver.SetSamplerate: a rate above 100 that is not supported is taken for an index, as the code does; with more than 100 supported rates it may select one.
- StreamingEngine.StepKeeps: control calls made by a third thread while another one stops the stream, whose event handling could run a callback too.
- StreamingRuns.BoundedShutdown: the user callback is assumed to return; timeouts and the time cancellation takes are not modelled.
- The initial settings of 32-bit ARM builds (buffers to skip 4, integration 2, overlap 1, correlation 4): creation uses those of all other builds, and `Configure` covers any.
- Float rounding, NaN and infinities, and the accuracy of the twiddle constants.
- Weak memory ordering of the volatile flags, calling `airspyhf_stop` from inside the callback, and restarting without a stop.
- `transfer_live` and the waiting loop of `cancel_transfers`: they only decide how long a stop takes.
- The failure path of `create_io_threads` and of the output buffer's allocation, which the original does not check.
- Device discovery, open and close, serial numbers and the flash configuration: calls into libusb without an algorithm.
- Attenuator, LNA, AGC, bias tee and version calls: single control transfers.
- `parse_u32` (the same parser with a truncating store), the WAV header, rate statistics and all command-line text of the tools.
- Error messages of getopt and the flags the GNU C library reads from the environment.
- The other tools and the build files.
