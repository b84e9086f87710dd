/** That streaming goes on: in every run without a refusing callback, a failing transfer, submission or event call, and
    before any stop, nothing switches it off, every completion reaches the queue, and whatever is queued is delivered
    within a bounded number of the consumer's own steps (libairspyhf/src/airspyhf.c:363-525). */
module StreamingProgress {
  import opened SampleRing
  import opened BufferFlow
  import opened StreamingEngine
  import opened StreamingRuns
  import opened Words

  // ---------------------------------------------------------------- no wake-up is lost

  /** The consumer waits, or is about to, only while the queue is empty. */
  predicate WaitsForMore(s: State) {
    s.ctl.cpc in {WaitStreaming, WaitStop, AboutToWait, Waiting} ==> s.flow.ring.count == 0
  }

  lemma WaitsStep(s: State, a: Action)
    requires Inv(s) && Enabled(s, a) && WaitsForMore(s)
    ensures WaitsForMore(Next(s, a))
  {
    hide Sound, Linked, Running, Flags, NotStranded, Joined, Refused, EmptyOnlyByFlag;
    match a
    case ConsumerStep(refuse) => WaitsConsumer(s, refuse);
    case EventStep(who, ok) => WaitsEvent(s, who, ok);
    case _ =>
  }

  lemma WaitsConsumer(s: State, refuse: bool)
    requires Inv(s) && ConsumerEnabled(s) && WaitsForMore(s)
    ensures WaitsForMore(ConsumerNext(s, refuse))
  {
    hide Sound, Locked, Running, Flags, NotStranded, Joined, Refused, EmptyOnlyByFlag, Take, Convert, Deliver, Release;
  }

  lemma WaitsEvent(s: State, who: Runner, ok: bool)
    requires Inv(s) && EventEnabled(s, who) && WaitsForMore(s)
    ensures WaitsForMore(EventNext(s, who, ok))
  {
    hide Sound, Running, Flags, NotStranded, Joined, Refused, EmptyOnlyByFlag;
  }

  lemma InitWaits(s: State)
    requires Init(s)
    ensures WaitsForMore(s)
  {
  }

  /** In every state of every run, stopped or not. */
  lemma {:induction false} NoLostWakeUp(states: seq<State>, acts: seq<Action>, i: nat)
    requires IsRun(states, acts) && i < |states|
    ensures WaitsForMore(states[i])
    ensures states[i].ctl.cpc == Waiting ==> states[i].flow.ring.count == 0
  {
    hide Inv, Enabled, Next, Exact, Init;
    InitInv(states[0]);
    InitWaits(states[0]);
    if i > 0 {
      NoLostWakeUp(states, acts, i - 1);
      PathInvariant(states, acts, i - 1);
      assert Stepped(states[i - 1], acts[i - 1], states[i]);
      WaitsStep(states[i - 1], acts[i - 1]);
    }
  }

  // ---------------------------------------------------------------- nothing switches streaming off

  /** A step in which the user callback returns zero, the transfer, the submission and the event call succeed, and nobody
      stops the stream. */
  predicate Untroubled(a: Action) {
    match a
    case ConsumerStep(refuse) => !refuse
    case EventStep(_, submitOk) => submitOk
    case TransferStep(error) => !error
    case KillerStep => false
    case Dma(_, _) => true
    case Finishes(_, ok) => ok
  }

  predicate StreamingOn(c: Control) {
    && c.streaming && !c.stop && c.kpc == KIdle && !c.refused
    && c.cpc !in {Refusing, Leaving, Unlocking, Exited} && c.tpc !in {TrFail, TrLeave, TrExited} && c.epc != EvFail
  }

  /** No finished transfer has failed. */
  ghost predicate AllOk(d: Flow) {
    (forall f <- d.usb.finished :: f.ok) && (d.event.Handling? ==> d.event.f.ok)
  }

  /** Every transfer is in flight, waiting for its callback, or in it. */
  ghost predicate NoneIdle(d: Flow) {
    forall t: nat :: t < |d.usb.places| ==> d.usb.places[t] != Idle
  }

  /** Every completion so far is in the history, in the callback, or waiting for it. */
  predicate NoneAbandoned(d: Flow) {
    |d.hist.arrivals| + (if d.event.Handling? then 1 else 0) + |d.usb.finished| == d.usb.completions
  }

  ghost predicate Healthy(s: State) {
    StreamingOn(s.ctl) && AllOk(s.flow) && NoneIdle(s.flow) && NoneAbandoned(s.flow)
  }

  lemma ConsumerHealthy(s: State)
    requires Inv(s) && ConsumerEnabled(s) && Healthy(s)
    ensures Healthy(ConsumerNext(s, false))
  {
    hide Sound, Locked, Running, Flags, NotStranded, Joined, Refused, EmptyOnlyByFlag;
  }

  lemma EventHealthy(s: State, who: Runner)
    requires Inv(s) && EventEnabled(s, who) && Healthy(s)
    ensures Healthy(EventNext(s, who, true))
  {
    EventPlaces(s.flow);
    hide Sound, Locked, Running, Flags, NotStranded, Joined, Refused, EmptyOnlyByFlag;
  }

  lemma HealthyStep(s: State, a: Action)
    requires Inv(s) && Enabled(s, a) && Untroubled(a) && Healthy(s)
    ensures Healthy(Next(s, a))
  {
    hide Sound, Locked, Running, Flags, NotStranded, Joined, Refused, EmptyOnlyByFlag;
    match a
    case ConsumerStep(_) => ConsumerHealthy(s);
    case EventStep(who, _) => EventHealthy(s, who);
    case _ =>
  }

  lemma InitHealthy(s: State)
    requires Init(s)
    ensures Healthy(s)
  {
  }

  ghost predicate UntroubledRun(states: seq<State>, acts: seq<Action>) {
    IsRun(states, acts) && forall a <- acts :: Untroubled(a)
  }

  /** In every state of every untroubled run `streaming` is set and no thread is on its way out. */
  lemma {:induction false} StreamsOn(states: seq<State>, acts: seq<Action>, i: nat)
    requires UntroubledRun(states, acts) && i < |states|
    ensures Inv(states[i]) && Healthy(states[i]) && Exact(states[i].flow) && WaitsForMore(states[i])
    ensures var c := states[i].ctl;
            && c.streaming && !c.stop && c.cpc !in {Refusing, Leaving, Unlocking, Exited}
            && c.tpc !in {TrFail, TrLeave, TrExited}
  {
    hide Inv, Enabled, Next, Exact, Init, AllOk, NoneIdle, NoneAbandoned, WaitsForMore, Untroubled;
    InitInv(states[0]);
    InitHealthy(states[0]);
    if i > 0 {
      StreamsOn(states, acts, i - 1);
      assert Stepped(states[i - 1], acts[i - 1], states[i]) && acts[i - 1] in acts;
      HealthyStep(states[i - 1], acts[i - 1]);
    }
    PathInvariant(states, acts, i);
    NoLostWakeUp(states, acts, i);
    ExactBeforeStop(states, acts, i);
  }

  /** The completions that have reached the queue are the first ones, all of them and in order. */
  lemma CompletionsInOrder(states: seq<State>, acts: seq<Action>, i: nat, k: nat)
    requires UntroubledRun(states, acts) && i < |states| && k < |states[i].flow.hist.arrivals|
    ensures states[i].flow.hist.arrivals[k].number == k
  {
    StreamsOn(states, acts, i);
    var d := states[i].flow;
    hide Owning, Finishing, ControlInv, Exact;
    assert |Numbers(d)| == d.usb.completions;
    FullAscent(Numbers(d), d.usb.completions, k);
    assert Numbers(d)[k] == d.hist.arrivals[k].number;
  }

  /** n ascending numbers below n are 0, 1, ... */
  lemma FullAscent(s: seq<nat>, n: nat, k: nat)
    requires Ascending(s, n) && |s| == n && k < n
    ensures s[k] == k
  {
    AtLeastIndex(s, n, k);
    AtMostIndex(s, n, k);
  }

  lemma {:induction false} AtLeastIndex(s: seq<nat>, n: nat, k: nat)
    requires Ascending(s, n) && k < |s|
    ensures s[k] >= k
  {
    if k > 0 {
      AtLeastIndex(s, n, k - 1);
    }
  }

  lemma {:induction false} AtMostIndex(s: seq<nat>, n: nat, k: nat)
    requires Ascending(s, n) && |s| == n && k < n
    ensures s[k] <= k
    decreases n - k
  {
    if k + 1 < n {
      AtMostIndex(s, n, k + 1);
    }
  }

  // ---------------------------------------------------------------- what switches it off

  /** A thread leaves its loop only if streaming is off or a stop has begun. */
  predicate LeavesForReason(c: Control) {
    c.cpc in {Leaving, Unlocking, Exited} || c.tpc in {TrLeave, TrExited} ==> !c.streaming || c.kpc != KIdle
  }

  lemma LeavesStep(s: State, a: Action)
    requires Inv(s) && Enabled(s, a) && LeavesForReason(s.ctl)
    ensures LeavesForReason(Next(s, a).ctl)
    ensures s.ctl.streaming && !Next(s, a).ctl.streaming ==>
              s.ctl.epc == EvFail || s.ctl.tpc == TrFail || s.ctl.cpc == Refusing || s.ctl.kpc != KIdle
  {
    hide Sound, Linked, Locked, Running, NotStranded, Joined, Refused, EmptyOnlyByFlag;
  }

  lemma {:induction false} LeavesInRun(states: seq<State>, acts: seq<Action>, i: nat)
    requires IsRun(states, acts) && i < |states|
    ensures LeavesForReason(states[i].ctl)
  {
    hide Inv, Enabled, Next, Exact;
    if i > 0 {
      hide Init;
      LeavesInRun(states, acts, i - 1);
      RunInvariant(states, acts);
      assert Stepped(states[i - 1], acts[i - 1], states[i]);
      LeavesStep(states[i - 1], acts[i - 1]);
    }
  }

  /** Nothing but a failed transfer or submission, a failed event call, a refusing callback or a stop does, at once or, for
      the first two, when the callback that met the failure returns. */
  lemma OffOnlyByTrouble(states: seq<State>, acts: seq<Action>, i: nat)
    requires IsRun(states, acts) && i < |acts| && states[i].ctl.streaming && !states[i + 1].ctl.streaming
    ensures var c := states[i].ctl; c.epc == EvFail || c.tpc == TrFail || c.cpc == Refusing || c.kpc != KIdle
  {
    hide Inv, Enabled, Next, Exact, Init;
    RunInvariant(states, acts);
    LeavesInRun(states, acts, i);
    assert Stepped(states[i], acts[i], states[i + 1]);
    LeavesStep(states[i], acts[i]);
  }

  /** And each of them does: the flag is clear once the step that follows the failure has been taken. */
  lemma TroubleSwitchesOff(s: State, a: Action)
    requires Inv(s) && Enabled(s, a)
    ensures var c, c' := s.ctl, Next(s, a).ctl;
            && (a.EventStep? && c.epc == EvStatus && !s.flow.event.f.ok ==> c'.epc == EvFail)
            && (a.EventStep? && c.epc == EvSubmit && !a.submitOk ==> c'.epc == EvFail)
            && (a.TransferStep? && c.tpc == TrHandle && a.error ==> c'.tpc == TrFail)
            && (a.ConsumerStep? && c.cpc == Calling && a.refuse ==> c'.cpc == Refusing)
            && (a.EventStep? && c.epc == EvFail ==> !c'.streaming)
            && (a.TransferStep? && c.tpc in {TrFail, TrLeave} ==> !c'.streaming)
            && (a.ConsumerStep? && c.cpc in {Refusing, Leaving} ==> !c'.streaming)
            && (c.epc == EvFail ==> a.EventStep? || c'.epc == EvFail)
            && (c.tpc == TrFail ==> a.TransferStep? || c'.tpc == TrFail)
            && (c.cpc == Refusing ==> a.ConsumerStep? || c'.cpc == Refusing)
  {
    hide Sound, Locked, Running, Flags, NotStranded, Joined, Refused, EmptyOnlyByFlag;
  }

  lemma OffStep(s: State, a: Action)
    requires Inv(s) && Enabled(s, a) && !s.ctl.streaming
    ensures !Next(s, a).ctl.streaming
  {
    hide Sound, Linked, Locked, Running, Flags, NotStranded, Joined, Refused, EmptyOnlyByFlag;
  }

  /** Once off, it stays off. */
  lemma {:induction false} OffForGood(states: seq<State>, acts: seq<Action>, i: nat, j: nat)
    requires IsRun(states, acts) && i <= j < |states| && !states[i].ctl.streaming
    ensures !states[j].ctl.streaming
  {
    hide Inv, Enabled, Next, Exact, Init;
    if i < j {
      OffForGood(states, acts, i, j - 1);
      RunInvariant(states, acts);
      assert Stepped(states[j - 1], acts[j - 1], states[j]);
      OffStep(states[j - 1], acts[j - 1]);
    }
  }

  // ---------------------------------------------------------------- stop_requested is obeyed

  /** Steps the consumer can still take while stop_requested reads true. */
  function ConsumerLeft(pc: ConsumerPc): nat {
    match pc
    case Exited => 0
    case Unlocking => 1
    case Leaving => 2
    case OuterStop | BreakStop => 3
    case OuterStreaming | BreakStreaming => 4
    case Start | Relocking | WaitStop => 5
    case Refusing | WaitStreaming => 6
    case Calling | WaitCount => 7
    case Converting | Woken => 8
    case Taking | Signalled | Waiting => 9
    case AboutToWait => 10
  }

  function TransferLeft(pc: TransferPc): nat {
    match pc
    case TrExited => 0
    case TrLeave => 1
    case TrStop => 2
    case TrStreaming => 3
    case TrFail => 4
    case TrHandle => 5
  }

  /** Deliveries and arrivals, counting the one that is past the check of the flag. */
  function DeliveriesDue(s: State): nat {
    |s.flow.hist.delivered| + if s.ctl.cpc in {Taking, Converting, Calling} then 1 else 0
  }

  function ArrivalsDue(s: State): nat {
    |s.flow.hist.arrivals| + if s.ctl.epc in {EvStatus, EvLock} then 1 else 0
  }

  lemma StopStep(s: State, a: Action)
    requires Inv(s) && Enabled(s, a) && s.ctl.stop && Next(s, a).ctl.stop
    ensures var s' := Next(s, a);
            && ConsumerLeft(s'.ctl.cpc) + (if a.ConsumerStep? then 1 else 0) <= ConsumerLeft(s.ctl.cpc)
            && TransferLeft(s'.ctl.tpc) + (if a.TransferStep? then 1 else 0) <= TransferLeft(s.ctl.tpc)
            && DeliveriesDue(s') <= DeliveriesDue(s) && ArrivalsDue(s') <= ArrivalsDue(s)
  {
    match a
    case ConsumerStep(refuse) => StopConsumer(s, refuse);
    case EventStep(who, ok) => StopEvent(s, who, ok);
    case _ => hide Sound, Linked, Locked, Running, Flags, NotStranded, Joined, Refused, EmptyOnlyByFlag;
  }

  lemma StopConsumer(s: State, refuse: bool)
    requires Inv(s) && ConsumerEnabled(s) && s.ctl.stop
    ensures var s' := ConsumerNext(s, refuse);
            && ConsumerLeft(s'.ctl.cpc) < ConsumerLeft(s.ctl.cpc) && s'.ctl.tpc == s.ctl.tpc
            && DeliveriesDue(s') <= DeliveriesDue(s) && ArrivalsDue(s') == ArrivalsDue(s)
  {
    hide Sound, Locked, Running, Flags, NotStranded, Joined, Refused, EmptyOnlyByFlag;
  }

  lemma StopEvent(s: State, who: Runner, ok: bool)
    requires Inv(s) && EventEnabled(s, who) && s.ctl.stop
    ensures var s' := EventNext(s, who, ok);
            && ConsumerLeft(s'.ctl.cpc) <= ConsumerLeft(s.ctl.cpc) && s'.ctl.tpc == s.ctl.tpc
            && DeliveriesDue(s') == DeliveriesDue(s) && ArrivalsDue(s') <= ArrivalsDue(s)
  {
    hide Owning, Finishing, Ascending, Locked, Running, Flags, NotStranded, Joined, Refused, EmptyOnlyByFlag;
  }

  function CountTransfer(acts: seq<Action>): nat {
    if |acts| == 0 then 0 else CountTransfer(acts[..|acts| - 1]) + if acts[|acts| - 1].TransferStep? then 1 else 0
  }

  /** While stop_requested is set, in any interleaving, the consumer takes at most 10 more steps and the transfer thread at
      most 5 before they exit, at most one more buffer is delivered and at most one more completion is queued. */
  lemma {:induction false} StopObeyed(states: seq<State>, acts: seq<Action>)
    requires IsPath(states, acts) && Inv(states[0]) && forall s <- states :: s.ctl.stop
    ensures var first, last := states[0], states[|acts|];
            && CountConsumer(acts) + ConsumerLeft(last.ctl.cpc) <= ConsumerLeft(first.ctl.cpc) <= 10
            && CountTransfer(acts) + TransferLeft(last.ctl.tpc) <= TransferLeft(first.ctl.tpc) <= 5
            && DeliveriesDue(last) <= DeliveriesDue(first) && ArrivalsDue(last) <= ArrivalsDue(first)
            && |last.flow.hist.delivered| <= |first.flow.hist.delivered| + 1
            && |last.flow.hist.arrivals| <= |first.flow.hist.arrivals| + 1
  {
    hide Inv, Enabled, Next;
    if |acts| > 0 {
      var n := |acts| - 1;
      var states', acts' := states[..n + 1], acts[..n];
      assert forall s <- states' :: s in states;
      assert IsPath(states', acts') by {
        forall i: nat | i < |acts'|
          ensures Stepped(states'[i], acts'[i], states'[i + 1])
        {
          assert Stepped(states[i], acts[i], states[i + 1]);
        }
      }
      StopObeyed(states', acts');
      PathInvariant(states, acts, n);
      assert Stepped(states[n], acts[n], states[n + 1]) && states[n] in states && states[n + 1] in states;
      hide ConsumerLeft, TransferLeft;
      StopStep(states[n], acts[n]);
    }
  }

  // ---------------------------------------------------------------- what is queued is delivered

  /** The consumer's own steps up to the next callback, once something is queued. */
  function ToCallback(pc: ConsumerPc): nat {
    match pc
    case Calling => 1
    case Converting => 2
    case Taking => 3
    case BreakStop => 4
    case BreakStreaming => 5
    case WaitCount => 6
    case OuterStop | Woken => 7
    case OuterStreaming | Signalled => 8
    case _ => 9
  }

  /** The consumer's own steps until n buffers have been delivered. */
  function DeliveryWork(s: State, n: nat): nat {
    var done := |s.flow.hist.delivered|;
    if done >= n then 0 else 9 * (n - 1 - done) + ToCallback(s.ctl.cpc)
  }

  /** What the steps below need of a state of an untroubled run. */
  ghost predicate Flowing(s: State) {
    Inv(s) && Healthy(s) && Exact(s.flow) && WaitsForMore(s)
  }

  lemma Queued(s: State, n: nat)
    requires Flowing(s) && |s.flow.hist.delivered| < n <= |s.flow.hist.accepted|
    ensures s.ctl.cpc !in {WaitStreaming, WaitStop, AboutToWait, Waiting}
    ensures s.flow.use.NotUsing? ==> s.flow.ring.count > 0
  {
    LossAccounting(s.flow);
    hide Sound, Exact, CountedDrops, NoneWrapped, Locked, Running, Flags, NotStranded, Joined, Refused, EmptyOnlyByFlag;
  }

  lemma ConsumerDelivers(s: State, n: nat)
    requires Flowing(s) && ConsumerEnabled(s) && n <= |s.flow.hist.accepted|
    ensures var s' := ConsumerNext(s, false);
            && |s'.flow.hist.accepted| == |s.flow.hist.accepted|
            && DeliveryWork(s', n) <= if DeliveryWork(s, n) == 0 then 0 else DeliveryWork(s, n) - 1
  {
    ConsumerHistory(s);
    if |s.flow.hist.delivered| < n {
      Queued(s, n);
      hide Inv, Exact, AllOk, NoneIdle, NoneAbandoned;
      ConsumerAdvances(s);
    }
  }

  lemma ConsumerHistory(s: State)
    requires Inv(s) && ConsumerEnabled(s)
    ensures var h, h' := s.flow.hist, ConsumerNext(s, false).flow.hist;
            && h'.accepted == h.accepted
            && |h'.delivered| == |h.delivered| + if s.ctl.cpc == Calling then 1 else 0
  {
    hide Sound, Locked, Running, Flags, NotStranded, Joined, Refused, EmptyOnlyByFlag;
  }

  /** With the flags as they are and something queued, each step leads towards the callback. */
  lemma ConsumerAdvances(s: State)
    requires Inv(s) && StreamingOn(s.ctl) && s.ctl.cpc !in {WaitStreaming, WaitStop, AboutToWait, Waiting}
    requires s.flow.use.NotUsing? ==> s.flow.ring.count > 0
    ensures var pc, pc' := s.ctl.cpc, ConsumerNext(s, false).ctl.cpc;
            if pc == Calling then pc' == Relocking else ToCallback(pc') < ToCallback(pc)
  {
    hide Sound, Locked, Running, Flags, NotStranded, Joined, Refused, EmptyOnlyByFlag, Take, Convert, Deliver, Release;
  }

  lemma EventDelivers(s: State, who: Runner, n: nat)
    requires Flowing(s) && EventEnabled(s, who) && n <= |s.flow.hist.accepted|
    ensures var s' := EventNext(s, who, true);
            |s'.flow.hist.accepted| >= |s.flow.hist.accepted| && DeliveryWork(s', n) <= DeliveryWork(s, n)
  {
    if |s.flow.hist.delivered| < n {
      Queued(s, n);
    }
    hide Exact, Locked, Running, Flags, NotStranded, Joined, Refused, EmptyOnlyByFlag, AllOk, NoneIdle, NoneAbandoned;
    hide Owning, Ascending;
  }

  lemma StepDelivers(s: State, a: Action, n: nat)
    requires Flowing(s) && Enabled(s, a) && Untroubled(a) && n <= |s.flow.hist.accepted|
    ensures var s' := Next(s, a);
            && |s'.flow.hist.accepted| >= n
            && DeliveryWork(s', n) + (if a.ConsumerStep? && DeliveryWork(s, n) > 0 then 1 else 0) <= DeliveryWork(s, n)
  {
    hide Inv, Exact, WaitsForMore, Healthy, DeliveryWork;
    match a
    case ConsumerStep(_) => ConsumerDelivers(s, n);
    case EventStep(who, _) => EventDelivers(s, who, n);
    case _ => SameWork(s, a, n);
  }

  lemma SameWork(s: State, a: Action, n: nat)
    requires Inv(s) && Enabled(s, a) && Untroubled(a) && !a.ConsumerStep? && !a.EventStep?
    ensures DeliveryWork(Next(s, a), n) == DeliveryWork(s, n)
    ensures |Next(s, a).flow.hist.accepted| == |s.flow.hist.accepted|
  {
    hide Sound, ControlInv;
  }

  /** A consumer with something to deliver is never stuck: it can always take its next step. */
  lemma NeverStuck(s: State, n: nat)
    requires Flowing(s)
    ensures s.ctl.cpc == Waiting || ConsumerEnabled(s)
    ensures |s.flow.hist.delivered| < |s.flow.hist.accepted| ==> s.ctl.cpc != Waiting && ConsumerEnabled(s)
  {
    if |s.flow.hist.delivered| < |s.flow.hist.accepted| {
      Queued(s, |s.flow.hist.accepted|);
    }
    hide Sound, Exact, Linked, Running, Flags, NotStranded, Joined, Refused, EmptyOnlyByFlag, AllOk, NoneIdle, NoneAbandoned;
  }

  /** In any interleaving: from state i on, n more buffers of those queued by then have been delivered after at most 9n of
      the consumer's own steps, and until then it can take the next one. */
  lemma {:induction false} DeliveryBound(states: seq<State>, acts: seq<Action>, i: nat, j: nat, n: nat)
    requires UntroubledRun(states, acts) && i <= j < |states| && n <= |states[i].flow.hist.accepted|
    ensures n <= |states[j].flow.hist.accepted|
    ensures var steps, work := CountConsumer(acts[i..j]), DeliveryWork(states[i], n);
            if steps < work then DeliveryWork(states[j], n) + steps <= work else |states[j].flow.hist.delivered| >= n
    ensures |states[j].flow.hist.delivered| < n ==> ConsumerEnabled(states[j])
  {
    hide Inv, Exact, WaitsForMore, Healthy, Enabled, Next, Untroubled, Init, ConsumerEnabled, ToCallback;
    StreamsOn(states, acts, j);
    if i < j {
      var s, a, s' := states[j - 1], acts[j - 1], states[j];
      DeliveryBound(states, acts, i, j - 1, n);
      StreamsOn(states, acts, j - 1);
      assert Stepped(s, a, s') && a in acts;
      StepDelivers(s, a, n);
      assert acts[i..j][..j - i - 1] == acts[i..j - 1];
    }
    WorkLeft(states[j], n);
    if |states[j].flow.hist.delivered| < n {
      NeverStuck(states[j], n);
    }
  }

  lemma WorkLeft(s: State, n: nat)
    ensures DeliveryWork(s, n) == 0 <==> |s.flow.hist.delivered| >= n
    ensures DeliveryWork(s, n) <= if |s.flow.hist.delivered| >= n then 0 else 9 * (n - |s.flow.hist.delivered|)
  {
  }

  /** So nine of its steps per buffer are enough. */
  lemma DeliveredWithin(states: seq<State>, acts: seq<Action>, i: nat, j: nat, n: nat)
    requires UntroubledRun(states, acts) && i <= j < |states|
    requires |states[i].flow.hist.delivered| + n <= |states[i].flow.hist.accepted| && CountConsumer(acts[i..j]) >= 9 * n
    ensures |states[j].flow.hist.delivered| >= |states[i].flow.hist.delivered| + n
  {
    hide UntroubledRun, DeliveryWork, CountConsumer;
    var target := |states[i].flow.hist.delivered| + n;
    DeliveryBound(states, acts, i, j, target);
    WorkLeft(states[i], target);
  }

  // ---------------------------------------------------------------- what completes is queued

  /** Callback steps up to the next lock region. */
  function ToQueue(pc: EventPc): nat {
    match pc
    case EvLock => 1
    case EvStatus => 2
    case EvStop => 3
    case EvStreaming => 4
    case EvIdle => 5
    case EvSubmit | EvFail => 6
  }

  /** Callback steps until n completions have reached the queue. */
  function QueueWork(s: State, n: nat): nat {
    var done := |s.flow.hist.arrivals|;
    if done >= n then 0 else 6 * (n - 1 - done) + ToQueue(s.ctl.epc)
  }

  lemma EventQueues(s: State, who: Runner, n: nat)
    requires Inv(s) && Healthy(s) && EventEnabled(s, who)
    ensures QueueWork(EventNext(s, who, true), n) <= if QueueWork(s, n) == 0 then 0 else QueueWork(s, n) - 1
  {
    hide Owning, Ascending, Locked, Running, Flags, NotStranded, Joined, Refused, EmptyOnlyByFlag, NoneIdle, NoneAbandoned;
  }

  lemma StepQueues(s: State, a: Action, n: nat)
    requires Inv(s) && Healthy(s) && Enabled(s, a) && Untroubled(a)
    ensures QueueWork(Next(s, a), n) + (if a.EventStep? && QueueWork(s, n) > 0 then 1 else 0) <= QueueWork(s, n)
  {
    match a
    case ConsumerStep(_) => ConsumerQueues(s, n);
    case EventStep(who, _) =>
      hide Inv, Healthy, QueueWork;
      EventQueues(s, who, n);
    case _ => hide Sound, ControlInv, Healthy;
  }

  lemma ConsumerQueues(s: State, n: nat)
    requires Inv(s) && ConsumerEnabled(s)
    ensures QueueWork(ConsumerNext(s, false), n) == QueueWork(s, n)
  {
    hide Sound, Locked, Running, Flags, NotStranded, Joined, Refused, EmptyOnlyByFlag;
  }

  /** In any interleaving: n further completions are in the history after at most 6n steps of the completion callback. */
  lemma {:induction false} QueueBound(states: seq<State>, acts: seq<Action>, i: nat, j: nat, n: nat)
    requires UntroubledRun(states, acts) && i <= j < |states|
    ensures var steps, work := CountCallbacks(acts[i..j]), QueueWork(states[i], n);
            if steps < work then QueueWork(states[j], n) + steps <= work else |states[j].flow.hist.arrivals| >= n
  {
    hide Inv, Exact, WaitsForMore, Healthy, Enabled, Next, Untroubled, Init, ToQueue;
    if i < j {
      var s, a, s' := states[j - 1], acts[j - 1], states[j];
      QueueBound(states, acts, i, j - 1, n);
      StreamsOn(states, acts, j - 1);
      assert Stepped(s, a, s') && a in acts;
      StepQueues(s, a, n);
      assert acts[i..j][..j - i - 1] == acts[i..j - 1];
    }
    QueueLeft(states[j], n);
  }

  lemma QueueLeft(s: State, n: nat)
    ensures QueueWork(s, n) == 0 <==> |s.flow.hist.arrivals| >= n
    ensures QueueWork(s, n) <= if |s.flow.hist.arrivals| >= n then 0 else 6 * (n - |s.flow.hist.arrivals|)
  {
  }

  lemma QueuedWithin(states: seq<State>, acts: seq<Action>, i: nat, j: nat, n: nat)
    requires UntroubledRun(states, acts) && i <= j < |states| && CountCallbacks(acts[i..j]) >= 6 * n
    ensures |states[j].flow.hist.arrivals| >= |states[i].flow.hist.arrivals| + n
  {
    hide UntroubledRun, QueueWork, CountCallbacks;
    var target := |states[i].flow.hist.arrivals| + n;
    QueueBound(states, acts, i, j, target);
    QueueLeft(states[i], target);
  }

  // ---------------------------------------------------------------- only a full queue loses anything

  /** All arrivals so far got a slot. */
  ghost predicate NoneLost(h: History) {
    |h.accepted| == |h.arrivals| && forall i: nat :: i < |h.accepted| ==> h.accepted[i] == i
  }

  lemma NothingLostStep(s: State, a: Action)
    requires Inv(s) && Enabled(s, a) && NoneLost(s.flow.hist) && s.flow.ring.count < 8
    ensures NoneLost(Next(s, a).flow.hist)
  {
    hide Owning, Finishing, Ascending, Locked, Running, Flags, NotStranded, Joined, Refused, EmptyOnlyByFlag;
  }

  lemma InitNoneLost(s: State)
    requires Init(s)
    ensures NoneLost(s.flow.hist)
  {
  }

  lemma {:induction false} NothingLost(states: seq<State>, acts: seq<Action>, i: nat)
    requires IsRun(states, acts) && i < |states|
    requires forall k: nat :: k < i ==> states[k].flow.ring.count < 8
    ensures NoneLost(states[i].flow.hist)
  {
    hide Inv, Enabled, Next, Exact, Init, NoneLost;
    InitNoneLost(states[0]);
    if i > 0 {
      NothingLost(states, acts, i - 1);
      PathInvariant(states, acts, i - 1) by { RunInvariant(states, acts); }
      assert Stepped(states[i - 1], acts[i - 1], states[i]);
      NothingLostStep(states[i - 1], acts[i - 1]);
    }
  }

  /** A consumer that always leaves one of the eight slots free gets every completion: callback k is given completion k,
      with no loss reported. */
  lemma NthCallbackGetsNthCompletion(states: seq<State>, acts: seq<Action>, i: nat, k: nat)
    requires UntroubledRun(states, acts) && i < |states| && k < |states[i].flow.hist.delivered|
    requires forall j: nat :: j < i ==> states[j].flow.ring.count < 8
    ensures var h := states[i].flow.hist;
            && k < |h.arrivals| && h.arrivals[k].number == k
            && h.delivered[k].data == h.arrivals[k].data && h.delivered[k].dropped == 0
  {
    hide Inv, Healthy, WaitsForMore, Enabled, Next, Init;
    StreamsOn(states, acts, i);
    NothingLost(states, acts, i);
    var h := states[i].flow.hist;
    hide RingHolds, UsingNext;
    assert h.delivered[k] == Expected(h, k);
    assert k > 0 ==> h.accepted[k - 1] == k - 1;
    CompletionsInOrder(states, acts, i, k);
  }
}
