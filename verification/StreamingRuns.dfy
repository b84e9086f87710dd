/** Theorems about every run of the streaming engine. */
module StreamingRuns {
  import opened SampleRing
  import opened BufferFlow
  import opened StreamingEngine
  import opened DeviceBuffers

  /** One enabled step. `Next` is defined where `Inv` holds; a state outside it may be followed by anything here, and
      `PathInvariant` shows that there is none. */
  ghost predicate Stepped(s: State, a: Action, s': State) {
    Inv(s) ==> Enabled(s, a) && s' == Next(s, a)
  }

  ghost predicate IsPath(states: seq<State>, acts: seq<Action>) {
    |states| == |acts| + 1 && forall i: nat :: i < |acts| ==> Stepped(states[i], acts[i], states[i + 1])
  }

  ghost predicate IsRun(states: seq<State>, acts: seq<Action>) {
    IsPath(states, acts) && Init(states[0])
  }

  lemma {:induction false} PathInvariant(states: seq<State>, acts: seq<Action>, i: nat)
    requires IsPath(states, acts) && Inv(states[0]) && i < |states|
    ensures Inv(states[i])
  {
    hide Inv, Enabled, Next;
    if i > 0 {
      PathInvariant(states, acts, i - 1);
      assert Stepped(states[i - 1], acts[i - 1], states[i]);
      StepKeeps(states[i - 1], acts[i - 1]);
    }
  }

  lemma RunInvariant(states: seq<State>, acts: seq<Action>)
    requires IsRun(states, acts)
    ensures forall i: nat :: i < |states| ==> Inv(states[i])
  {
    hide Inv, Exact, Init;
    InitInv(states[0]);
    forall i: nat | i < |states|
      ensures Inv(states[i])
    {
      PathInvariant(states, acts, i);
    }
  }

  // ---------------------------------------------------------------- ownership

  lemma StepKeepsPool(s: State, a: Action)
    requires Inv(s) && Enabled(s, a)
    ensures Next(s, a).flow.pool == s.flow.pool
  {
    hide Sound, Exact, ControlInv;
  }

  lemma {:induction false} PoolConstant(states: seq<State>, acts: seq<Action>, i: nat)
    requires IsPath(states, acts) && Inv(states[0]) && i < |states|
    ensures states[i].flow.pool == states[0].flow.pool
  {
    hide Inv, Enabled, Next;
    if i > 0 {
      PoolConstant(states, acts, i - 1);
      PathInvariant(states, acts, i - 1);
      assert Stepped(states[i - 1], acts[i - 1], states[i]);
      StepKeepsPool(states[i - 1], acts[i - 1]);
    }
  }

  /** In every state of every run the 8 slots and 16 transfers hold 24 pairwise distinct buffers, always the same set. */
  lemma OwnershipConserved(states: seq<State>, acts: seq<Action>, i: nat)
    requires IsRun(states, acts) && i < |states|
    ensures var d := states[i].flow;
            && |d.ring.queue| == 8 && |d.usb.bufs| == 16 && |Owned(d)| == 24 && Distinct(Owned(d))
            && (set b | b in Owned(d)) == (set b | b in Owned(states[0].flow))
  {
    RunInvariant(states, acts);
    assert Inv(states[i]) && Inv(states[0]);
    PoolConstant(states, acts, i);
  }

  /** What FreeTransfers frees after any run, from the transfers and then from the slots: every buffer the allocation made,
      once, and nothing else. */
  lemma ReleasedAfterRun(states: seq<State>, acts: seq<Action>, i: nat, b: nat)
    requires IsRun(states, acts) && i < |states| && 0 !in Owned(states[0].flow)
    ensures var d := states[i].flow;
            multiset(NonNull(d.usb.bufs) + NonNull(d.ring.queue))[b] == if b in Owned(states[0].flow) then 1 else 0
  {
    hide IsRun, NonNull;
    OwnershipConserved(states, acts, i);
    var d, owned := states[i].flow, Owned(states[i].flow);
    SameMembers(states, acts, i, b);
    SameMembers(states, acts, i, 0);
    if b in owned {
      ReleasedExactlyOnce(d.ring.queue, d.usb.bufs, b);
    } else {
      NonNullIdentity(d.ring.queue);
      NonNullIdentity(d.usb.bufs);
    }
  }

  lemma SameMembers(states: seq<State>, acts: seq<Action>, i: nat, b: nat)
    requires IsRun(states, acts) && i < |states|
    ensures b in Owned(states[i].flow) <==> b in Owned(states[0].flow)
  {
    hide Enabled, Next, Exact, ControlInv, Init;
    RunInvariant(states, acts);
    PoolConstant(states, acts, i);
    InPool(states[i].flow, b);
    InPool(states[0].flow, b);
  }

  lemma InPool(d: Flow, b: nat)
    requires Owning(d)
    ensures b in Owned(d) <==> b in d.pool
  {
    hide Owned;
  }

  // ---------------------------------------------------------------- exact delivery, and its exact condition

  ghost predicate TakesFromEmpty(states: seq<State>, acts: seq<Action>)
    requires |states| == |acts| + 1
  {
    exists i: nat :: i < |acts| && EmptyTake(states[i], acts[i])
  }

  lemma {:induction false} ExactUntil(states: seq<State>, acts: seq<Action>, i: nat)
    requires IsRun(states, acts) && i < |states|
    requires forall k: nat :: k < i ==> !EmptyTake(states[k], acts[k])
    ensures Exact(states[i].flow)
  {
    hide Inv, Exact, Init, Enabled, Next, EmptyTake;
    InitInv(states[0]);
    if i > 0 {
      ExactUntil(states, acts, i - 1);
      PathInvariant(states, acts, i - 1);
      assert Stepped(states[i - 1], acts[i - 1], states[i]);
      StepKeeps(states[i - 1], acts[i - 1]);
    }
  }

  /** Exactness holds throughout a run if and only if the consumer never passes line 385 with nothing queued. */
  lemma ExactIffNoEmptyTake(states: seq<State>, acts: seq<Action>)
    requires IsRun(states, acts)
    ensures (forall i: nat :: i < |states| ==> Exact(states[i].flow)) <==> !TakesFromEmpty(states, acts)
  {
    hide Inv, Exact, Init, Enabled, Next, EmptyTake;
    RunInvariant(states, acts);
    if TakesFromEmpty(states, acts) {
      var i: nat :| i < |acts| && EmptyTake(states[i], acts[i]);
      assert Stepped(states[i], acts[i], states[i + 1]);
      StepKeeps(states[i], acts[i]);
      assert !Exact(states[i].flow) || !Exact(states[i + 1].flow);
    } else {
      forall i: nat | i < |states|
        ensures Exact(states[i].flow)
      {
        ExactUntil(states, acts, i);
      }
    }
  }

  /** An empty take needs a stop in progress: line 504 has cleared stop_requested and line 508 has not got the mutex. */
  lemma EmptyTakeWindow(s: State, a: Action)
    requires Inv(s) && EmptyTake(s, a)
    ensures s.ctl.kpc in {KClearStreaming, KCancel, KLock} && !s.ctl.stop
  {
    hide Sound;
  }

  lemma StopStable(s: State, a: Action)
    requires Inv(s) && Enabled(s, a) && PastStop(s.ctl.kpc)
    ensures PastStop(Next(s, a).ctl.kpc)
  {
    hide Sound, Exact, ControlInv;
  }

  lemma {:induction false} NotPastStopBefore(states: seq<State>, acts: seq<Action>, k: nat, i: nat)
    requires IsRun(states, acts) && k <= i < |states| && !PastStop(states[i].ctl.kpc)
    ensures !PastStop(states[k].ctl.kpc)
    decreases i - k
  {
    hide Inv, Init, Enabled, Next, PastStop;
    if k < i {
      NotPastStopBefore(states, acts, k + 1, i);
      RunInvariant(states, acts);
      assert Stepped(states[k], acts[k], states[k + 1]);
      if PastStop(states[k].ctl.kpc) {
        StopStable(states[k], acts[k]);
      }
    }
  }

  /** Until a stop has reached line 504, every interleaving is exact: each callback gets the contents its transfer
      completed with, in completion order with the loss reported, and never a buffer that is attached to a transfer. */
  lemma ExactBeforeStop(states: seq<State>, acts: seq<Action>, i: nat)
    requires IsRun(states, acts) && i < |states| && !PastStop(states[i].ctl.kpc)
    ensures Exact(states[i].flow)
    ensures ConvertsDetached(states[i])
  {
    RunInvariant(states, acts);
    hide Init, Exact, Enabled, Next, Sound, ControlInv;
    forall k: nat | k < i
      ensures !EmptyTake(states[k], acts[k])
    {
      NotPastStopBefore(states, acts, k, i);
      if EmptyTake(states[k], acts[k]) {
        EmptyTakeWindow(states[k], acts[k]);
      }
    }
    ExactUntil(states, acts, i);
    ConvertingHolds(states[i]);
  }

  /** While the consumer converts outside the lock, its buffer is attached to no transfer. */
  ghost predicate ConvertsDetached(s: State) {
    s.ctl.cpc == Converting ==>
      s.flow.use.Holding? && forall t: nat :: t < |s.flow.usb.bufs| ==> s.flow.usb.bufs[t] != s.flow.use.input
  }

  lemma ConvertingHolds(s: State)
    requires Inv(s) && Exact(s.flow)
    ensures ConvertsDetached(s)
  {
    if s.ctl.cpc == Converting {
      forall t: nat | t < |s.flow.usb.bufs|
        ensures s.flow.usb.bufs[t] != s.flow.use.input
      {
        ConvertedBufferIsSafe(s.flow, t);
      }
    }
  }

  // ---------------------------------------------------------------- shutdown

  /** Steps the consumer can still take once line 509 has been executed. */
  function ConsumerRank(pc: ConsumerPc): nat {
    match pc
    case Exited => 0
    case Unlocking => 1
    case Leaving => 2
    case OuterStreaming | BreakStreaming => 3
    case Start | Relocking | WaitStreaming => 4
    case Refusing | WaitCount => 5
    case Calling | Woken => 6
    case Converting | Signalled => 7
    case _ => 8
  }

  function TransferRank(pc: TransferPc): nat {
    match pc
    case TrExited => 0
    case TrLeave => 1
    case TrStreaming => 2
    case TrFail => 3
    case TrHandle => 4
    case TrStop => 5
  }

  function KillerRank(pc: KillerPc): nat {
    match pc
    case KReturned => 0
    case KDrain => 1
    case KJoinConsumer => 2
    case KJoinTransfer => 3
    case KUnlock => 4
    case _ => 5
  }

  function Rank(c: Control): nat {
    ConsumerRank(c.cpc) + TransferRank(c.tpc) + KillerRank(c.kpc)
  }

  predicate IsThreadStep(a: Action) {
    a.ConsumerStep? || a.TransferStep? || a.KillerStep?
  }

  /** After the signal every step of the consumer, of the transfer thread and of the stopping thread brings that thread
      closer to its end, nothing moves it back, and no further buffer is taken. */
  lemma ShutdownStep(s: State, a: Action)
    requires Inv(s) && Enabled(s, a) && PastSignal(s.ctl.kpc)
    ensures var c, c' := s.ctl, Next(s, a).ctl;
            && PastSignal(c'.kpc) && !c'.streaming && ConsumerRank(c.cpc) <= 7
            && ConsumerRank(c'.cpc) <= ConsumerRank(c.cpc) - (if a.ConsumerStep? then 1 else 0)
            && Rank(c') <= Rank(c) - (if IsThreadStep(a) then 1 else 0)
            && s.ctl.cpc != Taking
  {
    match a
    case ConsumerStep(refuse) => ShutdownConsumer(s, refuse);
    case EventStep(who, ok) => ShutdownEvent(s, who, ok);
    case _ => hide Sound, Linked, Locked, Joined, Refused, EmptyOnlyByFlag;
  }

  lemma ShutdownConsumer(s: State, refuse: bool)
    requires Inv(s) && ConsumerEnabled(s) && PastSignal(s.ctl.kpc)
    ensures var c, c' := s.ctl, ConsumerNext(s, refuse).ctl;
            && c'.kpc == c.kpc && c'.tpc == c.tpc && !c'.streaming && ConsumerRank(c.cpc) <= 7
            && ConsumerRank(c'.cpc) < ConsumerRank(c.cpc) && c.cpc != Taking
  {
    hide Sound, Linked, Locked, Joined, Refused, EmptyOnlyByFlag;
  }

  lemma ShutdownEvent(s: State, who: Runner, ok: bool)
    requires Inv(s) && EventEnabled(s, who) && PastSignal(s.ctl.kpc)
    ensures var c, c' := s.ctl, EventNext(s, who, ok).ctl;
            && c'.kpc == c.kpc && c'.tpc == c.tpc && c'.cpc == c.cpc && !c'.streaming && ConsumerRank(c.cpc) <= 7
  {
    hide Sound, Linked, Locked, Joined, Refused, EmptyOnlyByFlag;
  }

  /** A completion callback is running and can go on. */
  predicate CallbackEnabled(s: State) {
    s.ctl.epc != EvIdle && EventEnabled(s, s.ctl.runner)
  }

  /** The consumer is never stuck after the signal: if it has not exited it can step, or the stopping thread is about to
      release the mutex; and until the stop has returned one of the three threads can step, in its own code or in the
      completion callback it is running. */
  lemma ShutdownProgress(s: State)
    requires Inv(s) && PastSignal(s.ctl.kpc)
    ensures s.ctl.cpc != Waiting
    ensures s.ctl.cpc != Exited ==> ConsumerEnabled(s) || (s.ctl.kpc == KUnlock && KillerEnabled(s))
    ensures s.ctl.kpc != KReturned ==>
              ConsumerEnabled(s) || TransferEnabled(s) || KillerEnabled(s) || CallbackEnabled(s)
    ensures s.ctl.kpc == KReturned ==> s.ctl.cpc == Exited && s.ctl.tpc == TrExited && s.ctl.epc == EvIdle
  {
    hide Sound, Linked, Flags, Refused, EmptyOnlyByFlag;
  }

  /** Steps the running callback can still take, and what a resubmission can add. */
  function CallbackRank(pc: EventPc): nat {
    match pc
    case EvIdle => 0
    case EvFail => 1
    case EvStreaming => 2
    case EvSubmit => 4
    case EvLock => 5
    case EvStatus => 6
    case EvStop => 7
  }

  predicate Live(p: Place) {
    p == InFlight || p == Finished
  }

  /** Transfers whose callback is still to come. */
  function LiveCount(places: seq<Place>): (n: nat)
    ensures n <= |places|
  {
    if |places| == 0 then 0 else LiveCount(places[..|places| - 1]) + if Live(places[|places| - 1]) then 1 else 0
  }

  lemma {:induction false} LiveUpdate(places: seq<Place>, t: nat, p: Place)
    requires t < |places|
    ensures LiveCount(places[t := p])
            == LiveCount(places) - (if Live(places[t]) then 1 else 0) + if Live(p) then 1 else 0
  {
    var n := |places| - 1;
    if t < n {
      LiveUpdate(places[..n], t, p);
      assert places[t := p][..n] == places[..n][t := p];
    } else {
      assert places[t := p][..n] == places[..n];
    }
  }

  /** Callback steps that can still happen. */
  function CallbackWork(s: State): nat {
    3 * LiveCount(s.flow.usb.places) + CallbackRank(s.ctl.epc)
  }

  /** Every callback step uses some of it up, and no other step adds to it. */
  lemma CallbackStep(s: State, a: Action)
    requires Inv(s) && Enabled(s, a) && PastSignal(s.ctl.kpc)
    ensures CallbackWork(Next(s, a)) <= CallbackWork(s) - (if a.EventStep? then 1 else 0)
  {
    match a
    case ConsumerStep(refuse) => ConsumerLeavesWork(s, refuse);
    case EventStep(who, ok) => CallbackProgress(s, who, ok);
    case Finishes(t, ok) =>
      LiveUpdate(s.flow.usb.places, t, Finished);
      hide Inv, LiveCount;
    case _ => hide Inv, LiveCount;
  }

  lemma ConsumerLeavesWork(s: State, refuse: bool)
    requires Inv(s) && ConsumerEnabled(s)
    ensures ConsumerNext(s, refuse).flow.usb == s.flow.usb && ConsumerNext(s, refuse).ctl.epc == s.ctl.epc
  {
    hide Sound, Locked, Running, Flags, NotStranded, Joined, Refused, EmptyOnlyByFlag;
  }

  lemma CallbackProgress(s: State, who: Runner, ok: bool)
    requires Inv(s) && EventEnabled(s, who) && PastSignal(s.ctl.kpc)
    ensures CallbackWork(EventNext(s, who, ok)) < CallbackWork(s)
  {
    hide Inv, EventNext, CallbackWork, PastSignal;
    match s.ctl.epc
    case EvIdle => CallbackBegins(s, who, ok);
    case EvSubmit => CallbackResubmits(s, who, ok);
    case EvFail => CallbackFails(s, who, ok);
    case _ => CallbackHandles(s, who, ok);
  }

  lemma CallbackBegins(s: State, who: Runner, ok: bool)
    requires Inv(s) && EventEnabled(s, who) && s.ctl.epc == EvIdle
    ensures CallbackWork(EventNext(s, who, ok)) < CallbackWork(s)
  {
    var d := s.flow;
    EventPlaces(d);
    LiveUpdate(d.usb.places, d.usb.finished[0].t, Handled);
    hide Inv, LiveCount, Live, Begin;
  }

  lemma CallbackResubmits(s: State, who: Runner, ok: bool)
    requires Inv(s) && EventEnabled(s, who) && s.ctl.epc == EvSubmit
    ensures CallbackWork(EventNext(s, who, ok)) < CallbackWork(s)
  {
    var d := s.flow;
    EventPlaces(d);
    LiveUpdate(d.usb.places, d.event.st, if ok then InFlight else Idle);
    hide Inv, LiveCount, Live, Resubmit;
  }

  lemma CallbackFails(s: State, who: Runner, ok: bool)
    requires Inv(s) && EventEnabled(s, who) && s.ctl.epc == EvFail
    ensures CallbackWork(EventNext(s, who, ok)) < CallbackWork(s)
  {
    hide Inv, LiveCount;
  }

  /** The flags are clear, so a callback that has not yet read them returns at once. */
  lemma CallbackHandles(s: State, who: Runner, ok: bool)
    requires Inv(s) && EventEnabled(s, who) && PastSignal(s.ctl.kpc)
    requires s.ctl.epc in {EvStreaming, EvStop, EvStatus, EvLock}
    ensures CallbackWork(EventNext(s, who, ok)) < CallbackWork(s)
  {
    var d := s.flow;
    EventPlaces(d);
    LiveUpdate(d.usb.places, d.event.f.t, Idle);
    hide Sound, Locked, Running, NotStranded, Joined, Refused, EmptyOnlyByFlag, LiveCount, Live, Abandon, Exchange;
  }

  /** Where the transfer of the next or the running callback is, and goes. */
  lemma EventPlaces(d: Flow)
    requires Sound(d)
    ensures d.event.Handling? ==> d.event.f.t < |d.usb.places| && d.usb.places[d.event.f.t] == Handled
    ensures d.event.Swapped? ==> d.event.st < |d.usb.places| && d.usb.places[d.event.st] == Handled
    ensures CanBegin(d) ==> d.usb.places[d.usb.finished[0].t] == Finished
    ensures Live(InFlight) && Live(Finished) && !Live(Handled) && !Live(Idle)
    ensures CanBegin(d) ==> Begin(d).usb.places == d.usb.places[d.usb.finished[0].t := Handled]
    ensures d.event.Handling? ==> Abandon(d).usb.places == d.usb.places[d.event.f.t := Idle]
    ensures d.event.Handling? && RingShape(d.ring) && d.event.f.t < |d.usb.bufs| ==> Exchange(d).usb.places == d.usb.places
    ensures forall ok :: d.event.Swapped? ==>
              Resubmit(d, ok).usb.places == d.usb.places[d.event.st := if ok then InFlight else Idle]
  {
    hide Owning, Ascending;
    if CanBegin(d) {
      assert HoldsData(d, d.usb.finished[0], Finished);
    }
  }

  function CountConsumer(acts: seq<Action>): nat {
    if |acts| == 0 then 0 else CountConsumer(acts[..|acts| - 1]) + if acts[|acts| - 1].ConsumerStep? then 1 else 0
  }

  function CountThreads(acts: seq<Action>): nat {
    if |acts| == 0 then 0 else CountThreads(acts[..|acts| - 1]) + if IsThreadStep(acts[|acts| - 1]) then 1 else 0
  }

  function CountCallbacks(acts: seq<Action>): nat {
    if |acts| == 0 then 0 else CountCallbacks(acts[..|acts| - 1]) + if acts[|acts| - 1].EventStep? then 1 else 0
  }

  /** Shutdown is bounded: from the signal on, in any interleaving, the consumer takes at most 7 more steps, the three
      threads together at most 16 in their own code and at most 55 in completion callbacks; by ShutdownProgress the stop
      has returned and both threads have exited when none of these is left. */
  lemma {:induction false} BoundedShutdown(states: seq<State>, acts: seq<Action>)
    requires IsPath(states, acts) && Inv(states[0]) && PastSignal(states[0].ctl.kpc)
    ensures var last := states[|acts|];
            && Inv(last) && PastSignal(last.ctl.kpc) && !Stranded(last.ctl.cpc)
            && CountConsumer(acts) + ConsumerRank(last.ctl.cpc) <= ConsumerRank(states[0].ctl.cpc) <= 7
            && CountThreads(acts) + Rank(last.ctl) <= Rank(states[0].ctl) <= 16
            && CountCallbacks(acts) + CallbackWork(last) <= CallbackWork(states[0]) <= 55
  {
    hide Enabled, Next, Sound, ConsumerRank, TransferRank, KillerRank, CallbackWork;
    if |acts| == 0 {
      RanksBounded(states[0]);
    } else {
      var n := |acts| - 1;
      var states', acts' := states[..n + 1], acts[..n];
      assert IsPath(states', acts') by {
        forall i: nat | i < |acts'|
          ensures Stepped(states'[i], acts'[i], states'[i + 1])
        {
          assert Stepped(states[i], acts[i], states[i + 1]);
        }
      }
      BoundedShutdown(states', acts');
      assert Stepped(states[n], acts[n], states[n + 1]);
      hide Stepped, Inv;
      LastStep(states[n], acts[n], states[n + 1]);
    }
  }

  lemma RanksBounded(s: State)
    requires Inv(s) && PastSignal(s.ctl.kpc)
    ensures !Stranded(s.ctl.cpc) && ConsumerRank(s.ctl.cpc) <= 7 && Rank(s.ctl) <= 16 && CallbackWork(s) <= 55
  {
    assert |s.flow.usb.places| == TRANSFERS;
    hide Sound, Linked, Locked, Running, Joined, Refused, EmptyOnlyByFlag, LiveCount;
  }

  lemma LastStep(s: State, a: Action, s': State)
    requires Inv(s) && Stepped(s, a, s') && PastSignal(s.ctl.kpc)
    ensures Inv(s') && PastSignal(s'.ctl.kpc) && !Stranded(s'.ctl.cpc)
    ensures ConsumerRank(s'.ctl.cpc) <= ConsumerRank(s.ctl.cpc) - (if a.ConsumerStep? then 1 else 0)
    ensures Rank(s'.ctl) <= Rank(s.ctl) - (if IsThreadStep(a) then 1 else 0)
    ensures CallbackWork(s') <= CallbackWork(s) - (if a.EventStep? then 1 else 0)
  {
    hide Inv, Enabled, Next, Exact, CallbackWork;
    StepKeeps(s, a);
    ShutdownStep(s, a);
    CallbackStep(s, a);
    RanksBounded(s');
  }

  // ---------------------------------------------------------------- a callback that refuses is the last one

  lemma RefusalStep(s: State, a: Action)
    requires Inv(s) && Enabled(s, a) && s.ctl.refused
    ensures Next(s, a).ctl.refused && Next(s, a).flow.hist.delivered == s.flow.hist.delivered
  {
    hide Sound, Linked, Locked, Flags, NotStranded, Joined, EmptyOnlyByFlag;
  }

  /** Once the user callback has returned nonzero it is never called again. */
  lemma {:induction false} NoCallbackAfterRefusal(states: seq<State>, acts: seq<Action>, i: nat)
    requires IsPath(states, acts) && Inv(states[0]) && states[0].ctl.refused && i < |states|
    ensures states[i].ctl.refused && states[i].flow.hist.delivered == states[0].flow.hist.delivered
  {
    hide Inv, Enabled, Next;
    if i > 0 {
      NoCallbackAfterRefusal(states, acts, i - 1);
      PathInvariant(states, acts, i - 1);
      assert Stepped(states[i - 1], acts[i - 1], states[i]);
      RefusalStep(states[i - 1], acts[i - 1]);
    }
  }

  // ---------------------------------------------------------------- the interleaving that is not exact

  /** Some sequence of enabled steps leads from s to s'. */
  ghost predicate Leads(s: State, s': State) {
    exists states: seq<State>, acts: seq<Action> ::
      IsPath(states, acts) && states[0] == s && states[|acts|] == s'
  }

  lemma LeadsSelf(s: State)
    ensures Leads(s, s)
  {
    var states, acts: seq<Action> := [s], [];
    assert IsPath(states, acts) && states[0] == s && states[|acts|] == s;
  }

  lemma LeadsStep(s: State, m: State, a: Action)
    requires Leads(s, m) && Inv(m) && Enabled(m, a)
    ensures Leads(s, Next(m, a)) && Inv(Next(m, a))
  {
    hide Inv, Enabled, Next, Exact;
    StepKeeps(m, a);
    var states: seq<State>, acts: seq<Action> :| IsPath(states, acts) && states[0] == s && states[|acts|] == m;
    var states', acts' := states + [Next(m, a)], acts + [a];
    forall i: nat | i < |acts'|
      ensures Stepped(states'[i], acts'[i], states'[i + 1])
    {
      if i < |acts| {
        assert Stepped(states[i], acts[i], states[i + 1]);
      }
    }
    assert IsPath(states', acts') && states'[0] == s && states'[|acts'|] == Next(m, a);
  }

  /** The consumer waits with nothing queued; the stopping thread sets stop_requested, the consumer leaves its wait loop
      because of it, and line 504 clears it again before line 385 reads it. */
  lemma RaceToTake(s0: State) returns (s: State)
    requires Init(s0)
    ensures Leads(s0, s) && Inv(s)
    ensures s == State(s0.flow, Control(true, false, ByConsumer, Taking, EvIdle, Nobody, TrHandle, KClearStreaming, false))
  {
    hide Inv, Init, Leads;
    InitInv(s0);
    LeadsSelf(s0);
    assert s0.ctl == Control(true, false, Free, Start, EvIdle, Nobody, TrStreaming, KIdle, false) by { InitControl(s0); }
    InitFlow(s0);
    s := RacePoll(s0);
    s := RaceWait(s0, s);
    s := RaceStop(s0, s);
  }

  /** The transfer thread enters its event call. */
  lemma RacePoll(s0: State) returns (s: State)
    requires Leads(s0, s0) && Inv(s0)
    requires s0.ctl == Control(true, false, Free, Start, EvIdle, Nobody, TrStreaming, KIdle, false)
    ensures Leads(s0, s) && Inv(s)
    ensures s == State(s0.flow, Control(true, false, Free, Start, EvIdle, Nobody, TrHandle, KIdle, false))
  {
    hide Inv, Leads, EventNext, ConsumerNext, KillerNext;
    LeadsStep(s0, s0, TransferStep(false));
    var s1 := Next(s0, TransferStep(false));
    LeadsStep(s0, s1, TransferStep(false));
    s := Next(s1, TransferStep(false));
  }

  lemma InitControl(s0: State)
    requires Init(s0)
    ensures s0.ctl == Control(true, false, Free, Start, EvIdle, Nobody, TrStreaming, KIdle, false)
  {
  }

  lemma InitFlow(s0: State)
    requires Init(s0)
    ensures s0.flow.ring.count == 0
  {
  }

  lemma RaceWait(s0: State, m: State) returns (s: State)
    requires Leads(s0, m) && Inv(m) && m.flow == s0.flow && s0.flow.ring.count == 0
    requires m.ctl == Control(true, false, Free, Start, EvIdle, Nobody, TrHandle, KIdle, false)
    ensures Leads(s0, s) && Inv(s)
    ensures s == State(s0.flow, Control(true, false, ByConsumer, WaitStop, EvIdle, Nobody, TrHandle, KIdle, false))
  {
    hide Inv, Leads, EventNext, TransferNext, KillerNext;
    var c := ConsumerStep(false);
    LeadsStep(s0, m, c);
    var s1 := Next(m, c);
    LeadsStep(s0, s1, c);
    var s2 := Next(s1, c);
    LeadsStep(s0, s2, c);
    var s3 := Next(s2, c);
    LeadsStep(s0, s3, c);
    var s4 := Next(s3, c);
    LeadsStep(s0, s4, c);
    s := Next(s4, c);
  }

  lemma RaceStop(s0: State, m: State) returns (s: State)
    requires Leads(s0, m) && Inv(m) && m.flow == s0.flow && s0.flow.ring.count == 0
    requires m.ctl == Control(true, false, ByConsumer, WaitStop, EvIdle, Nobody, TrHandle, KIdle, false)
    ensures Leads(s0, s) && Inv(s)
    ensures s == State(s0.flow, Control(true, false, ByConsumer, Taking, EvIdle, Nobody, TrHandle, KClearStreaming, false))
  {
    hide Inv, Leads, EventNext, TransferNext;
    var c := ConsumerStep(false);
    LeadsStep(s0, m, KillerStep);
    var s1 := Next(m, KillerStep);
    LeadsStep(s0, s1, c);
    var s2 := Next(s1, c);
    LeadsStep(s0, s2, KillerStep);
    var s3 := Next(s2, KillerStep);
    LeadsStep(s0, s3, KillerStep);
    var s4 := Next(s3, KillerStep);
    LeadsStep(s0, s4, KillerStep);
    var s5 := Next(s4, KillerStep);
    LeadsStep(s0, s5, c);
    var s6 := Next(s5, c);
    LeadsStep(s0, s6, c);
    s := Next(s6, c);
  }

  /** The flow after the empty take, a completion of transfer 0, its callback, and its resubmission. */
  ghost function RaceFlow(d: Flow): Flow
    requires RingShape(d.ring) && d.event.NoEvent? && d.usb.finished == [] && CanWrite(d, 0) && d.usb.bufs[0] in d.mem
  {
    var d1 := Complete(Take(d), 0, true);
    Resubmit(Exchange(Begin(d1)), true)
  }

  lemma RaceFlowIs(d: Flow)
    requires FlowInit(d)
    ensures RingShape(d.ring) && d.event.NoEvent? && d.usb.finished == [] && CanWrite(d, 0) && d.usb.bufs[0] in d.mem
    ensures var d' := RaceFlow(d);
            && d'.use.Holding? && d'.usb.bufs[0] == d'.use.input && d'.usb.places[0] == InFlight && |d'.usb.bufs| > 0
            && |d'.hist.arrivals| == 1 && d'.hist.accepted == [0] && d'.ring.count == 1
  {
    OwnedAt(d, 0, 0);
  }

  lemma RaceConvert(s0: State, m: State) returns (s: State)
    requires Init(s0) && Leads(s0, m) && Inv(m)
    requires m == State(s0.flow, Control(true, false, ByConsumer, Taking, EvIdle, Nobody, TrHandle, KClearStreaming, false))
    ensures Leads(s0, s) && Inv(s) && s.ctl.cpc == Converting
    ensures FlowInit(s0.flow)
    ensures RingShape(s0.flow.ring) && s0.flow.event.NoEvent? && s0.flow.usb.finished == [] && CanWrite(s0.flow, 0)
    ensures s0.flow.usb.bufs[0] in s0.flow.mem && s.flow == RaceFlow(s0.flow)
  {
    RaceFlowIs(s0.flow);
    hide Inv, Leads, TransferNext, KillerNext, FlowInit, Exact;
    var d0 := s0.flow;
    LeadsStep(s0, m, ConsumerStep(false));
    var s1 := Next(m, ConsumerStep(false));
    assert s1 == State(Take(d0), Control(true, false, Free, Converting, EvIdle, Nobody, TrHandle, KClearStreaming, false));
    LeadsStep(s0, s1, Finishes(0, true));
    var s2 := Next(s1, Finishes(0, true));
    assert s2 == State(Complete(Take(d0), 0, true), s1.ctl);
    s := RaceCallback(s0, s2);
  }

  /** The transfer thread runs the completion callback through while the stopping thread stands at line 505. */
  lemma RaceCallback(s0: State, m: State) returns (s: State)
    requires Leads(s0, m) && Inv(m)
    requires m.ctl == Control(true, false, Free, Converting, EvIdle, Nobody, TrHandle, KClearStreaming, false)
    requires CanBegin(m.flow) && m.flow.usb.finished[0].ok && m.flow.ring.count < SLOTS
    requires m.flow.usb.finished[0].t < |m.flow.usb.bufs| && RingShape(m.flow.ring)
    ensures Leads(s0, s) && Inv(s)
    ensures s == State(Resubmit(Exchange(Begin(m.flow)), true), m.ctl)
  {
    hide Inv, Leads, TransferNext, KillerNext, ConsumerNext, Resubmit, Exchange;
    var e := EventStep(TransferThread, true);
    LeadsStep(s0, m, e);
    var s1 := Next(m, e);
    LeadsStep(s0, s1, e);
    var s2 := Next(s1, e);
    LeadsStep(s0, s2, e);
    var s3 := Next(s2, e);
    LeadsStep(s0, s3, e);
    var s4 := Next(s3, e);
    LeadsStep(s0, s4, e);
    var s5 := Next(s4, e);
    LeadsStep(s0, s5, e);
    s := Next(s5, e);
  }

  /** From there the consumer converts a buffer that no transfer ever filled, and a completion in the same window attaches
      that very buffer to a transfer in flight: both safety properties fail in this interleaving. */
  lemma EmptyTakeReachable(s0: State) returns (s: State)
    requires Init(s0)
    ensures Leads(s0, s) && s.ctl.cpc == Converting && s.flow.use.Holding?
    ensures |s.flow.usb.bufs| > 0 && |s.flow.usb.places| > 0
    ensures s.flow.usb.bufs[0] == s.flow.use.input && s.flow.usb.places[0] == InFlight
    ensures !ConvertsDetached(s) && !Exact(s.flow)
  {
    hide Init, Leads, Exact, Inv;
    var m := RaceToTake(s0);
    s := RaceConvert(s0, m);
    RaceFlowIs(s0.flow);
    assert !ConvertsDetached(s);
    if Exact(s.flow) {
      ConvertingHolds(s);
    }
  }
}
