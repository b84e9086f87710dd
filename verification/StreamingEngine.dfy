/** The streaming engine as interleaved atomic steps (libairspyhf/src/airspyhf.c:363-525, 1341-1346): the consumer thread,
    the serialised libusb completion callbacks, the transfer thread and the thread that stops the stream.
    Every read of the volatile flags is a step of its own, so a flag may change between two reads of one condition. */
module StreamingEngine {
  import opened SampleRing
  import opened BufferFlow

  /** Program points of consumer_threadproc; the comment gives the source line and whether the mutex is held. */
  datatype ConsumerPc =
    | Start          // 377, about to lock
    | OuterStreaming // 379, held, about to read streaming
    | OuterStop      // 379, held, about to read stop_requested
    | WaitCount      // 381, held, about to read received_buffer_count
    | WaitStreaming  // 381, held
    | WaitStop       // 381, held
    | AboutToWait    // 383, held
    | Waiting        // 383, inside pthread_cond_wait, not signalled
    | Signalled      // 383, inside pthread_cond_wait, signalled
    | Woken          // 383, about to reacquire the mutex
    | BreakStreaming // 385, held
    | BreakStop      // 385, held
    | Taking         // 390-394, held
    | Converting     // 396-398, not held
    | Calling        // 400-406, not held
    | Refusing       // 408, not held
    | Relocking      // 411-412, about to lock
    | Leaving        // 415, held
    | Unlocking      // 417, held
    | Exited

  /** Program points of airspyhf_libusb_transfer_callback. */
  datatype EventPc = EvIdle | EvStreaming | EvStop | EvStatus | EvLock | EvSubmit | EvFail

  /** Program points of transfer_threadproc. */
  datatype TransferPc = TrStreaming | TrStop | TrHandle | TrFail | TrLeave | TrExited

  /** Program points of airspyhf_stop and kill_io_threads. */
  datatype KillerPc =
    | KIdle | KMode | KTest | KClearStop | KClearStreaming | KCancel | KLock | KSignal | KUnlock
    | KJoinTransfer | KJoinConsumer | KDrain | KReturned

  datatype Holder = Free | ByConsumer | ByKiller

  /** The thread inside a libusb event call that is running the completion callback. */
  datatype Runner = Nobody | TransferThread | StoppingThread

  /** `refused` records that the user callback has returned nonzero. */
  datatype Control = Control(streaming: bool, stop: bool, holder: Holder, cpc: ConsumerPc, epc: EventPc, runner: Runner,
                             tpc: TransferPc, kpc: KillerPc, refused: bool)

  datatype State = State(flow: Flow, ctl: Control)

  /** One step of one party; the parameters are the choices the environment makes. */
  datatype Action =
    | ConsumerStep(refuse: bool)
    | EventStep(who: Runner, submitOk: bool)
    | TransferStep(error: bool)
    | KillerStep
    | Dma(wt: nat, data: Samples)
    | Finishes(ft: nat, ok: bool)

  function Signal(pc: ConsumerPc): ConsumerPc {
    if pc == Waiting then Signalled else pc
  }

  // ---------------------------------------------------------------- consumer

  predicate ConsumerEnabled(s: State) {
    match s.ctl.cpc
    case Start | Woken | Relocking => s.ctl.holder == Free
    case Exited => false
    case _ => true
  }

  function ConsumerNext(s: State, refuse: bool): State
    requires Sound(s.flow) && Linked(s)
  {
    var c, d := s.ctl, s.flow;
    match c.cpc
    case Start => s.(ctl := c.(holder := ByConsumer, cpc := OuterStreaming))
    case OuterStreaming => s.(ctl := c.(cpc := if c.streaming then OuterStop else Leaving))
    case OuterStop => s.(ctl := c.(cpc := if !c.stop then WaitCount else Leaving))
    case WaitCount => s.(ctl := c.(cpc := if d.ring.count == 0 then WaitStreaming else BreakStreaming))
    case WaitStreaming => s.(ctl := c.(cpc := if c.streaming then WaitStop else BreakStreaming))
    case WaitStop => s.(ctl := c.(cpc := if !c.stop then AboutToWait else BreakStreaming))
    case AboutToWait => s.(ctl := c.(holder := Free, cpc := Waiting))
    case Waiting => s.(ctl := c.(cpc := Woken)) // spurious wake-up
    case Signalled => s.(ctl := c.(cpc := Woken))
    case Woken => s.(ctl := c.(holder := ByConsumer, cpc := WaitCount))
    case BreakStreaming => s.(ctl := c.(cpc := if !c.streaming then Leaving else BreakStop))
    case BreakStop => s.(ctl := c.(cpc := if c.stop then Leaving else Taking))
    case Taking => State(Take(d), c.(holder := Free, cpc := Converting))
    case Converting => State(Convert(d), c.(cpc := Calling))
    case Calling => State(Deliver(d), c.(cpc := if refuse then Refusing else Relocking, refused := c.refused || refuse))
    case Refusing => s.(ctl := c.(streaming := false, cpc := Relocking))
    case Relocking => State(Release(d), c.(holder := ByConsumer, cpc := OuterStreaming))
    case Leaving => s.(ctl := c.(streaming := false, cpc := Unlocking))
    case Unlocking => s.(ctl := c.(holder := Free, cpc := Exited))
    case Exited => s
  }

  // ---------------------------------------------------------------- completion callback

  /** A thread handles libusb events only inside one of its libusb calls: the transfer thread in its loop (line 483), the
      stopping thread in the synchronous control calls it makes before and while stopping (line 1345 among them), in
      cancel_transfers (line 506) and in the final event call (line 521). */
  predicate HandlesEvents(c: Control, who: Runner) {
    match who
    case Nobody => false
    case TransferThread => c.tpc == TrHandle
    case StoppingThread => c.kpc in {KIdle, KMode, KCancel, KDrain}
  }

  predicate EventEnabled(s: State, who: Runner) {
    match s.ctl.epc
    case EvIdle => CanBegin(s.flow) && HandlesEvents(s.ctl, who)
    case EvLock => s.ctl.holder == Free && who == s.ctl.runner
    case _ => who == s.ctl.runner
  }

  function EventNext(s: State, who: Runner, submitOk: bool): State
    requires Sound(s.flow) && Linked(s) && EventEnabled(s, who)
  {
    var c, d := s.ctl, s.flow;
    match c.epc
    case EvIdle => State(Begin(d), c.(epc := EvStreaming, runner := who))
    case EvStreaming =>
      if c.streaming then s.(ctl := c.(epc := EvStop)) else State(Abandon(d), c.(epc := EvIdle, runner := Nobody))
    case EvStop =>
      if !c.stop then s.(ctl := c.(epc := EvStatus)) else State(Abandon(d), c.(epc := EvIdle, runner := Nobody))
    case EvStatus => if d.event.f.ok then s.(ctl := c.(epc := EvLock)) else State(Abandon(d), c.(epc := EvFail))
    case EvLock => State(Exchange(d), c.(epc := EvSubmit, cpc := if d.ring.count < SLOTS then Signal(c.cpc) else c.cpc))
    case EvSubmit =>
      State(Resubmit(d, submitOk), if submitOk then c.(epc := EvIdle, runner := Nobody) else c.(epc := EvFail))
    case EvFail => s.(ctl := c.(streaming := false, epc := EvIdle, runner := Nobody))
  }

  // ---------------------------------------------------------------- transfer thread

  predicate TransferEnabled(s: State) {
    s.ctl.tpc != TrExited && s.ctl.runner != TransferThread
  }

  function TransferNext(s: State, error: bool): State {
    var c := s.ctl;
    match c.tpc
    case TrStreaming => s.(ctl := c.(tpc := if c.streaming then TrStop else TrLeave))
    case TrStop => s.(ctl := c.(tpc := if !c.stop then TrHandle else TrLeave))
    case TrHandle => s.(ctl := c.(tpc := if error then TrFail else TrStreaming))
    case TrFail => s.(ctl := c.(streaming := false, tpc := TrStreaming))
    case TrLeave => s.(ctl := c.(streaming := false, tpc := TrExited))
    case TrExited => s
  }

  // ---------------------------------------------------------------- stopping thread

  predicate KillerEnabled(s: State) {
    match s.ctl.kpc
    case KIdle | KMode | KCancel | KDrain => s.ctl.runner != StoppingThread
    case KLock => s.ctl.holder == Free
    case KJoinTransfer => s.ctl.tpc == TrExited
    case KJoinConsumer => s.ctl.cpc == Exited
    case KReturned => false
    case _ => true
  }

  function KillerNext(s: State): State {
    var c := s.ctl;
    match c.kpc
    case KIdle => s.(ctl := c.(stop := true, kpc := KMode)) // 1344
    case KMode => s.(ctl := c.(kpc := KTest)) // 1345
    case KTest => s.(ctl := c.(kpc := if c.stop then KClearStop else KReturned)) // 502
    case KClearStop => s.(ctl := c.(stop := false, kpc := KClearStreaming)) // 504
    case KClearStreaming => s.(ctl := c.(streaming := false, kpc := KCancel)) // 505
    case KCancel => s.(ctl := c.(kpc := KLock)) // 506
    case KLock => s.(ctl := c.(holder := ByKiller, kpc := KSignal)) // 508
    case KSignal => s.(ctl := c.(cpc := Signal(c.cpc), kpc := KUnlock)) // 509
    case KUnlock => s.(ctl := c.(holder := Free, kpc := KJoinTransfer)) // 510
    case KJoinTransfer => s.(ctl := c.(kpc := KJoinConsumer)) // 512-515
    case KJoinConsumer => s.(ctl := c.(kpc := KDrain)) // 516-519
    case KDrain => s.(ctl := c.(kpc := KReturned)) // 521
    case KReturned => s
  }

  // ---------------------------------------------------------------- all steps

  ghost predicate Enabled(s: State, a: Action) {
    match a
    case ConsumerStep(_) => ConsumerEnabled(s)
    case EventStep(who, _) => EventEnabled(s, who)
    case TransferStep(_) => TransferEnabled(s)
    case KillerStep => KillerEnabled(s)
    case Dma(t, _) => CanWrite(s.flow, t)
    case Finishes(t, _) => CanWrite(s.flow, t)
  }

  ghost function Next(s: State, a: Action): State
    requires Inv(s) && Enabled(s, a)
  {
    match a
    case ConsumerStep(refuse) => ConsumerNext(s, refuse)
    case EventStep(who, submitOk) => EventNext(s, who, submitOk)
    case TransferStep(error) => TransferNext(s, error)
    case KillerStep => KillerNext(s)
    case Dma(t, data) => s.(flow := Write(s.flow, t, data))
    case Finishes(t, ok) => CompleteHolds(s.flow, t, ok); s.(flow := Complete(s.flow, t, ok))
  }

  /** The state create_io_threads leaves (lines 534-562): all transfers in flight, the queue empty. */
  ghost predicate Init(s: State) {
    && FlowInit(s.flow)
    && s.ctl == Control(true, false, Free, Start, EvIdle, Nobody, TrStreaming, KIdle, false)
  }

  // ---------------------------------------------------------------- invariant

  predicate HoldsMutex(pc: ConsumerPc) {
    pc in {OuterStreaming, OuterStop, WaitCount, WaitStreaming, WaitStop, AboutToWait, BreakStreaming, BreakStop, Taking,
           Leaving, Unlocking}
  }

  /** The consumer's program point says what it holds, and the callback's what it holds. */
  predicate Linked(s: State) {
    var c, d := s.ctl, s.flow;
    && (d.use.Holding? <==> c.cpc == Converting)
    && (d.use.Ready? <==> c.cpc == Calling)
    && (d.use.Spent? <==> c.cpc in {Refusing, Relocking})
    && (d.event.Handling? <==> c.epc in {EvStreaming, EvStop, EvStatus, EvLock})
    && (d.event.Swapped? <==> c.epc == EvSubmit)
  }

  /** The mutex has one holder, known from the program points. */
  predicate Locked(c: Control) {
    && (c.holder == ByConsumer <==> HoldsMutex(c.cpc))
    && (c.holder == ByKiller <==> c.kpc in {KSignal, KUnlock})
  }

  /** The callback runs exactly while some thread runs it, and that thread stays inside its event call. */
  predicate Running(c: Control) {
    && (c.runner == Nobody <==> c.epc == EvIdle)
    && (c.runner != Nobody ==> HandlesEvents(c, c.runner))
  }

  /** stop_requested is set exactly from airspyhf_stop to line 504, and streaming stays off from line 505 on. */
  predicate Flags(c: Control) {
    && (c.stop <==> c.kpc in {KMode, KTest, KClearStop})
    && (PastClear(c.kpc) ==> !c.streaming)
  }

  predicate PastClear(k: KillerPc) {
    k in {KCancel, KLock, KSignal, KUnlock, KJoinTransfer, KJoinConsumer, KDrain, KReturned}
  }

  /** Line 509 has been executed. */
  predicate PastSignal(k: KillerPc) {
    k in {KUnlock, KJoinTransfer, KJoinConsumer, KDrain, KReturned}
  }

  /** Points the consumer cannot be at once the stopping thread has signalled: those reached by reading streaming as set. */
  predicate Stranded(pc: ConsumerPc) {
    pc in {OuterStop, WaitStop, AboutToWait, Waiting, BreakStop, Taking}
  }

  predicate NotStranded(c: Control) {
    PastSignal(c.kpc) ==> !Stranded(c.cpc)
  }

  /** pthread_join has waited for the threads. */
  predicate Joined(c: Control) {
    && (c.kpc in {KJoinConsumer, KDrain, KReturned} ==> c.tpc == TrExited)
    && (c.kpc in {KDrain, KReturned} ==> c.cpc == Exited)
  }

  /** After the user callback has returned nonzero the consumer is on its way out. */
  predicate Refused(c: Control) {
    c.refused ==> c.cpc == Refusing || (!c.streaming && c.cpc in {Relocking, OuterStreaming, Leaving, Unlocking, Exited})
  }

  /** Line 504 has been executed. */
  predicate PastStop(k: KillerPc) {
    k == KClearStreaming || PastClear(k)
  }

  /** How the consumer can be past its wait loop with nothing queued: it left the loop because of a flag. */
  predicate EmptyOnlyByFlag(s: State) {
    var c := s.ctl;
    s.flow.ring.count <= 0 ==>
      && (c.cpc == BreakStreaming ==> !c.streaming || c.kpc != KIdle)
      && (c.cpc == BreakStop ==> c.kpc != KIdle)
      && (c.cpc in {Taking, Converting, Calling, Refusing, Relocking} || s.flow.ring.count < 0 ==> PastStop(c.kpc))
  }

  ghost predicate Inv(s: State) {
    Sound(s.flow) && ControlInv(s)
  }

  predicate ControlInv(s: State) {
    && Linked(s) && Locked(s.ctl) && Running(s.ctl) && Flags(s.ctl) && NotStranded(s.ctl) && Joined(s.ctl) && Refused(s.ctl)
    && EmptyOnlyByFlag(s)
  }

  lemma InitInv(s: State)
    requires Init(s)
    ensures Inv(s) && Exact(s.flow)
  {
    InitHolds(s.flow);
    hide Sound, Exact, FlowInit;
  }

  lemma ConsumerKeeps(s: State, refuse: bool)
    requires Inv(s) && ConsumerEnabled(s)
    ensures Inv(ConsumerNext(s, refuse))
    ensures Exact(s.flow) ==> (Exact(ConsumerNext(s, refuse).flow) <==> !(s.ctl.cpc == Taking && s.flow.ring.count <= 0))
  {
    ConsumerControl(s, refuse);
    hide Sound, Exact, ControlInv, Take, Convert, Deliver, Release;
    match s.ctl.cpc
    case Taking => TakeStep(s.flow);
    case Converting => ConvertStep(s.flow);
    case Calling => DeliverStep(s.flow);
    case Relocking => ReleaseStep(s.flow);
    case _ =>
  }

  lemma ConsumerControl(s: State, refuse: bool)
    requires Inv(s) && ConsumerEnabled(s)
    ensures ControlInv(ConsumerNext(s, refuse))
  {
    hide Sound, Owning, Finishing;
    ConsumerLinked(s, refuse);
    ConsumerLocked(s, refuse);
    ConsumerStopping(s, refuse);
    ConsumerEmpty(s, refuse);
    hide Linked, Locked, Running, Flags, NotStranded, Joined, Refused, EmptyOnlyByFlag, ConsumerNext;
  }

  /** What the data steps do as far as control is concerned. */
  lemma UsePhases(d: Flow)
    requires Sound(d)
    ensures d.use.NotUsing? ==> Take(d).use.Holding? && Take(d).event == d.event && Take(d).ring.count == d.ring.count
    ensures d.use.Holding? ==> Convert(d).use.Ready? && Convert(d).event == d.event && Convert(d).ring == d.ring
    ensures d.use.Ready? ==> Deliver(d).use.Spent? && Deliver(d).event == d.event && Deliver(d).ring == d.ring
    ensures d.use.Spent? ==> Release(d).use.NotUsing? && Release(d).event == d.event && Release(d).ring.count == d.ring.count - 1
  {
    hide Owning, Finishing, Ascending;
  }

  lemma ConsumerLinked(s: State, refuse: bool)
    requires Inv(s) && ConsumerEnabled(s)
    ensures Linked(ConsumerNext(s, refuse))
  {
    hide Locked, Running, Flags, NotStranded, Joined, Refused, EmptyOnlyByFlag;
    ConsumerUse(s, refuse);
    ConsumerEvent(s, refuse);
    hide Sound, ConsumerNext;
  }

  lemma ConsumerUse(s: State, refuse: bool)
    requires Sound(s.flow) && Linked(s) && ConsumerEnabled(s)
    ensures var c, d := ConsumerNext(s, refuse).ctl, ConsumerNext(s, refuse).flow;
            && (d.use.Holding? <==> c.cpc == Converting)
            && (d.use.Ready? <==> c.cpc == Calling)
            && (d.use.Spent? <==> c.cpc in {Refusing, Relocking})
  {
    UsePhases(s.flow);
    hide Take, Convert, Deliver, Release, Sound;
  }

  lemma ConsumerEvent(s: State, refuse: bool)
    requires Sound(s.flow) && Linked(s) && ConsumerEnabled(s)
    ensures var s' := ConsumerNext(s, refuse);
            s'.flow.event == s.flow.event && s'.ctl.epc == s.ctl.epc
  {
    UsePhases(s.flow);
    hide Take, Convert, Deliver, Release, Sound;
  }

  lemma ConsumerLocked(s: State, refuse: bool)
    requires Inv(s) && ConsumerEnabled(s)
    ensures Locked(ConsumerNext(s, refuse).ctl)
  {
    hide Take, Convert, Deliver, Release;
    hide Sound, Linked, Running, Flags, NotStranded, Joined, Refused, EmptyOnlyByFlag;
  }

  lemma ConsumerStopping(s: State, refuse: bool)
    requires Inv(s) && ConsumerEnabled(s)
    ensures var c := ConsumerNext(s, refuse).ctl;
            Running(c) && Flags(c) && NotStranded(c) && Joined(c) && Refused(c)
  {
    hide Sound, Linked, EmptyOnlyByFlag;
  }

  lemma ConsumerEmpty(s: State, refuse: bool)
    requires Inv(s) && ConsumerEnabled(s)
    ensures EmptyOnlyByFlag(ConsumerNext(s, refuse))
  {
    UsePhases(s.flow);
    hide Take, Convert, Deliver, Release;
    hide Sound, Linked, Locked, Running, NotStranded, Joined, Refused;
  }

  lemma EventKeeps(s: State, who: Runner, submitOk: bool)
    requires Inv(s) && EventEnabled(s, who)
    ensures Inv(EventNext(s, who, submitOk))
    ensures Exact(s.flow) ==> Exact(EventNext(s, who, submitOk).flow)
  {
    EventControl(s, who, submitOk);
    hide ControlInv, Sound, Exact, Begin, Abandon, Exchange, Resubmit;
    match s.ctl.epc
    case EvIdle => BeginHolds(s.flow);
    case EvStreaming | EvStop | EvStatus => AbandonHolds(s.flow);
    case EvLock => ExchangeHolds(s.flow);
    case EvSubmit => ResubmitHolds(s.flow, submitOk);
    case _ =>
  }

  lemma EventControl(s: State, who: Runner, submitOk: bool)
    requires Inv(s) && EventEnabled(s, who)
    ensures ControlInv(EventNext(s, who, submitOk))
  {
    EventLinked(s, who, submitOk);
    EventStopping(s, who, submitOk);
    hide Sound, Linked, Locked, Running, Flags, NotStranded, Joined, Refused, EmptyOnlyByFlag, EventNext;
  }

  lemma EventLinked(s: State, who: Runner, submitOk: bool)
    requires Inv(s) && EventEnabled(s, who)
    ensures Linked(EventNext(s, who, submitOk)) && Locked(EventNext(s, who, submitOk).ctl)
  {
    hide Sound, Running, Flags, NotStranded, Joined, Refused, EmptyOnlyByFlag;
  }

  lemma EventStopping(s: State, who: Runner, submitOk: bool)
    requires Inv(s) && EventEnabled(s, who)
    ensures var s' := EventNext(s, who, submitOk);
            Running(s'.ctl) && Flags(s'.ctl) && NotStranded(s'.ctl) && Joined(s'.ctl) && Refused(s'.ctl) && EmptyOnlyByFlag(s')
  {
    hide Sound, Linked, Locked;
  }

  lemma TransferKeeps(s: State, error: bool)
    requires Inv(s) && TransferEnabled(s)
    ensures Inv(TransferNext(s, error)) && TransferNext(s, error).flow == s.flow
  {
    hide Sound;
  }

  lemma KillerKeeps(s: State)
    requires Inv(s) && KillerEnabled(s)
    ensures Inv(KillerNext(s)) && KillerNext(s).flow == s.flow
  {
    KillerLinked(s);
    KillerLocked(s);
    KillerStopping(s);
    hide Sound, Linked, Locked, Running, Flags, NotStranded, Joined, Refused, EmptyOnlyByFlag;
  }

  lemma KillerLinked(s: State)
    requires Inv(s) && KillerEnabled(s)
    ensures Linked(KillerNext(s))
  {
    hide Sound, Locked, Running, Flags, NotStranded, Joined, Refused, EmptyOnlyByFlag;
  }

  lemma KillerLocked(s: State)
    requires Inv(s) && KillerEnabled(s)
    ensures Locked(KillerNext(s).ctl)
  {
    hide Sound, Linked, Running, Flags, NotStranded, Joined, Refused, EmptyOnlyByFlag;
  }

  lemma KillerStopping(s: State)
    requires Inv(s) && KillerEnabled(s)
    ensures var s' := KillerNext(s);
            Running(s'.ctl) && Flags(s'.ctl) && NotStranded(s'.ctl) && Joined(s'.ctl) && Refused(s'.ctl) && EmptyOnlyByFlag(s')
  {
    hide Sound, Linked;
  }

  lemma HardwareKeeps(s: State, a: Action)
    requires Inv(s) && Enabled(s, a) && (a.Dma? || a.Finishes?)
    ensures Inv(Next(s, a)) && (Exact(s.flow) ==> Exact(Next(s, a).flow))
  {
    hide Sound, Exact;
    match a
    case Dma(t, data) => WriteHolds(s.flow, t, data);
    case Finishes(t, ok) => CompleteHolds(s.flow, t, ok);
    case _ =>
  }

  /** The step that takes a slot although nothing is queued. */
  predicate EmptyTake(s: State, a: Action) {
    a.ConsumerStep? && s.ctl.cpc == Taking && s.flow.ring.count <= 0
  }

  /** Every step of every party keeps the invariant, and keeps exactness unless it takes from the empty queue. */
  lemma StepKeeps(s: State, a: Action)
    requires Inv(s) && Enabled(s, a)
    ensures Inv(Next(s, a))
    ensures Exact(s.flow) ==> (Exact(Next(s, a).flow) <==> !EmptyTake(s, a))
  {
    hide Inv, Exact;
    match a
    case ConsumerStep(refuse) => ConsumerKeeps(s, refuse);
    case EventStep(who, ok) => EventKeeps(s, who, ok);
    case TransferStep(error) => TransferKeeps(s, error);
    case KillerStep => KillerKeeps(s);
    case Dma(_, _) => HardwareKeeps(s, a);
    case Finishes(_, _) => HardwareKeeps(s, a);
  }
}
