/** Where the sample buffers are while the engine streams: 8 in the queue, 16 attached to transfers, one of the queued
    ones read by the consumer outside the lock (libairspyhf/src/airspyhf.c:379-413, 422-469). */
module BufferFlow {
  import opened SampleRing
  import opened Words

  const TRANSFERS: nat := 16

  datatype Place = InFlight | Finished | Handled | Idle

  /** A transfer libusb has finished: its outcome, the contents it completed with, and its place in completion order. */
  datatype Finish = Finish(t: nat, ok: bool, data: Samples, number: nat)

  datatype Usb = Usb(bufs: seq<nat>, places: seq<Place>, finished: seq<Finish>, completions: nat)

  /** What the consumer holds between taking a slot and releasing it. */
  datatype Use = NotUsing | Holding(input: nat, dropped: nat) | Ready(out: Samples, outDropped: nat) | Spent

  /** What the completion callback holds. */
  datatype Event = NoEvent | Handling(f: Finish) | Swapped(st: nat)

  datatype Flow = Flow(ring: Ring, usb: Usb, mem: map<nat, Samples>, hist: History, pool: set<nat>, use: Use, event: Event)

  function Owned(d: Flow): seq<nat> {
    d.ring.queue + d.usb.bufs
  }

  ghost predicate Distinct(s: seq<nat>) {
    forall i: nat, j: nat :: i < j < |s| ==> s[i] != s[j]
  }

  function InUse(u: Use): nat {
    if u.NotUsing? then 0 else 1
  }

  function TakenCount(d: Flow): nat {
    |d.hist.delivered| + if d.use.Holding? || d.use.Ready? then 1 else 0
  }

  // ---------------------------------------------------------------- invariant

  /** 24 distinct buffers, always the same ones. */
  ghost predicate Owning(d: Flow) {
    && |d.ring.queue| == SLOTS && |d.usb.bufs| == |d.usb.places| == TRANSFERS
    && Distinct(Owned(d))
    && (set b | b in Owned(d)) == d.pool
    && d.pool <= d.mem.Keys
  }

  ghost predicate HoldsData(d: Flow, f: Finish, p: Place) {
    && f.t < |d.usb.bufs| && f.t < |d.usb.places|
    && d.usb.places[f.t] == p
    && d.usb.bufs[f.t] in d.mem && d.mem[d.usb.bufs[f.t]] == f.data
  }

  /** Finished transfers keep the contents they completed with until the callback has swapped them out. */
  ghost predicate Finishing(d: Flow) {
    && (forall i: nat :: i < |d.usb.finished| ==> HoldsData(d, d.usb.finished[i], Finished))
    && (forall i: nat, j: nat :: i < j < |d.usb.finished| ==> d.usb.finished[i].t != d.usb.finished[j].t)
    && (d.event.Handling? ==> HoldsData(d, d.event.f, Handled))
    && (d.event.Swapped? ==> d.event.st < |d.usb.places| && d.usb.places[d.event.st] == Handled)
  }

  /** Completion numbers of everything past the callback, in the callback, and waiting for it, in that order. */
  function Numbers(d: Flow): seq<nat> {
    ArrivalNumbers(d.hist.arrivals) + (if d.event.Handling? then [d.event.f.number] else []) + FinishNumbers(d.usb.finished)
  }

  function ArrivalNumbers(a: seq<Arrival>): (s: seq<nat>)
    ensures |s| == |a|
  {
    seq(|a|, i requires 0 <= i < |a| => a[i].number)
  }

  function FinishNumbers(a: seq<Finish>): (s: seq<nat>)
    ensures |s| == |a|
  {
    seq(|a|, i requires 0 <= i < |a| => a[i].number)
  }

  ghost predicate Ascending(s: seq<nat>, bound: nat) {
    && (forall i: nat, j: nat :: i < j < |s| ==> s[i] < s[j])
    && (forall i: nat :: i < |s| ==> s[i] < bound)
  }

  /** What the consumer holds is exactly the next accepted arrival. */
  ghost predicate UsingNext(d: Flow)
    requires Increasing(d.hist) && RingShape(d.ring)
  {
    var n := |d.hist.delivered|;
    && (d.use.Holding? ==>
          && d.use.input == d.ring.queue[UsedSlot(d.ring)]
          && n < |d.hist.accepted| && d.use.input in d.mem
          && Delivery(d.mem[d.use.input], d.use.dropped) == Expected(d.hist, n))
    && (d.use.Ready? ==> n < |d.hist.accepted| && Delivery(d.use.out, d.use.outDropped) == Expected(d.hist, n))
  }

  /** Every callback so far got exactly the next accepted arrival, with the loss just before it. */
  ghost predicate DeliveredExactly(h: History) {
    && Increasing(h) && |h.delivered| <= |h.accepted|
    && forall i: nat :: i < |h.delivered| ==> h.delivered[i] == Expected(h, i)
  }

  /** The part that holds in every reachable state. */
  ghost predicate Sound(d: Flow) {
    && Owning(d) && Finishing(d) && RingShape(d.ring)
    && Ascending(Numbers(d), d.usb.completions)
    && (d.use.Holding? ==> d.use.input in d.mem)
  }

  /** The part that holds as long as the consumer never takes from an empty queue. */
  ghost predicate Exact(d: Flow) {
    && RingHolds(d.ring, d.hist, d.mem, InUse(d.use), TakenCount(d))
    && UsingNext(d) && DeliveredExactly(d.hist)
  }

  ghost predicate FlowInit(d: Flow) {
    && Owning(d)
    && d.ring == Ring(d.ring.queue, [0, 0, 0, 0, 0, 0, 0, 0], 0, 0, 0, 0)
    && (forall t: nat :: t < TRANSFERS ==> d.usb.places[t] == InFlight) && d.usb.finished == [] && d.usb.completions == 0
    && d.hist == History([], [], []) && d.use == NotUsing && d.event == NoEvent
  }

  lemma InitHolds(d: Flow)
    requires FlowInit(d)
    ensures Sound(d) && Exact(d)
  {
  }

  // ---------------------------------------------------------------- steps

  /** The controller writes into a buffer attached to a transfer in flight. */
  predicate CanWrite(d: Flow, t: nat) {
    t < |d.usb.places| && t < |d.usb.bufs| && d.usb.places[t] == InFlight
  }

  function Write(d: Flow, t: nat, data: Samples): Flow
    requires CanWrite(d, t)
  {
    d.(mem := d.mem[d.usb.bufs[t] := data])
  }

  /** A transfer in flight finishes, successfully or not. */
  function Complete(d: Flow, t: nat, ok: bool): Flow
    requires CanWrite(d, t) && d.usb.bufs[t] in d.mem
  {
    var u := d.usb;
    var f := Finish(t, ok, d.mem[u.bufs[t]], u.completions);
    d.(usb := u.(places := u.places[t := Finished], finished := u.finished + [f], completions := u.completions + 1))
  }

  /** libusb calls the callback for the oldest finished transfer. */
  predicate CanBegin(d: Flow) {
    d.event.NoEvent? && |d.usb.finished| > 0 && d.usb.finished[0].t < |d.usb.places|
  }

  function Begin(d: Flow): Flow
    requires CanBegin(d)
  {
    var f := d.usb.finished[0];
    d.(usb := d.usb.(places := d.usb.places[f.t := Handled], finished := d.usb.finished[1..]), event := Handling(f))
  }

  /** Lines 428-431 and 465-468: the callback returns without queueing; the transfer stays out of flight. */
  function Abandon(d: Flow): Flow
    requires d.event.Handling? && d.event.f.t < |d.usb.places|
  {
    d.(usb := d.usb.(places := d.usb.places[d.event.f.t := Idle]), event := NoEvent)
  }

  /** Lines 435-456: the callback's lock region. */
  function Exchange(d: Flow): Flow
    requires d.event.Handling? && d.event.f.t < |d.usb.bufs| && RingShape(d.ring)
  {
    var f := d.event.f;
    var b := d.usb.bufs[f.t];
    d.(ring := Arrive(d.ring, b), usb := d.usb.(bufs := d.usb.bufs[f.t := Returned(d.ring, b)]),
       hist := Arrived(d.ring, d.hist, Arrival(f.data, f.number)), event := Swapped(f.t))
  }

  /** Lines 458-463: the transfer goes back into flight, or submission fails. */
  function Resubmit(d: Flow, ok: bool): Flow
    requires d.event.Swapped? && d.event.st < |d.usb.places|
  {
    d.(usb := d.usb.(places := d.usb.places[d.event.st := if ok then InFlight else Idle]), event := NoEvent)
  }

  /** Lines 390-392. */
  function Take(d: Flow): Flow
    requires RingShape(d.ring)
  {
    d.(ring := Taken(d.ring), use := Holding(d.ring.queue[d.ring.tail], d.ring.dropq[d.ring.tail]))
  }

  /** Line 398: the conversion reads the taken buffer, outside the lock. */
  function Convert(d: Flow): Flow
    requires d.use.Holding? && d.use.input in d.mem
  {
    d.(use := Ready(d.mem[d.use.input], d.use.dropped))
  }

  /** Line 406. */
  function Deliver(d: Flow): Flow
    requires d.use.Ready?
  {
    d.(hist := d.hist.(delivered := d.hist.delivered + [Delivery(d.use.out, d.use.outDropped)]), use := Spent)
  }

  /** Line 412. */
  function Release(d: Flow): Flow
    requires d.use.Spent?
  {
    d.(ring := Released(d.ring), use := NotUsing)
  }

  // ---------------------------------------------------------------- preservation

  lemma OwnedAt(d: Flow, i: nat, t: nat)
    requires Owning(d) && i < SLOTS && t < TRANSFERS
    ensures d.ring.queue[i] != d.usb.bufs[t]
    ensures d.ring.queue[i] in d.mem && d.usb.bufs[t] in d.mem
  {
    assert Owned(d)[i] == d.ring.queue[i] && Owned(d)[SLOTS + t] == d.usb.bufs[t];
  }

  lemma BufsDiffer(d: Flow, t: nat, t': nat)
    requires Owning(d) && t < TRANSFERS && t' < TRANSFERS && t != t'
    ensures d.usb.bufs[t] != d.usb.bufs[t']
  {
    assert Owned(d)[SLOTS + t] == d.usb.bufs[t] && Owned(d)[SLOTS + t'] == d.usb.bufs[t'];
  }

  lemma WriteHolds(d: Flow, t: nat, data: Samples)
    requires Sound(d) && CanWrite(d, t)
    ensures Sound(Write(d, t, data)) && (Exact(d) ==> Exact(Write(d, t, data)))
  {
    var d' := Write(d, t, data);
    forall i: nat | i < SLOTS
      ensures d.ring.queue[i] in d.mem && d'.mem[d.ring.queue[i]] == d.mem[d.ring.queue[i]]
    {
      OwnedAt(d, i, t);
    }
    if Exact(d) {
      MemoryFrame(d.ring, d.hist, d.mem, d'.mem, InUse(d.use), TakenCount(d));
    }
    hide RingHolds, Expected, Increasing;
    forall t': nat | t' < TRANSFERS && t' != t
      ensures d.usb.bufs[t'] != d.usb.bufs[t]
    {
      BufsDiffer(d, t, t');
    }
    assert Numbers(d') == Numbers(d);
    hide Ascending, Increasing;
    forall i: nat | i < |d.usb.finished|
      ensures HoldsData(d', d.usb.finished[i], Finished)
    {
      assert HoldsData(d, d.usb.finished[i], Finished);
    }
  }

  lemma CompleteHolds(d: Flow, t: nat, ok: bool)
    requires Sound(d) && CanWrite(d, t)
    ensures d.usb.bufs[t] in d.mem
    ensures Sound(Complete(d, t, ok)) && (Exact(d) ==> Exact(Complete(d, t, ok)))
  {
    OwnedAt(d, 0, t);
    hide RingHolds, Expected;
    var d' := Complete(d, t, ok);
    var f := d'.usb.finished[|d.usb.finished|];
    assert Numbers(d') == Numbers(d) + [f.number];
    forall i: nat | i < |d'.usb.finished|
      ensures HoldsData(d', d'.usb.finished[i], Finished)
    {
      if i < |d.usb.finished| {
        assert HoldsData(d, d.usb.finished[i], Finished);
      }
    }
  }

  lemma BeginHolds(d: Flow)
    requires Sound(d) && CanBegin(d)
    ensures Sound(Begin(d)) && (Exact(d) ==> Exact(Begin(d)))
  {
    hide RingHolds, Expected;
    var d' := Begin(d);
    assert Numbers(d') == Numbers(d);
    forall i: nat | i < |d'.usb.finished|
      ensures HoldsData(d', d'.usb.finished[i], Finished)
    {
      assert HoldsData(d, d.usb.finished[i + 1], Finished);
    }
  }

  lemma AbandonHolds(d: Flow)
    requires Sound(d) && d.event.Handling?
    ensures Sound(Abandon(d)) && (Exact(d) ==> Exact(Abandon(d)))
  {
    hide RingHolds, Expected;
    var d' := Abandon(d);
    var a, n, z := ArrivalNumbers(d.hist.arrivals), [d.event.f.number], FinishNumbers(d.usb.finished);
    assert Numbers(d) == a + n + z && Numbers(d') == a + z by {
      assert a + [] + z == a + z;
    }
    AscendingWithout(a, n, z, d.usb.completions);
    hide Ascending;
    forall i: nat | i < |d'.usb.finished|
      ensures HoldsData(d', d'.usb.finished[i], Finished)
    {
      assert HoldsData(d, d.usb.finished[i], Finished);
    }
  }

  lemma AscendingWithout(a: seq<nat>, n: seq<nat>, z: seq<nat>, bound: nat)
    requires |n| == 1 && Ascending(a + n + z, bound)
    ensures Ascending(a + z, bound)
  {
    var s, s' := a + n + z, a + z;
    assert forall i: nat :: i < |s'| ==> s'[i] == s[if i < |a| then i else i + 1];
  }

  lemma ExchangeOwns(d: Flow)
    requires Owning(d) && RingShape(d.ring) && d.event.Handling? && d.event.f.t < TRANSFERS
    ensures Owning(Exchange(d))
  {
    var d' := Exchange(d);
    if d.ring.count < SLOTS {
      var i, j := d.ring.head, SLOTS + d.event.f.t;
      SwapKeeps(Owned(d), i, j);
      assert Owned(d') == Owned(d)[i := Owned(d)[j]][j := Owned(d)[i]];
    } else {
      assert Owned(d') == Owned(d);
    }
  }

  lemma SwapKeeps(s: seq<nat>, i: nat, j: nat)
    requires i < j < |s| && Distinct(s)
    ensures var s' := s[i := s[j]][j := s[i]];
            Distinct(s') && (set b | b in s') == (set b | b in s)
  {
    var s' := s[i := s[j]][j := s[i]];
    forall b
      ensures b in s' <==> b in s
    {
      assert s'[i] == s[j] && s'[j] == s[i];
      if b in s {
        var k :| 0 <= k < |s| && s[k] == b;
        assert b == s'[if k == i then j else if k == j then i else k];
      }
    }
  }

  lemma ExchangeHolds(d: Flow)
    requires Sound(d) && d.event.Handling?
    ensures Sound(Exchange(d)) && (Exact(d) ==> Exact(Exchange(d)))
  {
    ExchangeOwns(d);
    ExchangeFinishing(d);
    ExchangeNumbers(d);
    if Exact(d) {
      ExchangeConsumer(d);
    }
    hide Exact, Ascending, Owning, Finishing, Numbers;
  }

  lemma ExchangeNumbers(d: Flow)
    requires d.event.Handling? && d.event.f.t < |d.usb.bufs| && RingShape(d.ring)
    ensures Numbers(Exchange(d)) == Numbers(d)
  {
    var d', f := Exchange(d), d.event.f;
    assert ArrivalNumbers(d'.hist.arrivals) == ArrivalNumbers(d.hist.arrivals) + [f.number];
  }

  /** What the consumer holds and has delivered does not depend on later arrivals. */
  lemma ExactCarries(d: Flow, d': Flow)
    requires Exact(d) && d'.use == d.use && d'.mem == d.mem && d'.hist.delivered == d.hist.delivered
    requires RingHolds(d'.ring, d'.hist, d'.mem, InUse(d'.use), TakenCount(d'))
    requires |d.hist.accepted| <= |d'.hist.accepted|
    requires Increasing(d.hist) && Increasing(d'.hist)
    requires forall i: nat :: i < |d.hist.accepted| ==> Expected(d'.hist, i) == Expected(d.hist, i)
    requires RingShape(d.ring) && RingShape(d'.ring)
    requires d.use.Holding? ==> d'.ring.queue[UsedSlot(d'.ring)] == d.ring.queue[UsedSlot(d.ring)]
    ensures Exact(d')
  {
    hide RingHolds, Expected, Increasing, UsedSlot;
  }

  /** The ring invariant and what the consumer holds survive a completion. */
  lemma ExchangeConsumer(d: Flow)
    requires Sound(d) && Exact(d) && d.event.Handling?
    ensures Exact(Exchange(d))
  {
    hide Expected, Ascending, Owning, Numbers, Arrive, Returned, UsedSlot, Queued, Increasing, UsingNext, DeliveredExactly;
    var f, a := d.event.f, Arrival(d.event.f.data, d.event.f.number);
    ArriveHolds(d.ring, d.hist, d.mem, InUse(d.use), TakenCount(d), d.usb.bufs[f.t], a);
    IncreasingPush(d.hist, a, d.ring.count < SLOTS);
    ExactCarries(d, Exchange(d));
  }

  lemma ExchangeFinishing(d: Flow)
    requires Owning(d) && Finishing(d) && RingShape(d.ring) && d.event.Handling?
    ensures Finishing(Exchange(d))
  {
    var d' := Exchange(d);
    forall i: nat | i < |d'.usb.finished|
      ensures HoldsData(d', d'.usb.finished[i], Finished)
    {
      assert HoldsData(d, d.usb.finished[i], Finished);
    }
  }

  lemma ResubmitHolds(d: Flow, ok: bool)
    requires Sound(d) && d.event.Swapped?
    ensures Sound(Resubmit(d, ok)) && (Exact(d) ==> Exact(Resubmit(d, ok)))
  {
    hide RingHolds, Expected;
    var d' := Resubmit(d, ok);
    assert Numbers(d') == Numbers(d);
    forall i: nat | i < |d'.usb.finished|
      ensures HoldsData(d', d'.usb.finished[i], Finished)
    {
      assert HoldsData(d, d.usb.finished[i], Finished);
    }
  }

  /** The consumer's own steps do not touch the transfers or the ownership of buffers. */
  lemma ConsumerFrame(d: Flow, d': Flow)
    requires Sound(d) && d'.usb == d.usb && d'.mem == d.mem && d'.event == d.event && d'.pool == d.pool
    requires d'.ring.queue == d.ring.queue && d'.hist.arrivals == d.hist.arrivals && RingShape(d'.ring)
    requires d'.use.Holding? ==> d'.use.input in d.mem
    ensures Sound(d')
  {
    assert Numbers(d') == Numbers(d);
    assert Owned(d') == Owned(d);
    hide Ascending;
    forall i: nat | i < |d'.usb.finished|
      ensures HoldsData(d', d'.usb.finished[i], Finished)
    {
      assert HoldsData(d, d.usb.finished[i], Finished);
    }
  }

  /** Taking from a nonempty queue keeps everything; taking from an empty one breaks exactness at once. */
  lemma TakeStep(d: Flow)
    requires Sound(d) && d.use.NotUsing?
    ensures Sound(Take(d))
    ensures Exact(d) ==> (Exact(Take(d)) <==> d.ring.count > 0)
  {
    OwnedAt(d, d.ring.tail, 0);
    ConsumerFrame(d, Take(d));
    if Exact(d) {
      TakeExact(d);
    }
    hide Sound, Exact, Take;
  }

  lemma TakeExact(d: Flow)
    requires Exact(d) && d.use.NotUsing? && RingShape(d.ring)
    ensures Exact(Take(d)) <==> d.ring.count > 0
  {
    if d.ring.count > 0 {
      TakeHolds(d.ring, d.hist, d.mem, TakenCount(d));
      hide RingHolds, Expected;
    }
  }

  lemma ConvertStep(d: Flow)
    requires Sound(d) && d.use.Holding?
    ensures Sound(Convert(d)) && (Exact(d) ==> Exact(Convert(d)))
  {
    ConsumerFrame(d, Convert(d));
    hide RingHolds, Expected;
  }

  lemma DeliverStep(d: Flow)
    requires Sound(d) && d.use.Ready?
    ensures Sound(Deliver(d)) && (Exact(d) ==> Exact(Deliver(d)))
  {
    ConsumerFrame(d, Deliver(d));
    if Exact(d) {
      DeliverExact(d);
    }
    hide Sound, Exact, Deliver;
  }

  lemma DeliverExact(d: Flow)
    requires Exact(d) && d.use.Ready?
    ensures Exact(Deliver(d))
  {
    hide Queued, QueuedSlot, UsedSlot, Gap;
    var d' := Deliver(d);
    DeliverFrame(d.ring, d.hist, d.mem, 1, TakenCount(d), d'.hist.delivered);
    hide RingHolds, Expected;
  }

  lemma ReleaseStep(d: Flow)
    requires Sound(d) && d.use.Spent?
    ensures Sound(Release(d)) && (Exact(d) ==> Exact(Release(d)))
  {
    ConsumerFrame(d, Release(d));
    if Exact(d) {
      ReleaseHolds(d.ring, d.hist, d.mem, TakenCount(d));
    }
    hide RingHolds, Expected;
  }

  // ---------------------------------------------------------------- what the invariant means

  /** The buffer being converted outside the lock is attached to no transfer at all, in flight or not. */
  lemma ConvertedBufferIsSafe(d: Flow, t: nat)
    requires Sound(d) && Exact(d) && d.use.Holding? && t < TRANSFERS
    ensures d.usb.bufs[t] != d.use.input
  {
    OwnedAt(d, UsedSlot(d.ring), t);
  }

  /** The loss in the consumer's hands. */
  function HeldDrop(u: Use): nat {
    match u
    case Holding(_, dropped) => dropped
    case Ready(_, dropped) => dropped
    case _ => 0
  }

  /** All the loss counters of the program: delivered, in use, queued, and still running. */
  function CountedDrops(d: Flow): nat
    requires |d.ring.dropq| == SLOTS && InUse(d.use) <= d.ring.count
  {
    DeliveredDrops(d.hist.delivered) + HeldDrop(d.use) + QueuedDrops(d.ring, d.ring.count - InUse(d.use)) + d.ring.dropped
  }

  /** No loss counter has wrapped. */
  ghost predicate NoneWrapped(h: History) {
    GapsFit(h) && |h.arrivals| - Seen(h.accepted, |h.accepted|) < U32
  }

  /** Loss accounting is exact: what the counters hold together is the number of arrivals that got no slot, modulo 2^32 and
      without the modulus while no single counter has wrapped; and those that got a slot are delivered, queued or in
      use. */
  lemma LossAccounting(d: Flow)
    requires Sound(d) && Exact(d)
    ensures |d.hist.accepted| == |d.hist.delivered| + d.ring.count - (if d.use.Spent? then 1 else 0)
    ensures RingShape(d.ring) && InUse(d.use) <= d.ring.count
    ensures CountedDrops(d) % 0x1_0000_0000 == (|d.hist.arrivals| - |d.hist.accepted|) % 0x1_0000_0000
    ensures NoneWrapped(d.hist) ==> CountedDrops(d) == |d.hist.arrivals| - |d.hist.accepted|
  {
    WordSize();
    hide *;
    ExactFacts(d);
    SumOfCounters(d, NoneWrapped(d.hist));
  }

  lemma WordSize()
    ensures U32 == 0x1_0000_0000
  {
  }

  /** The parts of exactness the sum needs. */
  lemma ExactFacts(d: Flow)
    requires Sound(d) && Exact(d)
    ensures var h, r := d.hist, d.ring;
            && RingShape(r) && |r.dropq| == SLOTS && InUse(d.use) <= r.count && Increasing(h)
            && RingHolds(r, h, d.mem, InUse(d.use), TakenCount(d))
            && |h.delivered| <= TakenCount(d) <= |h.accepted| == TakenCount(d) + r.count - InUse(d.use)
            && |h.accepted| == |h.delivered| + r.count - (if d.use.Spent? then 1 else 0)
            && (forall i: nat :: i < |h.delivered| ==> h.delivered[i] == Expected(h, i))
            && |h.arrivals| - Seen(h.accepted, |h.accepted|) >= 0
            && r.dropped == (|h.arrivals| - Seen(h.accepted, |h.accepted|)) % U32
            && (NoneWrapped(h) ==> GapsFit(h) && |h.arrivals| - Seen(h.accepted, |h.accepted|) < U32)
  {
    hide Owning, Finishing, Ascending, UsingNext, Queued, GapsFit, Increasing, Expected, Seen;
  }

  lemma SumOfCounters(d: Flow, fits: bool)
    requires Sound(d) && Exact(d) && (fits ==> NoneWrapped(d.hist))
    ensures |d.ring.dropq| == SLOTS && InUse(d.use) <= d.ring.count
    ensures CountedDrops(d) % U32 == (|d.hist.arrivals| - |d.hist.accepted|) % U32
    ensures fits ==> CountedDrops(d) == |d.hist.arrivals| - |d.hist.accepted|
  {
    hide Sound, Exact, RingHolds, Increasing, Expected, Seen, Counts, GapsFit, NoneWrapped, DeliveredDrops, QueuedDrops, DropsUpTo;
    hide TakenCount, InUse, HeldDrop, RingShape;
    ExactFacts(d);
    var h, r := d.hist, d.ring;
    var n, taken, queued := |h.accepted|, TakenCount(d), r.count - InUse(d.use);
    var before, held, loss := DropsUpTo(h.accepted, |h.delivered|), DropsUpTo(h.accepted, taken), DropsUpTo(h.accepted, n);
    var pending := |h.arrivals| - Seen(h.accepted, n);
    DropsTelescope(h.accepted, n);
    DeliveredCounts(h, |h.delivered|, fits);
    assert h.delivered[..|h.delivered|] == h.delivered;
    HeldCounts(d, fits);
    QueuedCounts(r, h, d.mem, InUse(d.use), taken, queued, fits);
    PendingCounts(r.dropped, pending, fits);
    FourCounts(DeliveredDrops(h.delivered), before, HeldDrop(d.use), held - before,
               QueuedDrops(r, queued), loss - held, r.dropped, pending, fits);
  }

  lemma FourCounts(a: int, w: int, b: int, x: int, c: int, y: int, e: int, z: int, fits: bool)
    requires Counts(a, w, fits) && Counts(b, x, fits) && Counts(c, y, fits) && Counts(e, z, fits)
    ensures (a + b + c + e) % U32 == (w + x + y + z) % U32 && (fits ==> a + b + c + e == w + x + y + z)
  {
    hide Counts;
    CountsAdd(a, w, b, x, fits);
    CountsAdd(a + b, w + x, c, y, fits);
    CountsAdd(a + b + c, w + x + y, e, z, fits);
    CountsMean(a + b + c + e, w + x + y + z, fits);
  }

  lemma PendingCounts(dropped: nat, pending: int, fits: bool)
    requires pending >= 0 && dropped == pending % U32 && (fits ==> pending < U32)
    ensures Counts(dropped, pending, fits)
  {
  }

  lemma CountsMean(counter: int, loss: int, fits: bool)
    requires Counts(counter, loss, fits)
    ensures counter % U32 == loss % U32 && (fits ==> counter == loss)
  {
  }

  lemma HeldCounts(d: Flow, fits: bool)
    requires Exact(d) && TakenCount(d) <= |d.hist.accepted| && (fits ==> GapsFit(d.hist))
    ensures var h := d.hist;
            && |h.delivered| <= TakenCount(d)
            && Counts(HeldDrop(d.use), DropsUpTo(h.accepted, TakenCount(d)) - DropsUpTo(h.accepted, |h.delivered|), fits)
  {
    hide GapsFit, Gap, Expected, RingHolds, Counts, Increasing;
    if d.use.Holding? || d.use.Ready? {
      OneCounter(d.hist, |d.hist.delivered|, fits);
    } else {
      NothingCounted(fits);
    }
  }

  /** Two consecutive callbacks got two arrivals that are exactly the reported loss apart (modulo 2^32), each with the
      contents its transfer completed with, in completion order. */
  lemma ConsecutiveDeliveries(d: Flow, i: nat)
    requires Sound(d) && Exact(d) && i + 1 < |d.hist.delivered|
    ensures var s, s' := d.hist.accepted[i], d.hist.accepted[i + 1];
            && s < s' < |d.hist.arrivals|
            && (s' - s - 1) % 0x1_0000_0000 == d.hist.delivered[i + 1].dropped
            && (s' - s - 1 < 0x1_0000_0000 ==> s' == s + 1 + d.hist.delivered[i + 1].dropped)
            && d.hist.delivered[i].data == d.hist.arrivals[s].data && d.hist.delivered[i + 1].data == d.hist.arrivals[s'].data
            && d.hist.arrivals[s].number < d.hist.arrivals[s'].number
  {
    hide RingHolds, Owning, Finishing, UsingNext;
    var h := d.hist;
    assert h.delivered[i] == Expected(h, i) && h.delivered[i + 1] == Expected(h, i + 1);
    assert Gap(h.accepted, i + 1) >= 0;
    var s, s' := h.accepted[i], h.accepted[i + 1];
    assert Numbers(d)[s] == h.arrivals[s].number && Numbers(d)[s'] == h.arrivals[s'].number;
  }

  /** The first callback: the loss reported with it is everything that arrived before. */
  lemma FirstDelivery(d: Flow)
    requires Sound(d) && Exact(d) && |d.hist.delivered| > 0
    ensures var s := d.hist.accepted[0];
            && s < |d.hist.arrivals| && d.hist.delivered[0].dropped == s % 0x1_0000_0000
            && d.hist.delivered[0].data == d.hist.arrivals[s].data
  {
    assert d.hist.delivered[0] == Expected(d.hist, 0);
  }
}
