/** The eight-slot sample queue shared by the USB completion callback and the consumer thread
    (libairspyhf/src/airspyhf.c:126-132, 390-392, 412, 437-454), and the invariant that ties it to an unbounded history. */
module SampleRing {
  import opened Words

  const SLOTS: nat := 8 // RAW_BUFFER_COUNT

  type Samples = seq<int>

  /** Buffers are named by address; `dropped` is an unsigned 32-bit counter, `count` a signed one. */
  datatype Ring = Ring(queue: seq<nat>, dropq: seq<nat>, head: nat, tail: nat, count: int, dropped: nat)

  predicate RingShape(r: Ring) {
    |r.queue| == |r.dropq| == SLOTS && r.head < SLOTS && r.tail < SLOTS && r.count <= SLOTS && r.dropped < U32
  }

  function NextSlot(i: nat): nat {
    (i + 1) % SLOTS
  }

  /** Lines 437-454, ring part: a completion takes the head slot, or is counted as dropped when all slots are in use. */
  function Arrive(r: Ring, buffer: nat): Ring
    requires RingShape(r)
  {
    if r.count < SLOTS then
      Ring(r.queue[r.head := buffer], r.dropq[r.head := r.dropped], NextSlot(r.head), r.tail, r.count + 1, 0)
    else
      r.(dropped := (r.dropped + 1) % U32)
  }

  /** The buffer the transfer leaves with. */
  function Returned(r: Ring, buffer: nat): nat
    requires RingShape(r)
  {
    if r.count < SLOTS then r.queue[r.head] else buffer
  }

  /** Line 392. */
  function Taken(r: Ring): Ring {
    r.(tail := NextSlot(r.tail))
  }

  /** Line 412. */
  function Released(r: Ring): Ring {
    r.(count := r.count - 1)
  }

  // ---------------------------------------------------------------- history

  /** A completion that reached the queue's lock region: what the transfer completed with, and its completion number. */
  datatype Arrival = Arrival(data: Samples, number: nat)

  /** What the user callback is given. */
  datatype Delivery = Delivery(data: Samples, dropped: nat)

  /** `accepted` lists the arrivals that got a slot, as indices into `arrivals`. */
  datatype History = History(arrivals: seq<Arrival>, accepted: seq<nat>, delivered: seq<Delivery>)

  /** Arrivals up to and including the i-th accepted one; 0 before the first. */
  function Seen(accepted: seq<nat>, i: nat): nat
    requires i <= |accepted|
  {
    if i == 0 then 0 else accepted[i - 1] + 1
  }

  /** Arrivals lost just before the i-th accepted one. */
  function Gap(accepted: seq<nat>, i: nat): int
    requires i < |accepted|
  {
    accepted[i] - Seen(accepted, i)
  }

  ghost predicate Increasing(h: History) {
    forall i: nat :: i < |h.accepted| ==> Gap(h.accepted, i) >= 0 && h.accepted[i] < |h.arrivals|
  }

  /** The i-th accepted arrival as the callback must receive it. */
  ghost function Expected(h: History, i: nat): Delivery
    requires i < |h.accepted| && h.accepted[i] < |h.arrivals| && Gap(h.accepted, i) >= 0
  {
    Delivery(h.arrivals[h.accepted[i]].data, Gap(h.accepted, i) % U32)
  }

  /** Slot of the j-th queued buffer. */
  function QueuedSlot(r: Ring, j: nat): (s: nat)
    ensures s < SLOTS
  {
    (r.tail + j) % SLOTS
  }

  /** Slot of the buffer the consumer is using. */
  function UsedSlot(r: Ring): (s: nat)
    ensures s < SLOTS
  {
    (r.tail + (SLOTS - 1)) % SLOTS
  }

  /** `inUse` is 1 while the consumer works outside the lock on a slot it has taken but not released; `taken` is the number
      of accepted arrivals taken so far. The queued slots hold the next accepted arrivals, in order. */
  ghost predicate RingHolds(r: Ring, h: History, mem: map<nat, Samples>, inUse: nat, taken: nat) {
    && RingShape(r) && Increasing(h)
    && inUse <= 1 && inUse <= r.count
    && |h.accepted| == taken + (r.count - inUse)
    && Seen(h.accepted, |h.accepted|) <= |h.arrivals|
    && r.dropped == (|h.arrivals| - Seen(h.accepted, |h.accepted|)) % U32
    && r.head == QueuedSlot(r, r.count - inUse)
    && forall j: nat :: j < r.count - inUse ==> Queued(r, h, mem, taken, j)
  }

  ghost predicate Queued(r: Ring, h: History, mem: map<nat, Samples>, taken: nat, j: nat)
    requires |r.queue| == |r.dropq| == SLOTS && Increasing(h)
  {
    var b := r.queue[QueuedSlot(r, j)];
    taken + j < |h.accepted| && b in mem && Delivery(mem[b], r.dropq[QueuedSlot(r, j)]) == Expected(h, taken + j)
  }

  // ---------------------------------------------------------------- steps

  function Arrived(r: Ring, h: History, a: Arrival): History {
    History(h.arrivals + [a], if r.count < SLOTS then h.accepted + [|h.arrivals|] else h.accepted, h.delivered)
  }

  lemma IncreasingPush(h: History, a: Arrival, accept: bool)
    requires Increasing(h) && Seen(h.accepted, |h.accepted|) <= |h.arrivals|
    ensures var h' := History(h.arrivals + [a], if accept then h.accepted + [|h.arrivals|] else h.accepted, h.delivered);
            Increasing(h') && forall i: nat :: i < |h.accepted| ==> Expected(h', i) == Expected(h, i)
  {
    var h' := History(h.arrivals + [a], if accept then h.accepted + [|h.arrivals|] else h.accepted, h.delivered);
    forall i: nat | i < |h'.accepted|
      ensures Gap(h'.accepted, i) >= 0 && h'.accepted[i] < |h'.arrivals|
      ensures i < |h.accepted| ==> Gap(h'.accepted, i) == Gap(h.accepted, i)
    {
      if i < |h.accepted| {
        assert Gap(h.accepted, i) >= 0;
      }
    }
  }

  lemma SlotFacts(t: nat, n: nat, j: nat)
    requires t < SLOTS && j < n < SLOTS
    ensures (t + j) % SLOTS != (t + n) % SLOTS
    ensures NextSlot((t + n) % SLOTS) == (t + (n + 1)) % SLOTS
    ensures n < SLOTS - 1 ==> (t + (SLOTS - 1)) % SLOTS != (t + n) % SLOTS
  {
  }

  lemma HeadFacts(r: Ring, n: nat)
    requires r.tail < SLOTS && n < SLOTS && r.head == QueuedSlot(r, n)
    ensures NextSlot(r.head) == QueuedSlot(r, n + 1)
    ensures forall j: nat :: j < n ==> QueuedSlot(r, j) != r.head
    ensures n < SLOTS - 1 ==> UsedSlot(r) != r.head
  {
    forall j: nat | j < n
      ensures QueuedSlot(r, j) != r.head
    {
      SlotFacts(r.tail, n, j);
    }
  }

  lemma SameTail(r: Ring, r': Ring)
    requires r.tail == r'.tail
    ensures UsedSlot(r') == UsedSlot(r) && forall j: nat :: QueuedSlot(r', j) == QueuedSlot(r, j)
  {
  }

  lemma NextTail(r: Ring)
    requires r.tail < SLOTS
    ensures UsedSlot(Taken(r)) == r.tail == QueuedSlot(r, 0)
    ensures forall j: nat :: QueuedSlot(Taken(r), j) == QueuedSlot(r, j + 1)
  {
    forall j: nat
      ensures QueuedSlot(Taken(r), j) == QueuedSlot(r, j + 1)
    {
      ShiftSlot(r.tail, j);
    }
  }

  lemma ShiftSlot(t: nat, j: nat)
    ensures ((t + 1) % SLOTS + j) % SLOTS == (t + (j + 1)) % SLOTS
  {
  }

  /** A completion keeps the invariant, whether it gets a slot or is dropped, and never touches the slot in use. */
  lemma ArriveHolds(r: Ring, h: History, mem: map<nat, Samples>, inUse: nat, taken: nat, b: nat, a: Arrival)
    requires RingHolds(r, h, mem, inUse, taken) && b in mem && mem[b] == a.data
    ensures RingHolds(Arrive(r, b), Arrived(r, h, a), mem, inUse, taken)
    ensures inUse == 1 ==> Arrive(r, b).queue[UsedSlot(Arrive(r, b))] == r.queue[UsedSlot(r)]
  {
    if r.count < SLOTS {
      AcceptHolds(r, h, mem, inUse, taken, b, a);
    } else {
      DropHolds(r, h, mem, inUse, taken, b, a);
    }
  }

  lemma AcceptHolds(r: Ring, h: History, mem: map<nat, Samples>, inUse: nat, taken: nat, b: nat, a: Arrival)
    requires RingHolds(r, h, mem, inUse, taken) && b in mem && mem[b] == a.data && r.count < SLOTS
    ensures RingHolds(Arrive(r, b), Arrived(r, h, a), mem, inUse, taken)
    ensures inUse == 1 ==> Arrive(r, b).queue[UsedSlot(Arrive(r, b))] == r.queue[UsedSlot(r)]
  {
    hide Expected, QueuedSlot, UsedSlot, NextSlot, Increasing;
    var r', h' := Arrive(r, b), Arrived(r, h, a);
    var n := r.count - inUse;
    IncreasingPush(h, a, true);
    NewestExpected(h, a);
    HeadFacts(r, n);
    SameTail(r, r');
    forall j: nat | j < n + 1
      ensures Queued(r', h', mem, taken, j)
    {
      if j < n {
        assert Queued(r, h, mem, taken, j);
      }
    }
  }

  lemma DropHolds(r: Ring, h: History, mem: map<nat, Samples>, inUse: nat, taken: nat, b: nat, a: Arrival)
    requires RingHolds(r, h, mem, inUse, taken) && r.count >= SLOTS
    ensures RingHolds(Arrive(r, b), Arrived(r, h, a), mem, inUse, taken)
    ensures Arrive(r, b).queue[UsedSlot(Arrive(r, b))] == r.queue[UsedSlot(r)]
  {
    var r', h' := Arrive(r, b), Arrived(r, h, a);
    IncreasingPush(h, a, false);
    SameTail(r, r');
    DropOne(|h.arrivals| - Seen(h.accepted, |h.accepted|));
    hide Expected, QueuedSlot, NextSlot, Increasing;
    forall j: nat | j < r.count - inUse
      ensures Queued(r', h', mem, taken, j)
    {
      assert Queued(r, h, mem, taken, j);
    }
  }

  lemma NewestExpected(h: History, a: Arrival)
    requires Increasing(h) && Seen(h.accepted, |h.accepted|) <= |h.arrivals|
    ensures var h' := History(h.arrivals + [a], h.accepted + [|h.arrivals|], h.delivered);
            Expected(h', |h.accepted|) == Delivery(a.data, (|h.arrivals| - Seen(h.accepted, |h.accepted|)) % U32)
  {
  }

  lemma DropOne(n: nat)
    ensures (n % U32 + 1) % U32 == (n + 1) % U32
  {
  }

  /** Taking the tail slot hands out the next accepted arrival. */
  lemma TakeHolds(r: Ring, h: History, mem: map<nat, Samples>, taken: nat)
    requires RingHolds(r, h, mem, 0, taken) && r.count > 0
    ensures RingHolds(Taken(r), h, mem, 1, taken + 1)
    ensures taken < |h.accepted| && r.queue[r.tail] in mem
    ensures Delivery(mem[r.queue[r.tail]], r.dropq[r.tail]) == Expected(h, taken)
    ensures Taken(r).queue[UsedSlot(Taken(r))] == r.queue[r.tail]
  {
    hide Expected, QueuedSlot, UsedSlot, Increasing;
    var r', k := Taken(r), taken + 1;
    assert Queued(r, h, mem, taken, 0);
    NextTail(r);
    forall j: nat | j < r.count - 1
      ensures Queued(r', h, mem, k, j)
    {
      assert Queued(r, h, mem, taken, j + 1);
    }
  }

  lemma ReleaseHolds(r: Ring, h: History, mem: map<nat, Samples>, taken: nat)
    requires RingHolds(r, h, mem, 1, taken)
    ensures RingHolds(Released(r), h, mem, 0, taken)
  {
    var r' := Released(r);
    forall j: nat | j < r.count - 1
      ensures Queued(r', h, mem, taken, j)
    {
      assert Queued(r, h, mem, taken, j);
    }
  }

  /** Only the queued buffers' contents matter. */
  lemma MemoryFrame(r: Ring, h: History, mem: map<nat, Samples>, mem': map<nat, Samples>, inUse: nat, taken: nat)
    requires RingHolds(r, h, mem, inUse, taken)
    requires forall i: nat :: i < SLOTS && r.queue[i] in mem ==> r.queue[i] in mem' && mem'[r.queue[i]] == mem[r.queue[i]]
    ensures RingHolds(r, h, mem', inUse, taken)
  {
    forall j: nat | j < r.count - inUse
      ensures Queued(r, h, mem', taken, j)
    {
      assert Queued(r, h, mem, taken, j);
    }
  }

  lemma DeliverFrame(r: Ring, h: History, mem: map<nat, Samples>, inUse: nat, taken: nat, d: seq<Delivery>)
    requires RingHolds(r, h, mem, inUse, taken)
    ensures RingHolds(r, h.(delivered := d), mem, inUse, taken)
    ensures forall i: nat :: i < |h.accepted| ==> Expected(h.(delivered := d), i) == Expected(h, i)
  {
    var h' := h.(delivered := d);
    forall i: nat | i < |h.accepted|
      ensures Gap(h.accepted, i) >= 0 && h.accepted[i] < |h.arrivals|
    {
    }
    forall j: nat | j < r.count - inUse
      ensures Queued(r, h', mem, taken, j)
    {
      assert Queued(r, h, mem, taken, j);
    }
  }

  // ---------------------------------------------------------------- exactness of the loss count

  /** All arrivals lost before the i-th accepted one. */
  function DropsUpTo(accepted: seq<nat>, i: nat): int
    requires i <= |accepted|
  {
    if i == 0 then 0 else DropsUpTo(accepted, i - 1) + Gap(accepted, i - 1)
  }

  lemma {:induction false} DropsTelescope(accepted: seq<nat>, i: nat)
    requires i <= |accepted|
    ensures Seen(accepted, i) == i + DropsUpTo(accepted, i)
  {
    if i > 0 {
      DropsTelescope(accepted, i - 1);
    }
  }

  /** The losses the user callback has been given. */
  function DeliveredDrops(delivered: seq<Delivery>): nat {
    if delivered == [] then 0
    else DeliveredDrops(delivered[..|delivered| - 1]) + delivered[|delivered| - 1].dropped
  }

  /** The losses stored in the first j queued slots. */
  function QueuedDrops(r: Ring, j: nat): nat
    requires |r.dropq| == SLOTS
  {
    if j == 0 then 0 else QueuedDrops(r, j - 1) + r.dropq[QueuedSlot(r, j - 1)]
  }

  /** A counter that holds a loss modulo 2^32 agrees with it up to a multiple of 2^32, and exactly while it fits. */
  ghost predicate Counts(counter: int, loss: int, fits: bool) {
    counter % U32 == loss % U32 && (fits ==> counter == loss)
  }

  lemma CountsAdd(a: int, x: int, b: int, y: int, fits: bool)
    requires Counts(a, x, fits) && Counts(b, y, fits)
    ensures Counts(a + b, x + y, fits)
  {
    var p, q := a / (U32 as int) - x / (U32 as int), b / (U32 as int) - y / (U32 as int);
    assert a - x == p * U32 && b - y == q * U32;
    assert a + b == x + y + (p + q) * U32;
  }

  /** No gap between accepted arrivals is 2^32 or more. */
  ghost predicate GapsFit(h: History) {
    forall i: nat :: i < |h.accepted| ==> Gap(h.accepted, i) < U32
  }

  lemma OneCounter(h: History, i: nat, fits: bool)
    requires Increasing(h) && i < |h.accepted| && (fits ==> GapsFit(h))
    ensures h.accepted[i] < |h.arrivals| && Gap(h.accepted, i) >= 0
    ensures Counts(Expected(h, i).dropped, Gap(h.accepted, i), fits)
  {
    assert Gap(h.accepted, i) >= 0;
  }

  /** What has been delivered adds up to the losses before it. */
  lemma {:induction false} DeliveredCounts(h: History, n: nat, fits: bool)
    requires Increasing(h) && n <= |h.delivered| <= |h.accepted| && (fits ==> GapsFit(h))
    requires forall i: nat :: i < |h.delivered| ==> h.delivered[i] == Expected(h, i)
    ensures Counts(DeliveredDrops(h.delivered[..n]), DropsUpTo(h.accepted, n), fits)
  {
    hide Expected, Gap, GapsFit, Increasing, Counts;
    if n == 0 {
      NothingCounted(fits);
    } else {
      DeliveredCounts(h, n - 1, fits);
      OneCounter(h, n - 1, fits);
      assert h.delivered[..n][..n - 1] == h.delivered[..n - 1];
      CountsAdd(DeliveredDrops(h.delivered[..n - 1]), DropsUpTo(h.accepted, n - 1),
                h.delivered[n - 1].dropped, Gap(h.accepted, n - 1), fits);
    }
  }

  lemma NothingCounted(fits: bool)
    ensures Counts(0, 0, fits)
  {
  }

  /** And what is stored in the queue to those after that. */
  lemma {:induction false} QueuedCounts(r: Ring, h: History, mem: map<nat, Samples>, inUse: nat, taken: nat, j: nat, fits: bool)
    requires RingHolds(r, h, mem, inUse, taken) && j <= r.count - inUse && (fits ==> GapsFit(h))
    ensures Counts(QueuedDrops(r, j), DropsUpTo(h.accepted, taken + j) - DropsUpTo(h.accepted, taken), fits)
  {
    hide Expected, Gap, GapsFit, Increasing, QueuedSlot, Counts;
    if j == 0 {
      NothingCounted(fits);
    } else {
      QueuedCounts(r, h, mem, inUse, taken, j - 1, fits);
      assert Queued(r, h, mem, taken, j - 1);
      OneCounter(h, taken + j - 1, fits);
      CountsAdd(QueuedDrops(r, j - 1), DropsUpTo(h.accepted, taken + j - 1) - DropsUpTo(h.accepted, taken),
                r.dropq[QueuedSlot(r, j - 1)], Gap(h.accepted, taken + j - 1), fits);
    }
  }
}
