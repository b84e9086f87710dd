/** The shared fields of the device as the lock regions change them in place, and the allocation and release of the
    buffers (libairspyhf/src/airspyhf.c:176-266, 390-392, 412, 437-454). Addresses are naturals, 0 is NULL. */
module DeviceBuffers {
  import opened SampleRing
  import opened BufferFlow
  import opened Words

  /** What malloc and free have done so far. */
  class Heap {
    var next: nat
    ghost var freed: seq<nat>

    constructor ()
      ensures next == 1 && freed == []
    {
      next, freed := 1, [];
    }

    method Malloc(works: bool) returns (p: nat)
      modifies this
      ensures freed == old(freed)
      ensures p == (if works then old(next) else 0) && next == old(next) + (if works then 1 else 0)
    {
      if works {
        p := next;
        next := next + 1;
      } else {
        p := 0;
      }
    }

    method Free(p: nat)
      modifies this`freed
      ensures freed == old(freed) + [p]
    {
      freed := freed + [p];
    }
  }

  class Device {
    const heap: Heap
    const receivedSamplesQueue: array<nat>
    const droppedBuffersQueue: array<nat>
    const transferBuffers: array<nat> // transfers[i]->buffer, 0 while transfers[i] is NULL
    var transfersAllocated: bool // device->transfers != NULL
    var head: nat
    var tail: nat
    var count: int
    var droppedBuffers: nat

    ghost predicate Shape()
      reads this
    {
      && receivedSamplesQueue.Length == droppedBuffersQueue.Length == SLOTS && transferBuffers.Length == TRANSFERS
      && receivedSamplesQueue != droppedBuffersQueue && receivedSamplesQueue != transferBuffers
      && droppedBuffersQueue != transferBuffers
    }

    ghost function RingNow(): Ring
      reads this, receivedSamplesQueue, droppedBuffersQueue
    {
      Ring(receivedSamplesQueue[..], droppedBuffersQueue[..], head, tail, count, droppedBuffers)
    }

    /** The state airspyhf_open_init starts from: nothing allocated. */
    constructor (h: Heap)
      ensures Shape() && heap == h && !transfersAllocated
      ensures fresh(receivedSamplesQueue) && fresh(droppedBuffersQueue) && fresh(transferBuffers)
      ensures forall i: nat :: i < SLOTS ==> receivedSamplesQueue[i] == 0
      ensures forall t: nat :: t < TRANSFERS ==> transferBuffers[t] == 0
      ensures head == tail == count == droppedBuffers == 0
    {
      heap := h;
      receivedSamplesQueue := new nat[SLOTS](i => 0);
      droppedBuffersQueue := new nat[SLOTS](i => 0);
      transferBuffers := new nat[TRANSFERS](i => 0);
      transfersAllocated, head, tail, count, droppedBuffers := false, 0, 0, 0, 0;
    }

    /** Lines 437-454 for transfer t: exactly the atomic step of the state machine. */
    method EnqueueOrDrop(t: nat) returns (signal: bool)
      requires Shape() && RingShape(RingNow()) && t < TRANSFERS
      modifies this`head, this`count, this`droppedBuffers, receivedSamplesQueue, droppedBuffersQueue, transferBuffers
      ensures RingNow() == old(Arrive(RingNow(), transferBuffers[t]))
      ensures transferBuffers[..] == old(transferBuffers[..][t := Returned(RingNow(), transferBuffers[t])])
      ensures signal == old(count < SLOTS)
    {
      if count < SLOTS {
        var temp := receivedSamplesQueue[head];
        receivedSamplesQueue[head] := transferBuffers[t];
        transferBuffers[t] := temp;
        droppedBuffersQueue[head] := droppedBuffers;
        droppedBuffers := 0;
        head := (head + 1) % SLOTS;
        count := count + 1;
        signal := true;
      } else {
        droppedBuffers := (droppedBuffers + 1) % U32;
        signal := false;
      }
    }

    /** Lines 390-392. */
    method TakeSlot() returns (input: nat, dropped: nat)
      requires Shape() && RingShape(RingNow())
      modifies this`tail
      ensures RingNow() == old(Taken(RingNow()))
      ensures input == old(receivedSamplesQueue[tail]) && dropped == old(droppedBuffersQueue[tail])
    {
      input := receivedSamplesQueue[tail];
      dropped := droppedBuffersQueue[tail];
      tail := (tail + 1) % SLOTS;
    }

    /** Line 412. */
    method ReleaseSlot()
      modifies this`count
      ensures RingNow() == old(Released(RingNow()))
    {
      count := count - 1;
    }

    ghost function OwnedNow(): seq<nat>
      reads receivedSamplesQueue, transferBuffers
    {
      receivedSamplesQueue[..] + transferBuffers[..]
    }

    /** Lines 211-266. The k-th allocation works if `works(k)`: 8 sample buffers, the transfer table, then for each
        transfer its descriptor and its buffer. */
    method AllocateTransfers(works: nat -> bool) returns (ok: bool)
      requires Shape() && heap.next >= 1
      modifies this`transfersAllocated, heap, receivedSamplesQueue, transferBuffers
      ensures heap.freed == old(heap.freed)
      ensures old(transfersAllocated) ==> !ok && OwnedNow() == old(OwnedNow())
      ensures ok ==> transfersAllocated && Distinct(OwnedNow()) && 0 !in OwnedNow()
      ensures ok <==> !old(transfersAllocated) && forall k: nat :: k < SLOTS + 1 + 2 * TRANSFERS ==> works(k)
    {
      ok := false;
      if transfersAllocated {
        return;
      }
      ghost var base := heap.next;
      var i := 0;
      while i < SLOTS
        invariant 0 <= i <= SLOTS && heap.next == base + i && heap.freed == old(heap.freed)
        invariant forall k: nat :: k < i ==> works(k)
        invariant forall q: nat :: q < i ==> receivedSamplesQueue[q] == base + q
      {
        receivedSamplesQueue[i] := heap.Malloc(works(i));
        if receivedSamplesQueue[i] == 0 {
          return;
        }
        i := i + 1;
      }
      if !works(SLOTS) {
        return;
      }
      transfersAllocated := true;
      var t := 0;
      while t < TRANSFERS
        invariant 0 <= t <= TRANSFERS && heap.next == base + SLOTS + t && heap.freed == old(heap.freed) && transfersAllocated
        invariant forall k: nat :: k < SLOTS + 1 + 2 * t ==> works(k)
        invariant forall q: nat :: q < SLOTS ==> receivedSamplesQueue[q] == base + q
        invariant forall q: nat :: q < t ==> transferBuffers[q] == base + SLOTS + q
      {
        if !works(SLOTS + 1 + 2 * t) {
          return;
        }
        transferBuffers[t] := heap.Malloc(works(SLOTS + 2 + 2 * t));
        if transferBuffers[t] == 0 {
          return;
        }
        t := t + 1;
      }
      assert forall k: nat :: k < |OwnedNow()| ==> OwnedNow()[k] == base + k;
      ok := true;
    }

    /** Lines 176-209. */
    method FreeTransfers()
      requires Shape()
      modifies this`transfersAllocated, heap`freed, receivedSamplesQueue, transferBuffers
      ensures !transfersAllocated
      ensures !old(transfersAllocated) ==> heap.freed == old(heap.freed) && OwnedNow() == old(OwnedNow())
      ensures old(transfersAllocated) ==>
                && heap.freed == old(heap.freed) + NonNull(old(transferBuffers[..])) + NonNull(old(receivedSamplesQueue[..]))
                && (forall b :: b in OwnedNow() ==> b == 0)
    {
      if transfersAllocated {
        ghost var freed0, bufs, queue := heap.freed, transferBuffers[..], receivedSamplesQueue[..];
        var t := 0;
        while t < TRANSFERS
          invariant 0 <= t <= TRANSFERS
          invariant heap.freed == freed0 + NonNull(bufs[..t]) && receivedSamplesQueue[..] == queue
          invariant forall q: nat :: q < TRANSFERS ==> transferBuffers[q] == if q < t then 0 else bufs[q]
        {
          assert bufs[..t + 1][..t] == bufs[..t];
          if transferBuffers[t] != 0 {
            heap.Free(transferBuffers[t]);
            transferBuffers[t] := 0;
          }
          t := t + 1;
        }
        assert bufs[..t] == bufs;
        transfersAllocated := false;
        var i := 0;
        while i < SLOTS
          invariant 0 <= i <= SLOTS
          invariant heap.freed == freed0 + NonNull(bufs) + NonNull(queue[..i]) && !transfersAllocated
          invariant forall q: nat :: q < SLOTS ==> receivedSamplesQueue[q] == if q < i then 0 else queue[q]
          invariant forall q: nat :: q < TRANSFERS ==> transferBuffers[q] == 0
        {
          assert queue[..i + 1][..i] == queue[..i];
          if receivedSamplesQueue[i] != 0 {
            heap.Free(receivedSamplesQueue[i]);
            receivedSamplesQueue[i] := 0;
          }
          i := i + 1;
        }
        assert queue[..i] == queue;
      }
    }
  }

  function NonNull(s: seq<nat>): seq<nat> {
    if |s| == 0 then [] else NonNull(s[..|s| - 1]) + if s[|s| - 1] != 0 then [s[|s| - 1]] else []
  }

  lemma {:induction false} NonNullIdentity(s: seq<nat>)
    requires 0 !in s
    ensures NonNull(s) == s
  {
    if |s| > 0 {
      NonNullIdentity(s[..|s| - 1]);
    }
  }

  /** Releasing after any run: since the buffers are still the distinct ones allocated, each is released exactly once,
      wherever the swaps have left it. */
  lemma ReleasedExactlyOnce(queue: seq<nat>, bufs: seq<nat>, b: nat)
    requires Distinct(queue + bufs) && 0 !in queue + bufs && b in queue + bufs
    ensures multiset(NonNull(bufs) + NonNull(queue))[b] == 1
  {
    assert forall x :: x in queue || x in bufs ==> x in queue + bufs;
    NonNullIdentity(queue);
    NonNullIdentity(bufs);
    DistinctOnce(queue + bufs, b);
    assert multiset(queue + bufs) == multiset(bufs + queue);
  }

  lemma {:induction false} DistinctOnce(s: seq<nat>, b: nat)
    requires Distinct(s)
    ensures multiset(s)[b] == if b in s then 1 else 0
  {
    if |s| > 0 {
      var n := |s| - 1;
      assert s == s[..n] + [s[n]];
      DistinctOnce(s[..n], b);
    }
  }
}
