/** The sample limit of tools/src/airspyhf_rx.c:301-356 and 527-529: how much `rx_callback` has written when it first
    asks the library to stop. */
module RxLimit {
  import opened Words

  const BYTES_PER_SAMPLE := 8

  /** Line 527: the product is taken modulo 2^64. */
  function ByteLimit(samples: int): int {
    (samples * BYTES_PER_SAMPLE) % U64
  }

  function Flatten(blocks: seq<seq<Byte>>): seq<Byte> {
    if blocks == [] then [] else Flatten(blocks[..|blocks| - 1]) + blocks[|blocks| - 1]
  }

  class Writer {
    var limited: bool
    var bytesToXfer: int
    var file: seq<Byte>

    ghost var blocks: seq<seq<Byte>> // every block offered since the limit was set
    ghost var limit: int
    ghost var intact: bool // no write has been cut short

    /** Until the first request to stop, everything offered is in the file and the rest of the limit is still to come. */
    ghost predicate Running()
      reads this
    {
      && intact && file == Flatten(blocks)
      && 0 <= limit < U64
      && (limited ==> 0 <= bytesToXfer && |file| + bytesToXfer == limit && (blocks != [] ==> bytesToXfer > 0))
    }

    /** Line 527, with the output just opened. */
    constructor (limitNumSamples: bool, samples: int)
      requires 0 <= samples < U64
      ensures Running() && blocks == [] && limited == limitNumSamples && limit == ByteLimit(samples)
    {
      limited, bytesToXfer, file := limitNumSamples, ByteLimit(samples), [];
      blocks, limit, intact := [], ByteLimit(samples), true;
    }

    /** Lines 301-356 with an open file; `written` is what `fwrite` accepts. */
    method RxCallback(samples: seq<Byte>, written: int) returns (result: int)
      requires Running() && |samples| < U32
      requires 0 <= written <= |samples|
      modifies this
      ensures blocks == old(blocks) + [samples] && limit == old(limit) && limited == old(limited)
      ensures result == 0 || result == -1
      ensures result == 0 ==> Running()
      ensures file <= Flatten(blocks)
      ensures result != 0 && intact ==> limited && |file| == limit <= |Flatten(blocks)| && |Flatten(old(blocks))| <= limit
      ensures intact && result == 0 && limited ==> |Flatten(blocks)| < limit
      ensures !intact ==> result == -1
      ensures written == |samples| ==> intact
    {
      var bytesToWrite := |samples|;
      if limited {
        if bytesToWrite >= bytesToXfer {
          bytesToWrite := AsWord(bytesToXfer);
        }
        bytesToXfer := bytesToXfer - bytesToWrite;
      }
      var bytesWritten := if written < bytesToWrite then written else bytesToWrite;
      blocks := blocks + [samples];
      FlattenAppend(old(blocks), samples);
      intact := bytesWritten == bytesToWrite;
      file := file + samples[..bytesWritten];
      if bytesWritten != bytesToWrite || (limited && bytesToXfer == 0) {
        result := -1;
      } else {
        result := 0;
      }
    }
  }

  /** `(int)` of a value below 2^32, stored back into a `uint32_t`. */
  function AsWord(v: int): (w: int)
    ensures 0 <= v < U32 ==> w == v
  {
    var low := v % U32;
    var asInt := if low >= 0x8000_0000 then low - U32 else low;
    (asInt + U32) % U32
  }

  lemma FlattenAppend(blocks: seq<seq<Byte>>, b: seq<Byte>)
    ensures Flatten(blocks + [b]) == Flatten(blocks) + b
  {
    assert (blocks + [b])[..|blocks|] == blocks;
  }

  lemma LimitExactIff(samples: int)
    requires 0 <= samples < U64
    ensures 0 <= ByteLimit(samples) < U64 && ByteLimit(samples) == 8 * samples % 0x1_0000_0000_0000_0000
    ensures ByteLimit(samples) == samples * BYTES_PER_SAMPLE <==> samples < 0x2000_0000_0000_0000
  {
  }

  // ----- Whole runs -----

  datatype Outcome = Outcome(file: seq<Byte>, stopped: bool)

  /** The consumer offers the blocks in turn until the callback asks to stop, and every write completes: the first
      8n bytes are kept, modulo the wrap of the limit, so n samples are what was asked for exactly when n < 2^61. */
  method Receive(samples: int, offered: seq<seq<Byte>>) returns (r: Outcome)
    requires 0 <= samples < U64 && forall b <- offered :: |b| < U32
    ensures var limit := 8 * samples % 0x1_0000_0000_0000_0000;
            var all := Flatten(offered);
            && r.stopped == (offered != [] && |all| >= limit)
            && r.file == (if |all| >= limit then all[..limit] else all)
            && (r.stopped ==> (|r.file| == 8 * samples <==> samples < 0x2000_0000_0000_0000))
  {
    hide ByteLimit, Flatten;
    LimitExactIff(samples);
    var w := new Writer(true, samples);
    var i := 0;
    while i < |offered|
      invariant 0 <= i <= |offered| && fresh(w)
      invariant w.Running() && w.limited && w.limit == ByteLimit(samples) && w.blocks == offered[..i]
    {
      assert offered[i] in offered;
      var result := w.RxCallback(offered[i], |offered[i]|);
      i := i + 1;
      assert offered[..i] == offered[..i - 1] + [offered[i - 1]];
      if result != 0 {
        FlattenPrefix(offered, i);
        return Outcome(w.file, true);
      }
    }
    assert offered[..i] == offered;
    r := Outcome(w.file, false);
  }

  lemma {:induction false} FlattenPrefix(blocks: seq<seq<Byte>>, i: nat)
    requires i <= |blocks|
    ensures Flatten(blocks[..i]) <= Flatten(blocks)
    decreases |blocks|
  {
    if i == |blocks| {
      assert blocks[..i] == blocks;
    } else {
      var front := blocks[..|blocks| - 1];
      FlattenPrefix(front, i);
      assert front[..i] == blocks[..i];
    }
  }
}
