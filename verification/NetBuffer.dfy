/** The network ring buffer: one reader, one worker, and whoever stops and starts jobs, as
    interleaved steps on shared fields. A step is one access to a shared field, one byte
    copied, or one region with interrupts off. */
module NetBuffer {
  import opened Bits

  datatype Stat = Stopped | Buffering | Suspend | Stopping

  /** Where a read stands. A read that is about to leave the ring goes astray, and nothing
      more is said of it. */
  datatype ReaderAt =
    | RIdle | RTestBuffering | RTestSuspend | RFlag | RTake | RIndex | RLength | RCopy | RMove | RTakeOut
    | RRelease | RAstray

  /** Where the worker stands. */
  datatype WorkerAt =
    | WIdle | WCheck | WReset | WLoop | WFetch | WRoom | WSuspend | WTake | WCopy | WMove | WCommit
    | WTestBuffering | WTestWaiting | WClear | WReady | WStop | WStopTest | WStopClear | WStopReady | WStopReset

  const BLOCK_SIZE := 4096

  function Wrap(x: int): nat { x % 0x1_0000_0000 }

  /** A water mark; the product is taken in 32 bits. */
  function Mark(size: nat, percent: nat): nat { Wrap(size * percent) / 100 }

  /** The resume mark leaves room for a whole block whenever it lets the worker go on. */
  predicate GapCoversBlock(size: nat) { size - Mark(size, 80) >= BLOCK_SIZE - 1 }

  /** Up to 53 million bytes the mark is the percentage, rounded down, and the gap above it covers a
      block in rings of 20471 bytes and more. */
  lemma MarkIsPercent(size: nat, percent: nat)
    ensures size * percent < 0x1_0000_0000 ==>
            100 * Mark(size, percent) <= size * percent < 100 * Mark(size, percent) + 100
    ensures size * 80 < 0x1_0000_0000 ==> (GapCoversBlock(size) <==> size >= 20471)
  {
    var p := size * percent;
    assert p < 0x1_0000_0000 ==> Wrap(p) == p;
  }

  // ----- positions in the stream and slots of the ring -----

  /** The slot of the stream's p-th byte. */
  function Slot(p: nat, size: nat): (k: nat)
    requires size > 0
    ensures k < size
  {
    p % size
  }

  lemma SlotNext(p: nat, i: nat, size: nat)
    requires size > 0 && i <= size
    ensures Slot(p + i, size) == if Slot(p, size) + i < size then Slot(p, size) + i else Slot(p, size) + i - size
  {
    var q, r := p / size, p % size;
    if r + i < size {
      DivModUnique(p + i, size, q, r + i);
    } else {
      assert (q + 1) * size == q * size + size;
      DivModUnique(p + i, size, q + 1, r + i - size);
    }
  }

  /** Fewer than `size` bytes apart, two bytes do not share a slot. */
  lemma SlotsDiffer(p: nat, q: nat, size: nat)
    requires size > 0 && p < q < p + size
    ensures Slot(p, size) != Slot(q, size)
  {
    SlotNext(p, q - p, size);
  }

  /** The ring holds the bytes lo..hi of the stream. */
  ghost predicate Holds(ring: seq<int>, stream: seq<int>, lo: nat, hi: nat) {
    && |ring| > 0 && hi <= |stream|
    && forall p :: lo <= p < hi ==> ring[Slot(p, |ring|)] == stream[p]
  }

  lemma HoldsMore(ring: seq<int>, stream: seq<int>, lo: nat, hi: nat)
    requires Holds(ring, stream, lo, hi) && lo <= hi < |stream| && hi - lo < |ring|
    ensures Holds(ring[Slot(hi, |ring|) := stream[hi]], stream, lo, hi + 1)
  {
    hide Slot;
    var u := ring[Slot(hi, |ring|) := stream[hi]];
    forall p | lo <= p < hi
      ensures u[Slot(p, |ring|)] == stream[p]
    {
      SlotsDiffer(p, hi, |ring|);
    }
  }

  lemma HoldsPrefix(ring: seq<int>, stream: seq<int>, more: seq<int>, lo: nat, hi: nat)
    requires Holds(ring, stream, lo, hi)
    ensures Holds(ring, stream + more, lo, hi)
  {
    hide Slot;
  }

  lemma HoldsLess(ring: seq<int>, stream: seq<int>, lo: nat, lo': nat, hi: nat)
    requires Holds(ring, stream, lo, hi) && lo <= lo'
    ensures Holds(ring, stream, lo', hi)
  {
    hide Slot;
  }

  lemma HoldsAt(ring: seq<int>, stream: seq<int>, lo: nat, hi: nat, p: nat)
    requires Holds(ring, stream, lo, hi) && lo <= p < hi
    ensures p < |stream| && ring[Slot(p, |ring|)] == stream[p]
  {
    hide Slot;
  }

  lemma SliceNext(s: seq<int>, lo: nat, hi: nat)
    requires lo <= hi < |s|
    ensures s[lo..hi + 1] == s[lo..hi] + [s[hi]]
  {
  }

  /** An event of a run: a read is called, the reader or the worker makes its next step, the
      job is stopped, a start is claimed, a claimed job is sent. */
  datatype Event = Read(length: nat) | Reader | Worker(block: seq<int>) | Stop | Start | Send

  /** What has become of the stream of the current job: all is right; it has not begun or is
      over; the reader took its bytes from an index of an earlier stream; or the worker wrote
      over bytes that had not been taken out yet. */
  datatype Fate = Right | Over | Misread | Overwritten

  lemma NoWrap(x: int)
    ensures 0 <= x < 0x1_0000_0000 ==> Wrap(x) == x
  {
  }

  lemma RoomOnResume(size: nat, d: int, n: nat)
    ensures GapCoversBlock(size) && d < Mark(size, 80) && n <= BLOCK_SIZE ==> d + n <= size
  {
    hide Mark;
  }

  class NetBuffer {
    const size: nat
    const data: array<int>
    var readIndex: nat
    var saveIndex: nat
    var dataLength: nat
    var stat: Stat
    var isWaitReady: bool
    var waitReady: nat
    var waitResume: nat
    /** Jobs sent to the worker, and jobs whose sender has set the state but not sent yet. */
    var jobs: nat
    var claimed: nat

    // the reader's program counter and local variables
    var rAt: ReaderAt
    var rData: nat
    var rIndex: nat
    var rLength: nat
    var rOut: seq<int>

    // the worker's
    var wAt: WorkerAt
    var wBlock: seq<int>
    var wCopied: nat
    var wData: nat

    // The stream of the current job: all bytes fetched, how many of them are counted in the
    // buffer or were, how many have been taken out again, and what the reads have returned.
    // `roomy` says that the worker never goes on without room for its block: the gap above the
    // resume mark covers a block, and no stop has come to a suspension whose block does not fit.
    // `lagging` says that when the job reset the indices a read was in the middle of its copy, or
    // had taken an index other than the new one.
    ghost var fate: Fate
    ghost var roomy: bool
    ghost var lagging: bool
    /** How many jobs have reset the indices at their start, and how many at their end. */
    ghost var begun: nat
    ghost var ended: nat
    ghost var fetched: seq<int>
    ghost var stored: nat
    ghost var taken: nat
    ghost var returned: seq<int>

    // ----- what every step keeps -----

    /** Nobody has yet released wait_resume for a reader that found the worker suspended. */
    predicate Resuming()
      reads this
    {
      rAt.RRelease?
    }

    /** At most one resume token exists or is about to; the worker waits either suspended and
        without one, or resumed with exactly one; and none is left over elsewhere. */
    ghost predicate ResumeTokens()
      reads this
    {
      && waitResume + (if Resuming() then 1 else 0) <= 1
      && if wAt.WTake?
         then (stat.Suspend? && waitResume == 0 && !Resuming())
           || ((stat.Buffering? || stat.Stopping?) && waitResume + (if Resuming() then 1 else 0) == 1)
         else !stat.Suspend? && waitResume == 0 && !Resuming()
    }

    /** A reader that waits for data has exactly one wake-up ahead of it, and otherwise there
        is none. */
    ghost predicate ReadyTokens()
      reads this
    {
      && waitReady + (if isWaitReady then 1 else 0) + (if wAt.WReady? || wAt.WStopReady? then 1 else 0)
         == (if rAt.RTake? then 1 else 0)
      && (wAt.WClear? || wAt.WStopClear? ==> isWaitReady)
    }

    /** The places where the worker holds a block that is not counted in the buffer yet. */
    predicate BlockInHand()
      reads this
    {
      wAt.WRoom? || wAt.WSuspend? || wAt.WTake? || Storing()
    }

    predicate Storing()
      reads this
    {
      wAt.WCopy? || wAt.WMove? || wAt.WCommit?
    }

    /** The reader is between taking its view of the buffer and taking its bytes out. */
    predicate Reading()
      reads this
    {
      rAt.RCopy? || rAt.RMove? || rAt.RTakeOut?
    }

    /** Every access to the ring is in range, in every run. */
    ghost predicate InRange()
      reads this
    {
      && BLOCK_SIZE <= size == data.Length < 0x1_0000_0000
      && readIndex < size && saveIndex < size && rIndex < size && (Reading() ==> rLength <= size)
      && (BlockInHand() ==> 0 < |wBlock| <= BLOCK_SIZE && wCopied <= |wBlock|)
      && (wAt.WMove? || wAt.WCommit? ==> wCopied == |wBlock|)
      && (BlockInHand() && !Storing() ==> wCopied == 0)
      && (Reading() ==> |rOut| <= rLength)
      && (rAt.RMove? || rAt.RTakeOut? ==> |rOut| == rLength)
      && (rAt.RLength? || rAt.RCopy? || rAt.RMove? ==> readIndex <= rIndex)
    }

    /** While a job runs: lengths, indices and the ring all agree with the stream, and what has
        been returned is its beginning. */
    ghost predicate Stream()
      reads this, data
    {
      && size > 0 && dataLength == stored - taken && taken <= stored && dataLength <= size
      && |fetched| == stored + (if BlockInHand() then |wBlock| else 0)
      && (BlockInHand() ==> wBlock == fetched[stored..])
      && (Storing() ==> dataLength + wCopied <= size)
      && (roomy && (Storing() || (wAt.WTake? && !stat.Suspend?)) ==> dataLength + |wBlock| <= size)
      && saveIndex == Slot(stored + (if wAt.WCommit? then |wBlock| else 0), size)
      && readIndex == Slot(taken + (if rAt.RTakeOut? then rLength else 0), size)
      && Holds(data[..], fetched, taken, stored + (if Storing() then wCopied else 0))
      && (Reading() ==> rIndex == Slot(taken, size))
      && (Reading() ==> |rOut| <= rLength <= dataLength && rOut == fetched[taken..taken + |rOut|])
      && returned == fetched[..taken]
    }

    ghost predicate Inv()
      reads this, data
    {
      && InRange() && ResumeTokens() && ReadyTokens()
      && (roomy ==> GapCoversBlock(size) && !fate.Overwritten?) && (fate.Misread? ==> lagging)
      && (fate.Right? && rAt.RLength? && !lagging ==> rIndex == readIndex)
      && (fate.Right? ==> !wAt.WIdle? && !wAt.WCheck? && !wAt.WReset? && Stream())
    }

    // ----- when a stream is spoilt -----

    /** The reader took its index before the job reset it, and now there are data. */
    predicate ReadsStale()
      reads this
    {
      rAt.RLength? && dataLength > 0 && rIndex != readIndex
    }

    /** A read has an index, and not the one that a job starts with, or is in its copy. */
    predicate Lags()
      reads this
    {
      Reading() || (rAt.RLength? && rIndex != 0)
    }

    /** The worker's next byte goes where a byte is that has not been taken out. */
    predicate WritesOver()
      reads this
    {
      wAt.WCopy? && wCopied < |wBlock| && dataLength + wCopied >= size
    }

    /** A stop releases a worker whose block has no room yet. */
    predicate StopsWithoutRoom()
      reads this
    {
      stat.Suspend? && dataLength + |wBlock| > size
    }

    // ----- net_buf_read -----

    /** A read is called. */
    method Call(length: nat)
      requires Inv() && rAt.RIdle?
      modifies this`rAt, this`rLength, this`rData, this`rOut
      ensures Inv() && rLength == length && rData == dataLength && rOut == []
      ensures rAt == if dataLength == 0 then RTestBuffering else RIndex
    {
      hide Slot, Holds, Mark, GapCoversBlock, Wrap;
      rLength, rData, rOut := length, dataLength, [];
      rAt := if rData == 0 then RTestBuffering else RIndex;
    }

    method TestStat()
      requires Inv() && (rAt.RTestBuffering? || rAt.RTestSuspend?)
      modifies this`rAt
      ensures Inv()
      ensures old(rAt).RTestBuffering? ==> rAt == if stat.Buffering? then RFlag else RTestSuspend
      ensures old(rAt).RTestSuspend? ==> rAt == if stat.Suspend? then RFlag else RIndex
    {
      hide Slot, Holds, Mark, GapCoversBlock, Wrap;
      if rAt.RTestBuffering? {
        rAt := if stat.Buffering? then RFlag else RTestSuspend;
      } else {
        rAt := if stat.Suspend? then RFlag else RIndex;
      }
    }

    method SetWaitReady()
      requires Inv() && rAt.RFlag?
      modifies this`rAt, this`isWaitReady
      ensures Inv() && isWaitReady && rAt.RTake?
    {
      hide Slot, Holds, Mark, GapCoversBlock, Wrap;
      isWaitReady := true;
      rAt := RTake;
    }

    /** Blocks while there is no token. */
    method TakeWaitReady()
      requires Inv() && rAt.RTake?
      modifies this`rAt, this`waitReady
      ensures Inv() && waitReady == 0
      ensures rAt == if old(waitReady) > 0 then RIndex else RTake
    {
      hide Slot, Holds, Mark, GapCoversBlock, Wrap;
      if waitReady > 0 {
        waitReady := waitReady - 1;
        rAt := RIndex;
      }
    }

    method GetReadIndex()
      requires Inv() && rAt.RIndex?
      modifies this`rAt, this`rIndex
      ensures Inv() && rIndex == readIndex && rAt.RLength?
    {
      hide Slot, Holds, Mark, GapCoversBlock, Wrap;
      rIndex := readIndex;
      rAt := RLength;
    }

    /** Re-gets the data length and cuts the read to it; an empty buffer ends the read. The read
        goes astray only in a ring that is overfull already. */
    method GetDataLength()
      requires Inv() && rAt.RLength?
      modifies this`rAt, this`rData, this`rLength, this`rOut, this`fate
      ensures Inv() && rData == dataLength && rOut == []
      ensures rLength == if old(rLength) > dataLength then dataLength else old(rLength)
      ensures rAt == if dataLength == 0 then RIdle else if rLength > size then RAstray else RCopy
      ensures fate == if old(fate).Right? && old(ReadsStale()) then Misread else old(fate)
      ensures rAt.RAstray? ==> !old(fate).Right? && dataLength > size && old(rLength) > size
    {
      hide *;
      StaleMeans();
      CheckIndex();
      CutLength();
      StartCopy();
    }

    method CutLength()
      requires Inv() && rAt.RLength?
      modifies this`rData, this`rLength, this`rOut
      ensures Inv() && rData == dataLength && rOut == []
      ensures rLength == if old(rLength) > dataLength then dataLength else old(rLength)
    {
      hide Slot, Holds, Mark, GapCoversBlock, Wrap;
      rData, rOut := dataLength, [];
      if rLength > rData {
        rLength := rData;
      }
    }

    lemma StaleMeans()
      ensures ReadsStale() <==> rAt.RLength? && dataLength > 0 && rIndex != readIndex
      ensures Inv() && fate.Right? ==> dataLength <= size
    {
      hide Slot, Holds;
    }

    method StartCopy()
      requires Inv() && rAt.RLength? && rData == dataLength && rOut == [] && rLength <= rData
      requires fate.Right? && dataLength > 0 ==> rIndex == readIndex
      modifies this`rAt
      ensures Inv() && rAt == if rData == 0 then RIdle else if rLength > size then RAstray else RCopy
      ensures rAt.RAstray? ==> !fate.Right?
    {
      hide Slot, Holds, Mark, GapCoversBlock, Wrap;
      TakeNone();
      rAt := if rData == 0 then RIdle else if rLength > size then RAstray else RCopy;
    }

    ghost method CheckIndex()
      requires Inv() && rAt.RLength?
      modifies this`fate
      ensures Inv() && (fate.Right? && dataLength > 0 ==> rIndex == readIndex)
      ensures fate == if old(fate).Right? && old(ReadsStale()) then Misread else old(fate)
    {
      hide Slot, Holds, Mark, GapCoversBlock, Wrap;
      fate := if fate.Right? && ReadsStale() then Misread else fate;
    }

    /** Where the reader finds the i-th byte of its copy. */
    function ReadFrom(i: nat): int
      reads this
    {
      if size - rIndex > rLength || i < size - rIndex then rIndex + i else i - (size - rIndex)
    }

    /** One byte of the reader's copy, or its end. */
    method CopyOut()
      requires Inv() && rAt.RCopy?
      modifies this`rAt, this`rOut
      ensures Inv()
      ensures if old(|rOut|) < rLength then rAt.RCopy? && |rOut| == old(|rOut|) + 1 else rAt.RMove? && rOut == old(rOut)
      ensures old(|rOut|) < rLength ==>
                0 <= ReadFrom(old(|rOut|)) < size && rOut == old(rOut) + [data[ReadFrom(old(|rOut|))]]
    {
      hide Slot, Holds, Mark, GapCoversBlock, Wrap;
      if |rOut| < rLength {
        ReadIsStream();
        rOut := rOut + [data[ReadFrom(|rOut|)]];
      } else {
        rAt := RMove;
      }
    }

    method MoveReadIndex()
      requires Inv() && rAt.RMove?
      modifies this`rAt, this`readIndex
      ensures Inv() && rAt.RTakeOut?
    {
      hide Slot, Holds, Mark, GapCoversBlock, Wrap;
      if fate.Right? {
        SlotNext(taken, rLength, size);
      }
      if size - rIndex > rLength {
        readIndex := readIndex + rLength;
      } else {
        readIndex := rLength - (size - rIndex);
      }
      rAt := RTakeOut;
    }

    /** Interrupts off: the bytes are taken out, and a suspended worker is marked as buffering
        again once there is room. */
    method TakeOut()
      requires Inv() && rAt.RTakeOut?
      modifies this`rAt, this`dataLength, this`stat, this`taken, this`returned
      ensures Inv() && dataLength == Wrap(old(dataLength) - rLength)
      ensures returned == old(returned) + rOut && |rOut| == rLength
      ensures if old(stat).Suspend? && dataLength < Mark(size, 80)
              then stat.Buffering? && rAt.RRelease? else stat == old(stat) && rAt.RIdle?
    {
      hide Mark, Wrap, Inv;
      InHand();
      Subtract();
      if stat.Suspend? && dataLength < Mark(size, 80) {
        MarkBuffering();
      }
    }

    method Subtract()
      requires Inv() && rAt.RTakeOut?
      modifies this`rAt, this`dataLength, this`taken, this`returned
      ensures Inv() && dataLength == Wrap(old(dataLength) - rLength) && rAt.RIdle?
      ensures returned == old(returned) + rOut
    {
      hide Slot, Holds, Mark, GapCoversBlock, Wrap;
      TakenOut();
      dataLength := Wrap(dataLength - rLength);
      taken := taken + rLength;
      returned := returned + rOut;
      rAt := RIdle;
    }

    method MarkBuffering()
      requires Inv() && rAt.RIdle? && stat.Suspend? && dataLength < Mark(size, 80)
      modifies this`rAt, this`stat
      ensures Inv() && stat.Buffering? && rAt.RRelease?
    {
      hide Slot, Holds, Mark, GapCoversBlock, Wrap;
      RoomOnResume(size, dataLength, |wBlock|);
      stat := Buffering;
      rAt := RRelease;
    }

    lemma InHand()
      requires Inv() && rAt.RTakeOut?
      ensures |rOut| == rLength
    {
    }

    method ReleaseWaitResume()
      requires Inv() && rAt.RRelease?
      modifies this`rAt, this`waitResume
      ensures Inv() && waitResume == old(waitResume) + 1 && rAt.RIdle?
    {
      hide Slot, Holds, Mark, GapCoversBlock, Wrap;
      waitResume := waitResume + 1;
      rAt := RIdle;
    }

    lemma ReadIsStream()
      requires InRange() && rAt.RCopy? && |rOut| < rLength && (fate.Right? ==> Stream())
      ensures 0 <= ReadFrom(|rOut|) < size
      ensures fate.Right? ==> taken + |rOut| < stored <= |fetched| && data[ReadFrom(|rOut|)] == fetched[taken + |rOut|]
      ensures fate.Right? ==> rOut + [data[ReadFrom(|rOut|)]] == fetched[taken..taken + |rOut| + 1]
    {
      hide Slot, Holds;
      if fate.Right? {
        SlotNext(taken, |rOut|, size);
        HoldsAt(data[..], fetched, taken, stored + (if Storing() then wCopied else 0), taken + |rOut|);
        SliceNext(fetched, taken, taken + |rOut|);
      }
    }

    lemma TakenOut()
      requires Inv() && rAt.RTakeOut?
      ensures fate.Right? ==> rLength <= dataLength && Wrap(dataLength - rLength) == dataLength - rLength
      ensures fate.Right? ==> Holds(data[..], fetched, taken + rLength, stored + (if Storing() then wCopied else 0))
      ensures fate.Right? ==> taken + rLength <= |fetched| && fetched[..taken + rLength] == returned + rOut
    {
      hide Slot, Holds, Wrap;
      if fate.Right? {
        NoWrap(dataLength - rLength);
        HoldsLess(data[..], fetched, taken, taken + rLength, stored + (if Storing() then wCopied else 0));
        assert fetched[..taken + rLength] == fetched[..taken] + fetched[taken..taken + rLength];
      }
    }

    lemma TakeNone()
      ensures fate.Right? && Inv() ==> fetched[taken..taken] == []
    {
    }

    // ----- the worker thread -----

    /** Receives a job, if there is one. */
    method ReceiveJob()
      requires Inv() && wAt.WIdle?
      modifies this`wAt, this`jobs
      ensures Inv()
      ensures if old(jobs) > 0 then jobs == old(jobs) - 1 && wAt.WCheck? else jobs == 0 && wAt.WIdle?
    {
      hide Slot, Holds, Mark, GapCoversBlock, Wrap;
      if jobs > 0 {
        jobs := jobs - 1;
        wAt := WCheck;
      }
    }

    /** A job is performed only if it has not been stopped meanwhile. */
    method CheckJob()
      requires Inv() && wAt.WCheck?
      modifies this`wAt
      ensures Inv() && wAt == if stat.Buffering? then WReset else WIdle
    {
      hide Slot, Holds, Mark, GapCoversBlock, Wrap;
      wAt := if stat.Buffering? then WReset else WIdle;
    }

    /** The job starts with an empty ring. Its stream starts well unless a read of an earlier
        stream is in the middle of its copy. */
    method ResetIndices()
      requires Inv() && wAt.WReset?
      modifies this`wAt, this`dataLength, this`readIndex, this`saveIndex
      modifies this`fate, this`roomy, this`lagging, this`begun, this`fetched, this`stored, this`taken, this`returned
      ensures Inv() && dataLength == readIndex == saveIndex == 0 && wAt.WLoop? && !old(fate).Right?
      ensures fate == (if old(Reading()) then Misread else Right) && (roomy <==> GapCoversBlock(size))
      ensures lagging == old(Lags()) && begun == old(begun) + 1
      ensures fetched == returned == [] && stored == taken == 0
    {
      hide Slot, Holds, Mark, GapCoversBlock, Wrap;
      NoStream();
      dataLength := 0;
      readIndex, saveIndex := 0, 0;
      wAt := WLoop;
      NoteLag();
      StartStream();
    }

    ghost method NoStream()
      requires Inv() && wAt.WReset?
      modifies this`fate, this`begun
      ensures Inv() && fate.Over? && begun == old(begun) + 1
    {
      hide Slot, Holds, Mark, GapCoversBlock, Wrap, Stream;
      fate, begun := Over, begun + 1;
    }

    ghost method NoteLag()
      requires Inv() && fate.Over?
      modifies this`roomy, this`lagging, this`fetched, this`stored, this`taken, this`returned
      ensures Inv() && lagging == Lags() && (roomy <==> GapCoversBlock(size))
      ensures fetched == returned == [] && stored == taken == 0
    {
      hide Slot, Holds, Mark, GapCoversBlock, Wrap, Stream;
      roomy, lagging := GapCoversBlock(size), Lags();
      fetched, stored, taken, returned := [], 0, 0, [];
    }

    ghost method StartStream()
      requires Inv() && wAt.WLoop? && dataLength == readIndex == saveIndex == 0 && lagging == Lags()
      requires fetched == returned == [] && stored == taken == 0
      modifies this`fate
      ensures Inv() && fate == (if Reading() then Misread else Right)
    {
      hide Mark, Slot, GapCoversBlock, Wrap, Holds, Stream;
      fate := if Reading() then Misread else Right;
      if !Reading() {
        EmptyStream();
      }
    }

    lemma EmptyStream()
      requires InRange() && wAt.WLoop? && dataLength == readIndex == saveIndex == 0 && !Reading()
      requires fetched == returned == [] && stored == taken == 0
      ensures Stream()
    {
      hide Slot, Holds;
      EmptyRing(data[..]);
    }

    method TestStopping()
      requires Inv() && wAt.WLoop?
      modifies this`wAt
      ensures Inv() && wAt == if stat.Stopping? then WStop else WFetch
    {
      hide Slot, Holds, Mark, GapCoversBlock, Wrap;
      wAt := if stat.Stopping? then WStop else WFetch;
    }

    /** Fetches up to a block; an empty one is the end of the source. */
    method Fetch(block: seq<int>)
      requires Inv() && wAt.WFetch? && |block| <= BLOCK_SIZE
      modifies this`wAt, this`wBlock, this`wCopied, this`fetched
      ensures Inv() && wBlock == block && fetched == old(fetched) + block
      ensures wAt == if block == [] then WStop else WRoom
    {
      hide Slot, Holds, Mark, GapCoversBlock, Wrap;
      HoldsMoreStream(block);
      wBlock, wCopied := block, 0;
      fetched := fetched + block;
      wAt := if block == [] then WStop else WRoom;
    }

    /** Looks for room; the subtraction is unsigned. */
    method TestRoom()
      requires Inv() && wAt.WRoom?
      modifies this`wAt, this`wData
      ensures Inv() && wData == dataLength
      ensures wAt == if Wrap(size - dataLength) < |wBlock| then WSuspend else WCopy
    {
      hide Slot, Holds, Mark, GapCoversBlock, Wrap;
      NoWrap(size - dataLength);
      wData := dataLength;
      wAt := if Wrap(size - wData) < |wBlock| then WSuspend else WCopy;
    }

    /** Suspends itself; this also overwrites a stop that has just come. */
    method SetSuspend()
      requires Inv() && wAt.WSuspend?
      modifies this`wAt, this`stat
      ensures Inv() && stat.Suspend? && wAt.WTake?
    {
      hide Slot, Holds, Mark, GapCoversBlock, Wrap;
      stat := Suspend;
      wAt := WTake;
    }

    /** Blocks while there is no token. */
    method TakeWaitResume()
      requires Inv() && wAt.WTake?
      modifies this`wAt, this`waitResume
      ensures Inv() && waitResume == 0
      ensures wAt == if old(waitResume) > 0 then WCopy else WTake
    {
      hide Slot, Holds, Mark, GapCoversBlock, Wrap;
      if waitResume > 0 {
        waitResume := waitResume - 1;
        wAt := WCopy;
      }
    }

    /** Where the worker puts the i-th byte of its block. */
    function WriteTo(i: nat): int
      reads this
    {
      if size - saveIndex < |wBlock| && i >= size - saveIndex then i - (size - saveIndex) else saveIndex + i
    }

    /** One byte of the worker's copy, or its end. */
    method CopyIn()
      requires Inv() && wAt.WCopy?
      modifies this`wAt, this`wCopied, this`fate, data
      ensures Inv()
      ensures fate == if old(fate).Right? && old(WritesOver()) then Overwritten else old(fate)
      ensures roomy && old(fate).Right? ==> fate.Right?
      ensures if old(wCopied) < |wBlock| then wAt.WCopy? && wCopied == old(wCopied) + 1
              else wAt.WMove? && wCopied == old(wCopied)
    {
      hide *;
      NoteWrite();
      if wCopied < |wBlock| {
        StoreByte();
      } else {
        EndCopyIn();
      }
    }

    method StoreByte()
      requires Inv() && wAt.WCopy? && wCopied < |wBlock| && (fate.Right? ==> !WritesOver())
      modifies this`wCopied, data
      ensures Inv() && wCopied == old(wCopied) + 1
    {
      hide Slot, Holds, Mark, GapCoversBlock, Wrap;
      WriteIsNext();
      data[WriteTo(wCopied)] := wBlock[wCopied];
      wCopied := wCopied + 1;
    }

    method EndCopyIn()
      requires Inv() && wAt.WCopy? && wCopied >= |wBlock|
      modifies this`wAt
      ensures Inv() && wAt.WMove?
    {
      hide Slot, Holds, Mark, GapCoversBlock, Wrap;
      wAt := WMove;
    }

    ghost method NoteWrite()
      requires Inv() && wAt.WCopy?
      modifies this`fate
      ensures Inv() && (fate.Right? ==> !WritesOver()) && (roomy && old(fate).Right? ==> fate.Right?)
      ensures fate == if old(fate).Right? && old(WritesOver()) then Overwritten else old(fate)
    {
      hide Slot, Holds, Mark, GapCoversBlock, Wrap;
      fate := if fate.Right? && WritesOver() then Overwritten else fate;
    }

    method MoveSaveIndex()
      requires Inv() && wAt.WMove?
      modifies this`wAt, this`saveIndex
      ensures Inv() && wAt.WCommit?
    {
      hide Slot, Holds, Mark, GapCoversBlock, Wrap;
      if fate.Right? {
        SlotNext(stored, |wBlock|, size);
      }
      if size - saveIndex < |wBlock| {
        saveIndex := |wBlock| - (size - saveIndex);
      } else {
        saveIndex := saveIndex + |wBlock|;
        if saveIndex >= size {
          saveIndex := 0;
        }
      }
      wAt := WCommit;
    }

    /** Interrupts off: the block is counted. */
    method Commit()
      requires Inv() && wAt.WCommit?
      modifies this`wAt, this`dataLength, this`wData, this`stored
      ensures Inv() && dataLength == wData == Wrap(old(dataLength) + |wBlock|) && wAt.WTestBuffering?
      ensures fate.Right? ==> dataLength == old(dataLength) + |wBlock| <= size
    {
      hide Slot, Holds, Mark, GapCoversBlock, Wrap;
      NoWrap(dataLength + |wBlock|);
      dataLength := Wrap(dataLength + |wBlock|);
      stored := stored + |wBlock|;
      wData := dataLength;
      wAt := WTestBuffering;
    }

    /** The worker wakes a waiting reader only above the ready mark. */
    method TestReady()
      requires Inv() && (wAt.WTestBuffering? || wAt.WTestWaiting?)
      modifies this`wAt
      ensures Inv()
      ensures old(wAt).WTestBuffering? ==>
              wAt == if stat.Buffering? && wData >= Mark(size, 90) then WTestWaiting else WLoop
      ensures old(wAt).WTestWaiting? ==> wAt == if isWaitReady then WClear else WLoop
    {
      hide Slot, Holds, Mark, GapCoversBlock, Wrap;
      if wAt.WTestBuffering? {
        wAt := if stat.Buffering? && wData >= Mark(size, 90) then WTestWaiting else WLoop;
      } else {
        wAt := if isWaitReady then WClear else WLoop;
      }
    }

    method ClearWaitReady()
      requires Inv() && (wAt.WClear? || wAt.WStopClear?)
      modifies this`wAt, this`isWaitReady
      ensures Inv() && !isWaitReady && wAt == if old(wAt).WClear? then WReady else WStopReady
    {
      hide Slot, Holds, Mark, GapCoversBlock, Wrap;
      isWaitReady := false;
      wAt := if wAt.WClear? then WReady else WStopReady;
    }

    method ReleaseWaitReady()
      requires Inv() && (wAt.WReady? || wAt.WStopReady?)
      modifies this`wAt, this`waitReady
      ensures Inv() && waitReady == old(waitReady) + 1 && wAt == if old(wAt).WReady? then WLoop else WStopReset
    {
      hide Slot, Holds, Mark, GapCoversBlock, Wrap;
      waitReady := waitReady + 1;
      wAt := if wAt.WReady? then WLoop else WStopReset;
    }

    /** net_buf_do_stop, up to the new state */
    method SetStopped()
      requires Inv() && wAt.WStop?
      modifies this`wAt, this`stat
      ensures Inv() && stat.Stopped? && wAt.WStopTest?
    {
      hide Slot, Holds, Mark, GapCoversBlock, Wrap;
      stat := Stopped;
      wAt := WStopTest;
    }

    method TestWaitReady()
      requires Inv() && wAt.WStopTest?
      modifies this`wAt
      ensures Inv() && wAt == if isWaitReady then WStopClear else WStopReset
    {
      hide Slot, Holds, Mark, GapCoversBlock, Wrap;
      wAt := if isWaitReady then WStopClear else WStopReset;
    }

    /** The end of the job, and of its stream. */
    method StopReset()
      requires Inv() && wAt.WStopReset?
      modifies this`wAt, this`dataLength, this`readIndex, this`saveIndex, this`fate, this`ended
      ensures Inv() && dataLength == readIndex == saveIndex == 0 && wAt.WIdle? && fate.Over? && ended == old(ended) + 1
    {
      hide Slot, Holds, Mark, GapCoversBlock, Wrap;
      dataLength, readIndex, saveIndex := 0, 0, 0;
      fate, ended := Over, ended + 1;
      wAt := WIdle;
    }

    // ----- stopping and starting -----

    /** net_buf_stop_job, with interrupts off. A suspended worker is released, and will store
        the block it holds. */
    method StopJob()
      requires Inv()
      modifies this`stat, this`waitResume, this`roomy
      ensures Inv()
      ensures old(stat).Suspend? ==> stat.Stopping? && waitResume == old(waitResume) + 1
      ensures old(stat).Buffering? ==> stat.Stopping? && waitResume == old(waitResume)
      ensures old(stat).Stopped? || old(stat).Stopping? ==> stat == old(stat) && waitResume == old(waitResume)
      ensures roomy <==> old(roomy) && !(old(stat).Suspend? && dataLength + |wBlock| > size)
    {
      hide Slot, Holds, Mark, GapCoversBlock, Wrap;
      NoteRoom();
      if stat.Suspend? {
        waitResume := waitResume + 1;
        stat := Stopping;
      } else if stat.Buffering? {
        stat := Stopping;
      }
    }

    ghost method NoteRoom()
      requires Inv()
      modifies this`roomy
      ensures Inv() && (roomy <==> old(roomy) && !StopsWithoutRoom())
    {
      hide Slot, Holds, Mark, GapCoversBlock, Wrap;
      roomy := roomy && !StopsWithoutRoom();
    }

    /** net_buf_start_job: the state is claimed with interrupts off, the job is sent later. */
    method ClaimJob() returns (ret: int)
      requires Inv()
      modifies this`stat, this`claimed
      ensures Inv()
      ensures ret == if old(stat).Stopped? then 0 else -1
      ensures if old(stat).Stopped? then stat.Buffering? && claimed == old(claimed) + 1
              else stat == old(stat) && claimed == old(claimed)
    {
      hide Slot, Holds, Mark, GapCoversBlock, Wrap;
      if stat.Stopped? {
        stat := Buffering;
        claimed := claimed + 1;
        return 0;
      }
      return -1;
    }

    method SendJob()
      requires Inv() && claimed > 0
      modifies this`claimed, this`jobs
      ensures Inv() && claimed == old(claimed) - 1 && jobs == old(jobs) + 1
    {
      hide Slot, Holds, Mark, GapCoversBlock, Wrap;
      claimed := claimed - 1;
      jobs := jobs + 1;
    }

    // ----- every run -----

    /** net_buf_init */
    constructor (n: nat)
      requires BLOCK_SIZE <= n < 0x1_0000_0000
      ensures Inv() && size == n && stat.Stopped? && rAt.RIdle? && wAt.WIdle?
      ensures fate.Over? && (roomy <==> GapCoversBlock(n)) && !lagging
      ensures dataLength == readIndex == saveIndex == 0 && jobs == claimed == 0 && !isWaitReady && begun == ended == 0
      ensures fresh(data)
    {
      size := n;
      data := new int[n];
      readIndex, saveIndex, dataLength := 0, 0, 0;
      stat, isWaitReady, waitReady, waitResume, jobs, claimed := Stopped, false, 0, 0, 0, 0;
      rAt, rData, rIndex, rLength, rOut := RIdle, 0, 0, 0, [];
      wAt, wBlock, wCopied, wData := WIdle, [], 0, 0;
      fate, roomy, lagging, begun, ended := Over, GapCoversBlock(n), false, 0, 0;
      fetched, stored, taken, returned := [], 0, 0, [];
    }

    /** The reader's next step: it goes on unless it waits for a token or has more to copy. A read
        gone astray makes no more steps. */
    method ReaderStep()
      requires Inv() && !rAt.RIdle?
      modifies this, data
      ensures Inv() && roomy == old(roomy) && lagging == old(lagging) && wAt == old(wAt)
      ensures begun == old(begun) && ended == old(ended)
      ensures rAt == old(rAt) ==>
                (rAt.RTake? && old(waitReady) == 0) || (rAt.RCopy? && |rOut| == |old(rOut)| + 1) || rAt.RAstray?
      ensures fate == if old(fate).Right? && old(ReadsStale()) then Misread else old(fate)
    {
      hide *;
      FateMeans();
      match rAt {
        case RTestBuffering | RTestSuspend => TestStat();
        case RFlag => SetWaitReady();
        case RTake => TakeWaitReady();
        case RIndex => GetReadIndex();
        case RLength => GetDataLength();
        case RCopy => CopyOut();
        case RMove => MoveReadIndex();
        case RTakeOut => TakeOut();
        case RRelease => ReleaseWaitResume();
        case RAstray =>
      }
    }

    /** The worker's next step; `block` is what a fetch brings. It goes on unless it waits for a job
        or a token or has more to copy. */
    method WorkerStep(block: seq<int>)
      requires Inv() && |block| <= BLOCK_SIZE
      modifies this, data
      ensures Inv()
      ensures fate == if old(wAt).WReset? then (if old(Reading()) then Misread else Right)
                      else if old(wAt).WStopReset? then Over
                      else if old(fate).Right? && old(WritesOver()) then Overwritten else old(fate)
      ensures roomy <==> if old(wAt).WReset? then GapCoversBlock(size) else old(roomy)
      ensures lagging <==> if old(wAt).WReset? then old(Lags()) else old(lagging)
      ensures begun == old(begun) + (if old(wAt).WReset? then 1 else 0)
      ensures ended == old(ended) + (if old(wAt).WStopReset? then 1 else 0)
      ensures wAt == old(wAt) ==>
                || (wAt.WIdle? && old(jobs) == 0) || (wAt.WTake? && old(waitResume) == 0)
                || (wAt.WCopy? && wCopied == old(wCopied) + 1)
      ensures wAt.WIdle? || wAt.WCheck? || wAt.WReset? ==>
                old(wAt).WIdle? || old(wAt).WCheck? || old(wAt).WStopReset?
    {
      hide *;
      FateMeans();
      match wAt {
        case WIdle => ReceiveJob();
        case WCheck => CheckJob();
        case WReset => ResetIndices();
        case WLoop => TestStopping();
        case WFetch => Fetch(block);
        case WRoom => TestRoom();
        case WSuspend => SetSuspend();
        case WTake => TakeWaitResume();
        case WCopy => CopyIn();
        case WMove => MoveSaveIndex();
        case WCommit => Commit();
        case WTestBuffering | WTestWaiting => TestReady();
        case WClear | WStopClear => ClearWaitReady();
        case WReady | WStopReady => ReleaseWaitReady();
        case WStop => SetStopped();
        case WStopTest => TestWaitReady();
        case WStopReset => StopReset();
      }
    }

    /** What comes next in a run; what is not possible then does nothing. The fate of the stream
        changes exactly when its job resets the indices, ends, has its reader use a stale index,
        or has its worker write over bytes not taken out; and whoever can go on does. */
    method Step(e: Event)
      requires Inv() && (e.Worker? ==> |e.block| <= BLOCK_SIZE)
      modifies this, data
      ensures Inv()
      ensures fate == if e.Worker? && old(wAt).WReset? then (if old(Reading()) then Misread else Right)
                      else if e.Worker? && old(wAt).WStopReset? then Over
                      else if e.Worker? && old(fate).Right? && old(WritesOver()) then Overwritten
                      else if e.Reader? && old(fate).Right? && old(ReadsStale()) then Misread else old(fate)
      ensures roomy <==> if e.Worker? && old(wAt).WReset? then GapCoversBlock(size)
                         else old(roomy) && !(e.Stop? && old(StopsWithoutRoom()))
      ensures lagging <==> if e.Worker? && old(wAt).WReset? then old(Lags()) else old(lagging)
      ensures begun == old(begun) + (if e.Worker? && old(wAt).WReset? then 1 else 0)
      ensures ended == old(ended) + (if e.Worker? && old(wAt).WStopReset? then 1 else 0)
      ensures e.Read? && old(rAt).RIdle? ==> rLength == e.length && !rAt.RIdle?
      ensures e.Reader? && rAt == old(rAt) ==>
                || rAt.RIdle? || (rAt.RTake? && old(waitReady) == 0)
                || (rAt.RCopy? && |rOut| == |old(rOut)| + 1) || rAt.RAstray?
      ensures e.Worker? && wAt == old(wAt) ==>
                || (wAt.WIdle? && old(jobs) == 0) || (wAt.WTake? && old(waitResume) == 0)
                || (wAt.WCopy? && wCopied == old(wCopied) + 1)
      ensures e.Stop? ==> stat == if old(stat).Stopped? then Stopped else Stopping
      ensures e.Start? && old(stat).Stopped? ==> stat.Buffering? && claimed == old(claimed) + 1
      ensures e.Send? && old(claimed) > 0 ==> jobs == old(jobs) + 1 && claimed == old(claimed) - 1
      ensures wAt.WIdle? || wAt.WCheck? || wAt.WReset? ==>
                old(wAt).WIdle? || old(wAt).WCheck? || old(wAt).WReset? || (e.Worker? && old(wAt).WStopReset?)
    {
      hide *;
      FateMeans();
      match e {
        case Read(length) => if rAt.RIdle? { Call(length); }
        case Reader => if !rAt.RIdle? { ReaderStep(); }
        case Worker(block) => WorkerStep(block);
        case Stop => StopJob();
        case Start => var ret := ClaimJob();
        case Send => if claimed > 0 { SendJob(); }
      }
    }

    lemma FateMeans()
      requires Inv()
      ensures ReadsStale() ==> rAt.RLength?
      ensures WritesOver() ==> wAt.WCopy?
      ensures StopsWithoutRoom() <==> stat.Suspend? && dataLength + |wBlock| > size
    {
      hide Slot, Holds, Mark, GapCoversBlock, Wrap;
    }

    /** Under every interleaving: while the stream is right, what the reads have returned is its
        beginning, in order, and the ring is never overfull. It stays right, or is over, unless a
        read was lagging when the indices were reset, the gap above the resume mark does not cover
        a block, or a stop has released a worker without room. At all times the tokens are as they
        should be. */
    method Run(schedule: seq<Event>)
      requires Inv() && forall i :: 0 <= i < |schedule| && schedule[i].Worker? ==> |schedule[i].block| <= BLOCK_SIZE
      modifies this, data
      ensures fate.Right? ==> returned <= fetched && dataLength <= size
      ensures roomy && !lagging ==> fate.Right? || fate.Over?
      ensures (fate.Overwritten? ==> !roomy) && (fate.Misread? ==> lagging)
      ensures old(roomy) && (forall i :: 0 <= i < |schedule| ==> !schedule[i].Stop?) ==> roomy
      ensures begun >= old(begun) && ended >= old(ended) && (begun == old(begun) ==> lagging == old(lagging))
      ensures old(fate).Right? && ended == old(ended) ==> begun == old(begun) && !fate.Over?
      ensures waitResume <= 1 && waitReady <= 1 && (!wAt.WTake? ==> waitResume == 0)
      ensures wAt.WTake? && !stat.Suspend? ==> (waitResume == 1 <==> !rAt.RRelease?)
      ensures wAt.WTake? && stat.Suspend? ==> waitResume == 0 && !rAt.RRelease?
      ensures Inv()
    {
      hide *;
      InvMeans();
      for i := 0 to |schedule|
        invariant Inv() && begun >= old(begun) && ended >= old(ended)
        invariant old(roomy) && (forall k :: 0 <= k < i ==> !schedule[k].Stop?) ==> roomy
        invariant begun == old(begun) ==> lagging == old(lagging)
        invariant old(fate).Right? && ended == old(ended) ==>
                    begun == old(begun) && !fate.Over? && !wAt.WIdle? && !wAt.WCheck? && !wAt.WReset?
      {
        InvMeans();
        Step(schedule[i]);
      }
      InvMeans();
    }

    /** A whole job, from the reset of its indices on, under every interleaving. In a ring whose gap
        covers a block, if no read lags at the reset and no stop releases a worker without room,
        the stream is right until the job ends: what the reads have returned is the beginning of
        what was fetched, in order, and the ring is never overfull. */
    method RunJob(schedule: seq<Event>)
      requires Inv() && wAt.WReset? && !Lags() && GapCoversBlock(size)
      requires forall i :: 0 <= i < |schedule| && schedule[i].Worker? ==> |schedule[i].block| <= BLOCK_SIZE
      modifies this, data
      ensures Inv() && ended >= old(ended)
      ensures roomy && ended == old(ended) ==> fate.Right? && returned <= fetched && dataLength <= size
      ensures (forall i :: 0 <= i < |schedule| ==> !schedule[i].Stop?) ==> roomy
    {
      hide *;
      LagMeans();
      ResetIndices();
      Run(schedule);
    }

    lemma LagMeans()
      ensures !Lags() ==> !Reading()
    {
    }

    lemma InvMeans()
      requires Inv()
      ensures (fate.Right? ==> returned <= fetched && dataLength <= size)
      ensures fate.Right? ==> !wAt.WIdle? && !wAt.WCheck? && !wAt.WReset?
      ensures (fate.Overwritten? ==> !roomy) && (fate.Misread? ==> lagging)
      ensures roomy ==> GapCoversBlock(size)
      ensures waitResume <= 1 && waitReady <= 1 && (!wAt.WTake? ==> waitResume == 0)
      ensures wAt.WTake? && !stat.Suspend? ==> (waitResume == 1 <==> !rAt.RRelease?)
      ensures wAt.WTake? && stat.Suspend? ==> waitResume == 0 && !rAt.RRelease?
    {
      hide Slot, Holds;
    }

    lemma HoldsMoreStream(block: seq<int>)
      requires Inv() && wAt.WFetch?
      ensures fate.Right? ==> Holds(data[..], fetched + block, taken, stored) && (fetched + block)[stored..] == block
      ensures fate.Right? ==> |fetched| == stored && (fetched + block)[..taken] == fetched[..taken]
      ensures fate.Right? && Reading() ==> taken + |rOut| <= stored
      ensures fate.Right? && Reading() ==> (fetched + block)[taken..taken + |rOut|] == fetched[taken..taken + |rOut|]
    {
      hide Slot, Holds;
      if fate.Right? {
        HoldsPrefix(data[..], fetched, block, taken, stored);
      }
    }

    lemma WriteIsNext()
      requires Inv() && wAt.WCopy? && wCopied < |wBlock|
      ensures 0 <= WriteTo(wCopied) < size
      ensures fate.Right? ==> stored + wCopied < |fetched| && WriteTo(wCopied) == Slot(stored + wCopied, size)
      ensures fate.Right? && !WritesOver() ==>
                Holds(data[..][WriteTo(wCopied) := wBlock[wCopied]], fetched, taken, stored + wCopied + 1)
    {
      hide Slot, Holds;
      if fate.Right? {
        SlotNext(stored, wCopied, size);
        if !WritesOver() {
          HoldsMore(data[..], fetched, taken, stored + wCopied);
        }
      }
    }
  }

  lemma EmptyRing(ring: seq<int>)
    requires |ring| > 0
    ensures Holds(ring, [], 0, 0) && Slot(0, |ring|) == 0
  {
  }
}
