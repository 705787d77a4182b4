/** Runs of the ring buffer that its guarantees turn on: a reader that comes before its job, a
    worker resumed or stopped while its block has no room. */
module NetBufferRuns {
  import opened NetBuffer

  lemma InvMeans(b: NetBuffer)
    requires b.Inv()
    ensures BLOCK_SIZE <= b.size < 0x1_0000_0000 && (b.fate.Right? ==> b.dataLength <= b.size)
    ensures b.wAt.WTake? || b.wAt.WCopy? ==> 0 < |b.wBlock| <= BLOCK_SIZE && b.wCopied <= |b.wBlock|
    ensures b.wAt.WTake? || b.wAt.WRoom? ==> b.wCopied == 0
    ensures b.wAt.WTake? && b.stat.Suspend? ==> b.waitResume == 0 && !b.rAt.RRelease?
  {
    b.InvMeans();
  }

  lemma WritesOverMeans(b: NetBuffer)
    ensures b.WritesOver() <==> b.wAt.WCopy? && b.wCopied < |b.wBlock| && b.dataLength + b.wCopied >= b.size
  {
  }

  lemma Numbers(size: nat)
    ensures BLOCK_SIZE == 4096 && Wrap(size) == size % 0x1_0000_0000
    ensures size < 0x1_0000_0000 ==> Wrap(size) == size
    ensures GapCoversBlock(size) <==> size - Mark(size, 80) >= 4095
  {
  }

  lemma MarkBelow(size: nat)
    ensures Mark(size, 80) <= size - size / 5
    ensures size >= BLOCK_SIZE && !GapCoversBlock(size) ==> Mark(size, 80) > 1
  {
  }

  // ----- a worker stores its block -----

  /** The worker copies its block and counts it. The stream stays right exactly if there is room
      for the block. */
  method StoreBlock(b: NetBuffer)
    requires b.Inv() && b.wAt.WCopy? && b.wCopied == 0
    modifies b`wAt, b`wCopied, b`fate, b`saveIndex, b`dataLength, b`wData, b`stored, b.data
    ensures b.Inv() && b.wAt.WTestBuffering? && b.dataLength == b.wData == Wrap(old(b.dataLength) + |b.wBlock|)
    ensures b.fate == if old(b.fate).Right? && old(b.dataLength) + |b.wBlock| > b.size then Overwritten else old(b.fate)
  {
    hide *;
    InvMeans(b);
    while b.wAt.WCopy?
      invariant b.Inv() && (b.wAt.WCopy? || b.wAt.WMove?) && b.wCopied <= |b.wBlock|
                && b.dataLength == old(b.dataLength)
      invariant b.wAt.WMove? ==> b.wCopied == |b.wBlock|
      invariant b.fate == if old(b.fate).Right? && b.dataLength + b.wCopied > b.size then Overwritten else old(b.fate)
      decreases if b.wAt.WCopy? then |b.wBlock| - b.wCopied + 1 else 0
    {
      WritesOverMeans(b);
      b.CopyIn();
    }
    b.MoveSaveIndex();
    b.Commit();
  }

  /** A stop comes to a suspended worker, which then stores its block before it looks at the
      state again. If the reader takes nothing out meanwhile the stream stays right exactly if
      the block fits. */
  method StopStores(b: NetBuffer)
    requires b.Inv() && b.wAt.WTake? && b.stat.Suspend? && b.fate.Right?
    modifies b, b.data
    ensures b.Inv() && b.dataLength == Wrap(old(b.dataLength) + |old(b.wBlock)|)
    ensures b.fate == if old(b.dataLength) + |old(b.wBlock)| <= b.size then Right else Overwritten
  {
    hide *;
    InvMeans(b);
    b.StopJob();
    b.TakeWaitResume();
    StoreBlock(b);
  }

  /** A read of one byte resumes a suspended worker, which stores its block: the stream stays
      right exactly if the block fits then. */
  method ResumeStores(b: NetBuffer)
    requires b.Inv() && b.wAt.WTake? && b.stat.Suspend? && b.fate.Right? && b.rAt.RIdle?
    requires 0 < b.dataLength <= Mark(b.size, 80)
    modifies b, b.data
    ensures b.Inv() && b.dataLength == Wrap(old(b.dataLength) - 1 + |old(b.wBlock)|)
    ensures b.fate == if old(b.dataLength) - 1 + |old(b.wBlock)| <= b.size then Right else Overwritten
  {
    hide *;
    InvMeans(b);
    CopyOne(b);
    Numbers(b.dataLength - 1);
    b.TakeOut();
    b.ReleaseWaitResume();
    b.TakeWaitResume();
    StoreBlock(b);
  }

  method CopyOne(b: NetBuffer)
    requires b.Inv() && b.rAt.RIdle? && b.dataLength > 0 && b.fate.Right?
    modifies b`rAt, b`rData, b`rIndex, b`rLength, b`rOut, b`readIndex, b`fate
    ensures b.Inv() && b.rAt.RTakeOut? && b.rLength == |b.rOut| == 1 && b.fate.Right?
  {
    hide *;
    InvMeans(b);
    b.Call(1);
    b.GetReadIndex();
    Unmoved(b);
    b.GetDataLength();
    b.CopyOut();
    b.CopyOut();
    b.MoveReadIndex();
  }

  lemma Unmoved(b: NetBuffer)
    ensures b.ReadsStale() ==> b.rIndex != b.readIndex
  {
  }

  // ----- a worker fills the ring -----

  /** The worker stores n bytes that fit. */
  method StoreNext(b: NetBuffer, n: nat)
    requires b.Inv() && b.wAt.WLoop? && b.stat.Buffering? && !b.isWaitReady && b.fate.Right?
    requires 0 < n <= BLOCK_SIZE && b.dataLength + n <= b.size
    modifies b`wAt, b`wBlock, b`wCopied, b`fate, b`saveIndex, b`dataLength, b`wData, b`stored, b`fetched, b.data
    ensures b.Inv() && b.wAt.WLoop? && b.fate.Right? && b.dataLength == old(b.dataLength) + n
  {
    StoreThis(b, seq(n, i => 0));
  }

  method StoreThis(b: NetBuffer, block: seq<int>)
    requires b.Inv() && b.wAt.WLoop? && b.stat.Buffering? && !b.isWaitReady && b.fate.Right?
    requires 0 < |block| <= BLOCK_SIZE && b.dataLength + |block| <= b.size
    modifies b`wAt, b`wBlock, b`wCopied, b`fate, b`saveIndex, b`dataLength, b`wData, b`stored, b`fetched, b.data
    ensures b.Inv() && b.wAt.WLoop? && b.fate.Right? && b.dataLength == old(b.dataLength) + |block|
    ensures b.fetched == old(b.fetched) + block
  {
    hide *;
    InvMeans(b);
    b.TestStopping();
    b.Fetch(block);
    InvMeans(b);
    Numbers(b.size - b.dataLength);
    b.TestRoom();
    Numbers(b.dataLength + |block|);
    StoreBlock(b);
    b.TestReady();
    if b.wAt.WTestWaiting? {
      b.TestReady();
    }
  }

  method FillTo(b: NetBuffer, target: nat)
    requires b.Inv() && b.wAt.WLoop? && b.stat.Buffering? && !b.isWaitReady && b.fate.Right?
    requires b.dataLength <= target <= b.size
    modifies b`wAt, b`wBlock, b`wCopied, b`fate, b`saveIndex, b`dataLength, b`wData, b`stored, b`fetched, b.data
    ensures b.Inv() && b.wAt.WLoop? && b.fate.Right? && b.dataLength == target
  {
    hide *;
    Numbers(0);
    while b.dataLength < target
      invariant b.Inv() && b.wAt.WLoop? && b.fate.Right? && b.dataLength <= target
      decreases target - b.dataLength
    {
      StoreNext(b, if target - b.dataLength > BLOCK_SIZE then BLOCK_SIZE else target - b.dataLength);
    }
  }

  /** With less room than a block the next full one suspends the worker. */
  method SuspendFull(b: NetBuffer)
    requires b.Inv() && b.wAt.WLoop? && b.stat.Buffering? && b.fate.Right? && b.dataLength + BLOCK_SIZE > b.size
    modifies b`wAt, b`wBlock, b`wCopied, b`wData, b`stat, b`fetched
    ensures b.Inv() && b.wAt.WTake? && b.stat.Suspend? && |b.wBlock| == BLOCK_SIZE
  {
    hide *;
    Numbers(0);
    b.TestStopping();
    b.Fetch(seq(BLOCK_SIZE, i => 0));
    InvMeans(b);
    Numbers(b.size - b.dataLength);
    b.TestRoom();
    b.SetSuspend();
  }

  /** A new ring with its worker in the loop of its first job, and no reader. */
  method Started(n: nat) returns (b: NetBuffer)
    requires BLOCK_SIZE <= n < 0x1_0000_0000
    ensures fresh(b) && fresh(b.data) && b.Inv() && b.size == n && b.fate.Right? && b.rAt.RIdle?
    ensures b.wAt.WLoop? && b.stat.Buffering? && !b.isWaitReady && b.dataLength == 0
    ensures b.returned == b.fetched == [] && b.jobs == b.claimed == 0
  {
    hide *;
    b := new NetBuffer(n);
    var ret := b.ClaimJob();
    b.SendJob();
    b.ReceiveJob();
    b.CheckJob();
    Idle(b);
    b.ResetIndices();
  }

  lemma Idle(b: NetBuffer)
    ensures b.rAt.RIdle? || b.rAt.RTake? || b.rAt.RLength? ==> !b.Reading()
  {
  }

  // ----- the runs -----

  /** A player starts a job and reads at once. */
  method ReaderWaits(n: nat, length: nat) returns (b: NetBuffer)
    requires BLOCK_SIZE <= n < 0x1_0000_0000
    ensures fresh(b) && fresh(b.data) && b.Inv() && b.size == n && b.rAt.RTake? && b.wAt.WReset?
  {
    hide *;
    b := new NetBuffer(n);
    var ret := b.ClaimJob();
    b.SendJob();
    b.Call(length);
    b.TestStat();
    b.SetWaitReady();
    b.ReceiveJob();
    b.CheckJob();
  }

  /** The player then waits before the worker has reset the indices, and the stream of its job
      starts well. */
  method ReaderFirst(n: nat, length: nat) returns (b: NetBuffer)
    requires BLOCK_SIZE <= n < 0x1_0000_0000
    ensures fresh(b) && b.Inv() && b.rAt.RTake? && b.wAt.WLoop? && b.fate.Right?
  {
    hide *;
    b := ReaderWaits(n, length);
    Idle(b);
    b.ResetIndices();
  }

  /** And if the gap covers a block and nothing is stopped, it stays right under every schedule
      until the job ends. */
  method FirstJob(n: nat, length: nat, schedule: seq<Event>) returns (b: NetBuffer)
    requires BLOCK_SIZE <= n < 0x1_0000_0000 && GapCoversBlock(n)
    requires forall i :: 0 <= i < |schedule| ==> !schedule[i].Stop?
    requires forall i :: 0 <= i < |schedule| && schedule[i].Worker? ==> |schedule[i].block| <= BLOCK_SIZE
    ensures fresh(b) && b.Inv() && b.roomy
    ensures b.ended == 0 ==> b.fate.Right? && b.returned <= b.fetched && b.dataLength <= n
  {
    hide *;
    b := ReaderWaits(n, length);
    Waiting(b);
    b.RunJob(schedule);
  }

  lemma Waiting(b: NetBuffer)
    requires b.rAt.RTake?
    ensures !b.Lags()
  {
  }

  /** What is at the start of a right stream, with the reader elsewhere than in the ring. */
  lemma StreamMeans(b: NetBuffer)
    requires b.Inv() && b.fate.Right? && !b.rAt.RTakeOut?
    ensures b.data.Length == b.size > 1 && b.readIndex == Slot(|b.returned|, b.size)
    ensures b.returned == [] && b.wAt.WLoop? ==>
              forall p: nat :: p < |b.fetched| ==> b.data[Slot(p, b.size)] == b.fetched[p]
    ensures |b.returned| <= |b.fetched| && (b.returned == [] && b.wAt.WLoop? ==> |b.fetched| == b.dataLength)
  {
  }

  lemma Slots(size: nat)
    requires size > 1
    ensures Slot(0, size) == 0 && Slot(1, size) == 1
  {
  }

  lemma StaleMeans(b: NetBuffer)
    ensures b.ReadsStale() <==> b.rAt.RLength? && b.dataLength > 0 && b.rIndex != b.readIndex
    ensures b.size - b.rIndex > b.rLength ==> b.ReadFrom(0) == b.rIndex
  {
  }

  /** The worker notices the stop before its next fetch and ends the job. */
  method EndJob(b: NetBuffer)
    requires b.Inv() && b.wAt.WLoop? && b.stat.Buffering? && !b.isWaitReady && b.rAt.RLength?
    modifies b`stat, b`waitResume, b`roomy, b`wAt, b`dataLength, b`readIndex, b`saveIndex, b`fate, b`ended
    ensures b.Inv() && b.wAt.WIdle? && b.stat.Stopped?
  {
    hide *;
    b.StopJob();
    b.TestStopping();
    b.SetStopped();
    b.TestWaitReady();
    b.StopReset();
  }

  /** And the next one begins. */
  method NextJob(b: NetBuffer)
    requires b.Inv() && b.wAt.WLoop? && b.stat.Buffering? && !b.isWaitReady && b.rAt.RLength?
    requires b.jobs == b.claimed == 0
    modifies b
    ensures b.Inv() && b.wAt.WLoop? && b.stat.Buffering? && !b.isWaitReady && b.fate.Right?
    ensures b.dataLength == b.readIndex == 0 && b.returned == b.fetched == []
    ensures b.rAt == old(b.rAt) && b.rIndex == old(b.rIndex) && b.rLength == old(b.rLength) && b.rOut == old(b.rOut)
  {
    hide *;
    EndJob(b);
    var ret := b.ClaimJob();
    b.SendJob();
    b.ReceiveJob();
    b.CheckJob();
    Idle(b);
    b.ResetIndices();
  }

  /** A reader has taken one byte of a stream, and the index for its next read. */
  method IndexTaken(n: nat) returns (b: NetBuffer)
    requires BLOCK_SIZE <= n < 0x1_0000_0000
    ensures fresh(b) && fresh(b.data) && b.Inv() && b.size == n && b.wAt.WLoop? && b.stat.Buffering? && !b.isWaitReady
    ensures b.rAt.RLength? && b.rIndex == b.rLength == 1 && b.jobs == b.claimed == 0
  {
    hide *;
    Numbers(0);
    Slots(n);
    b := Started(n);
    StoreThis(b, [0, 0]);
    CopyOne(b);
    Numbers(1);
    b.TakeOut();
    assert [] + b.rOut == b.rOut;
    StreamMeans(b);
    b.Call(1);
    b.GetReadIndex();
  }

  /** The read goes on after the next job has stored two bytes, and returns the second of them. */
  method StaleRead(n: nat, x: int, y: int) returns (b: NetBuffer)
    requires BLOCK_SIZE <= n < 0x1_0000_0000 && x != y
    ensures fresh(b) && b.Inv() && b.fate.Misread? && b.fetched == [x, y] && b.returned == [y]
    ensures !(b.returned <= b.fetched)
  {
    hide *;
    Numbers(0);
    Slots(n);
    b := IndexTaken(n);
    NextJob(b);
    StoreThis(b, [x, y]);
    assert b.fetched == [x, y] && b.fetched[1] == y;
    StreamMeans(b);
    assert b.data[1] == y;
    StaleMeans(b);
    b.GetDataLength();
    FinishRead(b);
  }

  /** A read of one byte from where its index says, up to where it is taken out. */
  method FinishRead(b: NetBuffer)
    requires b.Inv() && b.rAt.RCopy? && b.rOut == [] && b.rLength == 1 && b.size - b.rIndex > 1
    requires b.rIndex < b.data.Length
    modifies b
    ensures b.Inv() && b.fate == old(b.fate) && b.fetched == old(b.fetched)
    ensures b.returned == old(b.returned) + [b.data[old(b.rIndex)]]
  {
    hide *;
    b.CopyOut();
    StaleMeans(b);
    assert b.rOut == [b.data[b.rIndex]];
    b.CopyOut();
    b.MoveReadIndex();
    b.TakeOut();
  }

  /** Whenever the gap above the resume mark does not cover a block, some run overfills the
      ring: the worker is resumed one byte below the mark with a full block in hand. */
  method ResumeOverfills(n: nat) returns (b: NetBuffer)
    requires BLOCK_SIZE <= n < 0x1_0000_0000 && !GapCoversBlock(n)
    ensures fresh(b) && b.Inv() && b.size == n && b.fate.Overwritten? && b.dataLength > n
  {
    hide *;
    b := Started(n);
    Numbers(n);
    MarkBelow(n);
    FillTo(b, Mark(n, 80));
    SuspendFull(b);
    Numbers(Mark(n, 80) - 1 + 4096);
    ResumeStores(b);
  }

  /** In a ring of any size a stop can come when the block in hand has no room. */
  method StopOverfills(n: nat) returns (b: NetBuffer)
    requires BLOCK_SIZE <= n < 0x1_0000_0000
    ensures fresh(b) && b.Inv() && b.size == n && b.fate.Overwritten? && b.dataLength == Wrap(n + BLOCK_SIZE)
  {
    hide *;
    b := Started(n);
    Numbers(n);
    FillTo(b, n);
    SuspendFull(b);
    StopStores(b);
  }
}
