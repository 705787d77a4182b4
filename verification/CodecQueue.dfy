/** The audio codec's queue of buffers, shared by a writer, the DMA interrupt and close. */
module CodecQueue {

  const DATA_NODE_MAX := 5

  datatype Node = Node(ptr: nat, size: nat)

  function Next(i: nat): nat { if i + 1 >= DATA_NODE_MAX then 0 else i + 1 }

  /** The number of queued nodes. */
  function Count(r: nat, p: nat): (n: int)
    ensures r < DATA_NODE_MAX && p < DATA_NODE_MAX ==> 0 <= n < DATA_NODE_MAX
  {
    if p >= r then p - r else p + DATA_NODE_MAX - r
  }

  predicate Indices(list: seq<Node>, r: nat, p: nat) {
    |list| == DATA_NODE_MAX && r < DATA_NODE_MAX && p < DATA_NODE_MAX
  }

  /** The queued nodes, the head first. */
  function Queue(list: seq<Node>, r: nat, p: nat): (q: seq<Node>)
    requires Indices(list, r, p)
    ensures |q| == Count(r, p)
    decreases Count(r, p)
  {
    if r == p then [] else [list[r]] + Queue(list, Next(r), p)
  }

  function Ptrs(q: seq<Node>): (s: seq<nat>)
    ensures |s| == |q|
  {
    if q == [] then [] else Ptrs(q[..|q| - 1]) + [q[|q| - 1].ptr]
  }

  /** A full queue has four nodes: its next index meets the reader. */
  lemma FullIsFour(r: nat, p: nat)
    requires r < DATA_NODE_MAX && p < DATA_NODE_MAX
    ensures Next(p) == r <==> Count(r, p) == DATA_NODE_MAX - 1
    ensures Next(r) == p <==> Count(r, p) == 1
    ensures Count(r, p) == 0 <==> r == p
    ensures Next(p) != r ==> Count(r, Next(p)) == Count(r, p) + 1
    ensures r != p ==> Count(Next(r), p) == Count(r, p) - 1
    ensures Next(r) < DATA_NODE_MAX && Next(p) < DATA_NODE_MAX
  {
  }

  /** A node written at the put index joins the queue's end. */
  lemma {:induction false} Push(list: seq<Node>, r: nat, p: nat, x: Node)
    requires Indices(list, r, p) && Next(p) != r
    ensures Indices(list[p := x], r, Next(p)) && Queue(list[p := x], r, Next(p)) == Queue(list, r, p) + [x]
    decreases Count(r, p)
  {
    FullIsFour(r, p);
    if r != p {
      Push(list, Next(r), p, x);
    }
  }

  lemma {:induction false} PtrsAppend(a: seq<Node>, b: seq<Node>)
    ensures Ptrs(a + b) == Ptrs(a) + Ptrs(b)
  {
    if b == [] {
      assert a + b == a;
    } else {
      PtrsAppend(a, b[..|b| - 1]);
      assert (a + b)[..|a + b| - 1] == a + b[..|b| - 1];
    }
  }

  lemma NoPtrs()
    ensures Ptrs([]) == []
  {
  }

  lemma ConservedLengths(submitted: seq<Node>, completions: seq<nat>, queue: seq<Node>)
    requires Conserved(submitted, completions, queue)
    ensures |completions| + |queue| == |submitted|
  {
  }

  lemma PtrsOne(x: Node)
    ensures Ptrs([x]) == [x.ptr]
  {
    assert [x][..0] == [];
  }

  /** The buffers completed so far, followed by the queued ones, are the submitted ones. */
  predicate Conserved(submitted: seq<Node>, completions: seq<nat>, queue: seq<Node>) {
    && |queue| <= |submitted|
    && submitted[|submitted| - |queue|..] == queue
    && completions == Ptrs(submitted[..|submitted| - |queue|])
  }

  lemma ConservedWrite(submitted: seq<Node>, completions: seq<nat>, queue: seq<Node>, x: Node)
    requires Conserved(submitted, completions, queue)
    ensures Conserved(submitted + [x], completions, queue + [x])
  {
    hide Ptrs;
    var k := |submitted| - |queue|;
    assert (submitted + [x])[..k] == submitted[..k];
    assert (submitted + [x])[k..] == submitted[k..] + [x];
  }

  lemma ConservedComplete(submitted: seq<Node>, completions: seq<nat>, queue: seq<Node>)
    requires Conserved(submitted, completions, queue) && queue != []
    ensures Conserved(submitted, completions + [queue[0].ptr], queue[1..])
  {
    hide Ptrs;
    var k := |submitted| - |queue|;
    assert submitted[..k + 1] == submitted[..k] + [submitted[k]];
    assert submitted[k] == submitted[k..][0] == queue[0];
    PtrsAppend(submitted[..k], [submitted[k]]);
    PtrsOne(submitted[k]);
    assert submitted[k + 1..] == submitted[k..][1..];
  }

  /** More completions than submissions: something was completed that was never submitted. */
  lemma NotConserved(submitted: seq<Node>, completions: seq<nat>, queue: seq<Node>)
    requires |completions| + |queue| > |submitted|
    ensures !Conserved(submitted, completions, queue)
  {
    hide Ptrs;
  }

  // ----- the clock register -----

  const MS := 1
  const REG_CLOCK_GEN := 0xC00
  const CLKSEL_PLL := 0x100
  const BCLK_DIV8 := 0xC

  /** The clock bits of a sample rate; None for one that is not supported. */
  function ClockBits(rate: int): (bits: int)
    ensures (bits >= 0 && bits % 2 == 0) || bits == -1
  {
    match rate
    case 8000 => REG_CLOCK_GEN + 0xA0 + BCLK_DIV8
    case 11025 => REG_CLOCK_GEN + CLKSEL_PLL + 0xC0 + BCLK_DIV8
    case 12000 => REG_CLOCK_GEN + 0x80 + BCLK_DIV8
    case 16000 => REG_CLOCK_GEN + 0x60 + BCLK_DIV8
    case 22050 => REG_CLOCK_GEN + CLKSEL_PLL + 0x80 + BCLK_DIV8
    case 24000 => REG_CLOCK_GEN + 0x40 + BCLK_DIV8
    case 32000 => REG_CLOCK_GEN + 0x20 + BCLK_DIV8
    case 44100 => REG_CLOCK_GEN + CLKSEL_PLL + 0x40 + BCLK_DIV8
    case 48000 => REG_CLOCK_GEN + BCLK_DIV8
    case _ => -1
  }

  /** Twice the divisor that a value of the register's three division bits stands for. */
  function TwiceDivisor(field: nat): nat
    requires field < 8
  {
    [2, 3, 4, 6, 8, 12, 16, 24][field]
  }

  /** For the nine rates that are supported the register divides the clock it selects, of 48000 Hz or
      of 88200 Hz behind the PLL, to just that rate; its number, the division of the bit clock and the
      MS bit are the same for all. */
  lemma ClockDivides(rate: int)
    ensures ClockBits(rate) != -1 <==>
            rate in {8000, 11025, 12000, 16000, 22050, 24000, 32000, 44100, 48000}
    ensures ClockBits(rate) != -1 ==>
              var bits := ClockBits(rate);
              && bits / 0x200 == 6 && bits % 0x20 == 3 * 4
              && rate * TwiceDivisor(bits / 0x20 % 8) == 2 * if bits / 0x100 % 2 == 1 then 88200 else 48000
  {
  }

  /** Where a close stands. */
  datatype CloseAt = CIdle | CStopDma | CClear | CDrain

  /** Where a close goes on. */
  function CloseNext(c: CloseAt, master: nat): CloseAt {
    match c
    case CIdle => if master == MS then CStopDma else CIdle
    case CStopDma => CClear
    case CClear => CDrain
    case CDrain => CIdle
  }

  lemma CloseOrder(c: CloseAt, master: nat)
    ensures CloseNext(c, master) == if c.CIdle? then (if master == MS then CStopDma else CIdle)
                                    else if c.CStopDma? then CClear else if c.CClear? then CDrain else CIdle
  {
  }

  /** An event of a run: a write's check or its commit, an interrupt, a step of close, a new
      sample rate's load of the clock register or its store. */
  datatype Event = Check | Commit(buffer: nat, size: nat) | Interrupt | Close | RateLoad(sr: int) | RateStore

  class Codec {
    const dataList: array<Node>
    var readIndex: nat
    var putIndex: nat
    var r06: nat
    /** The DMA channel: enabled, and what it is programmed with. */
    var dmaOn: bool
    var dma: Node
    /** The buffers the completion callback has been given, in order. */
    var completions: seq<nat>

    // the writer between its check and its commit
    var wChecked: bool
    var wNext: nat

    var cAt: CloseAt

    // a rate change between its load of the MS bit and its store
    var rLoaded: bool
    var rBits: nat
    var rMaster: nat

    ghost var submitted: seq<Node>
    /** A close has stopped the DMA when the queue had already run empty, or a rate change has
        brought back an MS bit that is no longer right. */
    ghost var raced: bool

    ghost predicate Shape()
      reads this, dataList
    {
      && Indices(dataList[..], readIndex, putIndex)
      && (wChecked ==> wNext == Next(putIndex))
      && rBits % 2 == 0 && rMaster <= 1
    }

    function Master(): nat
      reads this`r06
    {
      r06 % 2
    }

    ghost function Pending(): seq<Node>
      requires Shape()
      reads this, dataList
    {
      Queue(dataList[..], readIndex, putIndex)
    }

    /** The MS bit is set exactly while something is queued, and then the DMA runs with the
        head of the queue. */
    ghost predicate Running()
      requires Shape()
      reads this, dataList
    {
      && (Master() == MS <==> Pending() != []) && (dmaOn <==> Pending() != [])
      && (dmaOn ==> dma == Pending()[0])
    }

    ghost predicate Inv()
      reads this, dataList
    {
      && Shape()
      && (!raced ==>
            && Conserved(submitted, completions, Pending()) && (wChecked ==> |Pending()| < DATA_NODE_MAX - 1)
            && (if cAt.CIdle? || cAt.CStopDma? then Running()
                else !dmaOn && Pending() != [] && (Master() == MS <==> cAt.CClear?)))
    }

    constructor ()
      ensures Inv() && Pending() == [] == submitted && !raced && cAt.CIdle? && completions == [] && !wChecked
              && !rLoaded
      ensures r06 == ClockBits(44100) && fresh(dataList)
    {
      dataList := new Node[DATA_NODE_MAX](_ => Node(0, 0));
      readIndex, putIndex, r06 := 0, 0, REG_CLOCK_GEN + CLKSEL_PLL + 0x40 + BCLK_DIV8;
      dmaOn, dma, completions, wChecked, wNext, cAt := false, Node(0, 0), [], false, 0, CIdle;
      rLoaded, rBits, rMaster := false, 0, 0;
      submitted, raced := [], false;
    }

    // ----- codec_write -----

    /** The check for a full list, done with interrupts on. */
    method WriteCheck() returns (full: bool)
      requires Inv() && !wChecked
      modifies this`wChecked, this`wNext
      ensures Inv() && Pending() == old(Pending()) && wChecked == !full && (full <==> |Pending()| == DATA_NODE_MAX - 1)
    {
      FullIsFour(readIndex, putIndex);
      wNext := putIndex + 1;
      if wNext >= DATA_NODE_MAX {
        wNext := 0;
      }
      full := wNext == readIndex;
      wChecked := !full;
    }

    /** Interrupts off: the node joins the list, and starts the DMA if it is alone in it. */
    method WriteCommit(buffer: nat, size: nat)
      requires Inv() && wChecked
      modifies this`wChecked, this`putIndex, this`dmaOn, this`dma, this`r06, this`submitted, dataList
      ensures Inv() && !wChecked && submitted == old(submitted) + [Node(buffer, size / 2)]
      ensures !raced ==> Pending() == old(Pending()) + [Node(buffer, size / 2)]
      ensures r06 / 2 == old(r06 / 2)
    {
      hide Ptrs, Queue;
      ghost var t, x := dataList[..], Node(buffer, size / 2);
      FullIsFour(readIndex, putIndex);
      if !raced {
        Push(t, readIndex, putIndex, x);
        ConservedWrite(submitted, completions, Pending(), x);
        QueueEmpty(t, readIndex, putIndex);
      }
      dataList[putIndex] := Node(buffer, size / 2);
      assert dataList[..] == t[putIndex := x];
      var node := putIndex;
      putIndex := wNext;
      wChecked := false;
      submitted := submitted + [x];
      var next := readIndex + 1;
      if next >= DATA_NODE_MAX {
        next := 0;
      }
      if next == putIndex {
        dma, dmaOn := dataList[node], true;
        if r06 % 2 == 0 {
          r06 := r06 + MS;
        }
      }
    }

    // ----- the interrupt -----

    /** codec_dma_isr, which fires only while the DMA runs. */
    method Isr()
      requires Inv() && dmaOn
      modifies this`readIndex, this`dmaOn, this`dma, this`r06, this`completions
      ensures Inv()
      ensures completions == old(completions) + [old(dataList[readIndex].ptr)]
      ensures !raced ==> old(Pending()) != [] && Pending() == old(Pending())[1..]
      ensures r06 / 2 == old(r06 / 2)
    {
      hide *;
      ghost var queue := HeadFirst();
      MasterBit();
      FullIsFour(readIndex, putIndex);
      Advance(dataList[..], readIndex, putIndex);
      ghost var was := completions;
      var next := readIndex + 1;
      if next >= DATA_NODE_MAX {
        next := 0;
      }
      var ptr := dataList[readIndex].ptr;
      label before:
      readIndex := next;
      if next != putIndex {
        dma, dmaOn := dataList[readIndex], true;
        if r06 % 2 == 0 {
          r06 := r06 + MS;
        }
      } else {
        if r06 % 2 == MS {
          dmaOn := false;
          r06 := r06 - MS;
        }
      }
      completions := completions + [ptr];
      StillShape@before();
      ShapeMeans();
      QueueEmpty(dataList[..], readIndex, putIndex);
      FullIsFour(readIndex, putIndex);
      if !raced {
        ConservedComplete(submitted, was, queue);
      }
      IsrDone();
    }

    // ----- sample_rate -----

    /** Interrupts are on: the clock bits are chosen and the MS bit is loaded now; an unsupported
        rate changes nothing. */
    method LoadRate(rate: int) returns (ok: bool)
      requires Inv() && !rLoaded
      modifies this`rLoaded, this`rBits, this`rMaster
      ensures Inv() && Pending() == old(Pending()) && (ok <==> ClockBits(rate) != -1) && rLoaded == ok
      ensures ok ==> rBits == ClockBits(rate) && rMaster == Master()
    {
      hide Ptrs, Queue, Conserved;
      ok := ClockBits(rate) >= 0;
      if ok {
        rLoaded, rBits, rMaster := true, ClockBits(rate), r06 % 2;
      }
    }

    /** The register is stored later. Outside a close the MS bit still says whether something is
        queued if and only if it is the same as at the load. */
    method StoreRate()
      requires Inv() && rLoaded
      modifies this`rLoaded, this`r06, this`raced
      ensures Inv() && !rLoaded && Pending() == old(Pending())
      ensures r06 == rBits + rMaster
      ensures raced <==> old(raced) || rMaster != old(Master())
      ensures !old(raced) && (cAt.CIdle? || cAt.CStopDma?) ==>
                ((Master() == MS <==> Pending() != []) <==> rMaster == old(Master()))
    {
      hide Ptrs, Queue, Conserved;
      raced := raced || rMaster != Master();
      r06 := rBits + rMaster;
      rLoaded := false;
    }

    ghost function HeadFirst(): (q: seq<Node>)
      requires Inv() && dmaOn
      reads this, dataList
      ensures Shape() && Indices(dataList[..], readIndex, putIndex)
      ensures readIndex < dataList.Length == DATA_NODE_MAX && putIndex < DATA_NODE_MAX
      ensures q == Pending() == Queue(dataList[..], readIndex, putIndex)
      ensures !raced ==> q != [] && readIndex != putIndex && Conserved(submitted, completions, q)
      ensures !raced ==> r06 % 2 == MS && (cAt.CIdle? || cAt.CStopDma?) && (wChecked ==> |q| < DATA_NODE_MAX - 1)
    {
      hide Ptrs;
      Pending()
    }

    lemma MasterBit()
      ensures MS == 1
    {
    }

    lemma IsrDone()
      requires Shape() && (raced || ((cAt.CIdle? || cAt.CStopDma?) && Conserved(submitted, completions, Pending())))
      requires !raced ==> (dmaOn <==> readIndex != putIndex) && (r06 % 2 == MS <==> readIndex != putIndex)
      requires !raced && dmaOn ==> dma == dataList[readIndex]
      requires !raced ==> (wChecked ==> |Pending()| < DATA_NODE_MAX - 1)
      ensures Inv()
    {
      hide Ptrs;
      QueueEmpty(dataList[..], readIndex, putIndex);
    }

    // ----- codec_close -----

    method CloseTest()
      requires Inv() && cAt.CIdle?
      modifies this`cAt
      ensures Inv() && Pending() == old(Pending()) && cAt == if Master() == MS then CStopDma else CIdle
    {
      cAt := if r06 % 2 == MS then CStopDma else CIdle;
    }

    /** Stops the DMA; an interrupt since the test may have emptied the queue. */
    method CloseStopDma()
      requires Inv() && cAt.CStopDma?
      modifies this`cAt, this`dmaOn, this`raced
      ensures Inv() && !dmaOn && cAt.CClear?
      ensures raced <==> old(raced) || old(Pending()) == []
      ensures Pending() == old(Pending())
    {
      dmaOn := false;
      raced := raced || Pending() == [];
      cAt := CClear;
    }

    method CloseClear()
      requires Inv() && cAt.CClear?
      modifies this`cAt, this`r06
      ensures Inv() && Pending() == old(Pending()) && Master() == 0 && cAt.CDrain? && r06 / 2 == old(r06 / 2)
    {
      r06 := r06 - r06 % 2;
      cAt := CDrain;
    }

    /** Completes the node at the read index, whatever it holds, and moves on. */
    method CompleteNext()
      requires Shape()
      modifies this`readIndex, this`completions
      ensures Shape()
      ensures Count(readIndex, putIndex) ==
              if old(readIndex) == putIndex then DATA_NODE_MAX - 1 else old(Count(readIndex, putIndex)) - 1
      ensures |completions| == |old(completions)| + 1
      ensures old(Pending()) != [] ==>
                Pending() == old(Pending())[1..] && completions == old(completions) + [old(Pending())[0].ptr]
      ensures old(Pending()) != [] && old(Conserved(submitted, completions, Pending())) ==>
                Conserved(submitted, completions, Pending())
    {
      hide *;
      ghost var queue, was := Pending(), completions;
      ShapeMeans();
      FullIsFour(readIndex, putIndex);
      Advance(dataList[..], readIndex, putIndex);
      label before:
      completions := completions + [dataList[readIndex].ptr];
      readIndex := readIndex + 1;
      if readIndex >= DATA_NODE_MAX {
        readIndex := 0;
      }
      StillShape@before();
      ShapeMeans();
      if queue != [] && Conserved(submitted, was, queue) {
        ConservedComplete(submitted, was, queue);
      }
    }

    /** Interrupts off: completes the queued nodes, at least one. It completes exactly what
        was submitted if and only if there is something to complete. */
    method CloseDrain()
      requires Inv() && cAt.CDrain?
      modifies this`cAt, this`readIndex, this`completions
      ensures Inv() && cAt.CIdle? && Pending() == []
      ensures old(Conserved(submitted, completions, Pending())) ==>
                (Conserved(submitted, completions, []) <==> old(Pending()) != [])
      ensures old(Pending()) != [] ==> completions == old(completions) + Ptrs(old(Pending()))
      ensures old(Pending()) == [] ==> |completions| == |old(completions)| + DATA_NODE_MAX
    {
      hide *;
      DrainStart();
      ghost var queue, done, k := Pending(), completions, 0;
      ghost var n := if queue == [] then DATA_NODE_MAX else |queue|;
      ghost var conserved := Conserved(submitted, completions, queue);
      NoPtrs();
      assert done + [] == done && queue[..0] == [] && queue[0..] == queue;
      var first := true;
      while first || readIndex != putIndex
        invariant Shape() && 0 <= k <= n && first == (k == 0) && |completions| == |done| + k
        invariant k > 0 || queue != [] ==> Count(readIndex, putIndex) == n - k
        invariant k == 0 && queue == [] ==> readIndex == putIndex
        invariant queue != [] ==> Pending() == queue[k..] && completions == done + Ptrs(queue[..k])
        invariant queue != [] && conserved ==> Conserved(submitted, completions, queue[k..])
        decreases n - k
      {
        first := false;
        ShapeMeans();
        FullIsFour(readIndex, putIndex);
        CompleteNext();
        if queue != [] {
          PtrsNext(queue, k);
          assert queue[k..][1..] == queue[k + 1..] && queue[k..][0] == queue[k];
          assert done + Ptrs(queue[..k]) + [queue[k].ptr] == done + Ptrs(queue[..k + 1]);
        }
        k := k + 1;
      }
      ShapeMeans();
      FullIsFour(readIndex, putIndex);
      label drained:
      cAt := CIdle;
      StillShape@drained();
      ShapeMeans();
      assert queue != [] ==> queue[..k] == queue && queue[k..] == [];
      if queue == [] && conserved {
        ConservedLengths(submitted, done, queue);
        NotConserved(submitted, completions, []);
      }
      Drained();
    }

    lemma Drained()
      requires Shape() && Pending() == [] && cAt.CIdle?
      requires !raced ==> !dmaOn && r06 % 2 == 0 && Conserved(submitted, completions, [])
      ensures Inv()
    {
    }

    // ----- every run -----

    /** What comes next in a run; what is not possible then does nothing. A run is raced exactly
        by a close that stops the DMA with the queue empty or a store of a stale MS bit. The bits of
        the clock register other than the MS bit change only with the rate. */
    method Step(e: Event)
      requires Inv()
      modifies this, dataList
      ensures Inv()
      ensures raced <==> || old(raced) || (e.Close? && old(StopsEmpty()))
                         || (e.RateStore? && old(rLoaded) && old(rMaster) != old(Master()))
      ensures r06 / 2 == if e.RateStore? && old(rLoaded) then old(rBits) / 2 else old(r06 / 2)
      ensures Shape() && (e.Check? && !old(wChecked) ==> (wChecked <==> |Pending()| < DATA_NODE_MAX - 1))
      ensures submitted == old(submitted) + if e.Commit? && old(wChecked) then [Node(e.buffer, e.size / 2)] else []
      ensures e.Commit? ==> !wChecked
      ensures e.Interrupt? && old(dmaOn) ==> |completions| == |old(completions)| + 1
      ensures cAt == if !e.Close? then old(cAt) else CloseNext(old(cAt), old(Master()))
      ensures e.RateLoad? && !old(rLoaded) ==> (rLoaded <==> ClockBits(e.sr) != -1)
      ensures e.RateStore? ==> !rLoaded
    {
      hide *;
      InvShape();
      match e {
        case Check => if !wChecked { var full := WriteCheck(); }
        case Commit(buffer, size) => if wChecked { WriteCommit(buffer, size); }
        case Interrupt => if dmaOn { Isr(); }
        case Close => CloseStep();
        case RateLoad(sr) => if !rLoaded { var ok := LoadRate(sr); }
        case RateStore => if rLoaded { StoreRate(); }
      }
      InvShape();
    }

    /** A close is about to stop the DMA although the queue has run empty. */
    ghost predicate StopsEmpty()
      reads this, dataList
    {
      cAt.CStopDma? && Shape() && Pending() == []
    }

    method CloseStep()
      requires Inv()
      modifies this
      ensures Inv()
      ensures raced <==> old(raced) || old(StopsEmpty())
      ensures r06 / 2 == old(r06 / 2) && submitted == old(submitted) && wChecked == old(wChecked)
      ensures cAt == CloseNext(old(cAt), old(Master()))
    {
      hide *;
      CloseOrder(cAt, Master());
      InvShape();
      match cAt {
        case CIdle => CloseTest();
        case CStopDma => CloseStopDma();
        case CClear => CloseClear();
        case CDrain => CloseDrain();
      }
    }

    lemma InvShape()
      requires Inv()
      ensures Shape() && |Pending()| <= DATA_NODE_MAX - 1 && (StopsEmpty() <==> cAt.CStopDma? && Pending() == [])
    {
    }

    /** Over every run that is not raced: the completed buffers followed by the queued ones are
        the submitted ones, and at most four are pending. The MS bit is set exactly while
        something is queued, and the DMA then runs with the head; but a close first stops the
        DMA, then clears the bit, and only then empties the queue. */
    method Run(schedule: seq<Event>)
      requires Inv()
      modifies this, dataList
      ensures Inv() && Shape() && |Pending()| <= 4
      ensures !raced ==> |Pending()| <= |submitted| && submitted[|submitted| - |Pending()|..] == Pending()
      ensures !raced ==> completions == Ptrs(submitted[..|submitted| - |Pending()|])
      ensures !raced && (cAt.CIdle? || cAt.CStopDma?) ==> Running()
      ensures !raced && (cAt.CClear? || cAt.CDrain?) ==> !dmaOn && Pending() != [] && (Master() == MS <==> cAt.CClear?)
      ensures !old(raced) && (forall i :: 0 <= i < |schedule| ==> !schedule[i].Close? && !schedule[i].RateStore?)
              ==> !raced
      ensures (forall i :: 0 <= i < |schedule| ==> !schedule[i].RateStore?) ==> r06 / 2 == old(r06 / 2)
    {
      hide *;
      for i := 0 to |schedule|
        invariant Inv()
        invariant !old(raced) && (forall k :: 0 <= k < i ==> !schedule[k].Close? && !schedule[k].RateStore?) ==> !raced
        invariant (forall k :: 0 <= k < i ==> !schedule[k].RateStore?) ==> r06 / 2 == old(r06 / 2)
      {
        Step(schedule[i]);
      }
      InvMeans();
    }

    lemma InvMeans()
      requires Inv()
      ensures Shape() && |Pending()| <= 4
      ensures !raced ==> |Pending()| <= |submitted| && submitted[|submitted| - |Pending()|..] == Pending()
      ensures !raced ==> completions == Ptrs(submitted[..|submitted| - |Pending()|])
      ensures !raced && (cAt.CIdle? || cAt.CStopDma?) ==> Running()
      ensures !raced && (cAt.CClear? || cAt.CDrain?) ==> !dmaOn && Pending() != [] && (Master() == MS <==> cAt.CClear?)
    {
      hide Ptrs;
    }

    lemma ShapeMeans()
      requires Shape()
      ensures Indices(dataList[..], readIndex, putIndex)
      ensures readIndex < dataList.Length == DATA_NODE_MAX && putIndex < DATA_NODE_MAX
      ensures Pending() == Queue(dataList[..], readIndex, putIndex) && |Pending()| == Count(readIndex, putIndex)
    {
    }

    twostate lemma StillShape()
      requires old(Shape()) && unchanged(`putIndex) && unchanged(`wChecked) && unchanged(`wNext) && unchanged(dataList)
      requires unchanged(`rBits) && unchanged(`rMaster)
      requires Indices(dataList[..], readIndex, putIndex)
      ensures Shape()
    {
    }

    lemma DrainStart()
      requires Inv()
      ensures Shape() && (Pending() == [] <==> readIndex == putIndex) && Count(readIndex, putIndex) == |Pending()|
      ensures readIndex < DATA_NODE_MAX && putIndex < DATA_NODE_MAX
      ensures !raced && cAt.CDrain? ==>
              !dmaOn && r06 % 2 == 0 && Pending() != [] && Conserved(submitted, completions, Pending())
    {
      hide Ptrs;
    }
  }

  lemma Advance(list: seq<Node>, r: nat, p: nat)
    requires Indices(list, r, p)
    ensures Next(r) == (if r + 1 >= DATA_NODE_MAX then 0 else r + 1) && Indices(list, Next(r), p)
    ensures Count(Next(r), p) == if r == p then DATA_NODE_MAX - 1 else Count(r, p) - 1
    ensures r != p ==> Queue(list, r, p) == [list[r]] + Queue(list, Next(r), p)
  {
  }

  lemma PtrsNext(queue: seq<Node>, k: nat)
    requires k < |queue|
    ensures Ptrs(queue[..k + 1]) == Ptrs(queue[..k]) + [queue[k].ptr]
  {
    assert queue[..k + 1][..k] == queue[..k];
  }

  lemma QueueEmpty(list: seq<Node>, r: nat, p: nat)
    requires Indices(list, r, p)
    ensures Queue(list, r, p) == [] <==> r == p
    ensures r != p ==> Queue(list, r, p)[0] == list[r]
  {
  }

  /** One buffer is submitted and plays. */
  method OnePlaying(buffer: nat, size: nat) returns (c: Codec)
    ensures fresh(c) && fresh(c.dataList) && c.Inv() && !c.raced && c.cAt.CIdle? && !c.rLoaded && c.dmaOn
    ensures |c.submitted| == |c.Pending()| == 1 && c.completions == [] && c.Master() == MS
  {
    hide Ptrs, Conserved;
    c := new Codec();
    assert c.Pending() == [];
    var full := c.WriteCheck();
    c.WriteCommit(buffer, size);
  }

  /** The interrupt between the test of close and its stopping of the DMA: one buffer is
      submitted and played, and the close then completes five more. */
  method CloseRace(buffer: nat, size: nat) returns (c: Codec)
    ensures fresh(c) && c.Inv() && c.raced && |c.submitted| == 1 && |c.completions| == 6
    ensures !Conserved(c.submitted, c.completions, [])
  {
    hide Ptrs, Conserved;
    c := OnePlaying(buffer, size);
    c.CloseTest();
    c.Isr();
    c.CloseStopDma();
    assert c.Pending() == [];
    c.CloseClear();
    c.CloseDrain();
    NotConserved(c.submitted, c.completions, []);
  }

  /** The interrupt between a rate change's load of the MS bit and its store: one buffer is
      submitted and played, the bit comes back with nothing queued, and the next close
      completes five buffers more. */
  method RateRace(buffer: nat, size: nat) returns (c: Codec)
    ensures fresh(c) && c.Inv() && c.raced && |c.submitted| == 1 && |c.completions| == 6
    ensures !Conserved(c.submitted, c.completions, [])
  {
    hide Ptrs, Conserved;
    c := OnePlaying(buffer, size);
    var ok := c.LoadRate(44100);
    c.Isr();
    c.StoreRate();
    assert c.Pending() == [];
    c.CloseTest();
    c.CloseStopDma();
    c.CloseClear();
    c.CloseDrain();
    NotConserved(c.submitted, c.completions, []);
  }
}
