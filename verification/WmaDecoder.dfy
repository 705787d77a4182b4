/** The frame loop of the WMA decoder over its output buffer, proved to emit the overlap-added
    sum of all blocks. */
module WmaDecoder {
  import opened Bits
  import opened Ints
  import opened WmaOverlap

  /** dst[o + i] += src[n + i] * window, for i < len */
  method VectorFmulAddAdd(dst: array<Sample>, o: nat, src: seq<Sample>, n: nat, s: Stream, bsize: nat, len: nat)
    requires o + len <= dst.Length && n + len <= |src|
    modifies dst
    ensures forall k :: 0 <= k < dst.Length ==>
      dst[k] == if o <= k < o + len then Add(s.mul(src[n + (k - o)], s.window(bsize, k - o)), old(dst[k]))
                else old(dst[k])
  {
    hide *;
    for i := 0 to len
      invariant forall k :: 0 <= k < dst.Length ==>
        dst[k] == if o <= k < o + i then Add(s.mul(src[n + (k - o)], s.window(bsize, k - o)), old(dst[k]))
                  else old(dst[k])
    {
      dst[o + i] := Add(s.mul(src[n + i], s.window(bsize, i)), dst[o + i]);
    }
  }

  /** dst[o + i] = src[n + i] * window read backwards, for i < len */
  method VectorFmulReverse(dst: array<Sample>, o: nat, src: seq<Sample>, n: nat, s: Stream, bsize: nat, len: nat)
    requires o + len <= dst.Length && n + len <= |src|
    modifies dst
    ensures forall k :: 0 <= k < dst.Length ==>
      dst[k] == if o <= k < o + len then s.mul(src[n + (k - o)], s.window(bsize, len - 1 - (k - o))) else old(dst[k])
  {
    hide *;
    for i := 0 to len
      invariant forall k :: 0 <= k < dst.Length ==>
        dst[k] == if o <= k < o + i then s.mul(src[n + (k - o)], s.window(bsize, len - 1 - (k - o))) else old(dst[k])
    {
      dst[o + i] := s.mul(src[n + i], s.window(bsize, len - 1 - i));
    }
  }

  method Memcpy(dst: array<Sample>, o: nat, src: seq<Sample>, n: nat, len: nat)
    requires o + len <= dst.Length && n + len <= |src|
    modifies dst
    ensures forall k :: 0 <= k < dst.Length ==> dst[k] == (if o <= k < o + len then src[n + (k - o)] else old(dst[k]))
  {
    hide *;
    for i := 0 to len
      invariant forall k :: 0 <= k < dst.Length ==> dst[k] == (if o <= k < o + i then src[n + (k - o)] else old(dst[k]))
    {
      dst[o + i] := src[n + i];
    }
  }

  method Memset(dst: array<Sample>, o: nat, len: nat)
    requires o + len <= dst.Length
    modifies dst
    ensures forall k :: 0 <= k < dst.Length ==> dst[k] == (if o <= k < o + len then 0 else old(dst[k]))
  {
    hide *;
    for i := 0 to len
      invariant forall k :: 0 <= k < dst.Length ==> dst[k] == (if o <= k < o + i then 0 else old(dst[k]))
    {
      dst[o + i] := 0;
    }
  }

  /** The left part of wma_window, in numbers. */
  lemma LeftPart(s: Stream, fb: nat, b: Block, t: int, was: Sample)
    requires BlockOk(b, fb) && t < Origin(b, fb) + Len(b)
    ensures var i, side := t - Origin(b, fb), Min(b.bits, b.prev);
            AddedAt(s, fb, b, t, was) ==
            if i < Gap(b.bits, b.prev) then was
            else if i < Gap(b.bits, b.prev) + Pow2(side)
              then Add(s.mul(s.imdct(b.number, i), s.window(fb - side, i - Gap(b.bits, b.prev))), was)
            else s.imdct(b.number, i)
  {
    Layout(b.bits, b.prev, fb);
    hide Pow2, Gap, Add;
  }

  /** The right part. */
  lemma RightPart(s: Stream, fb: nat, b: Block, t: int, was: Sample)
    requires BlockOk(b, fb) && t >= Origin(b, fb) + Len(b)
    ensures var i, side, n := t - Origin(b, fb) - Len(b), Min(b.bits, b.next), Gap(b.bits, b.next);
            AddedAt(s, fb, b, t, was) ==
            if i < n then s.imdct(b.number, Len(b) + i)
            else if i < n + Pow2(side)
              then s.mul(s.imdct(b.number, Len(b) + i), s.window(fb - side, Pow2(side) - 1 - (i - n)))
            else if i < Len(b) then 0 else was
  {
    Layout(b.bits, b.prev, fb);
    Layout(b.bits, b.next, fb);
    hide Pow2, Gap, Add;
  }

  /** What the inverse transform leaves of a block. */
  function Transform(s: Stream, number: nat, n: nat): (samples: seq<Sample>)
    ensures |samples| == n && forall i :: 0 <= i < n ==> samples[i] == s.imdct(number, i)
  {
    if n == 0 then [] else Transform(s, number, n - 1) + [s.imdct(number, n - 1)]
  }

  class Decoder {
    const stream: Stream
    const frameLenBits: nat
    const nbBlockSizes: nat
    const useVariableBlockLen: bool
    var resetBlockLengths: bool
    var prevBlockLenBits: nat
    var blockLenBits: nat
    var nextBlockLenBits: nat
    var blockLen: nat
    var blockPos: nat
    var blockNumber: nat
    const frameOut: array<Sample>
    /** What the buffer held at first, the blocks so far and the time of the buffer's start. */
    ghost const init: seq<Sample>
    ghost var blocks: seq<Block>
    ghost var base: nat

    /** The three lengths of wma_window are those of the block b, and its transform is at hand. */
    ghost predicate At(input: seq<Sample>, index: nat, b: Block, base: nat)
      reads this
    {
      && BlockOk(b, frameLenBits)
      && blockLenBits == b.bits && prevBlockLenBits == b.prev && nextBlockLenBits == b.next && blockLen == Len(b)
      && |input| == 2 * blockLen && (forall i :: 0 <= i < |input| ==> input[i] == stream.imdct(b.number, i))
      && base + index == Origin(b, frameLenBits) && index + 2 * blockLen <= frameOut.Length
    }

    method WindowLeft(input: seq<Sample>, index: nat, ghost b: Block, ghost base: nat)
      requires At(input, index, b, base)
      modifies frameOut
      ensures At(input, index, b, base)
      ensures forall k :: 0 <= k < index + blockLen ==>
        frameOut[k] == AddedAt(stream, frameLenBits, b, base + k, old(frameOut[k]))
      ensures forall k :: index + blockLen <= k < frameOut.Length ==> frameOut[k] == old(frameOut[k])
    {
      hide *;
      AtMeans(input, index, b, base);
      GapIs(b.bits, b.prev, frameLenBits);
      if blockLenBits <= prevBlockLenBits {
        VectorFmulAddAdd(frameOut, index, input, 0, stream, frameLenBits - blockLenBits, blockLen);
      } else {
        var len := Pow2(prevBlockLenBits);
        var n := (blockLen - len) / 2;
        VectorFmulAddAdd(frameOut, index + n, input, n, stream, frameLenBits - prevBlockLenBits, len);
        Memcpy(frameOut, index + n + len, input, n + len, n);
      }
      forall k | 0 <= k < index + blockLen
        ensures frameOut[k] == AddedAt(stream, frameLenBits, b, base + k, old(frameOut[k]))
      {
        LeftPart(stream, frameLenBits, b, base + k, old(frameOut[k]));
      }
      StillAt(input, index, b, base);
    }

    method WindowRight(input: seq<Sample>, index: nat, ghost b: Block, ghost base: nat)
      requires At(input, index, b, base)
      modifies frameOut
      ensures forall k :: 0 <= k < index + blockLen ==> frameOut[k] == old(frameOut[k])
      ensures forall k :: index + blockLen <= k < frameOut.Length ==>
        frameOut[k] == AddedAt(stream, frameLenBits, b, base + k, old(frameOut[k]))
    {
      hide *;
      AtMeans(input, index, b, base);
      GapIs(b.bits, b.next, frameLenBits);
      var o := index + blockLen;
      if blockLenBits <= nextBlockLenBits {
        VectorFmulReverse(frameOut, o, input, blockLen, stream, frameLenBits - blockLenBits, blockLen);
      } else {
        var len := Pow2(nextBlockLenBits);
        var n := (blockLen - len) / 2;
        Memcpy(frameOut, o, input, blockLen, n);
        VectorFmulReverse(frameOut, o + n, input, blockLen + n, stream, frameLenBits - nextBlockLenBits, len);
        Memset(frameOut, o + n + len, n);
      }
      forall k | o <= k < frameOut.Length
        ensures frameOut[k] == AddedAt(stream, frameLenBits, b, base + k, old(frameOut[k]))
      {
        RightPart(stream, frameLenBits, b, base + k, old(frameOut[k]));
      }
    }

    lemma AtMeans(input: seq<Sample>, index: nat, b: Block, base: nat)
      requires At(input, index, b, base)
      ensures BlockOk(b, frameLenBits) && 1 <= b.bits <= frameLenBits && 1 <= b.prev <= frameLenBits
      ensures 1 <= b.next <= frameLenBits
      ensures blockLenBits == b.bits && prevBlockLenBits == b.prev && nextBlockLenBits == b.next
      ensures blockLen == Len(b) == Pow2(b.bits)
      ensures |input| == 2 * blockLen && (forall i :: 0 <= i < |input| ==> input[i] == stream.imdct(b.number, i))
      ensures base + index == Origin(b, frameLenBits) && index + 2 * blockLen <= frameOut.Length
    {
    }

    lemma StillAt(input: seq<Sample>, index: nat, b: Block, base: nat)
      requires BlockOk(b, frameLenBits)
      requires blockLenBits == b.bits && prevBlockLenBits == b.prev && nextBlockLenBits == b.next && blockLen == Len(b)
      requires |input| == 2 * blockLen && (forall i :: 0 <= i < |input| ==> input[i] == stream.imdct(b.number, i))
      requires base + index == Origin(b, frameLenBits) && index + 2 * blockLen <= frameOut.Length
      ensures At(input, index, b, base)
    {
    }

    /** wma_window: adds the block to the buffer at index. */
    method WmaWindow(input: seq<Sample>, index: nat, ghost b: Block, ghost base: nat)
      requires At(input, index, b, base)
      modifies frameOut
      ensures BlockOk(b, frameLenBits) && Added(stream, frameLenBits, b, old(frameOut[..]), frameOut[..], base)
    {
      hide *;
      AtMeans(input, index, b, base);
      ghost var t := frameOut[..];
      WindowLeft(input, index, b, base);
      WindowRight(input, index, b, base);
      forall k | 0 <= k < frameOut.Length
        ensures frameOut[k] == AddedAt(stream, frameLenBits, b, base + k, t[k])
      {
      }
      AddedIs(stream, frameLenBits, b, t, frameOut[..], base);
    }

    /** Lengths and buffer make sense; the fields agree with the last block; everything before
        time `base + pos` is decoded; and if the blocks agree, the buffer is right. */
    ghost predicate Ready(pos: nat)
      reads this, frameOut
    {
      && 1 <= nbBlockSizes <= frameLenBits && frameOut.Length == 2 * Pow2(frameLenBits) == |init|
      && blockNumber == |blocks| && BlocksOk(blocks, frameLenBits) && base + pos == Next(blocks)
      && (blocks == [] ==> base == 0 && (useVariableBlockLen ==> resetBlockLengths))
      && (blocks != [] ==> blockLenBits == Last().bits && nextBlockLenBits == Last().next)
      && (!useVariableBlockLen && blocks != [] ==> Last().bits == Last().next == frameLenBits)
      && AllAnnounced(stream, frameLenBits, useVariableBlockLen, blocks)
      && (Agree(blocks) ==> Right(stream, frameLenBits, init, blocks, frameOut[..], base))
    }

    ghost function Last(): Block
      requires blocks != []
      reads this
    {
      blocks[|blocks| - 1]
    }

    constructor (s: Stream, fb: nat, sizes: nat, variable: bool, out: array<Sample>)
      requires 1 <= sizes <= fb && out.Length == 2 * Pow2(fb)
      ensures stream == s && frameLenBits == fb && frameOut == out && init == out[..] && useVariableBlockLen == variable
      ensures resetBlockLengths && blocks == [] && base == 0 && Ready(0)
    {
      stream, frameLenBits, nbBlockSizes, useVariableBlockLen, frameOut := s, fb, sizes, variable, out;
      resetBlockLengths, prevBlockLenBits, blockLenBits, nextBlockLenBits := true, 0, 0, 0;
      blockLen, blockPos, blockNumber := 0, 0, 0;
      init, blocks, base := out[..], [], 0;
      new;
      NothingYet(s, fb, out[..]);
    }

    /** The lengths of the next block; the error codes are those of the program. */
    method BlockLengths() returns (ret: int)
      modifies this`resetBlockLengths, this`prevBlockLenBits, this`blockLenBits, this`nextBlockLenBits, this`blockLen
      requires 1 <= nbBlockSizes <= frameLenBits
      ensures var h := stream.header(blockNumber);
              ret == if useVariableBlockLen && old(resetBlockLengths) && h.prev >= nbBlockSizes then -2
                     else if useVariableBlockLen && old(resetBlockLengths) && h.block >= nbBlockSizes then -3
                     else if useVariableBlockLen && h.next >= nbBlockSizes then -4
                     else if blockPos + blockLen > Pow2(frameLenBits) then -5 else 0
      ensures ret == 0 || ret == -5 || !useVariableBlockLen ==>
                blockLen == Pow2(blockLenBits) && 1 <= nextBlockLenBits <= frameLenBits
      ensures (ret == 0 || ret == -5) && useVariableBlockLen ==>
                nextBlockLenBits == frameLenBits - stream.header(blockNumber).next && !resetBlockLengths
      ensures (ret == 0 || ret == -5) && useVariableBlockLen && !old(resetBlockLengths) ==>
                prevBlockLenBits == old(blockLenBits) && blockLenBits == old(nextBlockLenBits)
      ensures (ret == 0 || ret == -5) && useVariableBlockLen && old(resetBlockLengths) ==>
                && 1 <= prevBlockLenBits == frameLenBits - stream.header(blockNumber).prev
                && 1 <= blockLenBits == frameLenBits - stream.header(blockNumber).block
      ensures !useVariableBlockLen ==>
                prevBlockLenBits == blockLenBits == nextBlockLenBits == frameLenBits
                && resetBlockLengths == old(resetBlockLengths)
    {
      hide *;
      var h := stream.header(blockNumber);
      if useVariableBlockLen {
        if resetBlockLengths {
          resetBlockLengths := false;
          if h.prev >= nbBlockSizes {
            return -2;
          }
          prevBlockLenBits := frameLenBits - h.prev;
          if h.block >= nbBlockSizes {
            return -3;
          }
          blockLenBits := frameLenBits - h.block;
        } else {
          prevBlockLenBits := blockLenBits;
          blockLenBits := nextBlockLenBits;
        }
        if h.next >= nbBlockSizes {
          return -4;
        }
        nextBlockLenBits := frameLenBits - h.next;
      } else {
        nextBlockLenBits := frameLenBits;
        prevBlockLenBits := frameLenBits;
        blockLenBits := frameLenBits;
      }
      blockLen := Pow2(blockLenBits);
      if blockPos + blockLen > Pow2(frameLenBits) {
        return -5;
      }
      return 0;
    }

    /** The next block, with the lengths it has. */
    method NextBlock() returns (ret: int, ghost b: Block)
      requires 1 <= nbBlockSizes <= frameLenBits && blockNumber == |blocks| && blockPos < Pow2(frameLenBits)
      requires AllAnnounced(stream, frameLenBits, useVariableBlockLen, blocks)
      requires blocks == [] && useVariableBlockLen ==> resetBlockLengths
      requires blocks != [] ==>
                 blockLenBits == blocks[|blocks| - 1].bits && nextBlockLenBits == blocks[|blocks| - 1].next
      requires blocks != [] ==> 1 <= blockLenBits <= frameLenBits && 1 <= nextBlockLenBits <= frameLenBits
      modifies this`resetBlockLengths, this`prevBlockLenBits, this`blockLenBits, this`nextBlockLenBits, this`blockLen
      ensures -5 <= ret <= 0 && ret != -1 && (!useVariableBlockLen && blockPos == 0 ==> ret == 0)
      ensures useVariableBlockLen ==>
                (ret < 0 <==> BadHeader(stream, frameLenBits, nbBlockSizes, blocks, old(resetBlockLengths), blockPos))
      ensures b == Block(blockNumber, base + blockPos, blockLenBits, prevBlockLenBits, nextBlockLenBits)
      ensures ret == 0 ==> BlockOk(b, frameLenBits) && blockLen == Len(b) == Pow2(b.bits)
      ensures ret == 0 ==> blockPos + blockLen <= Pow2(frameLenBits)
      ensures ret == 0 ==> AllAnnounced(stream, frameLenBits, useVariableBlockLen, blocks + [b])
      ensures ret == 0 ==> !resetBlockLengths || !useVariableBlockLen
      ensures ret == 0 && !useVariableBlockLen ==> b.prev == b.bits == b.next == frameLenBits
      ensures ret == 0 && useVariableBlockLen && !old(resetBlockLengths) ==>
                Carried(blocks, b) && blocks != []
                && b.bits == blocks[|blocks| - 1].next && b.prev == blocks[|blocks| - 1].bits
      ensures ret == 0 && useVariableBlockLen && old(resetBlockLengths) ==>
                b.bits == frameLenBits - stream.header(|blocks|).block
                && b.prev == frameLenBits - stream.header(|blocks|).prev
    {
      hide *;
      ret := BlockLengths();
      if useVariableBlockLen {
        ErrorIsBad(old(resetBlockLengths), ret);
      }
      b := Block(blockNumber, base + blockPos, blockLenBits, prevBlockLenBits, nextBlockLenBits);
      if ret == 0 {
        IsBlock(b, frameLenBits);
        IsAnnounced(stream, frameLenBits, useVariableBlockLen, blocks, b);
      }
    }

    lemma ErrorIsBad(anew: bool, ret: int)
      requires 1 <= nbBlockSizes <= frameLenBits && (blocks == [] ==> anew)
      requires var h := stream.header(|blocks|);
               ret == if anew && h.prev >= nbBlockSizes then -2
                      else if anew && h.block >= nbBlockSizes then -3
                      else if h.next >= nbBlockSizes then -4
                      else if blockPos + blockLen > Pow2(frameLenBits) then -5 else 0
      requires ret == 0 || ret == -5 ==>
                 blockLen == Pow2(blockLenBits)
                 && blockLenBits == if anew then frameLenBits - stream.header(|blocks|).block
                                    else blocks[|blocks| - 1].next
      ensures ret < 0 <==> BadHeader(stream, frameLenBits, nbBlockSizes, blocks, anew, blockPos)
    {
      hide Pow2;
    }

    /** wma_decode_block: 0, or 1 for the last block of a frame, or an error. */
    method DecodeBlock() returns (ret: int)
      requires Ready(blockPos) && blockPos < Pow2(frameLenBits)
      modifies this, frameOut
      ensures base == old(base) && -5 <= ret <= 1 && ret != -1
      ensures ret >= 0 ==> Ready(blockPos) && old(blockPos) < blockPos <= Pow2(frameLenBits)
      ensures ret >= 0 ==> (ret == 1 <==> blockPos == Pow2(frameLenBits))
      ensures !useVariableBlockLen && old(blockPos) == 0 ==> ret == 1
      ensures useVariableBlockLen ==>
                (ret < 0 <==> BadHeader(stream, frameLenBits, nbBlockSizes, old(blocks), old(resetBlockLengths),
                                        old(blockPos)))
      ensures ret < 0 ==> blocks == old(blocks) && blockPos == old(blockPos)
      ensures ret >= 0 ==> !resetBlockLengths || !useVariableBlockLen
      ensures ret >= 0 ==> |blocks| == |old(blocks)| + 1 && blocks[..|old(blocks)|] == old(blocks)
      ensures ret >= 0 && useVariableBlockLen && !old(resetBlockLengths) ==> Carried(old(blocks), Last())
      ensures ret >= 0 && useVariableBlockLen && old(resetBlockLengths) ==>
                Last().bits == frameLenBits - stream.header(|old(blocks)|).block
                && Last().prev == frameLenBits - stream.header(|old(blocks)|).prev
      ensures ret >= 0 && Agree(old(blocks)) && (!old(resetBlockLengths) || !useVariableBlockLen || old(blocks) == [])
              ==> Agree(blocks)
    {
      hide *;
      ghost var bs, t := blocks, frameOut[..];
      ReadyMeans(blockPos);
      ghost var b;
      ret, b := NextBlock();
      if ret < 0 {
        return ret;
      }
      BlockFits(b, frameLenBits, blockPos);
      var input := Transform(stream, blockNumber, 2 * blockLen);
      var index := Pow2(frameLenBits) / 2 + blockPos - blockLen / 2;
      StillAt(input, index, b, base);
      WmaWindow(input, index, b, base);
      blockNumber := blockNumber + 1;
      blockPos := blockPos + blockLen;
      blocks := blocks + [b];
      Extended(bs, b, frameLenBits);
      if Agree(blocks) {
        AgreePrefix(blocks, |bs|);
        assert blocks[..|bs|] == bs;
        RightStep(stream, frameLenBits, init, bs, b, t, frameOut[..], base);
      }
      IsReady(blockPos, bs, b);
      if blockPos >= Pow2(frameLenBits) {
        return 1;
      } else {
        return 0;
      }
    }

    /** No block lengths are about to be read anew in the middle of the stream. */
    predicate Continues()
      reads this
    {
      !resetBlockLengths || !useVariableBlockLen || blockNumber == 0
    }

    /** wma_decode_frame. A frame is tiled exactly by its blocks, and its samples are what is
        expected of all blocks so far. */
    method DecodeFrame() returns (ret: int, samples: seq<Sample>)
      requires Ready(0)
      modifies this, frameOut
      ensures ret == 0 || ret == -1
      ensures !useVariableBlockLen ==> ret == 0
      ensures ret == -1 ==> blockPos < Pow2(frameLenBits) && base + blockPos == Next(blocks)
      ensures ret == -1 ==>
                BadHeader(stream, frameLenBits, nbBlockSizes, blocks, old(resetBlockLengths) && blocks == old(blocks),
                          blockPos)
      ensures ret == 0 ==> Ready(0) && base == old(base) + Pow2(frameLenBits) == Next(blocks) && blocks != []
      ensures ret == 0 ==> |old(blocks)| <= |blocks| && blocks[..|old(blocks)|] == old(blocks)
      ensures ret == 0 ==> |samples| == Pow2(frameLenBits)
      ensures ret == 0 && Agree(blocks) ==> BlocksOk(blocks, frameLenBits) && forall k :: 0 <= k < |samples| ==>
                samples[k] == Expected(stream, frameLenBits, init, blocks, old(base) + k)
      ensures ret == 0 && Agree(old(blocks)) && old(Continues()) ==> Agree(blocks)
      ensures ret == 0 ==> Continues()
    {
      hide *;
      ReadyMeans(0);
      FramePositive(frameLenBits);
      ContinuesMeans();
      samples := [];
      label start:
      blockPos := 0;
      StillReady@start();
      ghost var was, first := blocks, true;
      while true
        invariant Ready(blockPos) && blockPos < Pow2(frameLenBits) && base == old(base)
        invariant !useVariableBlockLen ==> blockPos == 0
        invariant |was| <= |blocks| && blocks[..|was|] == was
        invariant first ==> blocks == was && resetBlockLengths == old(resetBlockLengths)
        invariant !first ==> |blocks| > |was| && (!resetBlockLengths || !useVariableBlockLen)
        invariant Agree(was) && old(Continues()) ==> Agree(blocks)
        decreases Pow2(frameLenBits) - blockPos
      {
        ghost var bs := blocks;
        ReadyMeans(blockPos);
        ret := DecodeBlock();
        first := false;
        if ret < 0 {
          return -1, [];
        }
        assert blocks[..|was|] == bs[..|was|];
        if ret == 1 {
          break;
        }
      }
      samples := PutFrame();
      ContinuesMeans();
      return 0, samples;
    }

    /** Puts out the first half of the buffer and moves the second half to its front. */
    method PutFrame() returns (samples: seq<Sample>)
      requires Ready(blockPos) && blocks != [] && blockPos == Pow2(frameLenBits)
      modifies this`base, frameOut
      ensures Ready(0) && base == old(base) + Pow2(frameLenBits) == Next(blocks)
      ensures |samples| == Pow2(frameLenBits)
      ensures Agree(blocks) ==> BlocksOk(blocks, frameLenBits) && forall k :: 0 <= k < |samples| ==>
                samples[k] == Expected(stream, frameLenBits, init, blocks, old(base) + k)
    {
      hide *;
      ReadyMeans(blockPos);
      samples := [];
      ghost var t := frameOut[..];
      var n := Pow2(frameLenBits);
      for i := 0 to n
        invariant samples == frameOut[..i] && frameOut[..] == t
      {
        samples := samples + [frameOut[i]];
      }
      Memcpy(frameOut, 0, frameOut[n..2 * n], 0, n);
      if Agree(blocks) {
        RightShift(stream, frameLenBits, init, blocks, t, frameOut[..], base);
        RightMeans(stream, frameLenBits, init, blocks, t, base);
      }
      base := base + n;
      NextFrame();
    }

    lemma ContinuesMeans()
      ensures Continues() <==> !resetBlockLengths || !useVariableBlockLen || blockNumber == 0
    {
    }

    lemma NextFrame()
      requires blocks != [] && BlocksOk(blocks, frameLenBits)
      requires 1 <= nbBlockSizes <= frameLenBits && frameOut.Length == 2 * Pow2(frameLenBits) == |init|
      requires blockNumber == |blocks| && base == Next(blocks)
      requires blockLenBits == blocks[|blocks| - 1].bits && nextBlockLenBits == blocks[|blocks| - 1].next
      requires !useVariableBlockLen ==> blockLenBits == nextBlockLenBits == frameLenBits
      requires AllAnnounced(stream, frameLenBits, useVariableBlockLen, blocks)
      requires Agree(blocks) ==> Right(stream, frameLenBits, init, blocks, frameOut[..], base)
      ensures Ready(0)
    {
      hide Agree, Right, Pow2, Next, BlocksOk, AllAnnounced;
      assert Last() == blocks[|blocks| - 1];
    }

    /** A run of frames; before some of them the caller asks for the block lengths to be read
        anew. The samples emitted are those expected of all blocks, also of the later ones,
        as long as the blocks agree; and they agree by themselves where nothing is reread. */
    method DecodeFrames(resets: seq<bool>) returns (ok: bool, output: seq<Sample>)
      requires Ready(0) && blocks == []
      modifies this, frameOut
      ensures !useVariableBlockLen ==> ok
      ensures !ok ==> blockPos < Pow2(frameLenBits) && base + blockPos == Next(blocks)
      ensures !ok ==> || BadHeader(stream, frameLenBits, nbBlockSizes, blocks, true, blockPos)
                      || BadHeader(stream, frameLenBits, nbBlockSizes, blocks, false, blockPos)
      ensures ok ==> |output| == base == |resets| * Pow2(frameLenBits) == Next(blocks)
      ensures ok ==> AllAnnounced(stream, frameLenBits, useVariableBlockLen, blocks)
      ensures ok && Agree(blocks) ==> BlocksOk(blocks, frameLenBits) && forall t :: 0 <= t < |output| ==>
                output[t] == Expected(stream, frameLenBits, init, blocks, t)
      ensures ok && (!useVariableBlockLen || forall k :: 0 < k < |resets| ==> !resets[k]) ==> Agree(blocks)
    {
      hide *;
      ReadyMeans(0);
      NoBlocksAgree();
      output := [];
      for f := 0 to |resets|
        invariant Ready(0) && |output| == base == f * Pow2(frameLenBits)
        invariant Agree(blocks) ==> BlocksOk(blocks, frameLenBits) && forall t :: 0 <= t < |output| ==>
                    output[t] == Expected(stream, frameLenBits, init, blocks, t)
        invariant f > 0 ==> Continues() && blocks != []
        invariant f == 0 ==> blocks == []
        invariant (!useVariableBlockLen || forall k :: 0 < k < f ==> !resets[k]) ==> Agree(blocks)
      {
        ReadyMeans(0);
        ContinuesMeans();
        if resets[f] {
          label asked:
          resetBlockLengths := true;
          StillReady@asked();
          ContinuesMeans();
        }
        ghost var was := blocks;
        var ret, samples := DecodeFrame();
        if ret < 0 {
          return false, [];
        }
        ReadyMeans(0);
        if Agree(blocks) {
          StillExpected(stream, frameLenBits, init, blocks, |was|, output);
        }
        output := output + samples;
      }
      ReadyMeans(0);
      return true, output;
    }

    lemma ReadyMeans(pos: nat)
      requires Ready(pos)
      ensures 1 <= nbBlockSizes <= frameLenBits && frameOut.Length == 2 * Pow2(frameLenBits) == |init|
      ensures blockNumber == |blocks| && BlocksOk(blocks, frameLenBits) && base + pos == Next(blocks)
      ensures blocks == [] ==> base == 0 && (useVariableBlockLen ==> resetBlockLengths)
      ensures blocks != [] ==>
                blockLenBits == Last().bits && nextBlockLenBits == Last().next && Last() == blocks[|blocks| - 1]
      ensures blocks != [] ==> 1 <= blockLenBits <= frameLenBits && 1 <= nextBlockLenBits <= frameLenBits
      ensures !useVariableBlockLen && blocks != [] ==> Last().bits == Last().next == frameLenBits
      ensures AllAnnounced(stream, frameLenBits, useVariableBlockLen, blocks)
      ensures Agree(blocks) ==> Right(stream, frameLenBits, init, blocks, frameOut[..], base)
    {
      hide Agree, Right, Pow2, Next, AllAnnounced;
    }

    /** Moving blockPos or asking for new block lengths changes nothing that Ready reads. */
    twostate lemma StillReady()
      requires old(Ready(0)) && (resetBlockLengths || resetBlockLengths == old(resetBlockLengths))
      requires unchanged(frameOut) && unchanged(`prevBlockLenBits) && unchanged(`blockLenBits)
      requires unchanged(`nextBlockLenBits)
      requires unchanged(`blocks) && unchanged(`base) && unchanged(`blockNumber)
      ensures Ready(0)
    {
    }

    lemma IsReady(pos: nat, bs: seq<Block>, b: Block)
      requires blocks == bs + [b] && BlocksOk(blocks, frameLenBits)
      requires 1 <= nbBlockSizes <= frameLenBits && frameOut.Length == 2 * Pow2(frameLenBits) == |init|
      requires blockNumber == |blocks| && base + pos == Next(blocks)
      requires blockLenBits == b.bits && nextBlockLenBits == b.next
      requires !useVariableBlockLen ==> b.bits == b.next == frameLenBits
      requires AllAnnounced(stream, frameLenBits, useVariableBlockLen, blocks)
      requires Agree(blocks) ==> Right(stream, frameLenBits, init, blocks, frameOut[..], base)
      ensures Ready(pos) && Last() == b
    {
      hide Agree, Right, Pow2, Next, BlockOk, AllAnnounced;
    }
  }

  lemma NothingYet(s: Stream, fb: nat, init: seq<Sample>)
    requires |init| <= 2 * Pow2(fb)
    ensures BlocksOk([], fb) && Next([]) == 0 && Right(s, fb, init, [], init, 0)
  {
    forall k | 0 <= k < |init|
      ensures Expected(s, fb, init, [], k) == init[k]
    {
      AddZero(init[k]);
    }
  }

  lemma FramePositive(fb: nat)
    ensures Pow2(fb) > 0
  {
  }

  lemma NoBlocksAgree()
    ensures Agree([])
  {
  }

  lemma StillExpected(s: Stream, fb: nat, init: seq<Sample>, bs: seq<Block>, n: nat, output: seq<Sample>)
    requires BlocksOk(bs, fb) && Agree(bs) && n <= |bs| && |output| == Next(bs[..n])
    ensures BlocksOk(bs[..n], fb) && Agree(bs[..n])
    ensures (forall t :: 0 <= t < |output| ==> output[t] == Expected(s, fb, init, bs[..n], t)) ==>
              forall t :: 0 <= t < |output| ==> output[t] == Expected(s, fb, init, bs, t)
  {
    hide *;
    FirstOk(bs, n, fb);
    AgreePrefix(bs, n);
    forall t | 0 <= t < |output|
      ensures Expected(s, fb, init, bs, t) == Expected(s, fb, init, bs[..n], t)
    {
      Settled(s, fb, init, bs, n, t);
    }
  }

  lemma FirstOk(bs: seq<Block>, n: nat, fb: nat)
    requires BlocksOk(bs, fb) && n <= |bs|
    ensures BlocksOk(bs[..n], fb)
  {
    hide BlockOk;
  }

  lemma IsBlock(b: Block, fb: nat)
    requires 1 <= b.bits <= fb && 1 <= b.prev <= fb && 1 <= b.next <= fb
    ensures BlockOk(b, fb) && Len(b) == Pow2(b.bits)
  {
  }

  /** The transform of a block that fits in the frame lies within the buffer. */
  lemma BlockFits(b: Block, fb: nat, pos: nat)
    requires BlockOk(b, fb) && pos + Len(b) <= Pow2(fb) && pos <= b.start
    ensures Len(b) > 0 && 0 <= Pow2(fb) / 2 + pos - Len(b) / 2
    ensures b.start - pos + (Pow2(fb) / 2 + pos - Len(b) / 2) == Origin(b, fb)
    ensures Pow2(fb) / 2 + pos - Len(b) / 2 + 2 * Len(b) <= 2 * Pow2(fb)
  {
    Layout(b.bits, b.prev, fb);
    hide Pow2;
  }

  lemma Extended(bs: seq<Block>, b: Block, fb: nat)
    requires BlocksOk(bs, fb) && BlockOk(b, fb)
    ensures BlocksOk(bs + [b], fb) && Next(bs + [b]) == b.start + Len(b)
    ensures Agree(bs) && b.start == Next(bs)
            && (bs == [] || (b.bits == bs[|bs| - 1].next && b.prev == bs[|bs| - 1].bits)) ==>
              Agree(bs + [b])
    ensures (bs + [b])[..|bs|] == bs
  {
    hide Len, BlockOk;
    assert (bs + [b])[..|bs|] == bs;
    forall k | 0 < k < |bs + [b]| && Agree(bs) && k < |bs|
      ensures Follows((bs + [b])[k - 1], (bs + [b])[k])
    {
      assert Follows(bs[k - 1], bs[k]);
    }
  }

  lemma IsAnnounced(s: Stream, fb: nat, variable: bool, bs: seq<Block>, b: Block)
    requires AllAnnounced(s, fb, variable, bs) && b.number == |bs|
    requires !variable ==> b.prev == b.bits == b.next == fb
    requires variable ==> b.next == fb - s.header(b.number).next
    requires variable ==>
               || (bs != [] && b.bits == bs[|bs| - 1].next && b.prev == bs[|bs| - 1].bits)
               || (b.bits == fb - s.header(b.number).block && b.prev == fb - s.header(b.number).prev)
    ensures AllAnnounced(s, fb, variable, bs + [b]) && (bs + [b])[|bs|] == b
    ensures Carried(bs, b) <==> bs != [] && b.bits == bs[|bs| - 1].next && b.prev == bs[|bs| - 1].bits
  {
    AnnouncedOne(s, fb, variable, bs, b);
  }

  lemma AddedIs(s: Stream, fb: nat, b: Block, t: seq<Sample>, u: seq<Sample>, base: nat)
    requires BlockOk(b, fb) && |u| == |t|
    requires forall k :: 0 <= k < |u| ==> u[k] == AddedAt(s, fb, b, base + k, t[k])
    ensures Added(s, fb, b, t, u, base)
  {
  }

  lemma GapIs(bits: nat, side: nat, fb: nat)
    requires 1 <= bits <= fb && 1 <= side <= fb
    ensures bits <= side ==> Min(bits, side) == bits && Gap(bits, side) == 0
    ensures bits > side ==> Min(bits, side) == side && Gap(bits, side) == (Pow2(bits) - Pow2(side)) / 2
    ensures 2 * Gap(bits, side) + Pow2(Min(bits, side)) == Pow2(bits)
  {
    Layout(bits, side, fb);
  }

  lemma StaleFirst(s: Stream, fb: nat, init: seq<Sample>, bs: seq<Block>)
    requires fb >= 1 && BlocksOk(bs, fb) && bs != [] && bs[0].start == 0 && init != [] && init[0] != 0
    ensures Expected(s, fb, init, bs, 0) != Sum(s, fb, bs, 0)
  {
    EvenPow2(fb);
    AddIsOther(Stale(init, fb, bs, 0), Sum(s, fb, bs, 0));
    hide Sum;
  }

  /** Whatever the stream, a decoder whose buffer is not empty at first puts out a first sample that
      is not the sum of the windowed blocks. */
  method StaleIsHeard(s: Stream, fb: nat, out: array<Sample>) returns (d: Decoder, output: seq<Sample>)
    requires fb >= 1 && out.Length == 2 * Pow2(fb) && out[0] != 0
    modifies out
    ensures d.stream == s && BlocksOk(d.blocks, fb) && output != [] && output[0] != Sum(s, fb, d.blocks, 0)
  {
    hide Sum, Expected, BlockOk;
    d := new Decoder(s, fb, 1, false, out);
    var ok;
    ok, output := d.DecodeFrames([true]);
    assert 1 * Pow2(fb) == Pow2(fb) > 0;
    StaleFirst(s, fb, d.init, d.blocks);
  }
}
