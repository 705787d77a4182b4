/** The bit reservoir: frames that straddle two superframes. What a frame decoder does is left
    open except for how many bits it consumes. */
module BitReservoir {
  import opened Bits
  import opened Ints
  import opened BitStream

  const MAX_CODED_SUPERFRAME_SIZE := 16384

  /** The rest of a bit string from a position on. */
  function From(s: seq<int>, i: nat): seq<int> { if i <= |s| then s[i..] else [] }

  /** The bits of a buffer from the byte of position p on are those of the whole from there. */
  lemma Tails(b: seq<int>, p: nat, i: nat)
    requires IsBytes(b) && p / 8 <= |b|
    ensures IsBytes(b[p / 8..])
    ensures From(ByteBits(b[p / 8..]), i) == From(ByteBits(b), 8 * (p / 8) + i)
  {
    hide *;
    BytesSlice(b, p / 8, |b|);
    assert b[p / 8..] == b[p / 8..|b|];
    ByteBitsSlice(b, p / 8, |b|);
    ByteBitsLength(b);
    ByteBitsLength(b[p / 8..]);
    SliceFrom(ByteBits(b), 8 * (p / 8), i);
  }

  lemma SliceFrom(s: seq<int>, a: nat, i: nat)
    requires a <= |s|
    ensures From(s[a..|s|], i) == From(s, a + i)
  {
  }

  /** A byte of n bits and then zeros. */
  lemma PartialByte(s: seq<int>, n: nat)
    requires IsBits(s) && |s| == n && 1 <= n <= 8
    ensures 0 <= FromBits(s) && Shl(FromBits(s), 8 - n) < 256
    ensures ToBits(Shl(FromBits(s), 8 - n), 8) == s + ToBits(0, 8 - n)
  {
    var v := FromBits(s);
    Pow2Add(n, 8 - n);
    Pow2Values();
    hide FromBits, Pow2;
    assert v < Pow2(n);
    ShiftBound(v, Pow2(n), Pow2(8 - n));
    ShiftIn(v, n, 0, 8 - n);
    hide *;
    ShlPlain(v, 8 - n);
    BitsOf(s);
  }

  lemma ShiftBound(v: nat, a: nat, b: nat)
    requires v < a && a * b == 256
    ensures v * b < 256
  {
    MulLess(v, a, b);
  }

  lemma ShlPlain(v: nat, n: nat)
    requires Shl(v, n) < 256
    ensures Low(Shl(v, n) + 0, 32) == Shl(v, n)
  {
    Pow2Values();
    hide Shl, Pow2;
    ShrUnique(Shl(v, n), 32, 0, Shl(v, n));
  }

  lemma BitsOf(s: seq<int>)
    requires IsBits(s)
    ensures 0 <= FromBits(s) && ToBits(FromBits(s), |s|) == s
  {
    hide FromBits;
    FromToBits(FromBits(s), |s|);
    ShrUnique(FromBits(s), |s|, 0, FromBits(s));
    FromBitsInjective(ToBits(FromBits(s), |s|), s);
  }

  /** The first q bytes spell the bit string. */
  ghost predicate Spelled(bytes: seq<int>, q: nat, bits: seq<int>) {
    q <= |bytes| && IsBytes(bytes) && ByteBits(FirstBytes(bytes, q)) == bits
  }

  ghost function FirstBytes(bytes: seq<int>, q: nat): (b: seq<int>)
    requires q <= |bytes| && IsBytes(bytes)
    ensures IsBytes(b) && b == bytes[..q]
  {
    bytes[..q]
  }

  lemma SpelledByte(t: seq<int>, u: seq<int>, q: nat, bits: seq<int>, eight: seq<int>)
    requires Spelled(t, q, bits) && q < |t| == |u| && forall k :: 0 <= k < q ==> u[k] == t[k]
    requires forall k :: q < k < |u| ==> u[k] == t[k]
    requires 0 <= u[q] < 256 && ToBits(u[q], 8) == eight
    ensures IsBytes(u) && Spelled(u, q + 1, bits + eight)
  {
    hide ByteBits, ToBits;
    assert u[..q] == t[..q] && u[..q + 1] == u[..q] + [u[q]];
    AppendByte(t[..q], u[q]);
  }

  lemma JoinSlices(was: seq<int>, s: seq<int>, a: nat, b: nat, c: nat, rest: seq<int>)
    requires a <= b <= c <= |s|
    ensures was + s[a..b] + (s[b..c] + rest) == was + s[a..c] + rest
    ensures was + s[a..b] + s[b..c] == was + s[a..c]
  {
  }

  lemma IsBitString(b: seq<int>)
    requires IsBytes(b)
    ensures IsBits(ByteBits(b)) && forall i, j :: 0 <= i <= j <= |ByteBits(b)| ==> IsBits(ByteBits(b)[i..j])
  {
    hide ByteBits;
  }

  lemma Rounding(n: nat)
    ensures n % 8 == 0 ==> (n + 7) / 8 == n / 8 && (8 - n % 8) % 8 == 0
    ensures n % 8 > 0 ==> (n + 7) / 8 == n / 8 + 1 && (8 - n % 8) % 8 == 8 - n % 8
    ensures n == 8 * (n / 8) + n % 8
  {
  }

  /** What the frames from..n consume together. */
  function Total(uses: seq<int>, from: nat, n: nat): nat {
    if n <= from then 0 else Total(uses, from, n - 1) + if n <= |uses| && uses[n - 1] >= 0 then uses[n - 1] else 0
  }

  lemma TotalStep(uses: seq<int>, from: nat, n: nat)
    ensures n <= from ==> Total(uses, from, n) == 0
    ensures n >= from && n < |uses| && uses[n] >= 0 ==> Total(uses, from, n + 1) == Total(uses, from, n) + uses[n]
    ensures n < from ==> Total(uses, from, n + 1) == 0
  {
  }

  class SuperframeDecoder {
    const useBitReservoir: bool
    const byteOffsetBits: nat
    const frameLen: nat
    const gb: GetBitContext
    const lastSuperframe: array<int>
    var lastSuperframeLen: nat
    var lastBitoffset: nat
    var nbFrames: int
    var currentFrame: nat
    var bitOffset: nat
    var resetBlockLengths: bool

    ghost predicate Valid()
      reads this`lastSuperframeLen, this`lastBitoffset, lastSuperframe
    {
      && lastSuperframe.Length == MAX_CODED_SUPERFRAME_SIZE + 4 && IsBytes(lastSuperframe[..])
      && lastSuperframeLen <= MAX_CODED_SUPERFRAME_SIZE && lastBitoffset < 8
      && byteOffsetBits + 3 <= 25
    }

    /** The carry-over: the bits of the superframe before that no frame has used. */
    ghost function Tail(): (t: seq<int>)
      requires Valid()
      reads this`lastSuperframeLen, this`lastBitoffset, lastSuperframe
    {
      ValidCarry();
      From(ByteBits(lastSuperframe[..lastSuperframeLen]), lastBitoffset)
    }

    lemma ValidCarry()
      requires Valid()
      ensures IsBytes(lastSuperframe[..lastSuperframeLen])
    {
      assert lastSuperframe[..lastSuperframeLen] == lastSuperframe[..][..lastSuperframeLen];
    }

    ghost function CarryBits(): (t: seq<int>)
      requires Valid()
      reads this`lastSuperframeLen, this`lastBitoffset, lastSuperframe
      ensures Spelled(lastSuperframe[..], lastSuperframeLen, t)
    {
      ValidCarry();
      ByteBits(lastSuperframe[..lastSuperframeLen])
    }

    lemma ValidMeans()
      requires Valid()
      ensures lastSuperframe.Length == MAX_CODED_SUPERFRAME_SIZE + 4 && MAX_CODED_SUPERFRAME_SIZE == 16384
      ensures IsBytes(lastSuperframe[..]) && lastSuperframeLen <= MAX_CODED_SUPERFRAME_SIZE && lastBitoffset < 8
      ensures byteOffsetBits + 3 <= 25
    {
    }

    lemma StillValid()
      requires lastSuperframe.Length == MAX_CODED_SUPERFRAME_SIZE + 4 && IsBytes(lastSuperframe[..])
      requires lastSuperframeLen <= MAX_CODED_SUPERFRAME_SIZE && lastBitoffset < 8 && byteOffsetBits + 3 <= 25
      ensures Valid()
    {
    }

    function HeaderLen(): nat { 4 + 4 + byteOffsetBits + 3 }

    /** Where the frames of a superframe start that lie in it alone. */
    function Start(): nat
      reads this`bitOffset
    {
      HeaderLen() + bitOffset
    }

    constructor (reservoir: bool, bits: nat, len: nat)
      requires bits + 3 <= 25
      ensures Valid() && Tail() == [] && lastSuperframeLen == 0
      ensures useBitReservoir == reservoir && byteOffsetBits == bits && frameLen == len && resetBlockLengths
      ensures fresh(lastSuperframe) && fresh(gb)
    {
      useBitReservoir, byteOffsetBits, frameLen := reservoir, bits, len;
      gb := new GetBitContext([]);
      lastSuperframe := new int[MAX_CODED_SUPERFRAME_SIZE + 4](_ => 0);
      lastSuperframeLen, lastBitoffset, nbFrames, currentFrame, bitOffset := 0, 0, 0, 0, 0;
      resetBlockLengths := true;
    }

    /** wma_decode_superframe_init. `buf` is the memory from the superframe on, of which
        bufSize bytes belong to it. */
    method Init(buf: seq<int>, bufSize: nat) returns (ret: int)
      requires Valid() && IsBytes(buf) && bufSize + 8 <= |buf|
      modifies this`lastSuperframeLen, this`currentFrame, this`nbFrames, this`bitOffset, gb
      ensures Valid() && ret == if bufSize == 0 then 0 else 1
      ensures bufSize == 0 ==> lastSuperframeLen == 0
      ensures bufSize > 0 ==> lastSuperframeLen == old(lastSuperframeLen) && Tail() == old(Tail())
      ensures bufSize > 0 ==> currentFrame == 0 && gb.buffer == buf
      ensures bufSize > 0 && useBitReservoir ==> gb.index == HeaderLen() <= 8 * |buf|
      ensures bufSize > 0 && useBitReservoir ==>
                bitOffset == FromBits(ByteBits(buf)[8..HeaderLen()])
                && nbFrames == Frames(FromBits(ByteBits(buf)[4..8]))
      ensures bufSize > 0 && !useBitReservoir ==> gb.index == 0 && nbFrames == 1 && bitOffset == old(bitOffset)
    {
      hide ByteBits, FromBits;
      if bufSize == 0 {
        lastSuperframeLen := 0;
        return 0;
      }
      currentFrame := 0;
      gb.Init(buf);
      if useBitReservoir {
        gb.SkipBits(4);
        nbFrames := gb.GetBits(4);
        nbFrames := Frames(nbFrames);
        bitOffset := gb.GetBits(byteOffsetBits + 3);
      } else {
        nbFrames := 1;
      }
      return 1;
    }

    /** How many frames are to be decoded: without a carry-over the first one is lost, and
        with one there is at least that one. */
    function Frames(n: int): int
      reads this
    {
      if lastSuperframeLen == 0 then n - 1 else if n == 0 then 1 else n
    }

    /** One byte of the carry-over: the next n bits, shifted to its high end. */
    method AppendBits(q: nat, n: nat, ghost s: seq<int>, ghost start: nat, ghost was: seq<int>)
      requires 1 <= n <= 8 && gb.Padded(0) && IsBytes(gb.buffer) && s == ByteBits(gb.buffer) && start <= gb.index <= |s|
      requires q < lastSuperframe.Length && Spelled(lastSuperframe[..], q, was + s[start..gb.index])
      modifies gb`index, lastSuperframe
      ensures gb.index == old(gb.index) + n <= |s| && IsBytes(lastSuperframe[..])
      ensures Spelled(lastSuperframe[..], q + 1, was + s[start..gb.index] + ToBits(0, 8 - n))
    {
      hide *;
      ghost var at, t := gb.index, lastSuperframe[..];
      IsBitString(gb.buffer);
      ByteBitsLength(gb.buffer);
      var v := gb.GetBits(n);
      PartialByte(s[at..gb.index], n);
      lastSuperframe[q] := Shl(v, 8 - n);
      SpelledByte(t, lastSuperframe[..], q, was + s[start..at], s[at..gb.index] + ToBits(0, 8 - n));
      JoinSlices(was, s, start, at, gb.index, ToBits(0, 8 - n));
    }

    /** The bytes behind the carry-over get the next bitOffset bits; zeros fill the last one. */
    method AppendCarry(buf: seq<int>)
      requires Valid() && IsBytes(buf) && gb.buffer == buf && (gb.index + bitOffset) / 8 + 4 <= |buf|
      requires lastSuperframeLen + (bitOffset + 7) / 8 <= MAX_CODED_SUPERFRAME_SIZE
      modifies gb`index, lastSuperframe
      ensures Valid() && gb.index == old(gb.index) + bitOffset <= 8 * |buf|
      ensures Spelled(lastSuperframe[..], lastSuperframeLen + (bitOffset + 7) / 8,
                old(CarryBits()) + ByteBits(buf)[old(gb.index)..gb.index] + ToBits(0, (8 - bitOffset % 8) % 8))
    {
      hide *;
      ghost var s, start, was := ByteBits(buf), gb.index, CarryBits();
      ValidMeans();
      Rounding(bitOffset);
      ByteBitsLength(buf);
      IsBitString(buf);
      var q, len := lastSuperframeLen, bitOffset;
      assert s[start..start] == [] && was + [] == was;
      while len > 7
        invariant 0 <= len <= bitOffset && gb.buffer == buf && gb.index == start + (bitOffset - len)
        invariant 8 * (q - lastSuperframeLen) == bitOffset - len && lastSuperframeLen <= q
        invariant IsBytes(lastSuperframe[..]) && Spelled(lastSuperframe[..], q, was + s[start..gb.index])
        decreases len
      {
        gb.StillPadded(start, bitOffset);
        AppendBits(q, 8, s, start, was);
        NoBits(0);
        assert was + s[start..gb.index] + [] == was + s[start..gb.index];
        q := q + 1;
        len := len - 8;
      }
      if len > 0 {
        gb.StillPadded(start, bitOffset);
        AppendBits(q, len, s, start, was);
        q := q + 1;
      } else {
        NoBits(0);
        assert was + s[start..gb.index] + [] == was + s[start..gb.index];
      }
      StillValid();
    }

    /** The byte of the superframe the reader is set to, and the reader's bit position in it. */
    function Base(): nat
      reads this`bitOffset
    {
      if useBitReservoir then Start() / 8 else 0
    }

    function At(): nat
      reads this`bitOffset, gb
    {
      8 * Base() + gb.index
    }

    ghost predicate InSuperframe(buf: seq<int>)
      reads this`bitOffset, gb
    {
      Base() <= |buf| && gb.buffer == buf[Base()..]
    }

    /** Where a frame is about to be decoded: its decoder sees all bits from here. */
    ghost function Ahead(): seq<int>
      requires IsBytes(gb.buffer)
      reads gb
    {
      From(ByteBits(gb.buffer), gb.index)
    }

    /** The bits due to a straddling frame: what is left of the superframe before, and the first
        `offset` payload bits of this one. */
    ghost function Due(tail: seq<int>, buf: seq<int>, offset: nat): seq<int>
      requires IsBytes(buf) && HeaderLen() + offset <= 8 * |buf|
    {
      tail + ByteBits(buf)[HeaderLen()..HeaderLen() + offset]
    }

    lemma DueMeans(tail: seq<int>, buf: seq<int>, offset: nat)
      requires IsBytes(buf) && HeaderLen() + offset <= 8 * |buf|
      ensures HeaderLen() + offset <= |ByteBits(buf)|
      ensures Due(tail, buf, offset) == tail + ByteBits(buf)[HeaderLen()..HeaderLen() + offset]
    {
    }

    /** Sets the reader to the carry-over with what belongs to it: the frame decoder then sees
        exactly the unused bits of the superframe before, followed by the first bitOffset
        payload bits of this one. */
    method SetToCarry(buf: seq<int>)
      requires Valid() && IsBytes(buf) && gb.buffer == buf && gb.index == HeaderLen() && Start() / 8 + 4 <= |buf|
      requires useBitReservoir && lastSuperframeLen > 0
      requires lastSuperframeLen + (bitOffset + 7) / 8 <= MAX_CODED_SUPERFRAME_SIZE
      modifies gb, lastSuperframe
      ensures Valid() && IsBytes(gb.buffer) && HeaderLen() + bitOffset <= 8 * |buf|
      ensures Due(old(Tail()), buf, bitOffset) <= Ahead()
    {
      hide *;
      ghost var tail, carry, n := Tail(), CarryBits(), lastSuperframeLen + (bitOffset + 7) / 8;
      TailMeans();
      ValidMeans();
      StartMeans();
      ghost var due := ByteBits(buf)[HeaderLen()..HeaderLen() + bitOffset];
      AppendCarry(buf);
      ValidMeans();
      gb.Init(lastSuperframe[..]);
      if lastBitoffset > 0 {
        gb.SkipBits(lastBitoffset);
      }
      SpelledPrefix(lastSuperframe[..], n, carry + due + ToBits(0, (8 - bitOffset % 8) % 8));
      AheadMeans();
      DueMeans(tail, buf, bitOffset);
      DueIsAhead(ByteBits(lastSuperframe[..]), carry, due, ToBits(0, (8 - bitOffset % 8) % 8), lastBitoffset);
    }

    lemma TailMeans()
      requires Valid()
      ensures Tail() == From(CarryBits(), lastBitoffset) && |CarryBits()| == 8 * lastSuperframeLen
    {
      hide ByteBits;
    }

    lemma StartMeans()
      requires useBitReservoir
      ensures Start() == HeaderLen() + bitOffset && Base() == Start() / 8
    {
    }

    lemma AheadMeans()
      requires IsBytes(gb.buffer)
      ensures Ahead() == From(ByteBits(gb.buffer), gb.index)
    {
    }

    /** Sets the reader to the first frame that lies in this superframe alone. */
    method SetToStart(buf: seq<int>)
      requires IsBytes(buf) && useBitReservoir && Start() / 8 <= |buf|
      modifies gb
      ensures InSuperframe(buf) && At() == Start() && IsBytes(gb.buffer)
      ensures Ahead() == From(ByteBits(buf), Start())
    {
      hide ByteBits, From;
      var pos := bitOffset + 4 + 4 + byteOffsetBits + 3;
      gb.Init(buf[pos / 8..]);
      var len := pos % 8;
      if len > 0 {
        gb.SkipBits(len);
      }
      Tails(buf, pos, len);
    }

    /** Saves what no frame has used: exactly the bits after the last decoded frame. */
    method SaveCarry(buf: seq<int>, bufSize: nat) returns (ok: bool)
      requires Valid() && IsBytes(buf) && bufSize <= |buf| && useBitReservoir
      modifies this`lastSuperframeLen, this`lastBitoffset, lastSuperframe
      ensures Valid() && ok == (0 <= bufSize - At() / 8 <= MAX_CODED_SUPERFRAME_SIZE)
      ensures ok ==> IsBytes(buf[..bufSize]) && Tail() == From(ByteBits(buf[..bufSize]), At())
      ensures ok ==> lastSuperframeLen == bufSize - At() / 8
      ensures !ok ==> lastSuperframeLen == old(lastSuperframeLen)
    {
      hide *;
      ValidMeans();
      PositionMeans();
      var pos := gb.index + (bitOffset + 4 + 4 + byteOffsetBits + 3) / 8 * 8;
      lastBitoffset := pos % 8;
      pos := pos / 8;
      var len := bufSize - pos;
      if len > MAX_CODED_SUPERFRAME_SIZE || len < 0 {
        StillValid();
        return false;
      }
      lastSuperframeLen := len;
      for i := 0 to len
        invariant IsBytes(lastSuperframe[..]) && lastSuperframe[..i] == buf[pos..pos + i]
        invariant lastSuperframeLen == len && lastBitoffset == old(At()) % 8
      {
        ByteAt(lastSuperframe[..], i, buf, pos + i);
        lastSuperframe[i] := buf[pos + i];
      }
      StillValid();
      TailMeans();
      BytesSlice(buf, 0, bufSize);
      assert buf[..bufSize] == buf[0..bufSize] && buf[..bufSize][pos..] == buf[pos..pos + len];
      CarryIs(buf[pos..pos + len]);
      Tails(buf[..bufSize], 8 * pos, lastBitoffset);
      return true;
    }

    lemma PositionMeans()
      requires useBitReservoir
      ensures At() == gb.index + (bitOffset + 4 + 4 + byteOffsetBits + 3) / 8 * 8
      ensures At() == 8 * (At() / 8) + At() % 8 && At() % 8 < 8
    {
    }

    /** The first frame of a superframe that has a carry-over straddles it and the one before. */
    predicate Straddles()
      reads this
    {
      useBitReservoir && currentFrame == 0 && lastSuperframeLen > 0
    }

    predicate CarryTooLong()
      reads this
    {
      lastSuperframeLen + (bitOffset + 7) / 8 > MAX_CODED_SUPERFRAME_SIZE
    }

    /** The reader is where wma_decode_superframe_init or the frame before left it. */
    ghost predicate Positioned(buf: seq<int>)
      reads this, gb
    {
      && (useBitReservoir ==> Start() / 8 + 4 <= |buf|)
      && if useBitReservoir && currentFrame == 0 then gb.buffer == buf && gb.index == HeaderLen() else InSuperframe(buf)
    }

    /** The bits from a position to the end of the superframe can be carried over. */
    predicate Saves(bufSize: nat, at: int) { 0 <= bufSize - at / 8 <= MAX_CODED_SUPERFRAME_SIZE }

    lemma SavesMeans(bufSize: nat, at: int)
      ensures Saves(bufSize, at) <==> 0 <= bufSize - at / 8 <= MAX_CODED_SUPERFRAME_SIZE
    {
    }

    /** When an error occurs the reservoir is reset. */
    method Fail()
      requires Valid()
      modifies this`lastSuperframeLen
      ensures Valid() && lastSuperframeLen == 0
    {
      lastSuperframeLen := 0;
    }

    lemma PositionedMeans(buf: seq<int>)
      ensures Positioned(buf) && useBitReservoir ==> Start() / 8 + 4 <= |buf|
      ensures useBitReservoir && currentFrame == 0 && Positioned(buf) ==> gb.buffer == buf && gb.index == HeaderLen()
      ensures !(useBitReservoir && currentFrame == 0) ==>
              (Positioned(buf) <==> (useBitReservoir ==> Start() / 8 + 4 <= |buf|) && InSuperframe(buf))
      ensures Straddles() <==> useBitReservoir && currentFrame == 0 && lastSuperframeLen > 0
      ensures CarryTooLong() <==> lastSuperframeLen + (bitOffset + 7) / 8 > MAX_CODED_SUPERFRAME_SIZE
    {
    }

    lemma AheadInSuperframe(buf: seq<int>)
      requires IsBytes(buf) && InSuperframe(buf)
      ensures IsBytes(gb.buffer) && Ahead() == From(ByteBits(buf), At())
    {
      hide ByteBits, From;
      Tails(buf, 8 * Base(), gb.index);
    }

    /** A frame decoder that lies in this superframe moves the reader on. */
    method SkipInSuperframe(buf: seq<int>, used: nat)
      requires InSuperframe(buf)
      modifies gb`index
      ensures InSuperframe(buf) && At() == old(At()) + used
    {
      gb.SkipBits(used);
    }

    lemma AtMeans()
      ensures At() == 8 * Base() + gb.index
    {
    }

    /** wma_decode_superframe_frame, for a frame whose decoder consumes `used` bits, or fails
        when that is negative. `seen` is what the frame decoder sees ahead of it. */
    method DecodeSuperframeFrame(buf: seq<int>, bufSize: nat, used: int) returns (ret: int, ghost seen: seq<int>)
      requires Valid() && IsBytes(buf) && bufSize <= |buf| && Positioned(buf)
      modifies this`lastSuperframeLen, this`lastBitoffset, this`currentFrame, this`resetBlockLengths, gb, lastSuperframe
      ensures Valid() && (ret == -1 || ret == frameLen)
      ensures ret == -1 ==> lastSuperframeLen == 0
      ensures old(Straddles()) && !old(CarryTooLong()) ==>
                HeaderLen() + bitOffset <= 8 * |buf| && Due(old(Tail()), buf, bitOffset) <= seen
      ensures !old(Straddles()) ==>
                seen == From(ByteBits(buf), if useBitReservoir && old(currentFrame) == 0 then Start() else old(At()))
      ensures ret != -1 ==> currentFrame == old(currentFrame) + 1 && InSuperframe(buf) && Positioned(buf)
      ensures ret != -1 ==> used >= 0 && At() == (if old(Straddles()) then Start()
                else if useBitReservoir && old(currentFrame) == 0 then Start() + used else old(At()) + used)
      ensures ret != -1 && useBitReservoir && currentFrame == nbFrames ==>
                IsBytes(buf[..bufSize]) && Tail() == From(ByteBits(buf[..bufSize]), At())
      ensures ret != -1 && !(useBitReservoir && currentFrame == nbFrames) ==>
                lastSuperframeLen == old(lastSuperframeLen) && (!old(Straddles()) ==> Tail() == old(Tail()))
      ensures ret != -1 && useBitReservoir && old(currentFrame) == 0 ==> resetBlockLengths
      ensures ret == -1 <==>
              || used < 0 || (old(Straddles()) && old(CarryTooLong()))
              || (useBitReservoir && old(currentFrame) + 1 == nbFrames
                  && !Saves(bufSize, if old(Straddles()) then Start()
                                     else (if old(currentFrame) == 0 then Start() else old(At())) + used))
    {
      hide *;
      var done := false;
      seen := [];
      PositionedMeans(buf);
      if useBitReservoir && currentFrame == 0 {
        if lastSuperframeLen > 0 {
          if lastSuperframeLen + (bitOffset + 7) / 8 > MAX_CODED_SUPERFRAME_SIZE {
            Fail();
            return -1, [];
          }
          SetToCarry(buf);
          seen := Ahead();
          if used < 0 {
            Fail();
            return -1, seen;
          }
          gb.SkipBits(used);
          done := true;
        }
        SetToStart(buf);
        resetBlockLengths := true;
      }
      if !done {
        AheadInSuperframe(buf);
        seen := Ahead();
        if used < 0 {
          Fail();
          return -1, seen;
        }
        AtMeans();
        SkipInSuperframe(buf, used);
      }
      currentFrame := currentFrame + 1;
      PositionedMeans(buf);
      SavesMeans(bufSize, At());
      if useBitReservoir && currentFrame == nbFrames {
        var ok := SaveCarry(buf, bufSize);
        if !ok {
          Fail();
          return -1, seen;
        }
      }
      PositionedMeans(buf);
      return frameLen, seen;
    }

    /** A whole superframe, as the player loops over it; uses[i] is what frame i consumes. With a
        carry-over as many frames are decoded as the header counts, and at least one; without one the
        first is lost. The straddling frame sees what is due to it, the frames after it are decoded
        back to back from their start, and exactly the bits after the last of them are carried over.
        When no frame is decoded, what follows the start is lost. It fails exactly if a frame does,
        or if what is to be carried over, from before or to the next superframe, is too long. */
    method DecodeSuperframe(buf: seq<int>, bufSize: nat, uses: seq<int>) returns (ok: bool, ghost seen: seq<seq<int>>)
      requires Valid() && IsBytes(buf) && 0 < bufSize && bufSize + 8 <= |buf| && useBitReservoir
      requires 8 <= HeaderLen() <= |ByteBits(buf)| && 16 <= |uses|
      requires (HeaderLen() + FromBits(ByteBits(buf)[8..HeaderLen()])) / 8 + 4 <= |buf|
      modifies this, gb, lastSuperframe
      ensures Valid() && (!ok ==> lastSuperframeLen == 0)
      ensures bitOffset == FromBits(ByteBits(buf)[8..HeaderLen()])
      ensures var c := FromBits(ByteBits(buf)[4..8]);
              ok ==> |seen| == if old(lastSuperframeLen) > 0 then Max(c, 1) else Max(c - 1, 0)
      ensures var c, carry := FromBits(ByteBits(buf)[4..8]), old(lastSuperframeLen);
              var first, n := if carry > 0 then 1 else 0, if carry > 0 then Max(c, 1) else Max(c - 1, 0);
              ok <==> && (carry > 0 ==> carry + (bitOffset + 7) / 8 <= MAX_CODED_SUPERFRAME_SIZE)
                      && (forall i :: 0 <= i < n ==> uses[i] >= 0)
                      && (n > 0 ==> Saves(bufSize, Start() + Total(uses, first, n)))
      ensures ok && old(lastSuperframeLen) > 0 ==>
                |seen| > 0 && HeaderLen() + bitOffset <= 8 * |buf| && Due(old(Tail()), buf, bitOffset) <= seen[0]
      ensures ok ==> var first := if old(lastSuperframeLen) > 0 then 1 else 0;
                forall i :: first <= i < |seen| ==> seen[i] == From(ByteBits(buf), Start() + Total(uses, first, i))
      ensures ok && seen != [] ==> var first := if old(lastSuperframeLen) > 0 then 1 else 0;
                IsBytes(buf[..bufSize])
                && Tail() == From(ByteBits(buf[..bufSize]), Start() + Total(uses, first, |seen|))
      ensures ok && seen == [] ==> lastSuperframeLen == 0 && IsBytes(buf[..bufSize])
      ensures ok && seen == [] ==> (Tail() == From(ByteBits(buf[..bufSize]), Start()) <==> 8 * bufSize <= Start())
    {
      hide *;
      ghost var carry := lastSuperframeLen;
      ghost var first, tail := if carry > 0 then 1 else 0, Tail();
      ghost var c := FromBits(ByteBits(buf)[4..8]);
      ghost var n := if carry > 0 then Max(c, 1) else Max(c - 1, 0);
      var ret := Init(buf, bufSize);
      ok, seen := true, [];
      StartMeans();
      PositionedMeans(buf);
      IsBitString(buf);
      FramesMeans(ByteBits(buf)[4..8]);
      IsPositioned(buf);
      while currentFrame < nbFrames
        invariant Valid() && Positioned(buf) && useBitReservoir && |seen| == currentFrame
        invariant bitOffset == FromBits(ByteBits(buf)[8..HeaderLen()]) && Max(nbFrames, 0) == n <= 16
        invariant currentFrame <= n && (carry > 0 ==> n > 0) && (n > 0 ==> nbFrames == n) && (n == 0 ==> nbFrames <= 0)
        invariant forall i :: 0 <= i < currentFrame ==> uses[i] >= 0
        invariant currentFrame > 0 && carry > 0 ==> carry + (bitOffset + 7) / 8 <= MAX_CODED_SUPERFRAME_SIZE
        invariant currentFrame > 0 && currentFrame == n ==> Saves(bufSize, At())
        invariant currentFrame == 0 ==> lastSuperframeLen == carry && Tail() == tail
        invariant 0 < currentFrame < nbFrames ==> InSuperframe(buf)
        invariant currentFrame > 0 ==> At() == Start() + Total(uses, first, currentFrame)
        invariant currentFrame > 0 && carry > 0 ==>
                  HeaderLen() + bitOffset <= 8 * |buf| && Due(tail, buf, bitOffset) <= seen[0]
        invariant forall i :: first <= i < currentFrame ==>
                  seen[i] == From(ByteBits(buf), Start() + Total(uses, first, i))
        invariant currentFrame > 0 && currentFrame == nbFrames ==>
                  IsBytes(buf[..bufSize]) && Tail() == From(ByteBits(buf[..bufSize]), At())
        decreases nbFrames - currentFrame
      {
        PositionedMeans(buf);
        TotalStep(uses, first, currentFrame);
        var r;
        ghost var ahead;
        r, ahead := DecodeSuperframeFrame(buf, bufSize, uses[currentFrame]);
        if r == -1 {
          return false, seen;
        }
        seen := seen + [ahead];
      }
      if nbFrames <= 0 {
        NothingSaved(buf, bufSize);
      }
    }

    /** Without a bit reservoir a superframe is one frame, which sees all of it. */
    method DecodeAlone(buf: seq<int>, bufSize: nat, used: int) returns (ok: bool, ghost seen: seq<int>)
      requires Valid() && IsBytes(buf) && 0 < bufSize && bufSize + 8 <= |buf| && !useBitReservoir
      modifies this, gb, lastSuperframe
      ensures Valid() && (ok <==> used >= 0) && seen == ByteBits(buf)
      ensures lastSuperframeLen == if ok then old(lastSuperframeLen) else 0
    {
      hide *;
      var ret := Init(buf, bufSize);
      StartsAlone(buf);
      PositionedMeans(buf);
      ret, seen := DecodeSuperframeFrame(buf, bufSize, used);
      ok := ret != -1;
    }

    lemma StartsAlone(buf: seq<int>)
      requires IsBytes(buf) && !useBitReservoir && gb.buffer == buf && gb.index == 0
      ensures InSuperframe(buf) && At() == 0 && From(ByteBits(buf), 0) == ByteBits(buf)
    {
      hide ByteBits;
      assert buf[0..] == buf;
    }

    lemma EmptyTail()
      requires Valid() && lastSuperframeLen == 0
      ensures Tail() == []
    {
    }

    /** Nothing is carried over that should have been unless nothing follows the start. */
    lemma NothingSaved(buf: seq<int>, bufSize: nat)
      requires Valid() && IsBytes(buf) && bufSize <= |buf| && lastSuperframeLen == 0
      ensures IsBytes(buf[..bufSize])
      ensures Tail() == From(ByteBits(buf[..bufSize]), Start()) <==> 8 * bufSize <= Start()
    {
      ByteBitsLength(buf[..bufSize]);
    }

    lemma FramesMeans(s: seq<int>)
      requires IsBits(s) && |s| == 4
      ensures var n, c := Frames(FromBits(s)), FromBits(s);
              && Max(n, 0) == (if lastSuperframeLen > 0 then Max(c, 1) else Max(c - 1, 0)) <= 16
              && (Max(n, 0) > 0 ==> n == Max(n, 0)) && (Max(n, 0) <= 0 ==> n <= 0) && (lastSuperframeLen > 0 ==> n > 0)
    {
      Pow2Values();
      hide FromBits;
    }

    lemma IsPositioned(buf: seq<int>)
      requires Start() / 8 + 4 <= |buf| && useBitReservoir && currentFrame == 0 && gb.buffer == buf
      requires gb.index == HeaderLen()
      ensures Positioned(buf)
    {
    }

    lemma CarryIs(b: seq<int>)
      requires Valid() && lastSuperframe[..lastSuperframeLen] == b
      ensures IsBytes(b) && CarryBits() == ByteBits(b)
    {
      hide ByteBits;
      ValidCarry();
    }
  }

  lemma ByteAt(t: seq<int>, i: nat, b: seq<int>, j: nat)
    requires IsBytes(t) && IsBytes(b) && i < |t| && j < |b|
    ensures 0 <= b[j] < 256 && IsBytes(t[i := b[j]])
  {
  }

  lemma SpelledPrefix(bytes: seq<int>, q: nat, bits: seq<int>)
    requires Spelled(bytes, q, bits)
    ensures IsBytes(bytes) && bits <= ByteBits(bytes)
  {
    hide *;
    SpelledMeans(bytes, q, bits);
    BytesSlice(bytes, 0, q);
    ByteBitsSlice(bytes, 0, q);
    assert bytes[0..q] == bytes[..q];
    ByteBitsLength(bytes);
    ByteBitsLength(bytes[0..q]);
  }

  lemma SpelledMeans(bytes: seq<int>, q: nat, bits: seq<int>)
    requires Spelled(bytes, q, bits)
    ensures q <= |bytes| && IsBytes(bytes) && IsBytes(bytes[..q]) && ByteBits(bytes[..q]) == bits
  {
    hide ByteBits;
  }

  lemma DueIsAhead(all: seq<int>, carry: seq<int>, due: seq<int>, pad: seq<int>, skip: nat)
    requires carry + due + pad <= all && skip <= |carry|
    ensures From(carry, skip) + due <= From(all, skip)
  {
  }

  lemma {:induction false} ZeroBits(n: nat)
    ensures forall k :: 0 <= k < n ==> ToBits(0, n)[k] == 0
  {
    if n > 0 {
      ZeroBits(n - 1);
    }
  }

  lemma {:induction false} ZeroBytes(b: seq<int>)
    requires forall k :: 0 <= k < |b| ==> b[k] == 0
    ensures IsBytes(b) && forall k :: 0 <= k < 8 * |b| ==> ByteBits(b)[k] == 0
  {
    hide ToBits;
    if b != [] {
      ZeroBytes(b[..|b| - 1]);
      ZeroBits(8);
    }
  }

  lemma {:induction false} ZeroValue(s: seq<int>)
    requires forall k :: 0 <= k < |s| ==> s[k] == 0
    ensures FromBits(s) == 0
  {
    if s != [] {
      ZeroValue(s[..|s| - 1]);
    }
  }

  /** A new decoder's first superframe whose header counts no frame: ten bytes, of which nothing is
      carried over although all but the header could be. */
  method TailIsLost() returns (d: SuperframeDecoder, buf: seq<int>)
    ensures d.Valid() && d.Tail() == [] && |buf| >= 10 && IsBytes(buf[..10])
    ensures |From(ByteBits(buf[..10]), d.Start())| == 64
  {
    hide ByteBits, FromBits, ToBits;
    buf := seq(40, i => 0);
    ZeroBytes(buf);
    ZeroValue(ByteBits(buf)[4..8]);
    ZeroValue(ByteBits(buf)[8..16]);
    d := new SuperframeDecoder(true, 5, 2048);
    ghost var seen;
    var ok;
    ok, seen := d.DecodeSuperframe(buf, 10, seq(16, i => 0));
    d.EmptyTail();
    ByteBitsLength(buf[..10]);
  }
}
