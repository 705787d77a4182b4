/** The bit writer and the bit reader of libwma over byte buffers, and their round trip. */
module BitStream {
  import opened Bits

  // ----- what the reader sees -----

  /** The value of the n bits at index: four bytes are loaded, shifted left past the bits
      already read and cut to 32 bits, then shifted right. */
  function Show(b: seq<int>, index: nat, n: nat): nat
    requires IsBytes(b) && index / 8 + 4 <= |b| && 1 <= n <= 25
  {
    Shr(Low(Shl(Word(b[index / 8..index / 8 + 4]), index % 8), 32), 32 - n)
  }

  lemma MulLess(z: nat, a: nat, b: nat)
    requires z < a && b > 0
    ensures z * b < a * b
  {
  }

  lemma MulAssoc(a: int, b: int, c: int)
    ensures a * b * c == a * (b * c)
  {
  }

  lemma Distribute(a: int, b: int, c: int)
    ensures (a + b) * c == a * c + b * c
  {
  }

  lemma WindowProduct(x: nat, y: nat, z: nat, pn: nat, pm: nat, pr: nat, d: nat)
    requires d == pm * pr
    ensures ((x * pn + y) * pm + z) * pr == x * (pn * d) + (y * d + z * pr)
  {
    Distribute((x * pn + y) * pm, z, pr);
    MulAssoc(x * pn + y, pm, pr);
    Distribute(x * pn, y, d);
    MulAssoc(x, pn, d);
  }

  lemma WindowLow(y: nat, pn: nat, d: nat, low: nat)
    requires y < pn && low < d
    ensures y * d + low < pn * d
  {
    Distribute(y, 1, d);
    MulAtMost(y + 1, pn, d);
  }

  lemma MulAtMost(a: nat, b: nat, c: nat)
    requires a <= b
    ensures a * c <= b * c
  {
  }

  lemma Window(w: nat, x: nat, y: nat, z: nat, r: nat, n: nat)
    requires r + n <= 32 && y < Pow2(n) && z < Pow2(32 - r - n)
    requires w == (x * Pow2(n) + y) * Pow2(32 - r - n) + z
    ensures Shr(Low(w * Pow2(r), 32), 32 - n) == y
  {
    hide Shr, Low, Pow2;
    var m := 32 - r - n;
    Pow2Add(m, r);
    Pow2Add(n, m + r);
    var d := Pow2(m + r);
    MulLess(z, Pow2(m), Pow2(r));
    WindowProduct(x, y, z, Pow2(n), Pow2(m), Pow2(r), d);
    assert n + (m + r) == 32 && (m + r) == 32 - n;
    assert w * Pow2(r) == x * Pow2(32) + (y * d + z * Pow2(r));
    WindowLow(y, Pow2(n), d, z * Pow2(r));
    ShrUnique(w * Pow2(r), 32, x, y * d + z * Pow2(r));
    ShrUnique(y * d + z * Pow2(r), 32 - n, y, z * Pow2(r));
  }

  /** Thirty-two bits in three parts. */
  lemma ThreeParts(s: seq<int>, r: nat, n: nat)
    requires IsBits(s) && |s| == 32 && r + n <= 32
    ensures FromBits(s) == (FromBits(s[..r]) * Pow2(n) + FromBits(s[r..r + n])) * Pow2(32 - r - n)
            + FromBits(s[r + n..])
  {
    hide FromBits;
    var x, y, z := s[..r], s[r..r + n], s[r + n..];
    assert s == x + y + z;
    FromBitsAppend(x, y);
    FromBitsAppend(x + y, z);
  }

  lemma ShowWord(s: seq<int>, w: nat, r: nat, n: nat)
    requires IsBits(s) && |s| == 32 && FromBits(s) == w && r < 8 && 1 <= n <= 25 && r + n <= 32
    ensures Shr(Low(Shl(w, r), 32), 32 - n) == FromBits(s[r..r + n])
  {
    hide Shr, Low, Pow2, FromBits;
    ThreeParts(s, r, n);
    var x, y, z := FromBits(s[..r]), FromBits(s[r..r + n]), FromBits(s[r + n..]);
    Window(w, x, y, z, r, n);
  }

  lemma SliceOfSlice(s: seq<int>, a: nat, r: nat, n: nat)
    requires a + 32 <= |s| && r + n <= 32
    ensures s[a..a + 32][r..r + n] == s[a + r..a + r + n]
  {
    var u, v := s[a..a + 32][r..r + n], s[a + r..a + r + n];
    assert |u| == |v|;
    assert forall i :: 0 <= i < |u| ==> u[i] == v[i];
  }

  lemma ShowAt(b: seq<int>, k: nat, r: nat, n: nat)
    requires IsBytes(b) && k + 4 <= |b| && r < 8 && 1 <= n <= 25
    ensures IsBytes(b[k..k + 4])
    ensures Shr(Low(Shl(Word(b[k..k + 4]), r), 32), 32 - n) == FromBits(ByteBits(b)[8 * k + r..8 * k + r + n])
  {
    hide *;
    var w := b[k..k + 4];
    BytesSlice(b, k, k + 4);
    WordIsItsBits(w);
    ShowWord(ByteBits(w), Word(w), r, n);
    ByteBitsSlice(b, k, k + 4);
    var s := ByteBits(b);
    assert s[8 * k..8 * k + 32] == ByteBits(w);
    SliceOfSlice(s, 8 * k, r, n);
  }

  lemma ShowSplit(b: seq<int>, index: nat, n: nat)
    requires IsBytes(b) && index / 8 + 4 <= |b| && 1 <= n <= 25
    ensures index == 8 * (index / 8) + index % 8
    ensures Show(b, index, n) == Shr(Low(Shl(Word(b[index / 8..index / 8 + 4]), index % 8), 32), 32 - n)
  {
    hide Shr, Low, Shl, Word;
  }

  /** SHOW_UBITS shows the bits of the stream. */
  lemma ShowIsBits(b: seq<int>, index: nat, n: nat)
    requires IsBytes(b) && index / 8 + 4 <= |b| && 1 <= n <= 25
    ensures index + n <= 8 * |b| && Show(b, index, n) == FromBits(ByteBits(b)[index..index + n])
  {
    hide *;
    ShowSplit(b, index, n);
    ShowAt(b, index / 8, index % 8, n);
  }

  /** GetBitContext: the bytes behind its read-only pointer and the number of bits read. */
  class GetBitContext {
    var buffer: seq<int>
    var index: nat

    constructor (b: seq<int>)
      ensures buffer == b && index == 0
    {
      buffer, index := b, 0;
    }

    /** init_get_bits */
    method Init(b: seq<int>)
      modifies this
      ensures buffer == b && index == 0
    {
      buffer, index := b, 0;
    }

    /** The buffer is padded: the four bytes at any position up to `bits` can be loaded. */
    predicate Padded(bits: nat)
      reads this
    {
      IsBytes(buffer) && (index + bits) / 8 + 4 <= |buffer|
    }

    method GetBits(n: nat) returns (v: int)
      requires 1 <= n <= 25 && Padded(0)
      modifies this`index
      ensures index == old(index) + n <= 8 * |buffer|
      ensures v == FromBits(ByteBits(buffer)[old(index)..index]) && v >= 0
    {
      v := Show(buffer, index, n);
      ShowIsBits(buffer, index, n);
      index := index + n;
    }

    lemma PaddedMeans(bits: nat)
      requires Padded(bits)
      ensures IsBytes(buffer) && (index + bits) / 8 + 4 <= |buffer|
    {
    }

    lemma StillPadded(start: nat, bits: nat)
      requires IsBytes(buffer) && (start + bits) / 8 + 4 <= |buffer| && start <= index <= start + bits
      ensures Padded(0)
    {
    }

    method SkipBits(n: nat)
      modifies this`index
      ensures index == old(index) + n
    {
      index := index + n;
    }

    /** Widths above 17 are read as 16 bits and the rest. */
    method GetBitsLong(n: nat) returns (v: int)
      requires 1 <= n <= 31 && Padded(16)
      modifies this`index
      ensures index == old(index) + n <= 8 * |buffer|
      ensures v == FromBits(ByteBits(buffer)[old(index)..index])
    {
      hide *;
      ghost var start := index;
      PaddedMeans(16);
      StillPadded(start, 16);
      if n <= 17 {
        v := GetBits(n);
      } else {
        ghost var s, i := ByteBits(buffer), index;
        var high := GetBits(16);
        StillPadded(start, 16);
        var low := GetBits(n - 16);
        TwoReads(s, i, n - 16);
        v := Shl(high, n - 16) + low;
      }
    }
  }

  /** Sixteen bits and then n more make the bits read together. */
  lemma TwoReads(s: seq<int>, i: nat, n: nat)
    requires IsBits(s) && i + 16 + n <= |s|
    ensures 0 <= FromBits(s[i..i + 16])
    ensures Shl(FromBits(s[i..i + 16]), n) + FromBits(s[i + 16..i + 16 + n]) == FromBits(s[i..i + 16 + n])
  {
    hide FromBits, Pow2;
    FromBitsAppend(s[i..i + 16], s[i + 16..i + 16 + n]);
    assert s[i..i + 16] + s[i + 16..i + 16 + n] == s[i..i + 16 + n];
    assert IsBits(s[i..i + 16]);
  }

  // ----- the writer -----

  /** PutBitContext: full words are in the buffer, up to 31 bits are still in bitBuf, whose
      higher bits are stale. */
  class PutBitContext {
    const buffer: array<int>
    var bufPtr: nat
    var bitBuf: nat
    var bitLeft: nat

    ghost predicate Valid()
      reads this, buffer
    {
      && bufPtr <= buffer.Length && IsBytes(buffer[..bufPtr])
      && 1 <= bitLeft <= 32 && bitBuf < 0x1_0000_0000
    }

    /** The bits written so far. */
    ghost function Written(): seq<int>
      requires Valid()
      reads this, buffer
    {
      ByteBits(buffer[..bufPtr]) + ToBits(bitBuf, 32 - bitLeft)
    }

    constructor (b: array<int>)
      ensures buffer == b && Valid() && Written() == [] && bufPtr == 0 && bitLeft == 32
    {
      buffer := b;
      bufPtr, bitBuf, bitLeft := 0, 0, 32;
    }

    /** put_bits_count */
    function Count(): (n: int)
      requires Valid()
      reads this, buffer
      ensures n == |Written()|
    {
      bufPtr * 8 + 32 - bitLeft
    }

    method StoreByte(v: int)
      requires Valid() && bufPtr < buffer.Length && 0 <= v < 256
      modifies this`bufPtr, buffer
      ensures Valid() && bufPtr == old(bufPtr) + 1
      ensures buffer[..bufPtr] == old(buffer[..bufPtr]) + [v]
      ensures forall i :: bufPtr <= i < buffer.Length ==> buffer[i] == old(buffer[i])
    {
      buffer[bufPtr] := v;
      bufPtr := bufPtr + 1;
    }

    /** Stores a word, most significant byte first. */
    method StoreWord(w: nat)
      requires Valid() && bufPtr + 4 <= buffer.Length && w < 0x1_0000_0000
      modifies this`bufPtr, buffer
      ensures Valid() && bufPtr == old(bufPtr) + 4
      ensures ByteBits(buffer[..bufPtr]) == old(ByteBits(buffer[..bufPtr])) + ToBits(w, 32)
      ensures forall i :: bufPtr <= i < buffer.Length ==> buffer[i] == old(buffer[i])
    {
      ghost var b := buffer[..bufPtr];
      var s := BytesOf(w);
      StoreByte(s[0]);
      StoreByte(s[1]);
      StoreByte(s[2]);
      StoreByte(s[3]);
      assert buffer[..bufPtr] == b + s;
      ByteBitsAppend(b, s);
      WordBytes(w);
    }

    /** put_bits */
    method PutBits(n: nat, value: nat)
      requires Valid() && 1 <= n <= 31 && value < Pow2(n)
      requires n >= bitLeft ==> bufPtr + 4 <= buffer.Length
      modifies this`bufPtr, this`bitBuf, this`bitLeft, buffer
      ensures Valid() && Written() == old(Written()) + ToBits(value, n)
      ensures old(bufPtr) <= bufPtr <= old(bufPtr) + 4
      ensures forall i :: bufPtr <= i < buffer.Length ==> buffer[i] == old(buffer[i])
    {
      hide ToBits, ByteBits, Shr, Low, Shl, Pow2;
      Pow2Values();
      Pow2Mono(n, 32);
      ghost var s, pending := ByteBits(buffer[..bufPtr]), ToBits(bitBuf, 32 - bitLeft);
      if n < bitLeft {
        ShiftIn(bitBuf, 32 - bitLeft, value, n);
        bitBuf := Low(Shl(bitBuf, n) + value, 32);
        bitLeft := bitLeft - n;
        assert s + pending + ToBits(value, n) == s + (pending + ToBits(value, n));
      } else {
        var left := bitLeft;
        FillWord(bitBuf, left, value, n);
        ghost var first := ToBits(Shr(value, n - left), left);
        StoreWord(Low(Shl(bitBuf, left) + Shr(value, n - left), 32));
        bitLeft := bitLeft + 32 - n;
        bitBuf := value;
        ToBitsSplit(value, left, n - left);
        assert s + (pending + first) + ToBits(value, n - left) == s + pending + (first + ToBits(value, n - left));
      }
    }

    /** One byte of the flush: the register's high byte is stored, and zeros come in at its end. */
    method FlushByte()
      requires bufPtr < buffer.Length && IsBytes(buffer[..bufPtr]) && bitBuf < 0x1_0000_0000
      modifies this`bufPtr, this`bitBuf, this`bitLeft, buffer
      ensures bufPtr == old(bufPtr) + 1 && bitLeft == old(bitLeft) + 8
      ensures IsBytes(buffer[..bufPtr]) && bitBuf < 0x1_0000_0000
      ensures ByteBits(buffer[..bufPtr]) + ToBits(bitBuf, 32)
           == old(ByteBits(buffer[..bufPtr]) + ToBits(bitBuf, 32)) + ToBits(0, 8)
      ensures forall i :: bufPtr <= i < buffer.Length ==> buffer[i] == old(buffer[i])
    {
      hide *;
      ghost var b, top, rest := buffer[..bufPtr], ToBits(Shr(bitBuf, 24), 8), ToBits(bitBuf, 24);
      Pow2Values();
      TopByte(bitBuf);
      buffer[bufPtr] := Shr(bitBuf, 24);
      bufPtr := bufPtr + 1;
      assert buffer[..bufPtr] == b + [buffer[bufPtr - 1]];
      AppendByte(b, buffer[bufPtr - 1]);
      ToBitsSplit(bitBuf, 8, 24);
      ShiftInZeros(bitBuf, 24, 8);
      bitBuf := Low(Shl(bitBuf, 8), 32);
      Associative(ByteBits(b), top, rest);
      Associative(ByteBits(b), top, rest + ToBits(0, 8));
      Associative(top, rest, ToBits(0, 8));
      Associative(ByteBits(b), top + rest, ToBits(0, 8));
      bitLeft := bitLeft + 8;
    }

    /** flush_put_bits: pads with zeros to the next byte. */
    method FlushPutBits()
      requires Valid() && bufPtr + 4 <= buffer.Length
      modifies this`bufPtr, this`bitBuf, this`bitLeft, buffer
      ensures Valid() && bitLeft == 32 && old(bufPtr) <= bufPtr <= old(bufPtr) + 4
      ensures Written() == ByteBits(buffer[..bufPtr])
      ensures |Written()| - |old(Written())| < 8
      ensures exists pad: nat :: Written() == old(Written()) + ToBits(0, pad)
      ensures forall i :: bufPtr <= i < buffer.Length ==> buffer[i] == old(buffer[i])
    {
      hide *;
      ghost var was, left := WrittenParts(), bitLeft;
      bitBuf := Low(Shl(bitBuf, bitLeft), 32);
      Pow2Values();
      ghost var total := ByteBits(buffer[..bufPtr]) + ToBits(bitBuf, 32);
      assert total == was + ToBits(0, left) by {
        ShiftInZeros(old(bitBuf), 32 - left, left);
        Associative(ByteBits(buffer[..bufPtr]), ToBits(old(bitBuf), 32 - left), ToBits(0, left));
      }
      ghost var j: nat := 0;
      assert total + ToBits(0, 0) == total by { NoBits(0); }
      while bitLeft < 32
        invariant bitLeft == left + 8 * j && bufPtr == old(bufPtr) + j && j <= 4 && bitLeft <= 39
        invariant bitBuf < 0x1_0000_0000
        invariant bufPtr <= buffer.Length && IsBytes(buffer[..bufPtr])
        invariant ByteBits(buffer[..bufPtr]) + ToBits(bitBuf, 32) == total + ToBits(0, 8 * j)
        invariant forall i :: bufPtr <= i < buffer.Length ==> buffer[i] == old(buffer[i])
      {
        FlushByte();
        ZerosAppend(8 * j, 8);
        Associative(total, ToBits(0, 8 * j), ToBits(0, 8));
        j := j + 1;
      }
      ghost var now := ByteBits(buffer[..bufPtr]);
      ZerosAppend(left, 8 * j);
      Associative(was, ToBits(0, left), ToBits(0, 8 * j));
      CutZeros(now, ToBits(bitBuf, 32), was, left + 8 * j);
      bitLeft := 32;
      bitBuf := 0;
      NothingPending();
    }

    ghost function WrittenParts(): (s: seq<int>)
      requires Valid()
      reads this, buffer
      ensures s == Written() && |s| == 8 * bufPtr + (32 - bitLeft) && IsBytes(buffer[..bufPtr])
      ensures 1 <= bitLeft <= 32 && bitBuf < 0x1_0000_0000
      ensures s == ByteBits(buffer[..bufPtr]) + ToBits(bitBuf, 32 - bitLeft)
    {
      Written()
    }

    lemma NothingPending()
      requires bufPtr <= buffer.Length && IsBytes(buffer[..bufPtr]) && bitLeft == 32 && bitBuf == 0
      ensures Valid() && Written() == ByteBits(buffer[..bufPtr])
    {
      assert ByteBits(buffer[..bufPtr]) + [] == ByteBits(buffer[..bufPtr]);
    }
  }

  lemma ShiftInZeros(buf: nat, k: nat, n: nat)
    requires k + n <= 32
    ensures ToBits(Low(Shl(buf, n), 32), k + n) == ToBits(buf, k) + ToBits(0, n)
  {
    ShiftIn(buf, k, 0, n);
  }

  lemma NoBits(v: nat)
    ensures ToBits(v, 0) == []
  {
  }

  lemma TopByte(w: nat)
    requires w < 0x1_0000_0000
    ensures Shr(w, 24) < 256
  {
    Pow2Values();
  }

  lemma AppendByte(b: seq<int>, x: int)
    requires IsBytes(b) && 0 <= x < 256
    ensures IsBytes(b + [x]) && ByteBits(b + [x]) == ByteBits(b) + ToBits(x, 8)
  {
    ByteBitsAppend(b, [x]);
    ByteBitsOne(x);
  }

  lemma ZerosAppend(a: nat, b: nat)
    ensures ToBits(0, a + b) == ToBits(0, a) + ToBits(0, b)
  {
    ToBitsSplit(0, a, b);
    assert Shr(0, b) == 0;
  }

  lemma ZerosPrefix(n: nat, k: nat)
    requires k <= n
    ensures ToBits(0, n)[..k] == ToBits(0, k)
  {
    ZerosAppend(k, n - k);
  }

  /** Cutting zeros off the end of a padded string. */
  lemma CutZeros(now: seq<int>, rest: seq<int>, was: seq<int>, zeros: nat)
    requires now + rest == was + ToBits(0, zeros) && |was| <= |now|
    ensures now == was + ToBits(0, |now| - |was|)
  {
    ZerosPrefix(zeros, |now| - |was|);
    assert now == (now + rest)[..|now|];
    assert (was + ToBits(0, zeros))[..|now|] == was + ToBits(0, zeros)[..|now| - |was|];
  }

  /** The four bytes of a word. */
  function BytesOf(w: nat): (s: seq<int>)
    requires w < 0x1_0000_0000
    ensures |s| == 4 && IsBytes(s) && Word(s) == w
  {
    var s := [w / 0x100_0000, w / 0x1_0000 % 0x100, w / 0x100 % 0x100, w % 0x100];
    assert w / 0x1_0000 == w / 0x100_0000 * 0x100 + w / 0x1_0000 % 0x100;
    assert w / 0x100 == w / 0x1_0000 * 0x100 + w / 0x100 % 0x100;
    s
  }

  lemma WordBytes(w: nat)
    requires w < 0x1_0000_0000
    ensures ByteBits(BytesOf(w)) == ToBits(w, 32)
  {
    hide ByteBits, ToBits, FromBits;
    Pow2Values();
    WordIsItsBits(BytesOf(w));
    FromToBits(w, 32);
    ShrUnique(w, 32, 0, w);
    FromBitsInjective(ByteBits(BytesOf(w)), ToBits(w, 32));
  }

  /** Shifting n new bits in below k pending ones; what overflows the word is stale. */
  lemma ShiftIn(buf: nat, k: nat, value: nat, n: nat)
    requires k + n <= 32 && value < Pow2(n)
    ensures ToBits(Low(Shl(buf, n) + value, 32), k + n) == ToBits(buf, k) + ToBits(value, n)
  {
    var v := buf * Pow2(n) + value;
    ShrUnique(v, n, buf, value);
    ToBitsSplit(v, k, n);
    ToBitsLow(v, value, n) by {
      assert Low(value, n) == value by { ShrUnique(value, n, 0, value); }
    }
    LowLow(v, 32, k + n);
    ToBitsLow(Low(v, 32), v, k + n);
  }

  lemma LowLow(v: nat, a: nat, b: nat)
    requires b <= a
    ensures Low(Low(v, a), b) == Low(v, b)
  {
    var q, r := Shr(v, a), Low(v, a);
    var c := Shr(r, b);
    ShrLow(v, a);
    ShrLow(r, b);
    Pow2Add(a - b, b);
    hide Shr, Low, Pow2;
    LowLowSum(q, c, Pow2(a - b), Pow2(b), Low(r, b));
    ShrUnique(v, b, q * Pow2(a - b) + c, Low(r, b));
  }

  lemma LowLowSum(q: nat, c: nat, x: nat, y: nat, r: nat)
    ensures q * (x * y) + (c * y + r) == (q * x + c) * y + r
  {
    assert q * (x * y) == q * x * y;
  }

  /** The high bits of a value of n bits. */
  lemma HighBits(value: nat, left: nat, n: nat)
    requires left <= n && value < Pow2(n)
    ensures Shr(value, n - left) < Pow2(left)
  {
    var high := Shr(value, n - left);
    Pow2Add(left, n - left);
    ShrLow(value, n - left);
    hide Shr, Low, Pow2;
    HighBound(high, Pow2(left), Pow2(n - left), value);
  }

  lemma HighBound(h: nat, a: nat, b: nat, v: nat)
    requires v < a * b && h * b <= v
    ensures h < a
  {
    if h >= a {
      MulAtMost(a, h, b);
    }
  }

  /** The pending bits and the first bits of the value fill a word exactly. */
  lemma FillWord(buf: nat, left: nat, value: nat, n: nat)
    requires left <= n && left <= 32 && value < Pow2(n)
    ensures ToBits(Low(Shl(buf, left) + Shr(value, n - left), 32), 32)
         == ToBits(buf, 32 - left) + ToBits(Shr(value, n - left), left)
  {
    HighBits(value, left, n);
    ShiftIn(buf, 32 - left, Shr(value, n - left), left);
  }

  // ----- fields -----

  datatype Field = Field(width: nat, value: nat)

  predicate FieldOk(f: Field) { 1 <= f.width <= 31 && f.value < Pow2(f.width) }

  function FieldsBits(fs: seq<Field>): (s: seq<int>)
    ensures IsBits(s)
  {
    if fs == [] then [] else FieldsBits(fs[..|fs| - 1]) + ToBits(fs[|fs| - 1].value, fs[|fs| - 1].width)
  }

  lemma FieldsBitsStep(fs: seq<Field>, i: nat)
    requires i < |fs|
    ensures FieldsBits(fs[..i + 1]) == FieldsBits(fs[..i]) + ToBits(fs[i].value, fs[i].width)
  {
    assert fs[..i + 1][..i] == fs[..i];
  }

  lemma {:induction false} FieldsBitsPrefix(fs: seq<Field>, i: nat)
    requires i <= |fs|
    ensures FieldsBits(fs[..i]) <= FieldsBits(fs)
    decreases |fs| - i
  {
    if i < |fs| {
      FieldsBitsStep(fs, i);
      FieldsBitsPrefix(fs, i + 1);
    } else {
      assert fs[..i] == fs;
    }
  }

  lemma ValueOfField(f: Field)
    requires FieldOk(f)
    ensures FromBits(ToBits(f.value, f.width)) == f.value
  {
    FromToBits(f.value, f.width);
    ShrUnique(f.value, f.width, 0, f.value);
  }

  /** The bits of a field are where the widths before it say. */
  lemma FieldBitsAt(fs: seq<Field>, i: nat, s: seq<int>)
    requires i < |fs| && FieldOk(fs[i]) && FieldsBits(fs) <= s
    ensures var at := |FieldsBits(fs[..i])|;
            && at + fs[i].width == |FieldsBits(fs[..i + 1])| <= |s|
            && FromBits(s[at..at + fs[i].width]) == fs[i].value
  {
    hide *;
    var at := |FieldsBits(fs[..i])|;
    FieldsBitsPrefix(fs, i + 1);
    FieldsBitsStep(fs, i);
    assert s[at..at + fs[i].width] == ToBits(fs[i].value, fs[i].width);
    ValueOfField(fs[i]);
  }

  method WriteFields(w: PutBitContext, fs: seq<Field>)
    requires w.Valid() && w.Written() == [] && w.bufPtr == 0 && 4 * |fs| + 4 <= w.buffer.Length && IsBytes(w.buffer[..])
    requires forall i :: 0 <= i < |fs| ==> FieldOk(fs[i])
    modifies w, w.buffer
    ensures IsBytes(w.buffer[..]) && FieldsBits(fs) <= ByteBits(w.buffer[..])
    ensures |FieldsBits(fs)| <= 8 * w.bufPtr <= 8 * (4 * |fs| + 4)
  {
    hide *;
    NoFields();
    assert fs[..0] == [];
    for i := 0 to |fs|
      invariant w.Valid() && w.Written() == FieldsBits(fs[..i]) && w.bufPtr <= 4 * i
      invariant forall k :: w.bufPtr <= k < w.buffer.Length ==> w.buffer[k] == old(w.buffer[k])
    {
      FieldRange(fs[i]);
      w.PutBits(fs[i].width, fs[i].value);
      FieldsBitsStep(fs, i);
    }
    assert fs[..|fs|] == fs;
    w.FlushPutBits();
    ghost var parts := w.WrittenParts();
    BytesFrom(w.buffer[..], old(w.buffer[..]), w.bufPtr);
    assert w.buffer[..][..w.bufPtr] == w.buffer[..w.bufPtr];
  }

  lemma NoFields()
    ensures FieldsBits([]) == []
  {
  }

  lemma FieldRange(f: Field)
    requires FieldOk(f)
    ensures 1 <= f.width <= 31 && f.value < Pow2(f.width)
  {
  }

  /** A buffer whose first n bytes are known and whose other bytes are as they were. */
  lemma BytesFrom(b: seq<int>, was: seq<int>, n: nat)
    requires |was| == |b| && n <= |b| && IsBytes(b[..n]) && IsBytes(was)
    requires forall i :: n <= i < |b| ==> b[i] == was[i]
    ensures IsBytes(b) && ByteBits(b[..n]) <= ByteBits(b)
  {
    hide ByteBits;
    assert forall i :: 0 <= i < n ==> b[i] == b[..n][i];
    ByteBitsSlice(b, 0, n);
    assert b[0..n] == b[..n];
  }

  /** Whatever fields are written and flushed, reading with the same widths returns them, where
      each field is read by get_bits or get_bits_long, as the caller likes. */
  method RoundTrip(fs: seq<Field>, long: seq<bool>) returns (values: seq<int>)
    requires |long| == |fs| && forall i :: 0 <= i < |fs| ==> FieldOk(fs[i]) && (fs[i].width <= 25 || long[i])
    ensures |values| == |fs|
    ensures forall i :: 0 <= i < |fs| ==> values[i] == fs[i].value
  {
    hide *;
    var b := ZeroBuffer(4 * |fs| + 16);
    var w := new PutBitContext(b);
    WriteFields(w, fs);
    ghost var s := ByteBits(b[..]);
    var r := new GetBitContext(b[..]);
    values := [];
    NoFields();
    assert fs[..0] == [];
    for i := 0 to |fs|
      invariant |values| == i && forall k :: 0 <= k < i ==> values[k] == fs[k].value
      invariant r.buffer == b[..] && IsBytes(r.buffer) && ByteBits(r.buffer) == s && r.index == |FieldsBits(fs[..i])|
    {
      FieldRange(fs[i]);
      FieldBitsAt(fs, i, s);
      FieldsBitsPrefix(fs, i + 1);
      RoomToRead(r, r.index + fs[i].width, 4 * |fs| + 4);
      var v;
      if long[i] {
        v := r.GetBitsLong(fs[i].width);
      } else {
        v := r.GetBits(fs[i].width);
      }
      values := values + [v];
    }
  }

  method ZeroBuffer(n: nat) returns (b: array<int>)
    ensures fresh(b) && b.Length == n && IsBytes(b[..])
  {
    b := new int[n](_ => 0);
  }

  lemma RoomToRead(r: GetBitContext, next: nat, bytes: nat)
    requires IsBytes(r.buffer) && r.index < next <= 8 * bytes && bytes + 7 <= |r.buffer|
    ensures r.Padded(16) && r.Padded(0)
  {
  }
}
