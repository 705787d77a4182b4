/** How a packet's payloads are spelled, field by field, and that the parser reads back what was
    spelled. */
module AsfSpelling {
  import opened AsfPacket

  /** The bytes of a field whose two-bit code is given. */
  function Width(code: nat): nat {
    match code
    case 0 => 0
    case 1 => 1
    case 2 => 2
    case _ => 4
  }

  /** How many values fit in k bytes, and the bytes of a value, the least significant one first. */
  function Limit(k: nat): nat { if k == 0 then 1 else 0x100 * Limit(k - 1) }

  function Bytes(v: nat, k: nat): (b: seq<int>)
    ensures |b| == k
  {
    if k == 0 then [] else [v % 0x100] + Bytes(v / 0x100, k - 1)
  }

  lemma {:induction false} BytesRoundTrip(v: nat, k: nat)
    requires v < Limit(k)
    ensures LittleEndian(Bytes(v, k)) == v
  {
    if k > 0 {
      BytesRoundTrip(v / 0x100, k - 1);
      assert Bytes(v, k)[1..] == Bytes(v / 0x100, k - 1);
    }
  }

  /** The codes of the four fields in the property byte of a packet. */
  datatype Codes = Codes(replicated: nat, offset: nat, number: nat, stream: nat)

  predicate CodedBy(p: Packet, k: Codes) {
    && k.replicated < 4 && k.offset < 4 && k.number < 4
    && p.property == k.replicated + 4 * k.offset + 16 * k.number + 64 * k.stream
  }

  /** A payload to be sent: the stream's number and the key frame bit, the number and the offset of
      the media object, the replicated bytes, the byte that follows a compressed payload's header,
      and the data. */
  datatype Sent = Sent(stream: nat, key: bool, number: nat, offset: nat, replicated: seq<int>, extra: int,
                       data: seq<int>)

  predicate SentOk(p: Packet, k: Codes, y: Sent) {
    && y.stream < 0x80 && |y.replicated| < Limit(Width(k.replicated)) && (p.multiple ==> |y.data| < 0x10000)
  }

  function Header(k: Codes, y: Sent): seq<int> {
    [y.stream + if y.key then 0x80 else 0] + Bytes(y.number, Width(k.number)) + Bytes(y.offset, Width(k.offset))
  }

  /** What comes between the replicated bytes and the data. */
  function Extra(y: Sent): seq<int> { if |y.replicated| == 1 then [y.extra] else [] }

  function LengthField(p: Packet, y: Sent): seq<int> { if p.multiple then Bytes(|y.data|, 2) else [] }

  /** A payload before its data. */
  function Front(p: Packet, k: Codes, y: Sent): seq<int> {
    Header(k, y) + Bytes(|y.replicated|, Width(k.replicated)) + y.replicated + LengthField(p, y) + Extra(y)
  }

  function Spelled(p: Packet, k: Codes, y: Sent): seq<int> { Front(p, k, y) + y.data }

  /** A single payload fills the packet up to the padding, as far as the count of bytes goes. */
  predicate Fills(p: Packet, k: Codes, y: Sent, read: nat) {
    !p.multiple ==> p.length == read + |Front(p, k, y)| - |Extra(y)| + |y.data| + p.padding
  }

  lemma FieldWidths(p: Packet, k: Codes)
    requires CodedBy(p, k)
    ensures NumberLen(p) == Width(k.number) && OffsetLen(p) == Width(k.offset)
    ensures ReplicatedLen(p) == Width(k.replicated)
    ensures HeaderLen(p) == 1 + Width(k.number) + Width(k.offset) + Width(k.replicated)
  {
    hide Width, FieldLen;
    var t, u := k.offset + 4 * (k.number + 4 * k.stream), k.number + 4 * k.stream;
    TwoBits(p.property, k.replicated, t);
    TwoBits(t, k.offset, u);
    TwoBits(u, k.number, k.stream);
    assert p.property / 16 == p.property / 4 / 4;
    WidthIs(k.replicated);
    WidthIs(k.offset);
    WidthIs(k.number);
  }

  lemma TwoBits(x: nat, low: nat, rest: nat)
    requires low < 4 && x == low + 4 * rest
    ensures x % 4 == low && x / 4 == rest
  {
  }

  lemma WidthIs(code: nat)
    requires code < 4
    ensures FieldLen(code) == Width(code)
  {
  }

  /** The middle one of three parts. */
  lemma Middle(a: seq<int>, m: seq<int>, c: seq<int>)
    ensures (a + m + c)[|a|..|a| + |m|] == m
  {
  }

  /** The length of the replicated bytes is found where it was spelled. */
  lemma ReplicatedRead(p: Packet, k: Codes, y: Sent, a: seq<int>, b: seq<int>, c: seq<int>)
    requires CodedBy(p, k) && SentOk(p, k, y)
    requires b == a + Header(k, y) + Bytes(|y.replicated|, Width(k.replicated)) + c
    ensures |a| + HeaderLen(p) <= |b| && Replicated(p, b, |a|) == |y.replicated|
    ensures b[|a|] % 0x80 == y.stream
    ensures |a| + HeaderLen(p) == |a + Header(k, y) + Bytes(|y.replicated|, Width(k.replicated))|
  {
    hide LittleEndian, Bytes, Width, HeaderLen, ReplicatedLen, NumberLen, OffsetLen, CodedBy;
    FieldWidths(p, k);
    BytesRoundTrip(|y.replicated|, Width(k.replicated));
    Middle(a + Header(k, y), Bytes(|y.replicated|, Width(k.replicated)), c);
  }

  lemma LengthRead(p: Packet, y: Sent, a: seq<int>, b: seq<int>, c: seq<int>)
    requires p.multiple && |y.data| < 0x10000 && b == a + LengthField(p, y) + c
    ensures |a| + 2 <= |b| && LittleEndian(b[|a|..|a| + 2]) == |y.data|
  {
    hide LittleEndian, Bytes;
    assert Limit(2) == 0x10000 by { assert Limit(1) == 0x100; }
    BytesRoundTrip(|y.data|, 2);
    Middle(a, LengthField(p, y), c);
  }

  /** A payload spelled anywhere in a packet, after a count that agrees with the packet's length, is
      parsed as what it is: its stream, its data, and where it ends. */
  lemma PayloadRoundTrip(p: Packet, k: Codes, y: Sent, a: seq<int>, c: seq<int>, read: nat)
    requires CodedBy(p, k) && SentOk(p, k, y) && Fills(p, k, y, read)
    ensures var b, at := a + Spelled(p, k, y) + c, |a| + |Front(p, k, y)|;
            && Fits(p, b, |a|, read) && First(p, b, |a|, read) == Payload(y.stream, at, |y.data|)
            && b[at..at + |y.data|] == y.data && at + |y.data| == |a + Spelled(p, k, y)|
            && Read(p, b, |a|, read) == read + |Spelled(p, k, y)| - |Extra(y)|
  {
    hide *;
    var b := a + Spelled(p, k, y) + c;
    var r, l, x := Bytes(|y.replicated|, Width(k.replicated)), LengthField(p, y), Extra(y);
    var head := a + Header(k, y) + r;
    Parts(p, k, y, a, c);
    ReplicatedRead(p, k, y, a, b, y.replicated + l + x + y.data + c);
    if p.multiple {
      DataShort(p, k, y);
      LengthRead(p, y, head + y.replicated, b, x + y.data + c);
    }
    Middle(head + y.replicated + l + x, y.data, c);
    Parsed(p, k, y, a, b, read);
  }

  lemma DataShort(p: Packet, k: Codes, y: Sent)
    requires SentOk(p, k, y) && p.multiple
    ensures |y.data| < 0x10000
  {
  }

  /** A spelled payload in its parts. */
  lemma Parts(p: Packet, k: Codes, y: Sent, a: seq<int>, c: seq<int>)
    ensures var b, l, x := a + Spelled(p, k, y) + c, LengthField(p, y), Extra(y);
            var head := a + Header(k, y) + Bytes(|y.replicated|, Width(k.replicated));
            && b == head + (y.replicated + l + x + y.data + c) && b == head + y.replicated + l + (x + y.data + c)
            && b == head + y.replicated + l + x + y.data + c
            && |Spelled(p, k, y)| == |Front(p, k, y)| + |y.data|
            && |a| + |Front(p, k, y)| == |head + y.replicated + l + x|
  {
    hide Header, Bytes, Width, LengthField, Extra;
  }

  lemma Parsed(p: Packet, k: Codes, y: Sent, a: seq<int>, b: seq<int>, read: nat)
    requires |a| + HeaderLen(p) <= |b| && Replicated(p, b, |a|) == |y.replicated| && b[|a|] % 0x80 == y.stream
    requires |Front(p, k, y)| == HeaderLen(p) + |y.replicated| + |LengthField(p, y)| + |Extra(y)|
    requires |a| + |Front(p, k, y)| + |y.data| <= |b| && Fills(p, k, y, read)
    requires var next := |a| + HeaderLen(p) + |y.replicated|;
             p.multiple ==> next + 2 <= |b| && LittleEndian(b[next..next + 2]) == |y.data|
    ensures Fits(p, b, |a|, read) && First(p, b, |a|, read) == Payload(y.stream, |a| + |Front(p, k, y)|, |y.data|)
    ensures Read(p, b, |a|, read) == read + |Front(p, k, y)| + |y.data| - |Extra(y)|
  {
    hide LittleEndian, Front, HeaderLen, Bytes, Replicated;
  }

  // ----- whole packets -----

  function SpelledAll(p: Packet, k: Codes, ys: seq<Sent>): seq<int> {
    if ys == [] then [] else Spelled(p, k, ys[0]) + SpelledAll(p, k, ys[1..])
  }

  /** The data of the payloads of a stream, in order. */
  function DataOf(stream: int, ys: seq<Sent>): seq<int> {
    if ys == [] then [] else (if ys[0].stream == stream then ys[0].data else []) + DataOf(stream, ys[1..])
  }

  predicate AllOk(p: Packet, k: Codes, ys: seq<Sent>, read: nat) {
    && (forall i :: 0 <= i < |ys| ==> SentOk(p, k, ys[i]))
    && (!p.multiple ==> |ys| <= 1 && forall i :: 0 <= i < |ys| ==> Fills(p, k, ys[i], read))
  }

  lemma FillsIf(p: Packet, k: Codes, y: Sent, read: nat)
    requires p.multiple
    ensures Fills(p, k, y, read)
  {
  }

  /** Whatever payloads are spelled in a packet, one after the other, its audio is the data of those
      of the audio stream. */
  lemma {:induction false} PacketRoundTrip(p: Packet, k: Codes, ys: seq<Sent>, a: seq<int>, c: seq<int>, read: nat)
    requires CodedBy(p, k) && AllOk(p, k, ys, read)
    ensures var b := a + SpelledAll(p, k, ys) + c;
            && WellFormed(p, b, |a|, read, |ys|) && Audio(p, b, |a|, read, |ys|) == DataOf(p.stream, ys)
            && (HasAudio(p, b, |a|, read, |ys|) <==> exists i :: 0 <= i < |ys| && ys[i].stream == p.stream)
    decreases |ys|
  {
    hide Fits, First, Read, Spelled, SentOk, Fills, CodedBy;
    if ys != [] {
      var y, rest := ys[0], ys[1..];
      var b, s := a + SpelledAll(p, k, ys) + c, Spelled(p, k, y);
      assert b == a + s + (SpelledAll(p, k, rest) + c);
      assert b == a + s + SpelledAll(p, k, rest) + c;
      if p.multiple {
        FillsIf(p, k, y, read);
      }
      PayloadRoundTrip(p, k, y, a, SpelledAll(p, k, rest) + c, read);
      PacketRoundTrip(p, k, rest, a + s, c, Read(p, b, |a|, read));
    }
  }

  /** The loop over a packet that was spelled: it finds audio exactly if some payload is of the audio
      stream, and leaves the data of all of them together and in order. */
  method ReadSpelled(p: Packet, k: Codes, ghost ys: seq<Sent>, ghost c: seq<int>, buf: array<int>, read0: nat)
    returns (ret: int, audiobuf: int, audiobufsize: nat)
    requires CodedBy(p, k) && AllOk(p, k, ys, read0) && p.count == |ys| && p.lengthType < 4
    requires p.multiple ==> FieldLen(p.lengthType) == 2
    requires buf[..] == SpelledAll(p, k, ys) + c
    modifies buf
    ensures ret == if exists i :: 0 <= i < |ys| && ys[i].stream == p.stream then 1 else 0
    ensures ret == 1 ==> 0 <= audiobuf && audiobuf + audiobufsize <= buf.Length
    ensures ret == 1 ==> buf[audiobuf..audiobuf + audiobufsize] == DataOf(p.stream, ys)
  {
    hide *;
    PacketRoundTrip(p, k, ys, [], c, read0);
    assert [] + SpelledAll(p, k, ys) + c == buf[..];
    ret, audiobuf, audiobufsize := ReadPayloads(p, buf, read0);
  }
}
