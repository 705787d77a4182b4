/** The payload loop of an ASF packet: the payloads of the audio stream are moved together in
    the packet's own buffer while the rest of it is still being parsed. */
module AsfPacket {

  const ASF_ERROR_INVALID_VALUE := -6

  /** What the packet header has said: whether there are several payloads and how their lengths
      are coded, the coding of the payload headers' fields, the number of payloads, the length
      of the packet and of its padding, and the number of the audio stream. */
  datatype Packet = Packet(multiple: bool, lengthType: nat, property: nat, count: nat, length: nat, padding: nat,
                           stream: int)

  /** GETLEN2b */
  function FieldLen(bits: nat): nat { if bits == 3 then 4 else bits }

  function LittleEndian(s: seq<int>): int {
    if s == [] then 0 else s[0] + 0x100 * LittleEndian(s[1..])
  }

  /** A payload: its stream, and where its data lie. */
  datatype Payload = Payload(stream: int, at: nat, len: nat)

  function NumberLen(p: Packet): nat { FieldLen(p.property / 16 % 4) }
  function OffsetLen(p: Packet): nat { FieldLen(p.property / 4 % 4) }
  function ReplicatedLen(p: Packet): nat { FieldLen(p.property % 4) }

  /** The header of the payload at `at`: the stream's number, three fields, and as many
      replicated bytes as the last one says. */
  function HeaderLen(p: Packet): nat { 1 + NumberLen(p) + OffsetLen(p) + ReplicatedLen(p) }

  function Replicated(p: Packet, b: seq<int>, at: nat): int
    requires at + HeaderLen(p) <= |b|
  {
    LittleEndian(b[at + HeaderLen(p) - ReplicatedLen(p)..at + HeaderLen(p)])
  }

  /** A payload whose header and data are inside the packet; `read` bytes of the packet have
      been accounted for before it. */
  predicate Fits(p: Packet, b: seq<int>, at: nat, read: nat) {
    && at + HeaderLen(p) <= |b|
    && var r := Replicated(p, b, at);
       && 0 <= r && at + HeaderLen(p) + r + (if p.multiple then 2 else 0) <= |b|
       && 0 <= DataLen(p, b, at, read) && DataAt(p, b, at) + DataLen(p, b, at, read) <= |b|
  }

  /** In a packet of several payloads a word says how long the data are; a single payload
      takes what is left but for the padding. */
  function DataLen(p: Packet, b: seq<int>, at: nat, read: nat): int
    requires at + HeaderLen(p) <= |b| && 0 <= Replicated(p, b, at)
    requires at + HeaderLen(p) + Replicated(p, b, at) + (if p.multiple then 2 else 0) <= |b|
  {
    var next := at + HeaderLen(p) + Replicated(p, b, at);
    if p.multiple then LittleEndian(b[next..next + 2])
    else p.length - (read + HeaderLen(p) + Replicated(p, b, at)) - p.padding
  }

  /** One replicated byte marks a compressed payload, with one more byte before the data. */
  function DataAt(p: Packet, b: seq<int>, at: nat): nat
    requires at + HeaderLen(p) <= |b| && 0 <= Replicated(p, b, at)
  {
    at + HeaderLen(p) + Replicated(p, b, at) + (if p.multiple then 2 else 0)
    + if Replicated(p, b, at) == 1 then 1 else 0
  }

  function First(p: Packet, b: seq<int>, at: nat, read: nat): Payload
    requires Fits(p, b, at, read)
  {
    Payload(b[at] % 0x80, DataAt(p, b, at), DataLen(p, b, at, read))
  }

  function End(d: Payload): nat { d.at + d.len }

  /** The bytes accounted for; the extra byte of a compressed payload is not. */
  function Read(p: Packet, b: seq<int>, at: nat, read: nat): nat
    requires Fits(p, b, at, read)
  {
    read + HeaderLen(p) + Replicated(p, b, at) + (if p.multiple then 2 else 0) + DataLen(p, b, at, read)
  }

  /** n payloads in a row. */
  predicate WellFormed(p: Packet, b: seq<int>, at: nat, read: nat, n: nat)
    decreases n
  {
    n > 0 ==> Fits(p, b, at, read) && WellFormed(p, b, End(First(p, b, at, read)), Read(p, b, at, read), n - 1)
  }

  /** The audio bytes of n payloads, in order. */
  function Audio(p: Packet, b: seq<int>, at: nat, read: nat, n: nat): seq<int>
    requires WellFormed(p, b, at, read, n)
    decreases n
  {
    if n == 0 then []
    else
      var d := First(p, b, at, read);
      (if d.stream == p.stream then b[d.at..End(d)] else []) + Audio(p, b, End(d), Read(p, b, at, read), n - 1)
  }

  /** Whether one of n payloads is of the audio stream. */
  predicate HasAudio(p: Packet, b: seq<int>, at: nat, read: nat, n: nat)
    requires WellFormed(p, b, at, read, n)
    decreases n
  {
    n > 0 && (First(p, b, at, read).stream == p.stream
              || HasAudio(p, b, End(First(p, b, at, read)), Read(p, b, at, read), n - 1))
  }

  // ----- what the count of bytes misses -----

  /** The count keeps up with the payloads exactly where no payload is compressed; a compressed
      one leaves it one byte behind. */
  lemma CountKeepsUp(p: Packet, b: seq<int>, at: nat, read: nat)
    requires Fits(p, b, at, read)
    ensures Read(p, b, at, read) - read == End(First(p, b, at, read)) - at <==> Replicated(p, b, at) != 1
    ensures Replicated(p, b, at) == 1 ==> End(First(p, b, at, read)) - at == Read(p, b, at, read) - read + 1
  {
    hide LittleEndian;
  }

  /** Where the padding begins, in a buffer before which `read` bytes of the packet were read. */
  function PaddingAt(p: Packet, read: nat): int { p.length - p.padding - read }

  /** So the data of a single payload end where the padding begins if and only if it is not
      compressed; otherwise they take the first byte of the padding. With several payloads the
      count is not used. */
  lemma SinglePayloadEnds(p: Packet, b: seq<int>, read: nat)
    requires Fits(p, b, 0, read)
    ensures !p.multiple ==> (End(First(p, b, 0, read)) == PaddingAt(p, read) <==> Replicated(p, b, 0) != 1)
    ensures !p.multiple && Replicated(p, b, 0) == 1 ==> End(First(p, b, 0, read)) == PaddingAt(p, read) + 1
    ensures p.multiple ==> forall other: nat :: Fits(p, b, 0, other) && First(p, b, 0, other) == First(p, b, 0, read)
  {
    hide LittleEndian;
  }

  lemma LittleEndianOne(x: int)
    ensures LittleEndian([x]) == x
  {
    assert [x][1..] == [] && LittleEndian([]) == 0;
  }

  /** A packet of nineteen bytes, the last two of them padding. Twelve come before its single,
      compressed payload, one of which holds the length of the padding; the payload gets the bytes
      4 and 5, and the padding begins at 5. */
  lemma CompressedTakesPadding()
    ensures var p, b := Packet(false, 2, 1, 1, 19, 2, 1), [1, 1, 9, 9, 20, 30, 31];
            && WellFormed(p, b, 0, 12, 1) && Audio(p, b, 0, 12, 1) == [20, 30]
            && PaddingAt(p, 12) == 5 && b[5] == 30
  {
    var p, b := Packet(false, 2, 1, 1, 19, 2, 1), [1, 1, 9, 9, 20, 30, 31];
    CompressedFits(p, b);
    hide Fits, First, Read;
    assert Audio(p, b, 6, Read(p, b, 0, 12), 0) == [];
    assert b[4..6] + [] == [20, 30];
  }

  lemma CompressedHeader(p: Packet)
    requires p.property == 1
    ensures HeaderLen(p) == 2 && ReplicatedLen(p) == 1
  {
  }

  lemma CompressedByte(p: Packet, b: seq<int>)
    requires p.property == 1 && |b| == 7 && b[1] == 1
    ensures HeaderLen(p) == 2 && Replicated(p, b, 0) == 1
  {
    hide LittleEndian, HeaderLen, ReplicatedLen;
    CompressedHeader(p);
    LittleEndianOne(1);
    assert b[1..2] == [1];
  }

  lemma CompressedFits(p: Packet, b: seq<int>)
    requires p == Packet(false, 2, 1, 1, 19, 2, 1) && |b| == 7 && b[0] == b[1] == 1
    ensures Fits(p, b, 0, 12) && First(p, b, 0, 12) == Payload(1, 4, 2)
  {
    hide LittleEndian, HeaderLen, ReplicatedLen, Replicated;
    CompressedByte(p, b);
  }

  // ----- what is parsed depends only on the bytes from there on -----

  predicate SameFrom(b: seq<int>, c: seq<int>, at: nat) { |b| == |c| && forall k :: at <= k < |b| ==> b[k] == c[k] }

  lemma SameSlice(b: seq<int>, c: seq<int>, at: nat, i: nat, j: nat)
    requires SameFrom(b, c, at) && at <= i <= j <= |b|
    ensures b[i..j] == c[i..j]
  {
  }

  lemma FirstFrame(p: Packet, b: seq<int>, c: seq<int>, at: nat, read: nat)
    requires SameFrom(b, c, at) && Fits(p, b, at, read)
    ensures Fits(p, c, at, read) && First(p, c, at, read) == First(p, b, at, read)
    ensures Read(p, c, at, read) == Read(p, b, at, read) && End(First(p, b, at, read)) > at
    ensures c[First(p, b, at, read).at..End(First(p, b, at, read))]
            == b[First(p, b, at, read).at..End(First(p, b, at, read))]
  {
    hide LittleEndian;
    SameSlice(b, c, at, at + HeaderLen(p) - ReplicatedLen(p), at + HeaderLen(p));
    var next := at + HeaderLen(p) + Replicated(p, b, at);
    if p.multiple {
      SameSlice(b, c, at, next, next + 2);
    }
    SameSlice(b, c, at, DataAt(p, b, at), DataAt(p, b, at) + DataLen(p, b, at, read));
  }

  lemma {:induction false} AudioFrame(p: Packet, b: seq<int>, c: seq<int>, at: nat, read: nat, n: nat)
    requires SameFrom(b, c, at) && WellFormed(p, b, at, read, n)
    ensures WellFormed(p, c, at, read, n)
    ensures Audio(p, c, at, read, n) == Audio(p, b, at, read, n)
    ensures HasAudio(p, c, at, read, n) == HasAudio(p, b, at, read, n)
    decreases n
  {
    if n > 0 {
      FirstFrame(p, b, c, at, read);
      var d := First(p, b, at, read);
      hide Fits, First, Read;
      assert SameFrom(b, c, End(d));
      AudioFrame(p, b, c, End(d), Read(p, b, at, read), n - 1);
    }
  }

  // ----- the loop -----

  /** GETVALUE2b */
  function GetValue(bits: nat, b: seq<int>, at: nat): (v: int)
    requires bits < 4 && at + FieldLen(bits) <= |b|
  {
    if bits != 3 then
      if bits != 2 then
        if bits != 1 then 0 else b[at]
      else b[at] + b[at + 1] * 0x100
    else b[at] + b[at + 1] * 0x100 + b[at + 2] * 0x1_0000 + b[at + 3] * 0x100_0000
  }

  lemma GetValueIsLittleEndian(bits: nat, b: seq<int>, at: nat)
    requires bits < 4 && at + FieldLen(bits) <= |b|
    ensures GetValue(bits, b, at) == LittleEndian(b[at..at + FieldLen(bits)])
  {
    var s := b[at..at + FieldLen(bits)];
    if |s| == 1 {
      assert s[1..] == [];
    } else if |s| == 2 {
      LittleEndianTwo(s);
    } else if |s| == 4 {
      LittleEndianTwo(s[2..]);
      assert s[1..][1..] == s[2..] && s[1..][0] == s[1];
    }
  }

  lemma LittleEndianTwo(s: seq<int>)
    requires |s| == 2
    ensures LittleEndian(s) == s[0] + 0x100 * s[1]
  {
    var t := s[1..];
    assert t[1..] == [] && LittleEndian(t) == t[0];
  }

  /** Parses the header of the payload at datap. */
  method ReadHeader(p: Packet, buf: array<int>, at: nat, read0: nat)
    returns (streamId: int, datap: nat, len: nat, read: nat)
    requires Fits(p, buf[..], at, read0) && (p.multiple ==> FieldLen(p.lengthType) == 2) && p.lengthType < 4
    ensures Payload(streamId, datap, len) == First(p, buf[..], at, read0)
    ensures read == Read(p, buf[..], at, read0) - len
  {
    hide LittleEndian;
    streamId := buf[at] % 0x80;
    datap := at + 1;
    read := read0 + 1;
    read := read + FieldLen(p.property % 4) + FieldLen(p.property / 4 % 4) + FieldLen(p.property / 16 % 4);
    datap := datap + FieldLen(p.property / 16 % 4);
    datap := datap + FieldLen(p.property / 4 % 4);
    GetValueIsLittleEndian(p.property % 4, buf[..], datap);
    var replicated := GetValue(p.property % 4, buf[..], datap);
    datap := datap + FieldLen(p.property % 4);
    datap := datap + replicated;
    read := read + replicated;
    if p.multiple {
      GetValueIsLittleEndian(p.lengthType, buf[..], datap);
      len := GetValue(p.lengthType, buf[..], datap);
      datap := datap + FieldLen(p.lengthType);
      read := read + FieldLen(p.lengthType);
    } else {
      len := p.length - read - p.padding;
    }
    if replicated == 1 {
      datap := datap + 1;
    }
  }

  /** memmove, down or in place */
  method Memmove(buf: array<int>, dst: nat, src: nat, len: nat)
    requires dst <= src && src + len <= buf.Length
    modifies buf
    ensures buf[..] == Moved(old(buf[..]), dst, Payload(0, src, len))
  {
    hide *;
    ghost var was := buf[..];
    for i := 0 to len
      invariant forall k :: dst <= k < dst + i ==> buf[k] == was[k + (src - dst)]
      invariant forall k :: 0 <= k < dst || dst + i <= k < buf.Length ==> buf[k] == was[k]
    {
      buf[dst + i] := buf[src + i];
    }
    IsMoved(was, buf[..], dst, Payload(0, src, len));
  }

  lemma IsMoved(was: seq<int>, now: seq<int>, o: nat, d: Payload)
    requires o <= d.at && d.at + d.len <= |was| == |now|
    requires forall k :: o <= k < o + d.len ==> now[k] == was[k + (d.at - o)]
    requires forall k :: 0 <= k < o || o + d.len <= k < |was| ==> now[k] == was[k]
    ensures End(d) == d.at + d.len && now == Moved(was, o, d)
  {
    var m := Moved(was, o, d);
    forall k | 0 <= k < |now|
      ensures now[k] == m[k]
    {
      if o <= k < o + d.len {
        assert m[k] == was[d.at..End(d)][k - o];
      }
    }
  }

  /** What the loop keeps: the bytes not parsed yet are the original ones, the audio bytes found
      so far lie together before them, and the rest of the audio is still to come. */
  ghost predicate Compacting(p: Packet, was: seq<int>, read0: nat, b: seq<int>, at: nat, read: nat, left: nat,
                             audio: int, size: nat)
    requires WellFormed(p, was, 0, read0, p.count)
  {
    && SameFrom(was, b, at) && WellFormed(p, was, at, read, left) && at <= |b|
    && (audio == -1 || (0 <= audio && audio + size <= at)) && (audio == -1 ==> size == 0)
    && Audio(p, was, 0, read0, p.count)
       == (if audio == -1 then [] else b[audio..audio + size]) + Audio(p, was, at, read, left)
    && (HasAudio(p, was, 0, read0, p.count) <==> audio != -1 || HasAudio(p, was, at, read, left))
  }

  lemma ErrorIsNegative()
    ensures ASF_ERROR_INVALID_VALUE < 0
  {
  }

  lemma AtFirst(p: Packet, was: seq<int>, read0: nat)
    requires WellFormed(p, was, 0, read0, p.count)
    ensures Compacting(p, was, read0, was, 0, read0, p.count, -1, 0)
  {
    hide Audio, HasAudio, WellFormed;
    assert [] + Audio(p, was, 0, read0, p.count) == Audio(p, was, 0, read0, p.count);
  }

  /** The next payload fits, and is what it was in the original packet. */
  lemma NextFits(p: Packet, was: seq<int>, read0: nat, b: seq<int>, at: nat, read: nat, left: nat, audio: int,
                 size: nat)
    requires WellFormed(p, was, 0, read0, p.count) && left > 0
    requires Compacting(p, was, read0, b, at, read, left, audio, size)
    ensures Fits(p, b, at, read) && Fits(p, was, at, read) && First(p, b, at, read) == First(p, was, at, read)
    ensures Read(p, b, at, read) == Read(p, was, at, read)
    ensures var d := First(p, b, at, read);
            at < d.at <= End(d) == d.at + d.len <= |b| == |was| && b[d.at..End(d)] == was[d.at..End(d)]
    ensures audio == -1 || (0 <= audio && audio + size <= at)
    ensures audio == -1 ==> size == 0
  {
    FirstFrame(p, was, b, at, read);
  }

  /** One payload more: left where it is, moved down, or passed over. */
  lemma OneMore(p: Packet, was: seq<int>, read0: nat, b: seq<int>, c: seq<int>, at: nat, read: nat, left: nat,
                audio: int, size: nat, audio': int, size': nat)
    requires WellFormed(p, was, 0, read0, p.count) && left > 0
    requires Compacting(p, was, read0, b, at, read, left, audio, size)
    requires Fits(p, b, at, read) && (audio == -1 || (0 <= audio && audio + size <= at <= |b|))
    requires var d := First(p, b, at, read);
             End(d) <= |b| &&
             if d.stream != p.stream then c == b && audio' == audio && size' == size
             else if audio == -1 then c == b && audio' == d.at && size' == d.len
             else c == Moved(b, audio + size, d) && audio' == audio && size' == size + d.len
    ensures Compacting(p, was, read0, c, End(First(p, b, at, read)), Read(p, b, at, read), left - 1, audio', size')
  {
    hide *;
    NextFits(p, was, read0, b, at, read, left, audio, size);
    CompactingMeans(p, was, read0, b, at, read, left, audio, size);
    AudioStep(p, was, at, read, left);
    var d := First(p, was, at, read);
    var got := if audio == -1 then [] else b[audio..audio + size];
    var rest := Audio(p, was, End(d), Read(p, was, at, read), left - 1);
    SameLater(was, b, at, End(d));
    if d.stream == p.stream && audio != -1 {
      MovedBytes(b, audio, size, d, at);
      SameTwice(was, b, c, End(d));
      assert got + (was[d.at..End(d)] + rest) == got + was[d.at..End(d)] + rest;
    } else if d.stream == p.stream {
      assert [] + (was[d.at..End(d)] + rest) == c[audio'..audio' + size'] + rest;
    } else {
      assert [] + rest == rest;
    }
    IsCompacting(p, was, read0, c, End(d), Read(p, was, at, read), left - 1, audio', size');
  }

  lemma CompactingMeans(p: Packet, was: seq<int>, read0: nat, b: seq<int>, at: nat, read: nat, left: nat,
                        audio: int, size: nat)
    requires WellFormed(p, was, 0, read0, p.count) && Compacting(p, was, read0, b, at, read, left, audio, size)
    ensures SameFrom(was, b, at) && WellFormed(p, was, at, read, left) && at <= |b| == |was|
    ensures (audio == -1 || (0 <= audio && audio + size <= at)) && (audio == -1 ==> size == 0)
    ensures Audio(p, was, 0, read0, p.count)
            == (if audio == -1 then [] else b[audio..audio + size]) + Audio(p, was, at, read, left)
    ensures HasAudio(p, was, 0, read0, p.count) <==> audio != -1 || HasAudio(p, was, at, read, left)
  {
    hide Audio, HasAudio, WellFormed;
  }

  lemma IsCompacting(p: Packet, was: seq<int>, read0: nat, b: seq<int>, at: nat, read: nat, left: nat, audio: int,
                     size: nat)
    requires WellFormed(p, was, 0, read0, p.count)
    requires SameFrom(was, b, at) && WellFormed(p, was, at, read, left) && at <= |b|
    requires (audio == -1 || (0 <= audio && audio + size <= at)) && (audio == -1 ==> size == 0)
    requires Audio(p, was, 0, read0, p.count)
             == (if audio == -1 then [] else b[audio..audio + size]) + Audio(p, was, at, read, left)
    requires HasAudio(p, was, 0, read0, p.count) <==> audio != -1 || HasAudio(p, was, at, read, left)
    ensures Compacting(p, was, read0, b, at, read, left, audio, size)
  {
    hide Audio, HasAudio, WellFormed;
  }

  lemma AudioStep(p: Packet, b: seq<int>, at: nat, read: nat, n: nat)
    requires n > 0 && WellFormed(p, b, at, read, n)
    ensures Fits(p, b, at, read)
    ensures var d, next := First(p, b, at, read), Read(p, b, at, read);
            && WellFormed(p, b, End(d), next, n - 1) && End(d) <= |b|
            && Audio(p, b, at, read, n)
               == (if d.stream == p.stream then b[d.at..End(d)] else []) + Audio(p, b, End(d), next, n - 1)
            && (HasAudio(p, b, at, read, n) <==> d.stream == p.stream || HasAudio(p, b, End(d), next, n - 1))
  {
    hide LittleEndian;
  }

  lemma SameLater(b: seq<int>, c: seq<int>, at: nat, later: nat)
    requires SameFrom(b, c, at) && at <= later
    ensures SameFrom(b, c, later)
  {
  }

  lemma SameTwice(a: seq<int>, b: seq<int>, c: seq<int>, at: nat)
    requires SameFrom(a, b, at) && SameFrom(b, c, at)
    ensures SameFrom(a, c, at)
  {
  }

  lemma MovedBytes(b: seq<int>, audio: nat, size: nat, d: Payload, at: nat)
    requires audio + size <= at <= d.at && End(d) <= |b|
    ensures var c := Moved(b, audio + size, d);
            |c| == |b| && c[audio..audio + size + d.len] == b[audio..audio + size] + b[d.at..End(d)]
            && SameFrom(b, c, End(d))
  {
  }

  /** The data of a payload moved down to place o. */
  function Moved(b: seq<int>, o: nat, d: Payload): seq<int>
    requires o <= d.at && End(d) <= |b|
  {
    b[..o] + b[d.at..End(d)] + b[o + d.len..]
  }

  lemma SameMove(b: seq<int>, o: int, d: Payload)
    ensures 0 <= o <= d.at && End(d) <= |b| ==> Moved(b, o, d) == Moved(b, o, Payload(0, d.at, d.len))
    ensures End(d) == d.at + d.len
  {
  }

  lemma AtLast(p: Packet, was: seq<int>, read0: nat, b: seq<int>, at: nat, read: nat, audio: int, size: nat)
    requires WellFormed(p, was, 0, read0, p.count) && Compacting(p, was, read0, b, at, read, 0, audio, size)
    ensures HasAudio(p, was, 0, read0, p.count) <==> audio != -1
    ensures audio == -1 ||
            (0 <= audio && audio + size <= |b| && b[audio..audio + size] == Audio(p, was, 0, read0, p.count))
    ensures |b| == |was| && (audio == -1 ==> size == 0)
  {
    if audio != -1 {
      assert b[audio..audio + size] + [] == b[audio..audio + size];
    }
  }

  /** After the loop the audio buffer holds, in order, the original bytes of all payloads of
      the audio stream. */
  method ReadPayloads(p: Packet, buf: array<int>, read0: nat) returns (ret: int, audiobuf: int, audiobufsize: nat)
    requires p.lengthType < 4 && WellFormed(p, buf[..], 0, read0, p.count)
    modifies buf
    ensures p.multiple && p.count > 0 && FieldLen(p.lengthType) != 2 ==>
            ret == ASF_ERROR_INVALID_VALUE && buf[..] == old(buf[..])
    ensures !(p.multiple && p.count > 0 && FieldLen(p.lengthType) != 2) ==>
              ret == if HasAudio(p, old(buf[..]), 0, read0, p.count) then 1 else 0
    ensures ret == 1 ==> 0 <= audiobuf && audiobuf + audiobufsize <= buf.Length
    ensures ret == 1 ==> buf[audiobuf..audiobuf + audiobufsize] == Audio(p, old(buf[..]), 0, read0, p.count)
    ensures ret == 0 ==> audiobuf == -1 && audiobufsize == 0 && buf[..] == old(buf[..])
  {
    hide *;
    ghost var was := buf[..];
    audiobuf, audiobufsize := -1, 0;
    var datap, read := 0, read0;
    AtFirst(p, was, read0);
    ErrorIsNegative();
    for i := 0 to p.count
      invariant Compacting(p, was, read0, buf[..], datap, read, p.count - i, audiobuf, audiobufsize)
      invariant audiobuf == -1 ==> buf[..] == was
      invariant i == 0 ==> audiobuf == -1 && audiobufsize == 0
      invariant i > 0 ==> !(p.multiple && FieldLen(p.lengthType) != 2)
    {
      if p.multiple && FieldLen(p.lengthType) != 2 {
        return ASF_ERROR_INVALID_VALUE, audiobuf, audiobufsize;
      }
      ghost var b, at, before, audio, size := buf[..], datap, read, audiobuf, audiobufsize;
      NextFits(p, was, read0, b, at, before, p.count - i, audio, size);
      var streamId, len;
      streamId, datap, len, read := ReadHeader(p, buf, datap, read);
      if streamId == p.stream {
        if audiobuf == -1 {
          audiobuf := datap;
          audiobufsize := len;
        } else {
          Memmove(buf, audiobuf + audiobufsize, datap, len);
          audiobufsize := audiobufsize + len;
        }
      }
      datap := datap + len;
      read := read + len;
      SameMove(b, audio + size, First(p, b, at, before));
      OneMore(p, was, read0, b, buf[..], at, before, p.count - i, audio, size, audiobuf, audiobufsize);
    }
    AtLast(p, was, read0, buf[..], datap, read, audiobuf, audiobufsize);
    if audiobuf != -1 {
      ret := 1;
    } else {
      ret := 0;
    }
  }
}
