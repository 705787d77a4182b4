/** The file cache of the WMA player and its chunked decoder of UTF-16LE strings. */
module AsfText {
  import opened Bits
  import opened Ints
  import opened UtfCodec

  // ----- the text -----

  /** A 16-bit unit, low byte first. */
  function Unit(b: seq<int>): int
    requires |b| >= 2
  {
    b[0] + 0x100 * b[1]
  }

  predicate StartsPair(b: seq<int>)
    requires |b| >= 2
  {
    0xD8 <= b[1] < 0xE0
  }

  /** The code point of a surrogate pair (section 2.2 of RFC 2781). */
  function PairValue(b: seq<int>): int
    requires |b| >= 4
  {
    0x10000 + 0x400 * (Unit(b) - 0xD800) + (Unit(b[2..]) - 0xDC00)
  }

  /** Surrogates come in pairs, high before low; only the last one may be cut off. */
  predicate PairsOk(b: seq<int>) {
    |b| >= 2 ==>
      if StartsPair(b) then |b| >= 4 ==> b[1] < 0xDC && 0xDC <= b[3] < 0xE0 && PairsOk(b[4..])
      else PairsOk(b[2..])
  }

  /** The characters of a text; a surrogate cut off at its end is dropped. */
  function Chars(b: seq<int>): seq<int> {
    if |b| < 2 then []
    else if !StartsPair(b) then [Unit(b)] + Chars(b[2..])
    else if |b| < 4 then []
    else [PairValue(b)] + Chars(b[4..])
  }

  /** The UTF-16LE text of a character (section 2.1 of RFC 2781), and of a string. */
  function Utf16(cp: int): seq<int> {
    if cp < 0x10000 then [cp % 0x100, cp / 0x100]
    else
      var hi, lo := 0xD800 + (cp - 0x10000) / 0x400, 0xDC00 + (cp - 0x10000) % 0x400;
      [hi % 0x100, hi / 0x100, lo % 0x100, lo / 0x100]
  }

  function Utf16Text(cps: seq<int>): seq<int> {
    if cps == [] then [] else Utf16(cps[0]) + Utf16Text(cps[1..])
  }

  lemma Utf16One(cp: int)
    requires IsScalarValue(cp)
    ensures IsBytes(Utf16(cp)) && |Utf16(cp)| == if cp < 0x10000 then 2 else 4
    ensures StartsPair(Utf16(cp)) <==> cp >= 0x10000
    ensures cp < 0x10000 ==> Unit(Utf16(cp)) == cp
    ensures cp >= 0x10000 ==> PairValue(Utf16(cp)) == cp && Utf16(cp)[1] < 0xDC && 0xDC <= Utf16(cp)[3] < 0xE0
  {
  }

  /** The first character of a text, and the rest of it. */
  lemma FirstUnits(a: seq<int>, b: seq<int>)
    requires |a| == 2 || |a| == 4
    requires StartsPair(a) <==> |a| == 4
    ensures |a| == 2 ==> Chars(a + b) == [Unit(a)] + Chars(b) && PairsOk(a + b) == PairsOk(b)
    ensures |a| == 4 ==> Chars(a + b) == [PairValue(a)] + Chars(b)
    ensures |a| == 4 ==> PairsOk(a + b) == (a[1] < 0xDC && 0xDC <= a[3] < 0xE0 && PairsOk(b))
    ensures IsBytes(a) && IsBytes(b) ==> IsBytes(a + b)
  {
    assert (a + b)[|a|..] == b;
  }

  lemma Utf16Next(cps: seq<int>)
    ensures cps != [] ==> Utf16Text(cps) == Utf16(cps[0]) + Utf16Text(cps[1..])
  {
    hide Utf16;
  }

  /** Every well-formed text is read as the string it spells. */
  lemma {:induction false} Utf16RoundTrip(cps: seq<int>)
    requires forall i :: 0 <= i < |cps| ==> IsScalarValue(cps[i])
    ensures IsBytes(Utf16Text(cps)) && |Utf16Text(cps)| % 2 == 0
    ensures PairsOk(Utf16Text(cps)) && Chars(Utf16Text(cps)) == cps
  {
    hide *;
    if cps == [] {
      NoUtf16();
    } else {
      Utf16RoundTrip(cps[1..]);
      var a, b := Utf16(cps[0]), Utf16Text(cps[1..]);
      Utf16First(cps[0]);
      FirstUnits(a, b);
      Utf16Next(cps);
      assert [cps[0]] + cps[1..] == cps;
    }
  }

  lemma NoUtf16()
    ensures Utf16Text([]) == [] && IsBytes([]) && PairsOk([]) && Chars([]) == []
  {
  }

  lemma Utf16First(cp: int)
    requires IsScalarValue(cp)
    ensures var a := Utf16(cp);
            && IsBytes(a) && (|a| == 2 || |a| == 4) && (StartsPair(a) <==> |a| == 4)
            && (|a| == 2 ==> Unit(a) == cp) && (|a| == 4 ==> PairValue(a) == cp && a[1] < 0xDC && 0xDC <= a[3] < 0xE0)
  {
    Utf16One(cp);
    hide Utf16;
  }

  function Utf8Text(cps: seq<int>): seq<int> {
    if cps == [] then [] else Utf8Text(cps[..|cps| - 1]) + Utf8(cps[|cps| - 1])
  }

  /** What the budget rule admits: a character is put out while more than six bytes are left,
      and none after one that was not. */
  function Admitted(cps: seq<int>, budget: int): (n: nat)
    ensures n <= |cps|
  {
    if cps == [] || budget <= 6 then 0 else 1 + Admitted(cps[1..], budget - |Utf8(cps[0])|)
  }

  lemma {:induction false} AdmittedIsLongest(cps: seq<int>, budget: int)
    ensures forall k :: 0 <= k < Admitted(cps, budget) ==> budget - |Utf8Text(cps[..k])| > 6
    ensures Admitted(cps, budget) < |cps| ==> budget - |Utf8Text(cps[..Admitted(cps, budget)])| <= 6
  {
    if cps != [] && budget > 6 {
      var rest, left, n := cps[1..], budget - |Utf8(cps[0])|, Admitted(cps, budget);
      AdmittedIsLongest(rest, left);
      assert n == 1 + Admitted(rest, left) && |Utf8Text([])| == 0;
      hide *;
      forall k | 0 < k <= |cps|
        ensures budget - |Utf8Text(cps[..k])| == left - |Utf8Text(rest[..k - 1])|
      {
        FirstLength(cps, k);
      }
      assert cps[..0] == [];
    }
  }

  lemma FirstLength(cps: seq<int>, k: nat)
    requires 0 < k <= |cps|
    ensures |Utf8Text(cps[..k])| == |Utf8(cps[0])| + |Utf8Text(cps[1..][..k - 1])|
  {
    hide *;
    Utf8Split(cps[0], cps[1..][..k - 1]);
    assert cps[..k] == [cps[0]] + cps[1..][..k - 1];
  }

  lemma {:induction false} Utf8Split(cp: int, cps: seq<int>)
    ensures Utf8Text([cp] + cps) == Utf8(cp) + Utf8Text(cps)
  {
    hide Utf8;
    var all := [cp] + cps;
    if cps == [] {
      assert all == [cp] && all[..0] == [];
    } else {
      Utf8Split(cp, cps[..|cps| - 1]);
      assert all[..|all| - 1] == [cp] + cps[..|cps| - 1];
    }
  }

  /** The bytes put at position o, everything else as it was. */
  ghost predicate Put(was: seq<int>, now: seq<int>, o: nat, bytes: seq<int>) {
    o + |bytes| <= |was| && now == was[..o] + bytes + was[o + |bytes|..]
  }

  lemma IsPut(was: seq<int>, now: seq<int>, o: nat, bytes: seq<int>)
    requires |now| == |was| && o + |bytes| <= |was|
    requires forall k :: o <= k < o + |bytes| ==> now[k] == bytes[k - o]
    requires forall k :: 0 <= k < o || o + |bytes| <= k < |was| ==> now[k] == was[k]
    ensures Put(was, now, o, bytes)
  {
  }

  lemma PutTwice(was: seq<int>, t: seq<int>, now: seq<int>, o: nat, a: seq<int>, b: seq<int>)
    requires Put(was, t, o, a) && Put(t, now, o + |a|, b)
    ensures Put(was, now, o, a + b)
  {
  }

  lemma PutJoined(was: seq<int>, t: seq<int>, now: seq<int>, o: nat, s: seq<int>, a: nat, b: nat, c: nat)
    requires a <= b <= c <= |s| && Put(was, t, o, s[a..b]) && Put(t, now, o + (b - a), s[b..c])
    ensures Put(was, now, o, s[a..c])
  {
    hide Put;
    PutTwice(was, t, now, o, s[a..b], s[b..c]);
    Joined(s, a, b, c);
  }

  // ----- the decoder's progress -----

  /** The first d of all characters are done, those in cps have been put out, `left` bytes of
      the budget are left, and `todo` is the rest of the text. */
  ghost predicate Progress(chars: seq<int>, budget: int, todo: seq<int>, d: nat, cps: seq<int>, left: int) {
    && d <= |chars| && Chars(todo) == chars[d..] && PairsOk(todo) && IsBytes(todo)
    && cps <= chars && |cps| <= d && left == budget - |Utf8Text(cps)| && (left > 6 ==> |cps| == d)
    && (left <= 6 ==> left > 2 || cps == [])
    && Admitted(chars, budget) == |cps| + Admitted(Chars(todo), left)
  }

  lemma AtFirst(text: seq<int>, budget: int)
    requires PairsOk(text) && IsBytes(text)
    ensures Progress(Chars(text), budget, text, 0, [], budget)
  {
  }

  /** The next character of the text, and its length in bytes. */
  function NextLen(todo: seq<int>): nat
    requires |todo| >= 2
  {
    if StartsPair(todo) then 4 else 2
  }

  lemma NextLenMeans(todo: seq<int>)
    requires |todo| >= 2
    ensures NextLen(todo) == if 0xD8 <= todo[1] < 0xE0 then 4 else 2
  {
  }

  lemma OneMore(chars: seq<int>, budget: int, todo: seq<int>, d: nat, cps: seq<int>, left: int, ucs: int)
    requires Progress(chars, budget, todo, d, cps, left) && 2 <= |todo| && NextLen(todo) <= |todo|
    requires ucs == if StartsPair(todo) then PairValue(todo) else Unit(todo)
    ensures 0 <= ucs < 0x11_0000 && |Utf8(ucs)| <= 4
    ensures left > 6 ==> Progress(chars, budget, todo[NextLen(todo)..], d + 1, cps + [ucs], left - |Utf8(ucs)|)
    ensures left > 6 ==> Utf8Text(cps + [ucs]) == Utf8Text(cps) + Utf8(ucs)
    ensures left <= 6 ==> Progress(chars, budget, todo[NextLen(todo)..], d + 1, cps, left)
  {
    hide Utf8;
    assert Chars(todo) == [ucs] + Chars(todo[NextLen(todo)..]);
    InRange(todo, ucs);
    assert chars[d + 1..] == chars[d..][1..] && chars[d] == ucs;
    assert (cps + [ucs])[..|cps|] == cps;
  }

  lemma InRange(todo: seq<int>, ucs: int)
    requires IsBytes(todo) && PairsOk(todo) && 2 <= |todo| && NextLen(todo) <= |todo|
    requires ucs == if StartsPair(todo) then PairValue(todo) else Unit(todo)
    ensures 0 <= ucs < 0x11_0000 && |Utf8(ucs)| <= 4
  {
  }

  /** When no further character is complete, the admitted ones have been put out. */
  lemma AtLast(chars: seq<int>, budget: int, todo: seq<int>, d: nat, cps: seq<int>, left: int)
    requires Progress(chars, budget, todo, d, cps, left) && (|todo| < 2 || |todo| < NextLen(todo))
    ensures Admitted(chars, budget) <= |chars| && cps == chars[..Admitted(chars, budget)]
    ensures left == budget - |Utf8Text(cps)| && (budget >= 1 ==> left >= 1) && (budget < 1 ==> |Utf8Text(cps)| == 0)
  {
    assert cps == chars[..|cps|];
  }

  // ----- encoding one character -----

  /** The number of six-bit tails, and the mark of the first byte. */
  function Tails(ucs: nat): nat { if ucs < 0x80 then 0 else if ucs < 0x800 then 1 else if ucs < 0x1_0000 then 2 else 3 }

  function Utf8Mark(tail: nat): int
    requires tail < 6
  {
    [0x00, 0xC0, 0xE0, 0xF0, 0xF8, 0xFC][tail]
  }

  lemma ShiftedDown(ucs: nat)
    requires ucs < 0x11_0000
    ensures Shr(ucs, 6) == ucs / 0x40 && Shr(ucs, 11) == ucs / 0x800 && Shr(ucs, 12) == ucs / 0x1000
    ensures Shr(ucs, 16) == ucs / 0x1_0000 && Shr(ucs, 18) == ucs / 0x4_0000 && Shr(ucs, 21) == 0 && Shr(ucs, 0) == ucs
  {
    Pow2Values();
    Pow2Add(4, 2);
    Pow2Add(8, 3);
    Pow2Add(8, 4);
    Pow2Add(16, 2);
    Pow2Add(16, 5);
    Pow2Add(3, 2);
  }

  lemma TailBytes(ucs: nat, tail: nat)
    requires ucs < 0x11_0000 && tail < Tails(ucs)
    ensures 0x80 + Shr(ucs, 6 * tail) % 0x40 == Utf8(ucs)[Tails(ucs) - tail]
  {
    ShiftedDown(ucs);
    hide Shr;
  }

  lemma FirstByte(ucs: nat)
    requires ucs < 0x11_0000
    ensures |Utf8(ucs)| == Tails(ucs) + 1 && Tails(ucs) <= 3
    ensures Shr(ucs, 6 * Tails(ucs)) + Utf8Mark(Tails(ucs)) == Utf8(ucs)[0]
  {
    ShiftedDown(ucs);
    hide Shr;
  }

  /** utf8encode's search for the number of tails. */
  lemma MoreTails(ucs: nat, tail: nat)
    requires 0x80 <= ucs < 0x11_0000 && tail <= Tails(ucs)
    ensures Shr(ucs, 5 * tail + 6) != 0 <==> tail < Tails(ucs)
  {
    ShiftedDown(ucs);
    hide Shr;
  }

  /** utf8encode: writes the UTF-8 form of the character and returns the position behind it. */
  method Utf8Encode(ucs: nat, utf8: array<int>, at: nat) returns (end: nat)
    requires ucs < 0x11_0000 && at + |Utf8(ucs)| <= utf8.Length
    modifies utf8
    ensures end == at + |Utf8(ucs)| && Put(old(utf8[..]), utf8[..], at, Utf8(ucs))
  {
    hide *;
    FirstByte(ucs);
    ghost var was := utf8[..];
    var tail := 0;
    if ucs > 0x7F {
      NoTail(ucs);
      MoreTails(ucs, tail);
      while Shr(ucs, 5 * tail + 6) != 0
        invariant tail <= Tails(ucs) && (Shr(ucs, 5 * tail + 6) != 0 <==> tail < Tails(ucs))
        invariant utf8[..] == was
        decreases Tails(ucs) - tail
      {
        tail := tail + 1;
        MoreTails(ucs, tail);
      }
    } else {
      NoTail(ucs);
    }
    end := at;
    utf8[end] := Shr(ucs, 6 * tail) + Utf8Mark(tail);
    end := end + 1;
    while tail > 0
      invariant 0 <= tail <= Tails(ucs) && end == at + 1 + Tails(ucs) - tail
      invariant forall i :: at <= i < end ==> utf8[i] == Utf8(ucs)[i - at]
      invariant forall i :: 0 <= i < at || end <= i < utf8.Length ==> utf8[i] == was[i]
    {
      tail := tail - 1;
      TailBytes(ucs, tail);
      utf8[end] := Shr(ucs, 6 * tail) % 0x40 + 0x80;
      end := end + 1;
    }
    IsPut(was, utf8[..], at, Utf8(ucs));
  }

  lemma NoTail(ucs: nat)
    ensures ucs < 0x80 <==> Tails(ucs) == 0
  {
  }

  // ----- the file cache -----

  const STREAM_BUFFER_SIZE := 1024

  /** memcpy into an array, from bytes that lie elsewhere. */
  method Memcpy(dst: array<int>, o: nat, src: seq<int>)
    requires o + |src| <= dst.Length
    modifies dst
    ensures Put(old(dst[..]), dst[..], o, src)
  {
    ghost var was := dst[..];
    for i := 0 to |src|
      invariant forall k :: o <= k < o + i ==> dst[k] == src[k - o]
      invariant forall k :: 0 <= k < o || o + i <= k < dst.Length ==> dst[k] == was[k]
    {
      dst[o + i] := src[i];
    }
    IsPut(was, dst[..], o, src);
  }

  /** A part of the cache is a part of the file. */
  lemma FromFile(buffer: seq<int>, length: nat, file: seq<int>, at: nat, i: nat, j: nat)
    requires i <= j <= length <= |buffer| && at + length <= |file| && buffer[..length] == file[at..at + length]
    ensures buffer[i..j] == file[at + i..at + j]
  {
    forall k | 0 <= k < j - i
      ensures buffer[i..j][k] == file[at + i..at + j][k]
    {
      assert buffer[..length][i + k] == file[at..at + length][i + k];
    }
  }

  lemma Joined(s: seq<int>, a: nat, b: nat, c: nat)
    requires a <= b <= c <= |s|
    ensures s[a..b] + s[b..c] == s[a..c]
  {
  }

  lemma ShortOrNot(len: int, rest: int, left: int, leftAfter: int)
    requires leftAfter == left - rest
    ensures Min(len - rest, leftAfter) == Min(len, left) - rest
    ensures Min(len, left) <= len && Min(len, left) <= left
  {
  }

  lemma MinMeans(a: int, b: int)
    ensures Min(a, b) == if a <= b then a else b
  {
  }

  /** What a decoding is to come to: the end and the start of the string, its size in bytes, the
      output before, the place in it, the characters, and the budget. */
  datatype Goal = Goal(stop: nat, from: int, size: nat, was: seq<int>, at: nat, chars: seq<int>, budget: int)

  /** Puts a character out if more than six bytes of the budget are left. */
  method PutCharacter(ghost g: Goal, ucs: nat, utf8: array<int>, end0: nat, left0: int, ghost cps0: seq<int>)
    returns (end: nat, left: int, ghost cps: seq<int>)
    requires Put(g.was, utf8[..], g.at, Utf8Text(cps0)) && end0 == g.at + |Utf8Text(cps0)|
    requires left0 == g.budget - |Utf8Text(cps0)| && g.at + g.budget <= |g.was| == utf8.Length
    requires ucs < 0x11_0000 && |Utf8(ucs)| <= 4
    requires left0 > 6 ==> Utf8Text(cps0 + [ucs]) == Utf8Text(cps0) + Utf8(ucs)
    modifies utf8
    ensures Put(g.was, utf8[..], g.at, Utf8Text(cps)) && end == g.at + |Utf8Text(cps)|
    ensures cps == (if left0 > 6 then cps0 + [ucs] else cps0)
            && left == if left0 > 6 then left0 - |Utf8(ucs)| else left0
  {
    hide *;
    end, left, cps := end0, left0, cps0;
    if left > 6 {
      ghost var t := utf8[..];
      end := Utf8Encode(ucs, utf8, end0);
      PutTwice(g.was, t, utf8[..], g.at, Utf8Text(cps0), Utf8(ucs));
      left := left - (end - end0);
      cps := cps + [ucs];
    }
  }

  lemma PairFirst(chunk: seq<int>, pair: seq<int>, n: nat, read: seq<int>, rest: seq<int>)
    requires |pair| == 2 && 2 + n <= |chunk| && chunk[..2] == pair && chunk[2..2 + n] == read
    ensures chunk[0..2 + n] + rest == pair + (read + rest)
  {
    assert chunk[0..2 + n] == chunk[..2] + chunk[2..2 + n];
  }

  /** The character at p, from two bytes or from the four of a surrogate pair. */
  method Character(chunk: array<int>, p: nat, n: nat, ghost todo: seq<int>) returns (ucs: int, len: nat)
    requires p + n <= chunk.Length && 2 <= n && |todo| >= 2 && chunk[p..p + n] <= todo
    requires NextLen(todo) <= n
    ensures len == NextLen(todo) && ucs == if StartsPair(todo) then PairValue(todo) else Unit(todo)
  {
    assert forall k :: 0 <= k < n ==> todo[k] == chunk[p + k];
    if 0xD8 <= chunk[p + 1] < 0xE0 {
      ucs := 0x1_0000 + (chunk[p] * 0x400 + (chunk[p + 1] - 0xD8) * 0x4_0000 + chunk[p + 2]
             + (chunk[p + 3] - 0xDC) * 0x100);
      len := 4;
    } else {
      ucs := chunk[p] + chunk[p + 1] * 0x100;
      len := 2;
    }
  }

  lemma PutZero(was: seq<int>, t: seq<int>, now: seq<int>, at: nat, text: seq<int>)
    requires Put(was, t, at, text) && at + |text| < |was| && now == t[at + |text| := 0]
    ensures Put(was, now, at, text + [0])
  {
  }

  lemma NoText(was: seq<int>, at: nat)
    requires at <= |was|
    ensures Utf8Text([]) == [] && Put(was, was, at, [])
  {
  }

  class StreamBuffer {
    /** The file, and the position of its descriptor. */
    const file: seq<int>
    var fileAt: nat
    const buffer: array<int>
    var length: nat
    var position: nat
    var eof: bool

    ghost predicate Valid()
      reads this, buffer
    {
      && position <= length <= buffer.Length == STREAM_BUFFER_SIZE && length <= fileAt <= |file|
      && buffer[..length] == file[fileAt - length..fileAt]
    }

    /** Where in the file the next byte comes from. */
    ghost function Offset(): int
      reads this
    {
      fileAt - (length - position)
    }

    constructor (f: seq<int>)
      ensures Valid() && file == f && Offset() == 0 && !eof && fresh(buffer)
    {
      file, fileAt, length, position, eof := f, 0, 0, 0, false;
      buffer := new int[STREAM_BUFFER_SIZE](_ => 0);
    }

    /** read(fd, buffer, buffer_size) on a regular file */
    method Fill()
      requires fileAt <= |file| && buffer.Length == STREAM_BUFFER_SIZE
      modifies this`fileAt, this`length, buffer
      ensures length == Min(STREAM_BUFFER_SIZE, |file| - old(fileAt)) && fileAt == old(fileAt) + length
      ensures buffer[..length] == file[old(fileAt)..fileAt]
    {
      length := Min(STREAM_BUFFER_SIZE, |file| - fileAt);
      Memcpy(buffer, 0, file[fileAt..fileAt + length]);
      fileAt := fileAt + length;
      assert buffer[..length] == file[fileAt - length..fileAt];
    }

    /** What the rest of the cache and one new filling hold. */
    ghost function Available(): int
      reads this
    {
      length - position + Min(STREAM_BUFFER_SIZE, |file| - fileAt)
    }

    /** stream_buffer_read: the next bytes of the file, fewer only where the cache and one new
        filling do not hold as many; for requests of at most a filling that is at its end. */
    method Read(dst: array<int>, o: nat, len: nat) returns (n: nat)
      requires Valid() && o + len <= dst.Length && dst != buffer
      modifies this, buffer, dst
      ensures Valid() && n == Min(len, old(Available())) && Offset() == old(Offset()) + n
      ensures len <= STREAM_BUFFER_SIZE ==> n == Min(len, |file| - old(Offset()))
      ensures eof <==> old(eof) || n < len
      ensures 0 <= old(Offset()) && Put(old(dst[..]), dst[..], o, file[old(Offset())..Offset()])
    {
      hide *;
      ValidMeans();
      Answered(len);
      if position + len > length {
        n := ReadAcross(dst, o, len);
      } else {
        FromFile(buffer[..], length, file, fileAt - length, position, position + len);
        Memcpy(dst, o, buffer[position..position + len]);
        position := position + len;
        IsValid();
        OffsetMeans();
        n := len;
      }
    }

    /** How much a request of len bytes gets. */
    lemma Answered(len: nat)
      requires Valid()
      ensures Available() == length - position + Min(STREAM_BUFFER_SIZE, |file| - fileAt) >= length - position
      ensures position + len <= length ==> Min(len, Available()) == len
      ensures len <= STREAM_BUFFER_SIZE ==> Min(len, Available()) == Min(len, |file| - Offset())
    {
    }

    /** The part of stream_buffer_read that fills the cache anew. */
    method ReadAcross(dst: array<int>, o: nat, len: nat) returns (n: nat)
      requires Valid() && o + len <= dst.Length && dst != buffer
      requires position + len > length
      modifies this, buffer, dst
      ensures Valid() && n == Min(len, old(Available())) && Offset() == old(Offset()) + n
      ensures eof <==> old(eof) || n < len
      ensures 0 <= old(Offset()) && Put(old(dst[..]), dst[..], o, file[old(Offset())..Offset()])
    {
      hide *;
      ghost var was, start, at := dst[..], Offset(), fileAt;
      Answered(len);
      var rest := ReadRest(dst, o);
      ghost var first := dst[..];
      Refill(len - rest);
      ShortOrNot(len, rest, old(Available()), Min(STREAM_BUFFER_SIZE, |file| - at));
      assert dst[..] == first;
      Memcpy(dst, o + rest, buffer[..position]);
      PutJoined(was, first, dst[..], o, file, start, at, at + position);
      n := rest + position;
    }

    /** What is left in the cache. */
    method ReadRest(dst: array<int>, o: nat) returns (rest: nat)
      requires Valid() && o + (length - position) <= dst.Length && dst != buffer
      modifies dst
      ensures Valid() && 0 <= Offset() <= fileAt <= |file| && rest == fileAt - Offset() == length - position
      ensures Put(old(dst[..]), dst[..], o, file[Offset()..fileAt]) && |file[Offset()..fileAt]| == rest
    {
      hide *;
      ValidMeans();
      rest := length - position;
      FromFile(buffer[..], length, file, fileAt - length, position, length);
      Memcpy(dst, o, buffer[position..position + rest]);
      IsValid();
    }

    /** Fills the cache anew and takes its first `len` bytes. */
    method Refill(len: nat)
      requires Valid()
      modifies this, buffer
      ensures Valid() && position == Min(len, Min(STREAM_BUFFER_SIZE, |file| - old(fileAt))) && old(fileAt) <= |file|
      ensures position <= buffer.Length && buffer[..position] == file[old(fileAt)..old(fileAt) + position]
      ensures Offset() == old(fileAt) + position && (eof <==> old(eof) || position < len)
    {
      hide *;
      ValidMeans();
      ghost var at := fileAt;
      Fill();
      MinMeans(STREAM_BUFFER_SIZE, |file| - at);
      MinMeans(len, length);
      if length < len {
        position := length;
        eof := true;
      } else {
        position := len;
      }
      FromFile(buffer[..], length, file, at, 0, position);
      assert buffer[0..position] == buffer[..position];
      IsValid();
      OffsetMeans();
    }

    lemma ValidMeans()
      requires Valid()
      ensures position <= length <= buffer.Length == STREAM_BUFFER_SIZE && length <= fileAt <= |file|
      ensures buffer[..length] == file[fileAt - length..fileAt]
      ensures Offset() == fileAt - (length - position) && STREAM_BUFFER_SIZE == 1024
    {
    }

    lemma IsValid()
      requires position <= length <= buffer.Length == STREAM_BUFFER_SIZE && length <= fileAt <= |file|
      requires buffer[..length] == file[fileAt - length..fileAt]
      ensures Valid()
    {
    }

    lemma OffsetMeans()
      ensures Offset() == fileAt - (length - position)
    {
    }

    /** stream_buffer_advance: skips bytes; beyond the end of the file, or of the next filling
        of the cache, only the end is marked. */
    method Advance(size: nat)
      requires Valid()
      modifies this, buffer
      ensures position <= length ==> Valid() && Offset() == old(Offset()) + size
      ensures position > length <==> old(length - position) + Min(STREAM_BUFFER_SIZE, |file| - old(fileAt)) < size
      ensures eof <==> old(eof) || position > length
    {
      if position + size < length {
        position := position + size;
        return;
      }
      position := size - (length - position);
      Fill();
      if length < position {
        eof := true;
      }
    }

    // ----- asf_utf16LEdecode -----

    /** The string still to be read ends at `end`, or where the file does. */
    ghost predicate Reach(utf16bytes: nat, end: nat)
      reads this
    {
      0 <= Offset() <= end <= |file| && end - Offset() == Min(utf16bytes, |file| - Offset())
    }

    /** Reads the next part of the string to place o of the chunk. */
    method ReadChunk(chunk: array<int>, o: nat, utf16bytes: nat, ghost end: nat) returns (n: nat, rest: nat)
      requires Valid() && Reach(utf16bytes, end) && chunk != buffer && chunk.Length == 256 && o <= 2
      modifies this, buffer, chunk
      ensures Valid() && Reach(rest, end) && rest == utf16bytes - n && o + n <= 256
      ensures Offset() == old(Offset()) + n && 0 <= old(Offset()) && Offset() <= end <= |file|
      ensures (end - old(Offset())) % 2 == 0 && o % 2 == 0 ==> n % 2 == 0
      ensures n == 0 ==> old(Offset()) == end
      ensures chunk[..o] == old(chunk[..o]) && chunk[o..o + n] == file[old(Offset())..Offset()]
    {
      hide *;
      ReachMeans(utf16bytes, end);
      MinMeans(chunk.Length - o, utf16bytes);
      var len := Min(chunk.Length - o, utf16bytes);
      CacheSize();
      ghost var was, start := chunk[..], Offset();
      n := Read(chunk, o, len);
      MinMeans(len, |file| - start);
      MinMeans(utf16bytes, |file| - start);
      rest := utf16bytes - n;
      PutMeans(was, chunk[..], o, file[start..Offset()]);
      StillReach(rest, end);
    }

    method MovePair(chunk: array<int>, p: nat)
      requires p + 2 <= chunk.Length && chunk != buffer
      modifies chunk
      ensures chunk[..2] == old(chunk[p..p + 2]) && chunk[1] == old(chunk[p + 1]) == old(chunk[p..p + 2])[1]
    {
      chunk[0], chunk[1] := chunk[p], chunk[p + 1];
    }

    /** A surrogate at the end of the chunk: moves it to the front and reads some more. */
    method CompletePair(chunk: array<int>, p0: nat, n0: nat, rest0: nat, ghost stop: nat)
      returns (p: nat, n: nat, rest: nat)
      requires Valid() && Reach(rest0, stop) && chunk != buffer && chunk.Length == 256 && n0 == 2 && p0 + n0 <= 256
      requires 0 <= Offset() <= stop <= |file| && (stop - Offset()) % 2 == 0
      modifies this, buffer, chunk
      ensures Valid() && Reach(rest, stop) && p == 0 && 2 <= n <= 256 && n % 2 == 0
      ensures old(Offset()) <= Offset() <= stop && (stop - Offset()) % 2 == 0
      ensures rest == rest0 - (Offset() - old(Offset()))
      ensures n < 4 ==> Offset() == stop
      ensures n + stop - Offset() == n0 + stop - old(Offset()) && chunk[1] == old(chunk[p0 + 1])
      ensures Todo(chunk, p, n, stop) == old(Todo(chunk, p0, n0, stop))
    {
      hide *;
      TodoMeans(chunk, p0, n0, stop);
      ghost var pair, start := chunk[p0..p0 + n0], Offset();
      MovePair(chunk, p0);
      n, rest := ReadChunk(chunk, 2, rest0, stop);
      PairTodo(chunk, pair, start, n, stop);
      p := 0;
      n := n + 2;
    }

    lemma PairTodo(chunk: array<int>, pair: seq<int>, start: int, n: nat, stop: nat)
      requires |pair| == 2 && 2 + n <= chunk.Length && chunk[..2] == pair && 0 <= start <= Offset() <= stop <= |file|
      requires chunk[2..2 + n] == file[start..Offset()]
      ensures Todo(chunk, 0, n + 2, stop) == pair + file[start..stop] && chunk[1] == pair[1]
    {
      assert chunk[..2][1] == chunk[1];
      Joined(file, start, Offset(), stop);
      PairFirst(chunk[..], pair, n, file[start..Offset()], file[Offset()..stop]);
    }

    /** What is still to be decoded: the rest of the chunk and of the string in the file. */
    ghost function Todo(chunk: array<int>, p: int, n: int, stop: nat): seq<int>
      reads this, chunk
    {
      if 0 <= p && 0 <= n && p + n <= chunk.Length && 0 <= Offset() <= stop <= |file|
      then chunk[p..p + n] + file[Offset()..stop]
      else []
    }

    lemma TodoMeans(chunk: array<int>, p: int, n: int, stop: nat)
      requires 0 <= p && 0 <= n && p + n <= chunk.Length && 0 <= Offset() <= stop <= |file|
      ensures Todo(chunk, p, n, stop) == chunk[p..p + n] + file[Offset()..stop]
      ensures |Todo(chunk, p, n, stop)| == n + stop - Offset()
    {
    }

    lemma TodoSkip(chunk: array<int>, p: nat, n: nat, len: nat, stop: nat)
      requires p + n <= chunk.Length && 0 <= Offset() <= stop <= |file| && len <= n
      ensures |Todo(chunk, p, n, stop)| >= len && Todo(chunk, p, n, stop)[len..] == Todo(chunk, p + len, n - len, stop)
    {
    }

    /** In the middle of decoding: d characters are done, those in cps are put out, and the rest
        of the string is in the chunk from p on and in the file. */
    ghost predicate Decoding(g: Goal, chunk: array<int>, p: int, n: int, rest: int, out: seq<int>, end: int, left: int,
                             d: nat, cps: seq<int>)
      reads this, buffer, chunk
    {
      && 0 <= p && 0 <= n && 0 <= rest && p + n <= chunk.Length == 256 && chunk != buffer && n % 2 == 0
      && Valid() && Reach(rest, g.stop) && rest == g.size - (Offset() - g.from)
      && 0 <= Offset() <= g.stop <= |file| && (n == 0 ==> Offset() == g.stop) && (g.stop - Offset()) % 2 == 0
      && Progress(g.chars, g.budget, Todo(chunk, p, n, g.stop), d, cps, left)
      && Put(g.was, out, g.at, Utf8Text(cps)) && end == g.at + |Utf8Text(cps)|
      && 0 <= g.at && g.at + g.budget <= |g.was| == |out|
    }

    lemma DecodingMeans(g: Goal, chunk: array<int>, p: int, n: int, rest: int, out: seq<int>, end: int, left: int,
                        d: nat, cps: seq<int>)
      requires Decoding(g, chunk, p, n, rest, out, end, left, d, cps)
      ensures 0 <= p && 0 <= n && 0 <= rest && p + n <= chunk.Length == 256 && chunk != buffer && n % 2 == 0
      ensures Valid() && Reach(rest, g.stop) && rest == g.size - (Offset() - g.from)
      ensures 0 <= Offset() <= g.stop <= |file| && (n == 0 ==> Offset() == g.stop) && (g.stop - Offset()) % 2 == 0
      ensures Progress(g.chars, g.budget, Todo(chunk, p, n, g.stop), d, cps, left)
      ensures Put(g.was, out, g.at, Utf8Text(cps)) && end == g.at + |Utf8Text(cps)|
      ensures left == g.budget - |Utf8Text(cps)| && 0 <= g.at && g.at + g.budget <= |g.was| == |out|
    {
      hide Chars;
    }

    lemma IsDecoding(g: Goal, chunk: array<int>, p: int, n: int, rest: int, out: seq<int>, end: int, left: int,
                     d: nat, cps: seq<int>)
      requires 0 <= p && 0 <= n && 0 <= rest && p + n <= chunk.Length == 256 && chunk != buffer && n % 2 == 0
      requires Valid() && Reach(rest, g.stop) && rest == g.size - (Offset() - g.from)
      requires 0 <= Offset() <= g.stop <= |file| && (n == 0 ==> Offset() == g.stop) && (g.stop - Offset()) % 2 == 0
      requires Progress(g.chars, g.budget, Todo(chunk, p, n, g.stop), d, cps, left)
      requires Put(g.was, out, g.at, Utf8Text(cps)) && end == g.at + |Utf8Text(cps)|
      requires 0 <= g.at && g.at + g.budget <= |g.was| == |out|
      ensures Decoding(g, chunk, p, n, rest, out, end, left, d, cps)
    {
    }

    /** Decodes the string of utf16bytes bytes at the stream's position and puts it, ended by a
        zero, at `at`: as many of its characters as the budget rule admits. */
    method Utf16LEDecode(utf16bytes: nat, utf8: array<int>, at: nat, utf8bytes: int, ghost stop: nat)
      returns (end: nat, left: int)
      requires Valid() && IsBytes(file) && Reach(utf16bytes, stop) && utf8 != buffer
      requires (stop - Offset()) % 2 == 0 && PairsOk(file[Offset()..stop])
      requires at < utf8.Length && at + utf8bytes <= utf8.Length
      modifies this, buffer, utf8
      ensures var chars := Chars(file[old(Offset())..stop]);
              var text := Utf8Text(chars[..Admitted(chars, utf8bytes)]);
              Put(old(utf8[..]), utf8[..], at, text + [0]) && end == at + |text| && left == utf8bytes - |text| - 1
      ensures old(Offset()) + utf16bytes <= |file| ==> Valid() && Offset() == old(Offset()) + utf16bytes
      ensures old(Offset()) + utf16bytes > |file| ==> eof
      ensures utf8bytes >= 1 ==> left >= 0
    {
      hide *;
      ReachMeans(utf16bytes, stop);
      ghost var d: nat, cps: seq<int> := 0, [];
      ghost var g := Goal(stop, Offset(), utf16bytes, utf8[..], at, Chars(file[Offset()..stop]), utf8bytes);
      BytesSlice(file, Offset(), stop);
      AtFirst(file[Offset()..stop], utf8bytes);
      NoText(utf8[..], at);
      var chunk := new int[256];
      var p, n, rest: int := 0, 0, utf16bytes;
      end, left := at, utf8bytes;
      n, rest := ReadChunk(chunk, 0, rest, stop);
      Joined(file, g.from, Offset(), stop);
      TodoMeans(chunk, p, n, stop);
      IsDecoding(g, chunk, p, n, rest, utf8[..], end, left, d, cps);
      while n > 0
        invariant fresh(chunk) && 0 <= Offset() <= stop && 0 <= n && 0 <= rest && 0 <= end
        invariant Decoding(g, chunk, p, n, rest, utf8[..], end, left, d, cps)
        decreases n + stop - Offset()
      {
        DecodingMeans(g, chunk, p, n, rest, utf8[..], end, left, d, cps);
        if 0xD8 <= chunk[p + 1] < 0xE0 && n < 4 {
          p, n, rest := CompletePair(chunk, p, n, rest, stop);
          IsDecoding(g, chunk, p, n, rest, utf8[..], end, left, d, cps);
          if n < 4 {
            break;
          }
        }
        p, n, rest, end, left, d, cps := DecodeNext(g, chunk, p, n, rest, utf8, end, left, d, cps);
      }
      left := Finish(g, chunk, p, n, rest, utf8, end, left, d, cps);
    }

    /** The terminating zero; bytes the file does not have are skipped. */
    method Finish(ghost g: Goal, ghost chunk: array<int>, ghost p: int, ghost n: int, rest: nat, utf8: array<int>,
                  end: nat,
                  left0: int, ghost d: nat, ghost cps: seq<int>) returns (left: int)
      requires Decoding(g, chunk, p, n, rest, utf8[..], end, left0, d, cps) && utf8 != buffer && g.at < |g.was|
      requires n == 0 || (n == 2 && p + 2 <= chunk.Length && 0 <= p && 0xD8 <= chunk[p + 1] < 0xE0
               && Offset() == g.stop)
      modifies this, buffer, utf8
      ensures var text := Utf8Text(g.chars[..Admitted(g.chars, g.budget)]);
              Put(g.was, utf8[..], g.at, text + [0]) && end == g.at + |text| && left == g.budget - |text| - 1
      ensures g.from + g.size <= |file| ==> Valid() && Offset() == g.from + g.size
      ensures g.from + g.size > |file| ==> eof
      ensures g.budget >= 1 ==> left >= 0
    {
      hide *;
      DecodingMeans(g, chunk, p, n, rest, utf8[..], end, left0, d, cps);
      ghost var last, t := Todo(chunk, p, n, g.stop), utf8[..];
      TodoMeans(chunk, p, n, g.stop);
      if n == 2 {
        NextLenMeans(last);
        assert last[1] == chunk[p + 1];
      }
      AtLast(g.chars, g.budget, last, d, cps, left0);
      PutMeans(g.was, t, g.at, Utf8Text(cps));
      utf8[end] := 0;
      PutZero(g.was, t, utf8[..], g.at, Utf8Text(cps));
      left := left0 - 1;
      ReachMeans(rest, g.stop);
      MinMeans(rest, |file| - Offset());
      if rest > 0 {
        ValidMeans();
        MinMeans(STREAM_BUFFER_SIZE, |file| - fileAt);
        Advance(rest);
      }
    }

    /** One character; an empty chunk is then filled again. */
    method DecodeNext(ghost g: Goal, chunk: array<int>, p0: nat, n0: nat, rest0: nat, utf8: array<int>, end0: nat,
                      left0: int,
                      ghost d0: nat, ghost cps0: seq<int>)
      returns (p: nat, n: nat, rest: nat, end: nat, left: int, ghost d: nat, ghost cps: seq<int>)
      requires Decoding(g, chunk, p0, n0, rest0, utf8[..], end0, left0, d0, cps0) && utf8 != buffer && utf8 != chunk
      requires n0 >= 2 && p0 + n0 <= chunk.Length && (0xD8 <= chunk[p0 + 1] < 0xE0 ==> n0 >= 4) && Offset() <= g.stop
      modifies this, buffer, utf8, chunk
      ensures Decoding(g, chunk, p, n, rest, utf8[..], end, left, d, cps)
      ensures 0 <= Offset() <= g.stop && n + g.stop - Offset() < old(n0 + g.stop - Offset())
    {
      hide *;
      DecodingMeans(g, chunk, p0, n0, rest0, utf8[..], end0, left0, d0, cps0);
      ghost var todo := Todo(chunk, p0, n0, g.stop);
      CharacterReady(chunk, p0, n0, g.stop);
      NextLenMeans(todo);
      var ucs, len := Character(chunk, p0, n0, todo);
      OneMore(g.chars, g.budget, todo, d0, cps0, left0, ucs);
      TodoSkip(chunk, p0, n0, len, g.stop);
      d := d0 + 1;
      end, left, cps := PutCharacter(g, ucs, utf8, end0, left0, cps0);
      p, n, rest := MoreText(chunk, p0 + len, n0 - len, rest0, g.stop);
      IsDecoding(g, chunk, p, n, rest, utf8[..], end, left, d, cps);
    }

    lemma CharacterReady(chunk: array<int>, p: nat, n: nat, stop: nat)
      requires n >= 2 && p + n <= chunk.Length && 0 <= Offset() <= stop <= |file|
      requires 0xD8 <= chunk[p + 1] < 0xE0 ==> n >= 4
      ensures var todo := Todo(chunk, p, n, stop);
              && |todo| == n + stop - Offset() && chunk[p..p + n] <= todo && NextLen(todo) <= n
    {
    }

    /** Fills an empty chunk again if the string goes on. */
    method MoreText(chunk: array<int>, p0: nat, n0: nat, rest0: nat, ghost stop: nat)
      returns (p: nat, n: nat, rest: nat)
      requires Valid() && Reach(rest0, stop) && chunk != buffer && p0 + n0 <= chunk.Length == 256 && n0 % 2 == 0
      requires 0 <= Offset() <= stop <= |file| && (stop - Offset()) % 2 == 0
      modifies this, buffer, chunk
      ensures Valid() && Reach(rest, stop) && p + n <= 256 && n % 2 == 0 && rest == rest0 - (Offset() - old(Offset()))
      ensures 0 <= Offset() <= stop && (stop - Offset()) % 2 == 0 && (n == 0 ==> Offset() == stop)
      ensures n + stop - Offset() == n0 + stop - old(Offset())
      ensures Todo(chunk, p, n, stop) == old(Todo(chunk, p0, n0, stop))
    {
      hide *;
      ReachMeans(rest0, stop);
      MinMeans(rest0, |file| - Offset());
      p, n, rest := p0, n0, rest0;
      if n == 0 && rest > 0 {
        TodoMeans(chunk, p, n, stop);
        ghost var here := Offset();
        n, rest := ReadChunk(chunk, 0, rest, stop);
        p := 0;
        Joined(file, here, Offset(), stop);
        TodoMeans(chunk, p, n, stop);
      }
    }

    lemma ReachMeans(utf16bytes: nat, end: nat)
      requires Reach(utf16bytes, end)
      ensures 0 <= Offset() <= end <= |file| && end - Offset() == Min(utf16bytes, |file| - Offset())
    {
    }

    lemma StillReach(utf16bytes: nat, end: nat)
      requires 0 <= Offset() <= end <= |file|
      requires end - Offset() == if utf16bytes <= |file| - Offset() then utf16bytes else |file| - Offset()
      ensures Reach(utf16bytes, end)
    {
    }
  }

  lemma CacheSize()
    ensures STREAM_BUFFER_SIZE == 1024
  {
  }

  lemma PutMeans(was: seq<int>, now: seq<int>, o: nat, bytes: seq<int>)
    requires Put(was, now, o, bytes)
    ensures |now| == |was| && o + |bytes| <= |was|
    ensures now[..o] == was[..o] && now[o..o + |bytes|] == bytes && now[o + |bytes|..] == was[o + |bytes|..]
  {
  }
}
