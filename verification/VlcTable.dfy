/** Multi-level lookup tables for prefix codes: what a finished table means, and that
    walking it is plain prefix-code matching. */
module VlcTable {
  import opened Bits
  import opened Ints
  import opened Optional

  /** A code word: its length in bits, 0 for a hole, and its value. */
  datatype Code = Code(len: nat, code: nat)

  /** A table entry: the symbol or the index of a subtable, and the number of bits, negative
      for a subtable. */
  datatype Entry = Entry(code: int, bits: int)

  const EMPTY := Entry(-1, 0)

  predicate CodesOk(cs: seq<Code>, maxLen: nat) {
    forall i :: 0 <= i < |cs| ==> cs[i].len <= maxLen && cs[i].code < Pow2(cs[i].len)
  }

  /** No code word is the beginning of another one. */
  predicate PrefixFree(cs: seq<Code>) {
    forall i, j :: 0 <= i < |cs| && 0 <= j < |cs| && i != j && 0 < cs[i].len <= cs[j].len ==>
      Shr(cs[j].code, cs[j].len - cs[i].len) != cs[i].code
  }

  /** The code word begins the word q of m bits. */
  predicate Begins(c: Code, q: nat, m: nat) { 0 < c.len <= m && Shr(q, m - c.len) == c.code }

  /** The code word is longer than the word q of m bits and begins with it. */
  predicate Extends(c: Code, q: nat, m: nat) { c.len > m && Shr(c.code, c.len - m) == q }

  /** How many more bits the longest of the first n code words that extend q has. */
  function Rest(cs: seq<Code>, n: nat, q: nat, m: nat): nat
    requires n <= |cs|
  {
    if n == 0 then 0
    else Max(Rest(cs, n - 1, q, m), if Extends(cs[n - 1], q, m) then cs[n - 1].len - m else 0)
  }

  lemma {:induction false} RestBound(cs: seq<Code>, n: nat, q: nat, m: nat)
    requires n <= |cs|
    ensures forall i :: 0 <= i < n && Extends(cs[i], q, m) ==> cs[i].len - m <= Rest(cs, n, q, m)
    ensures Rest(cs, n, q, m) > 0 ==>
            exists i :: 0 <= i < n && Extends(cs[i], q, m) && cs[i].len - m == Rest(cs, n, q, m)
  {
    if n > 0 {
      RestBound(cs, n - 1, q, m);
    }
  }

  lemma {:induction false} RestAtMost(cs: seq<Code>, n: nat, q: nat, m: nat, maxLen: nat)
    requires n <= |cs| && CodesOk(cs, maxLen)
    ensures Rest(cs, n, q, m) > 0 ==> m + Rest(cs, n, q, m) <= maxLen
  {
    if n > 0 {
      RestAtMost(cs, n - 1, q, m, maxLen);
    }
  }

  /** The m-bit word after p with j as its nb last bits. */
  function Sub(p: nat, nb: nat, j: nat): nat { p * Pow2(nb) + j }

  /** A code word that is decided inside the table of the word p of l bits. */
  predicate Decides(c: Code, q: nat, l: nat, m: nat) { c.len > l && Begins(c, q, m) }

  /** The table of Pow2(nb) entries at `base` resolves the code words that extend the word p
      of l bits; it and its subtables lie between base and end. */
  ghost predicate Built(t: seq<Entry>, base: nat, nb: nat, cs: seq<Code>, p: nat, l: nat, end: nat, maxLen: nat)
    decreases maxLen - l, 1
  {
    && nb >= 1 && base + Pow2(nb) <= end <= |t|
    && forall j :: 0 <= j < Pow2(nb) ==> SlotOk(t, base, nb, cs, p, l, j, end, maxLen)
  }

  ghost predicate SlotOk(t: seq<Entry>, base: nat, nb: nat, cs: seq<Code>, p: nat, l: nat, j: nat, end: nat,
                         maxLen: nat)
    requires nb >= 1 && j < Pow2(nb) && base + Pow2(nb) <= end <= |t|
    decreases maxLen - l, 0
  {
    var q, m := Sub(p, nb, j), l + nb;
    var e := t[base + j];
    var rest := Rest(cs, |cs|, q, m);
    && (forall i :: 0 <= i < |cs| && Decides(cs[i], q, l, m) ==> e == Entry(i, cs[i].len - l))
    && ((forall i :: 0 <= i < |cs| ==> !Decides(cs[i], q, l, m)) ==>
          if rest == 0 then e == EMPTY
          else
            && m < maxLen && base + Pow2(nb) <= e.code && -e.bits == Min(rest, nb)
            && Built(t, e.code, Min(rest, nb), cs, q, m, end, maxLen))
  }

  // ----- a table depends only on its own part of the array -----

  lemma {:induction false} BuiltFrame(t: seq<Entry>, u: seq<Entry>, base: nat, nb: nat, cs: seq<Code>, p: nat, l: nat,
                                      end: nat, end': nat, maxLen: nat)
    requires Built(t, base, nb, cs, p, l, end, maxLen) && end <= end' <= |u|
    requires forall k :: base <= k < end ==> t[k] == u[k]
    ensures Built(u, base, nb, cs, p, l, end', maxLen)
    decreases maxLen - l, 1
  {
    forall j | 0 <= j < Pow2(nb)
      ensures SlotOk(u, base, nb, cs, p, l, j, end', maxLen)
    {
      assert SlotOk(t, base, nb, cs, p, l, j, end, maxLen);
      SlotFrame(t, u, base, nb, cs, p, l, j, end, end', maxLen);
    }
  }

  lemma {:induction false} SlotFrame(t: seq<Entry>, u: seq<Entry>, base: nat, nb: nat, cs: seq<Code>, p: nat, l: nat,
                                     j: nat, end: nat, end': nat, maxLen: nat)
    requires nb >= 1 && j < Pow2(nb) && base + Pow2(nb) <= end <= |t| && end <= end' <= |u|
    requires SlotOk(t, base, nb, cs, p, l, j, end, maxLen)
    requires t[base + j] == u[base + j] && forall k :: base + Pow2(nb) <= k < end ==> t[k] == u[k]
    ensures SlotOk(u, base, nb, cs, p, l, j, end', maxLen)
    decreases maxLen - l, 0
  {
    var q, m := Sub(p, nb, j), l + nb;
    var rest := Rest(cs, |cs|, q, m);
    if (forall i :: 0 <= i < |cs| ==> !Decides(cs[i], q, l, m)) && rest > 0 {
      BuiltFrame(t, u, t[base + j].code, Min(rest, nb), cs, q, m, end, end', maxLen);
    }
  }

  // ----- walking the table -----

  /** The number spelled by the n bits of s at pos. */
  function Peek(s: seq<int>, pos: nat, n: nat): int
    requires pos + n <= |s|
  {
    FromBits(s[pos..pos + n])
  }

  lemma PeekTwo(s: seq<int>, pos: nat, a: nat, b: nat)
    requires IsBits(s) && pos + a + b <= |s|
    ensures 0 <= Peek(s, pos, a) && 0 <= Peek(s, pos + a, b) < Pow2(b)
    ensures Peek(s, pos, a + b) == Sub(Peek(s, pos, a), b, Peek(s, pos + a, b))
    ensures Shr(Peek(s, pos, a + b), b) == Peek(s, pos, a)
  {
    hide FromBits, Shr, Pow2;
    var x, y := s[pos..pos + a], s[pos + a..pos + a + b];
    assert x + y == s[pos..pos + (a + b)];
    FromBitsAppend(x, y);
    assert IsBits(x) && IsBits(y);
    ShrUnique(FromBits(x + y), b, FromBits(x), FromBits(y));
  }

  /** The code word stands at pos in the bit string. */
  predicate Matches(c: Code, s: seq<int>, pos: nat) {
    c.len > 0 && pos + c.len <= |s| && Peek(s, pos, c.len) == c.code
  }

  /** A code word within the next m bits stands there exactly when it begins them. */
  lemma BeginsIsMatch(c: Code, s: seq<int>, pos: nat, m: nat)
    requires IsBits(s) && pos + m <= |s| && c.len <= m
    ensures 0 <= Peek(s, pos, m) && (Matches(c, s, pos) <==> Begins(c, Peek(s, pos, m), m))
  {
    PeekTwo(s, pos, c.len, m - c.len);
  }

  /** A longer code word can only stand there if it extends them. */
  lemma MatchExtends(c: Code, s: seq<int>, pos: nat, m: nat)
    requires IsBits(s) && pos + m <= |s| && c.len > m && Matches(c, s, pos)
    ensures 0 <= Peek(s, pos, m) && Extends(c, Peek(s, pos, m), m)
  {
    PeekTwo(s, pos, m, c.len - m);
  }

  /** The decision of one table, for the bits at pos of which l led to it. */
  lemma Decision(t: seq<Entry>, base: nat, nb: nat, cs: seq<Code>, l: nat, end: nat, maxLen: nat, s: seq<int>, pos: nat)
    requires IsBits(s) && pos + l + nb <= |s|
    requires 0 <= Peek(s, pos, l) && Built(t, base, nb, cs, Peek(s, pos, l), l, end, maxLen)
    requires forall i :: 0 <= i < |cs| && Matches(cs[i], s, pos) ==> cs[i].len > l
    ensures 0 <= Peek(s, pos, l + nb) && 0 <= Peek(s, pos + l, nb) < Pow2(nb)
    ensures var e := t[base + Peek(s, pos + l, nb)];
            var rest := Rest(cs, |cs|, Peek(s, pos, l + nb), l + nb);
            || (exists i ::
                  0 <= i < |cs| && Matches(cs[i], s, pos) && e == Entry(i, cs[i].len - l) && cs[i].len <= l + nb)
            || (e == EMPTY && forall i :: 0 <= i < |cs| ==> !Matches(cs[i], s, pos))
            || (rest > 0 && -e.bits == Min(rest, nb) && 0 <= e.code
                && Built(t, e.code, Min(rest, nb), cs, Peek(s, pos, l + nb), l + nb, end, maxLen)
                && forall i :: 0 <= i < |cs| && Matches(cs[i], s, pos) ==> cs[i].len > l + nb)
  {
    hide Peek, Pow2, Sub, Extends, Matches;
    var j := Peek(s, pos + l, nb);
    PeekTwo(s, pos, l, nb);
    var q, m := Peek(s, pos, l + nb), l + nb;
    assert SlotOk(t, base, nb, cs, Peek(s, pos, l), l, j, end, maxLen);
    forall i | 0 <= i < |cs|
      ensures Decides(cs[i], q, l, m) ==> Matches(cs[i], s, pos)
      ensures Matches(cs[i], s, pos) ==> Decides(cs[i], q, l, m) || (cs[i].len > m && Rest(cs, |cs|, q, m) > 0)
    {
      MatchDecides(cs, i, s, pos, l, m);
    }
  }

  lemma MatchDecides(cs: seq<Code>, i: nat, s: seq<int>, pos: nat, l: nat, m: nat)
    requires i < |cs| && IsBits(s) && pos + m <= |s| && l <= m
    requires Matches(cs[i], s, pos) ==> cs[i].len > l
    ensures 0 <= Peek(s, pos, m)
    ensures Decides(cs[i], Peek(s, pos, m), l, m) ==> Matches(cs[i], s, pos)
    ensures Matches(cs[i], s, pos) ==>
              Decides(cs[i], Peek(s, pos, m), l, m) || (cs[i].len > m && Rest(cs, |cs|, Peek(s, pos, m), m) > 0)
  {
    hide Peek, Shr;
    PeekTwo(s, pos, m, 0);
    if cs[i].len <= m {
      BeginsIsMatch(cs[i], s, pos, m);
    } else if Matches(cs[i], s, pos) {
      MatchExtends(cs[i], s, pos, m);
      RestBound(cs, |cs|, Peek(s, pos, m), m);
    }
  }

  // ----- get_vlc2 -----

  /** The reader shows at most this many bits at once. */
  const MIN_CACHE_BITS := 25

  /** GET_VLC: a table of nb bits is indexed by the next bits; a negative entry leads to a
      subtable while the depth lasts. None when an index or a width is out of range. */
  function Walk(t: seq<Entry>, base: int, nb: int, s: seq<int>, pos: nat, depth: nat): Option<(int, int)>
    decreases depth
  {
    if !(1 <= nb <= MIN_CACHE_BITS) || pos + nb > |s| || !(0 <= base + Peek(s, pos, nb) < |t|) then None
    else
      var e := t[base + Peek(s, pos, nb)];
      if depth > 1 && e.bits < 0 then Walk(t, e.code, -e.bits, s, pos + nb, depth - 1)
      else Some((e.code, pos + e.bits))
  }

  /** The table built for a whole code. */
  ghost predicate TableFor(t: seq<Entry>, bits: nat, cs: seq<Code>, maxLen: nat) {
    CodesOk(cs, maxLen) && Built(t, 0, bits, cs, 0, 0, |t|, maxLen)
  }

  /** What decoding must give: the code word that stands at pos and the position after it,
      or -1; how far the position then is, is left open. */
  ghost predicate Decoded(cs: seq<Code>, s: seq<int>, pos: nat, r: Option<(int, int)>) {
    && r.Some?
    && if exists i :: 0 <= i < |cs| && Matches(cs[i], s, pos)
       then exists i :: 0 <= i < |cs| && Matches(cs[i], s, pos) && r.value == (i, pos + cs[i].len)
       else r.value.0 == -1 && pos <= r.value.1
  }

  /** The code words below a table fit in `depth` levels of its width. */
  predicate DeepEnough(cs: seq<Code>, p: nat, l: nat, nb: nat, depth: nat) {
    forall i :: 0 <= i < |cs| && Extends(cs[i], p, l) ==> cs[i].len <= l + depth * nb
  }

  /** A subtable is narrower only when it is wide enough for all that is left. */
  lemma SubtableDeepEnough(cs: seq<Code>, p: nat, l: nat, nb: nat, depth: nat, q: nat, rest: nat)
    requires DeepEnough(cs, p, l, nb, depth) && Shr(q, nb) == p && rest == Rest(cs, |cs|, q, l + nb) > 0
    ensures depth >= 2 && DeepEnough(cs, q, l + nb, Min(rest, nb), depth - 1)
  {
    RestBound(cs, |cs|, q, l + nb);
    forall i | 0 <= i < |cs| && Extends(cs[i], q, l + nb)
      ensures depth >= 2 && cs[i].len <= l + nb + (depth - 1) * Min(rest, nb)
    {
      ShrShr(cs[i].code, cs[i].len - l - nb, nb);
      assert Extends(cs[i], p, l);
      AtLeastTwo(depth, nb);
      if rest <= nb {
        AtLeastOnce(depth - 1, rest);
      } else {
        assert depth * nb == nb + (depth - 1) * nb;
      }
    }
  }

  lemma AtLeastTwo(depth: nat, nb: nat)
    ensures depth * nb > nb ==> depth >= 2
  {
    if depth == 1 {
      assert depth * nb == nb;
    }
  }

  lemma AtLeastOnce(k: nat, n: nat)
    ensures k >= 1 ==> n <= k * n
  {
  }

  lemma BuiltBounds(t: seq<Entry>, base: nat, nb: nat, cs: seq<Code>, p: nat, l: nat, end: nat, maxLen: nat)
    requires Built(t, base, nb, cs, p, l, end, maxLen)
    ensures nb >= 1 && base + Pow2(nb) <= end <= |t|
  {
  }

  lemma {:induction false} WalkDecodes(t: seq<Entry>, base: nat, nb: nat, cs: seq<Code>, l: nat, maxLen: nat,
                                       s: seq<int>, pos: nat, depth: nat)
    requires IsBits(s) && pos + l + depth * nb <= |s| && depth >= 1 && nb <= MIN_CACHE_BITS
    requires 0 <= Peek(s, pos, l) && Built(t, base, nb, cs, Peek(s, pos, l), l, |t|, maxLen)
    requires DeepEnough(cs, Peek(s, pos, l), l, nb, depth)
    requires forall i :: 0 <= i < |cs| && Matches(cs[i], s, pos) ==> cs[i].len > l
    ensures Decoded(cs, s, pos, Walk(t, base, nb, s, pos + l, depth))
    decreases depth
  {
    hide *;
    AtLeastOnce(depth, nb);
    BuiltBounds(t, base, nb, cs, Peek(s, pos, l), l, |t|, maxLen);
    Decision(t, base, nb, cs, l, |t|, maxLen, s, pos);
    var j, q := Peek(s, pos + l, nb), Peek(s, pos, l + nb);
    var e, rest := t[base + j], Rest(cs, |cs|, q, l + nb);
    WalkStep(t, base, nb, s, pos + l, depth);
    if exists i :: 0 <= i < |cs| && Matches(cs[i], s, pos) && e == Entry(i, cs[i].len - l) {
      var i :| 0 <= i < |cs| && Matches(cs[i], s, pos) && e == Entry(i, cs[i].len - l);
      DecodedAs(cs, s, pos, i);
    } else if e == EMPTY && forall i :: 0 <= i < |cs| ==> !Matches(cs[i], s, pos) {
      DecodedNone(cs, s, pos, pos + l);
    } else {
      PeekTwo(s, pos, l, nb);
      SubtableDeepEnough(cs, Peek(s, pos, l), l, nb, depth, q, rest);
      MinBounds(rest, nb);
      RoomLeft(depth, nb, Min(rest, nb));
      WalkDecodes(t, e.code, Min(rest, nb), cs, l + nb, maxLen, s, pos, depth - 1);
    }
  }

  lemma MinBounds(rest: nat, nb: nat)
    ensures rest > 0 && nb > 0 ==> 0 < Min(rest, nb) <= nb
  {
  }

  lemma RoomLeft(depth: nat, nb: nat, n: nat)
    requires depth >= 2
    ensures n <= nb ==> nb + (depth - 1) * n <= depth * nb
  {
    if n <= nb {
      assert (depth - 1) * n <= (depth - 1) * nb;
      assert depth * nb == nb + (depth - 1) * nb;
    }
  }

  lemma WalkStep(t: seq<Entry>, base: nat, nb: nat, s: seq<int>, pos: nat, depth: nat)
    requires 1 <= nb <= MIN_CACHE_BITS && pos + nb <= |s| && 0 <= base + Peek(s, pos, nb) < |t|
    ensures var e := t[base + Peek(s, pos, nb)];
            Walk(t, base, nb, s, pos, depth) ==
            if depth > 1 && e.bits < 0 then Walk(t, e.code, -e.bits, s, pos + nb, depth - 1)
            else Some((e.code, pos + e.bits))
  {
    hide Peek;
  }

  lemma DecodedAs(cs: seq<Code>, s: seq<int>, pos: nat, i: nat)
    requires i < |cs| && Matches(cs[i], s, pos)
    ensures Decoded(cs, s, pos, Some((i, pos + cs[i].len))) && cs[i].len > 0
  {
    hide Peek;
  }

  lemma DecodedNone(cs: seq<Code>, s: seq<int>, pos: nat, next: int)
    requires pos <= next && forall i :: 0 <= i < |cs| ==> !Matches(cs[i], s, pos)
    ensures EMPTY.bits == 0 && Decoded(cs, s, pos, Some((EMPTY.code, next)))
  {
    hide Peek;
  }

  /** Decoding is prefix-code matching: with code words of at most three times the bits of
      the first level, if a code word stands at pos its index is returned and exactly its
      bits are consumed, and otherwise -1 is returned. */
  lemma DecodesByMatching(t: seq<Entry>, bits: nat, cs: seq<Code>, s: seq<int>, pos: nat)
    requires TableFor(t, bits, cs, 3 * bits) && bits <= MIN_CACHE_BITS && IsBits(s) && pos + 3 * bits <= |s|
    ensures Decoded(cs, s, pos, Walk(t, 0, bits, s, pos, 3))
  {
    NothingRead(s, pos);
    hide Peek, Built, Walk, Decoded;
    WalkDecodes(t, 0, bits, cs, 0, 3 * bits, s, pos, 3);
  }

  lemma NothingRead(s: seq<int>, pos: nat)
    requires pos <= |s|
    ensures Peek(s, pos, 0) == 0
  {
  }

  // ----- why three levels are needed, and when they are not enough -----

  /** With a prefix-free code at most one code word stands at a position. */
  lemma OneMatch(cs: seq<Code>, s: seq<int>, pos: nat, i: nat, j: nat)
    requires PrefixFree(cs) && IsBits(s) && i < |cs| && j < |cs|
    requires Matches(cs[i], s, pos) && Matches(cs[j], s, pos)
    ensures i == j
  {
    hide Peek;
    if cs[i].len <= cs[j].len {
      PeekTwo(s, pos, cs[i].len, cs[j].len - cs[i].len);
    } else {
      PeekTwo(s, pos, cs[j].len, cs[i].len - cs[j].len);
    }
  }

  /** A code word longer than the levels walked is never consumed. */
  lemma {:induction false} WalkTooShort(t: seq<Entry>, base: nat, nb: nat, cs: seq<Code>, l: nat, maxLen: nat,
                                        s: seq<int>, pos: nat, depth: nat, i: nat)
    requires PrefixFree(cs) && IsBits(s) && depth >= 1 && nb <= MIN_CACHE_BITS
    requires i < |cs| && pos + l <= pos + cs[i].len <= |s|
    requires 0 <= Peek(s, pos, l) && Built(t, base, nb, cs, Peek(s, pos, l), l, |t|, maxLen)
    requires Matches(cs[i], s, pos) && cs[i].len > l + depth * nb
    ensures var r := Walk(t, base, nb, s, pos + l, depth); r.Some? && r.value.1 < pos + cs[i].len
    decreases depth
  {
    hide *;
    AtLeastOnce(depth, nb);
    BuiltBounds(t, base, nb, cs, Peek(s, pos, l), l, |t|, maxLen);
    forall k | 0 <= k < |cs| && Matches(cs[k], s, pos)
      ensures k == i
    {
      OneMatch(cs, s, pos, i, k);
    }
    Decision(t, base, nb, cs, l, |t|, maxLen, s, pos);
    WalkStep(t, base, nb, s, pos + l, depth);
    var q := Peek(s, pos, l + nb);
    var e, rest := t[base + Peek(s, pos + l, nb)], Rest(cs, |cs|, q, l + nb);
    MatchExtends(cs[i], s, pos, l + nb);
    RestBound(cs, |cs|, q, l + nb);
    MinBounds(rest, nb);
    if depth > 1 {
      LongRest(depth, nb, rest, cs[i].len - l);
      WalkTooShort(t, e.code, nb, cs, l + nb, maxLen, s, pos, depth - 1, i);
    }
  }

  lemma LongRest(depth: nat, nb: nat, rest: nat, len: nat)
    requires depth >= 2 && len > depth * nb && rest >= len - nb
    ensures Min(rest, nb) == nb && len - nb > (depth - 1) * nb
  {
    assert depth * nb == nb + (depth - 1) * nb;
    AtLeastOnce(depth - 1, nb);
  }

  /** A bit string on which a given code word stands at the start. */
  lemma Stream(c: Code, n: nat) returns (s: seq<int>)
    requires c.code < Pow2(c.len) && c.len > 0
    ensures IsBits(s) && |s| == c.len + n && Matches(c, s, 0)
  {
    s := ToBits(c.code, c.len) + ToBits(0, n);
    FromToBits(c.code, c.len);
    ShrUnique(c.code, c.len, 0, c.code);
    assert s[0..0 + c.len] == ToBits(c.code, c.len);
  }

  /** Three levels decode every bit string exactly when no code word is longer than three
      times the bits of the first level. */
  lemma ThreeLevelsSuffice(t: seq<Entry>, bits: nat, cs: seq<Code>, maxLen: nat)
    requires TableFor(t, bits, cs, maxLen) && PrefixFree(cs) && bits <= MIN_CACHE_BITS
    ensures (forall s: seq<int>, pos: nat :: IsBits(s) && pos + 3 * bits <= |s| ==>
               Decoded(cs, s, pos, Walk(t, 0, bits, s, pos, 3)))
        <==> (forall i :: 0 <= i < |cs| ==> cs[i].len <= 3 * bits)
  {
    if forall i :: 0 <= i < |cs| ==> cs[i].len <= 3 * bits {
      forall s: seq<int>, pos: nat | IsBits(s) && pos + 3 * bits <= |s|
        ensures Decoded(cs, s, pos, Walk(t, 0, bits, s, pos, 3))
      {
        NothingRead(s, pos);
        hide *;
        LongestDeepEnough(cs, 0, 3 * bits, 3, bits);
        MatchesLonger(cs, s, pos);
        TableIsBuilt(t, bits, cs, maxLen);
        WalkDecodes(t, 0, bits, cs, 0, maxLen, s, pos, 3);
      }
    } else {
      var i :| 0 <= i < |cs| && cs[i].len > 3 * bits;
      TableIsBuilt(t, bits, cs, maxLen);
      var s := Stream(cs[i], 0);
      NothingRead(s, 0);
      hide *;
      WalkTooShort(t, 0, bits, cs, 0, maxLen, s, 0, 3, i);
      NotDecoded(cs, s, 0, i, Walk(t, 0, bits, s, 0, 3));
    }
  }

  lemma TableIsBuilt(t: seq<Entry>, bits: nat, cs: seq<Code>, maxLen: nat)
    requires TableFor(t, bits, cs, maxLen)
    ensures Built(t, 0, bits, cs, 0, 0, |t|, maxLen)
    ensures forall i :: 0 <= i < |cs| ==> cs[i].code < Pow2(cs[i].len)
  {
  }

  lemma LongestDeepEnough(cs: seq<Code>, p: nat, maxLen: nat, depth: nat, nb: nat)
    requires maxLen <= depth * nb && forall i :: 0 <= i < |cs| ==> cs[i].len <= maxLen
    ensures DeepEnough(cs, p, 0, nb, depth)
  {
  }

  lemma MatchesLonger(cs: seq<Code>, s: seq<int>, pos: nat)
    ensures forall i :: 0 <= i < |cs| && Matches(cs[i], s, pos) ==> cs[i].len > 0
  {
  }

  lemma NotDecoded(cs: seq<Code>, s: seq<int>, pos: nat, i: nat, r: Option<(int, int)>)
    requires PrefixFree(cs) && IsBits(s) && i < |cs| && Matches(cs[i], s, pos)
    requires r.Some? && r.value.1 < pos + cs[i].len
    ensures !Decoded(cs, s, pos, r)
  {
    hide Matches;
    forall k | 0 <= k < |cs| && Matches(cs[k], s, pos)
      ensures k == i
    {
      OneMatch(cs, s, pos, i, k);
    }
  }
}
