/** init_vlc and its recursive worker: the tables are filled in place, and the result is a
    table in the sense of VlcTable, so get_vlc2 decodes by matching. */
module VlcBuilder {
  import opened Bits
  import opened Ints
  import opened Optional
  import opened VlcTable
  import opened BitStream

  // ----- which slots a code word fills -----

  /** The first slot of a code word that is n <= nb bits longer than the table's word. */
  function FirstSlot(code: nat, n: nat, nb: nat): nat
    requires n <= nb
  {
    Low(Shl(code, nb - n), nb)
  }

  /** Slots as words: the table's word p and the slot j together. */
  lemma SubParts(p: nat, nb: nat, j: nat)
    requires j < Pow2(nb)
    ensures Shr(Sub(p, nb, j), nb) == p && Low(Sub(p, nb, j), nb) == j
  {
    ShrUnique(Sub(p, nb, j), nb, p, j);
  }

  lemma ShrOfSub(p: nat, nb: nat, j: nat, k: nat)
    requires k <= nb
    ensures Shr(Sub(p, nb, j), k) == p * Pow2(nb - k) + Shr(j, k)
  {
    hide Shr, Low, Pow2;
    Pow2Add(nb - k, k);
    ShrLow(j, k);
    var a, b, d := Pow2(nb - k), Pow2(k), Shr(j, k);
    assert p * (a * b) + (d * b + Low(j, k)) == (p * a + d) * b + Low(j, k) by {
      MulDistribute(p, a, b, d);
    }
    ShrUnique(Sub(p, nb, j), k, p * a + d, Low(j, k));
  }

  lemma MulDistribute(p: int, a: int, b: int, d: int)
    ensures (p * a + d) * b == p * (a * b) + d * b
  {
  }

  /** A code word that does not continue the table's word concerns none of its slots. */
  lemma NotConcerned(c: Code, p: nat, l: nat, nb: nat, j: nat)
    requires j < Pow2(nb) && (c.len <= l || Shr(c.code, c.len - l) != p)
    ensures !Decides(c, Sub(p, nb, j), l, l + nb) && !Extends(c, Sub(p, nb, j), l + nb)
  {
    hide Shr, Sub;
    var q, m := Sub(p, nb, j), l + nb;
    SubParts(p, nb, j);
    if c.len > l {
      if c.len <= m {
        ShrShr(q, m - c.len, c.len - l);
      } else {
        ShrShr(c.code, c.len - m, nb);
      }
    }
  }

  lemma SlotRange(low: nat, j: nat, k: nat)
    ensures Shr(j, k) == low <==> low * Pow2(k) <= j < low * Pow2(k) + Pow2(k)
  {
    hide Shr, Low;
    ShrLow(j, k);
    if low * Pow2(k) <= j < low * Pow2(k) + Pow2(k) {
      ShrUnique(j, k, low, j - low * Pow2(k));
    }
  }

  /** The slots a short code word decides are consecutive. */
  lemma ShortSlots(c: Code, p: nat, l: nat, nb: nat)
    requires l < c.len <= l + nb && Shr(c.code, c.len - l) == p
    ensures var first, size := FirstSlot(c.code, c.len - l, nb), Pow2(l + nb - c.len);
            && first + size <= Pow2(nb)
            && forall j :: 0 <= j < Pow2(nb) ==>
                 !Extends(c, Sub(p, nb, j), l + nb)
                 && (Decides(c, Sub(p, nb, j), l, l + nb) <==> first <= j < first + size)
  {
    hide Shr, Low, Pow2, Sub;
    var n, k := c.len - l, l + nb - c.len;
    var low := Low(c.code, n);
    ShrLow(c.code, n);
    Pow2Add(n, k);
    FirstSlotIs(c.code, p, low, n, k);
    forall j | 0 <= j < Pow2(nb)
      ensures Decides(c, Sub(p, nb, j), l, l + nb) <==> low * Pow2(k) <= j < low * Pow2(k) + Pow2(k)
    {
      ShrOfSub(p, nb, j, k);
      SlotRange(low, j, k);
    }
  }

  lemma FirstSlotIs(code: nat, p: nat, low: nat, n: nat, k: nat)
    requires code == p * Pow2(n) + low && low < Pow2(n)
    ensures FirstSlot(code, n, n + k) == low * Pow2(k) && low * Pow2(k) + Pow2(k) <= Pow2(n + k)
  {
    hide Low, Pow2;
    Pow2Add(n, k);
    MulDistribute(p, Pow2(n), Pow2(k), low);
    LowProduct(low, Pow2(n), Pow2(k));
    ShrUnique(code * Pow2(k), n + k, p, low * Pow2(k));
  }

  lemma LowProduct(low: nat, a: nat, b: nat)
    requires low < a && b > 0
    ensures low * b + b <= a * b && low * b < a * b
  {
    assert (low + 1) * b <= a * b;
  }

  /** A long code word extends exactly one slot. */
  lemma LongSlot(c: Code, p: nat, l: nat, nb: nat)
    requires c.len > l + nb && Shr(c.code, c.len - l) == p
    ensures forall j :: 0 <= j < Pow2(nb) ==>
              !Decides(c, Sub(p, nb, j), l, l + nb)
              && (Extends(c, Sub(p, nb, j), l + nb) <==> j == Low(Shr(c.code, c.len - l - nb), nb))
  {
    hide Shr, Low, Sub;
    var q := Shr(c.code, c.len - l - nb);
    ShrShr(c.code, c.len - l - nb, nb);
    ShrLow(q, nb);
    assert q == Sub(p, nb, Low(q, nb)) by { SubIs(p, nb, Low(q, nb)); }
    forall j | 0 <= j < Pow2(nb)
      ensures Extends(c, Sub(p, nb, j), l + nb) <==> j == Low(q, nb)
    {
      SubParts(p, nb, j);
    }
  }

  lemma SubIs(p: nat, nb: nat, j: nat)
    ensures Sub(p, nb, j) == p * Pow2(nb) + j
  {
  }

  // ----- what the first pass leaves in a slot -----

  /** The entry of the slot q after the first n code words. */
  predicate FirstPass(e: Entry, cs: seq<Code>, n: nat, q: nat, l: nat, m: nat)
    requires n <= |cs|
  {
    && (forall i :: 0 <= i < n && Decides(cs[i], q, l, m) ==> e == Entry(i, cs[i].len - l))
    && ((forall i :: 0 <= i < n ==> !Decides(cs[i], q, l, m)) ==> e == Entry(-1, 0 - (Rest(cs, n, q, m) as int)))
  }

  /** With a prefix-free code a slot decided by one code word is decided by no other and
      extended by none. */
  lemma OneDecision(cs: seq<Code>, i: nat, k: nat, q: nat, l: nat, m: nat)
    requires PrefixFree(cs) && i < |cs| && k < |cs| && i != k
    requires Decides(cs[i], q, l, m)
    ensures !Decides(cs[k], q, l, m) && !Extends(cs[k], q, m)
  {
    hide Shr;
    var a, b := cs[i].len, cs[k].len;
    if Decides(cs[k], q, l, m) {
      if a <= b {
        ShrShr(q, m - b, b - a);
      } else {
        ShrShr(q, m - a, a - b);
      }
    } else if Extends(cs[k], q, m) {
      ShrShr(cs[k].code, b - m, m - a);
    }
  }

  lemma {:induction false} NoRestBefore(cs: seq<Code>, i: nat, n: nat, q: nat, l: nat, m: nat)
    requires PrefixFree(cs) && i < |cs| && n <= |cs| && Decides(cs[i], q, l, m)
    ensures Rest(cs, n, q, m) == 0
  {
    if n > 0 {
      NoRestBefore(cs, i, n - 1, q, l, m);
      if i != n - 1 {
        OneDecision(cs, i, n - 1, q, l, m);
      }
    }
  }

  /** A slot that the next code word decides is still empty. */
  lemma DecidedSlot(e: Entry, cs: seq<Code>, n: nat, q: nat, l: nat, m: nat)
    requires PrefixFree(cs) && n < |cs| && FirstPass(e, cs, n, q, l, m) && Decides(cs[n], q, l, m)
    ensures e == EMPTY && FirstPass(Entry(n, cs[n].len - l), cs, n + 1, q, l, m)
  {
    hide Decides, Extends;
    forall i | 0 <= i < n
      ensures !Decides(cs[i], q, l, m)
    {
      OneDecision(cs, n, i, q, l, m);
    }
    NoRestBefore(cs, n, n, q, l, m);
  }

  /** A slot that the next code word extends gets the larger number of bits. */
  lemma ExtendedSlot(e: Entry, cs: seq<Code>, n: nat, q: nat, l: nat, m: nat)
    requires PrefixFree(cs) && n < |cs| && FirstPass(e, cs, n, q, l, m)
    requires Extends(cs[n], q, m) && !Decides(cs[n], q, l, m)
    ensures e.code == -1 && e.bits == 0 - Rest(cs, n, q, m) as int
    ensures FirstPass(Entry(-1, if cs[n].len - m > -e.bits then m - cs[n].len else e.bits), cs, n + 1, q, l, m)
  {
    hide Decides, Extends;
    forall i | 0 <= i < n
      ensures !Decides(cs[i], q, l, m)
    {
      if Decides(cs[i], q, l, m) {
        OneDecision(cs, i, n, q, l, m);
      }
    }
  }

  lemma OtherSlot(e: Entry, cs: seq<Code>, n: nat, q: nat, l: nat, m: nat)
    requires n < |cs| && FirstPass(e, cs, n, q, l, m)
    requires !Extends(cs[n], q, m) && !Decides(cs[n], q, l, m)
    ensures FirstPass(e, cs, n + 1, q, l, m)
  {
  }

  // ----- how many entries are needed -----

  /** The entries of the table of the word p of l bits with its subtables. */
  ghost function Space(cs: seq<Code>, nb: nat, p: nat, l: nat, maxLen: nat): nat
    requires CodesOk(cs, maxLen) && nb >= 1
    decreases maxLen - l, 1, 0
  {
    Pow2(nb) + SubSpace(cs, nb, p, l, Pow2(nb), maxLen)
  }

  /** The entries of the subtables of the first j slots. */
  ghost function SubSpace(cs: seq<Code>, nb: nat, p: nat, l: nat, j: nat, maxLen: nat): nat
    requires CodesOk(cs, maxLen) && nb >= 1
    decreases maxLen - l, 0, j
  {
    if j == 0 then 0
    else
      var q, m := Sub(p, nb, j - 1), l + nb;
      var rest := Rest(cs, |cs|, q, m);
      SubSpace(cs, nb, p, l, j - 1, maxLen)
      + if rest == 0 then 0
        else RestAtMost(cs, |cs|, q, m, maxLen); Space(cs, Min(rest, nb), q, m, maxLen)
  }

  lemma {:induction false} SubSpaceMono(cs: seq<Code>, nb: nat, p: nat, l: nat, j: nat, k: nat, maxLen: nat)
    requires CodesOk(cs, maxLen) && nb >= 1 && j <= k
    ensures SubSpace(cs, nb, p, l, j, maxLen) <= SubSpace(cs, nb, p, l, k, maxLen)
  {
    if j < k {
      SubSpaceMono(cs, nb, p, l, j, k - 1, maxLen);
    }
  }

  // ----- the table being built -----

  /** The slots of a table after n code words of the first pass. */
  ghost predicate Filled(t: seq<Entry>, base: nat, nb: nat, cs: seq<Code>, n: nat, p: nat, l: nat, from: nat)
    requires n <= |cs| && base + Pow2(nb) <= |t|
  {
    forall j :: from <= j < Pow2(nb) ==> FirstPass(t[base + j], cs, n, Sub(p, nb, j), l, l + nb)
  }

  lemma EmptyFilled(t: seq<Entry>, base: nat, nb: nat, cs: seq<Code>, p: nat, l: nat)
    requires base + Pow2(nb) <= |t| && forall k :: base <= k < base + Pow2(nb) ==> t[k] == EMPTY
    ensures Filled(t, base, nb, cs, 0, p, l, 0)
  {
  }

  /** The first pass over a code word that has nothing to do with the table. */
  lemma FilledSkip(t: seq<Entry>, base: nat, nb: nat, cs: seq<Code>, n: nat, p: nat, l: nat)
    requires n < |cs| && base + Pow2(nb) <= |t| && Filled(t, base, nb, cs, n, p, l, 0)
    requires cs[n].len <= l || Shr(cs[n].code, cs[n].len - l) != p
    ensures Filled(t, base, nb, cs, n + 1, p, l, 0)
  {
    hide FirstPass, Sub;
    forall j | 0 <= j < Pow2(nb)
      ensures FirstPass(t[base + j], cs, n + 1, Sub(p, nb, j), l, l + nb)
    {
      NotConcerned(cs[n], p, l, nb, j);
      OtherSlot(t[base + j], cs, n, Sub(p, nb, j), l, l + nb);
    }
  }

  /** The first pass over a short code word: the slots it fills were empty. */
  lemma ShortEmpty(t: seq<Entry>, base: nat, nb: nat, cs: seq<Code>, n: nat, p: nat, l: nat, j: nat)
    requires PrefixFree(cs) && n < |cs| && base + Pow2(nb) <= |t| && Filled(t, base, nb, cs, n, p, l, 0)
    requires l < cs[n].len <= l + nb && Shr(cs[n].code, cs[n].len - l) == p
    requires var first := FirstSlot(cs[n].code, cs[n].len - l, nb); first <= j < first + Pow2(l + nb - cs[n].len)
    ensures j < Pow2(nb) && t[base + j] == EMPTY
  {
    hide *;
    ShortSlots(cs[n], p, l, nb);
    FilledAt(t, base, nb, cs, n, p, l, j);
    DecidedSlot(t[base + j], cs, n, Sub(p, nb, j), l, l + nb);
  }

  lemma FilledAt(t: seq<Entry>, base: nat, nb: nat, cs: seq<Code>, n: nat, p: nat, l: nat, j: nat)
    requires n <= |cs| && base + Pow2(nb) <= |t| && Filled(t, base, nb, cs, n, p, l, 0) && j < Pow2(nb)
    ensures FirstPass(t[base + j], cs, n, Sub(p, nb, j), l, l + nb)
  {
    hide FirstPass;
  }

  lemma FilledShort(t: seq<Entry>, u: seq<Entry>, base: nat, nb: nat, cs: seq<Code>, n: nat, p: nat, l: nat)
    requires PrefixFree(cs) && n < |cs| && base + Pow2(nb) <= |t| && |u| == |t| && Filled(t, base, nb, cs, n, p, l, 0)
    requires l < cs[n].len <= l + nb && Shr(cs[n].code, cs[n].len - l) == p
    requires var first := FirstSlot(cs[n].code, cs[n].len - l, nb);
             forall k :: base <= k < base + Pow2(nb) ==>
               u[k] == if base + first <= k < base + first + Pow2(l + nb - cs[n].len)
               then Entry(n, cs[n].len - l) else t[k]
    ensures Filled(u, base, nb, cs, n + 1, p, l, 0)
  {
    ShortSlots(cs[n], p, l, nb);
    hide FirstPass, Sub, Decides, Extends, FirstSlot;
    forall j | 0 <= j < Pow2(nb)
      ensures FirstPass(u[base + j], cs, n + 1, Sub(p, nb, j), l, l + nb)
    {
      var q := Sub(p, nb, j);
      if Decides(cs[n], q, l, l + nb) {
        DecidedSlot(t[base + j], cs, n, q, l, l + nb);
      } else {
        OtherSlot(t[base + j], cs, n, q, l, l + nb);
      }
    }
  }

  lemma FilledLong(t: seq<Entry>, u: seq<Entry>, base: nat, nb: nat, cs: seq<Code>, n: nat, p: nat, l: nat, slot: nat)
    requires PrefixFree(cs) && n < |cs| && base + Pow2(nb) <= |t| && |u| == |t| && Filled(t, base, nb, cs, n, p, l, 0)
    requires cs[n].len > l + nb && Shr(cs[n].code, cs[n].len - l) == p
    requires slot == Low(Shr(cs[n].code, cs[n].len - l - nb), nb)
    requires forall k :: base <= k < base + Pow2(nb) && k != base + slot ==> u[k] == t[k]
    requires var e := t[base + slot];
             u[base + slot] == Entry(e.code, if cs[n].len - l - nb > -e.bits then l + nb - cs[n].len else e.bits)
    ensures Filled(u, base, nb, cs, n + 1, p, l, 0)
  {
    LongSlot(cs[n], p, l, nb);
    hide FirstPass, Sub, Decides, Extends;
    forall j | 0 <= j < Pow2(nb)
      ensures FirstPass(u[base + j], cs, n + 1, Sub(p, nb, j), l, l + nb)
    {
      var q := Sub(p, nb, j);
      if j == slot {
        ExtendedSlot(t[base + j], cs, n, q, l, l + nb);
      } else {
        OtherSlot(t[base + j], cs, n, q, l, l + nb);
      }
    }
  }

  /** A slot the first pass left without a subtable is finished. */
  lemma FinishedSlot(t: seq<Entry>, base: nat, nb: nat, cs: seq<Code>, p: nat, l: nat, j: nat, end: nat, maxLen: nat)
    requires nb >= 1 && j < Pow2(nb) && base + Pow2(nb) <= end <= |t|
    requires FirstPass(t[base + j], cs, |cs|, Sub(p, nb, j), l, l + nb) && t[base + j].bits >= 0
    ensures SlotOk(t, base, nb, cs, p, l, j, end, maxLen)
  {
    hide Sub, Rest;
  }

  /** A negative entry announces the longest code word below it. */
  lemma AnnouncedRest(e: Entry, cs: seq<Code>, q: nat, l: nat, m: nat, maxLen: nat)
    requires CodesOk(cs, maxLen) && FirstPass(e, cs, |cs|, q, l, m) && e.bits < 0
    ensures -e.bits == Rest(cs, |cs|, q, m) && m + Rest(cs, |cs|, q, m) <= maxLen
    ensures forall i :: 0 <= i < |cs| ==> !Decides(cs[i], q, l, m)
  {
    RestAtMost(cs, |cs|, q, m, maxLen);
  }

  /** A slot whose subtable has been built and linked is finished. */
  lemma LinkedSlot(t: seq<Entry>, base: nat, nb: nat, cs: seq<Code>, p: nat, l: nat, j: nat, end: nat, maxLen: nat)
    requires nb >= 1 && j < Pow2(nb) && base + Pow2(nb) <= end <= |t|
    requires forall i :: 0 <= i < |cs| ==> !Decides(cs[i], Sub(p, nb, j), l, l + nb)
    requires var rest := Rest(cs, |cs|, Sub(p, nb, j), l + nb);
             && rest > 0 && l + nb < maxLen && base + Pow2(nb) <= t[base + j].code && -t[base + j].bits == Min(rest, nb)
             && Built(t, t[base + j].code, Min(rest, nb), cs, Sub(p, nb, j), l + nb, end, maxLen)
    ensures SlotOk(t, base, nb, cs, p, l, j, end, maxLen)
  {
  }

  class Vlc {
    const table: array<Entry>
    var tableSize: nat
    var bits: nat

    constructor (room: nat)
      ensures table.Length == room && fresh(table)
    {
      table := new Entry[room](_ => EMPTY);
      tableSize, bits := 0, 0;
    }

    /** alloc_table, with enough room. */
    method AllocTable(size: nat) returns (index: nat)
      requires tableSize + size <= table.Length
      modifies this`tableSize
      ensures index == old(tableSize) && tableSize == old(tableSize) + size
    {
      index := tableSize;
      tableSize := tableSize + size;
    }

    /** build_table. With a prefix-free code its failure returns are never taken. */
    method BuildTable(nb: nat, cs: seq<Code>, p: nat, l: nat, ghost maxLen: nat) returns (index: nat)
      requires nb >= 1 && l <= maxLen && CodesOk(cs, maxLen) && PrefixFree(cs)
      requires tableSize + Space(cs, nb, p, l, maxLen) <= table.Length
      modifies this`tableSize, table
      ensures index == old(tableSize) && tableSize == old(tableSize) + Space(cs, nb, p, l, maxLen)
      ensures Built(table[..], index, nb, cs, p, l, tableSize, maxLen)
      ensures forall k :: 0 <= k < old(tableSize) ==> table[k] == old(table[k])
      decreases maxLen - l
    {
      hide *;
      SpaceIs(cs, nb, p, l, maxLen);
      var size := Pow2(nb);
      index := AllocTable(size);
      for i := 0 to size
        invariant tableSize == index + size
        invariant forall k :: index <= k < index + i ==> table[k] == EMPTY
        invariant forall k :: 0 <= k < index ==> table[k] == old(table[k])
      {
        table[index + i] := EMPTY;
      }
      EmptyFilled(table[..], index, nb, cs, p, l);
      FirstPassOver(index, nb, cs, p, l);
      SecondPassOver(index, nb, cs, p, l, maxLen);
    }

    /** The first pass: map codes and compute the sizes of the subtables. */
    method FirstPassOver(base: nat, nb: nat, cs: seq<Code>, p: nat, l: nat)
      requires PrefixFree(cs) && base + Pow2(nb) <= table.Length
      requires Filled(table[..], base, nb, cs, 0, p, l, 0)
      modifies table
      ensures Filled(table[..], base, nb, cs, |cs|, p, l, 0)
      ensures forall k :: 0 <= k < base ==> table[k] == old(table[k])
    {
      hide *;
      for i := 0 to |cs|
        invariant Filled(table[..], base, nb, cs, i, p, l, 0)
        invariant forall k :: 0 <= k < base ==> table[k] == old(table[k])
      {
        if cs[i].len <= l || Shr(cs[i].code, cs[i].len - l) != p {
          FilledSkip(table[..], base, nb, cs, i, p, l);
        } else if cs[i].len - l <= nb {
          FillShort(base, nb, cs, i, p, l);
        } else {
          var n := cs[i].len - l - nb;
          var j := Low(Shr(cs[i].code, n), nb);
          ghost var t := table[..];
          var n1 := -table[base + j].bits;
          if n > n1 {
            n1 := n;
          }
          table[base + j] := Entry(table[base + j].code, -n1);
          FilledLong(t, table[..], base, nb, cs, i, p, l, j);
        }
      }
    }

    /** A short code word fills a run of slots; the program's test for a clash never fires. */
    method FillShort(base: nat, nb: nat, cs: seq<Code>, i: nat, p: nat, l: nat)
      requires PrefixFree(cs) && i < |cs| && base + Pow2(nb) <= table.Length
      requires Filled(table[..], base, nb, cs, i, p, l, 0)
      requires l < cs[i].len <= l + nb && Shr(cs[i].code, cs[i].len - l) == p
      modifies table
      ensures Filled(table[..], base, nb, cs, i + 1, p, l, 0)
      ensures forall k :: 0 <= k < base ==> table[k] == old(table[k])
    {
      hide *;
      var n := cs[i].len - l;
      var j := FirstSlot(cs[i].code, n, nb);
      var count := Pow2(nb - n);
      ghost var first, t := j, table[..];
      ShortSlots(cs[i], p, l, nb);
      for k := 0 to count
        invariant j == first + k
        invariant forall x :: base <= x < base + Pow2(nb) ==>
                    table[x] == if base + first <= x < base + first + k then Entry(i, n) else t[x]
        invariant forall x :: 0 <= x < base ==> table[x] == old(table[x])
      {
        ShortEmpty(t, base, nb, cs, i, p, l, j);
        EmptyHasNoBits();
        assert table[base + j].bits == 0;
        table[base + j] := Entry(i, n);
        j := j + 1;
      }
      FilledShort(t, table[..], base, nb, cs, i, p, l);
    }

    /** The second pass: build the subtables and link them. */
    method SecondPassOver(base: nat, nb: nat, cs: seq<Code>, p: nat, l: nat, ghost maxLen: nat)
      requires nb >= 1 && l <= maxLen && CodesOk(cs, maxLen) && PrefixFree(cs)
      requires base + Pow2(nb) == tableSize
      requires tableSize + SubSpace(cs, nb, p, l, Pow2(nb), maxLen) <= table.Length
      requires Filled(table[..], base, nb, cs, |cs|, p, l, 0)
      modifies this`tableSize, table
      ensures tableSize == old(tableSize) + SubSpace(cs, nb, p, l, Pow2(nb), maxLen)
      ensures Built(table[..], base, nb, cs, p, l, tableSize, maxLen)
      ensures forall k :: 0 <= k < base ==> table[k] == old(table[k])
      decreases maxLen - l, 1
    {
      hide *;
      NoSubSpace(cs, nb, p, l, maxLen);
      FilledAll(table[..], base, nb, cs, p, l);
      for i := 0 to Pow2(nb)
        invariant tableSize == old(tableSize) + SubSpace(cs, nb, p, l, i, maxLen) <= table.Length
        invariant forall j :: 0 <= j < i ==> SlotOk(table[..], base, nb, cs, p, l, j, tableSize, maxLen)
        invariant FilledFrom(table[..], base, nb, cs, p, l, i)
        invariant forall k :: 0 <= k < base ==> table[k] == old(table[k])
      {
        SubSpaceMono(cs, nb, p, l, i + 1, Pow2(nb), maxLen);
        DoSlot(base, nb, cs, p, l, i, maxLen);
      }
      AllSlots(table[..], base, nb, cs, p, l, tableSize, maxLen);
    }

    /** One slot of the second pass. */
    method DoSlot(base: nat, nb: nat, cs: seq<Code>, p: nat, l: nat, i: nat, ghost maxLen: nat)
      requires nb >= 1 && l <= maxLen && CodesOk(cs, maxLen) && PrefixFree(cs) && i < Pow2(nb)
      requires base + Pow2(nb) <= tableSize
      requires tableSize + (SubSpace(cs, nb, p, l, i + 1, maxLen) - SubSpace(cs, nb, p, l, i, maxLen)) <= table.Length
      requires forall j :: 0 <= j < i ==> SlotOk(table[..], base, nb, cs, p, l, j, tableSize, maxLen)
      requires FilledFrom(table[..], base, nb, cs, p, l, i)
      modifies this`tableSize, table
      ensures tableSize == old(tableSize) + (SubSpace(cs, nb, p, l, i + 1, maxLen) - SubSpace(cs, nb, p, l, i, maxLen))
      ensures old(tableSize) <= tableSize <= table.Length
      ensures forall j :: 0 <= j <= i ==> SlotOk(table[..], base, nb, cs, p, l, j, tableSize, maxLen)
      ensures FilledFrom(table[..], base, nb, cs, p, l, i + 1)
      ensures forall k :: 0 <= k < base ==> table[k] == old(table[k])
      decreases maxLen - l, 0
    {
      hide *;
      ghost var t, end := table[..], tableSize;
      ghost var q, m := Sub(p, nb, i), l + nb;
      FilledFromAt(t, base, nb, cs, p, l, i);
      SubSpaceStep(cs, nb, p, l, i, maxLen);
      var n := table[base + i].bits;
      if n < 0 {
        AnnouncedRest(t[base + i], cs, q, l, m, maxLen);
        n := -n;
        MinBounds(n, nb);
        MinIs(n, nb);
        if n > nb {
          n := nb;
          table[base + i] := Entry(table[base + i].code, -n);
        }
        var index := this.BuildTable(n, cs, Sub(p, nb, i), l + nb, maxLen);
        ghost var u := table[..];
        table[base + i] := Entry(index, table[base + i].bits);
        BuiltFrame(u, table[..], index, n, cs, q, m, tableSize, tableSize, maxLen);
        LinkedSlot(table[..], base, nb, cs, p, l, i, tableSize, maxLen);
      } else {
        NothingAnnounced(t[base + i], cs, q, l, m);
        FinishedSlot(t, base, nb, cs, p, l, i, end, maxLen);
      }
      SlotsKept(t, table[..], base, nb, cs, p, l, i, end, tableSize, maxLen);
    }

    /** init_vlc. The entries are 16 bits wide in the program, hence the bounds on the
        number of symbols and of entries. */
    method InitVlc(nbBits: nat, cs: seq<Code>, ghost maxLen: nat)
      requires 1 <= nbBits && CodesOk(cs, maxLen) && PrefixFree(cs)
      requires Space(cs, nbBits, 0, 0, maxLen) <= table.Length <= 0x8000 && |cs| <= 0x8000
      modifies this`bits, this`tableSize, table
      ensures bits == nbBits && tableSize == Space(cs, nbBits, 0, 0, maxLen)
      ensures TableFor(table[..], nbBits, cs, maxLen)
    {
      bits := nbBits;
      tableSize := 0;
      var index := BuildTable(nbBits, cs, 0, 0, maxLen);
      BuiltFrame(table[..], table[..], 0, nbBits, cs, 0, 0, tableSize, table.Length, maxLen);
    }
  }

  /** The slots from i on are as the first pass left them. */
  ghost predicate FilledFrom(t: seq<Entry>, base: nat, nb: nat, cs: seq<Code>, p: nat, l: nat, i: nat) {
    base + Pow2(nb) <= |t| && Filled(t, base, nb, cs, |cs|, p, l, i)
  }

  lemma FilledFromAt(t: seq<Entry>, base: nat, nb: nat, cs: seq<Code>, p: nat, l: nat, i: nat)
    requires FilledFrom(t, base, nb, cs, p, l, i) && i < Pow2(nb)
    ensures FirstPass(t[base + i], cs, |cs|, Sub(p, nb, i), l, l + nb)
  {
    hide FirstPass;
  }

  lemma FilledAll(t: seq<Entry>, base: nat, nb: nat, cs: seq<Code>, p: nat, l: nat)
    requires base + Pow2(nb) <= |t| && Filled(t, base, nb, cs, |cs|, p, l, 0)
    ensures FilledFrom(t, base, nb, cs, p, l, 0)
  {
  }

  lemma SpaceIs(cs: seq<Code>, nb: nat, p: nat, l: nat, maxLen: nat)
    requires CodesOk(cs, maxLen) && nb >= 1
    ensures Space(cs, nb, p, l, maxLen) == Pow2(nb) + SubSpace(cs, nb, p, l, Pow2(nb), maxLen)
  {
  }

  lemma NoSubSpace(cs: seq<Code>, nb: nat, p: nat, l: nat, maxLen: nat)
    requires CodesOk(cs, maxLen) && nb >= 1
    ensures SubSpace(cs, nb, p, l, 0, maxLen) == 0
  {
  }

  lemma SubSpaceStep(cs: seq<Code>, nb: nat, p: nat, l: nat, i: nat, maxLen: nat)
    requires CodesOk(cs, maxLen) && nb >= 1
    ensures var rest := Rest(cs, |cs|, Sub(p, nb, i), l + nb);
            SubSpace(cs, nb, p, l, i + 1, maxLen) == SubSpace(cs, nb, p, l, i, maxLen)
            + if rest == 0 then 0 else Space(cs, Min(rest, nb), Sub(p, nb, i), l + nb, maxLen)
  {
  }

  lemma MinIs(a: nat, b: nat)
    ensures Min(a, b) == if a > b then b else a
  {
  }

  lemma NothingAnnounced(e: Entry, cs: seq<Code>, q: nat, l: nat, m: nat)
    requires PrefixFree(cs) && FirstPass(e, cs, |cs|, q, l, m) && e.bits >= 0
    ensures Rest(cs, |cs|, q, m) == 0
  {
    hide Decides;
    if i :| 0 <= i < |cs| && Decides(cs[i], q, l, m) {
      NoRestBefore(cs, i, |cs|, q, l, m);
    }
  }

  lemma AllSlots(t: seq<Entry>, base: nat, nb: nat, cs: seq<Code>, p: nat, l: nat, end: nat, maxLen: nat)
    requires nb >= 1 && base + Pow2(nb) <= end <= |t|
    requires forall j :: 0 <= j < Pow2(nb) ==> SlotOk(t, base, nb, cs, p, l, j, end, maxLen)
    ensures Built(t, base, nb, cs, p, l, end, maxLen)
  {
    hide SlotOk;
  }

  /** Working on slot i keeps the slots before it, and those after it. */
  lemma SlotsKept(t: seq<Entry>, u: seq<Entry>, base: nat, nb: nat, cs: seq<Code>, p: nat, l: nat, i: nat,
                  end: nat, end': nat, maxLen: nat)
    requires nb >= 1 && i < Pow2(nb) && base + Pow2(nb) <= end <= |t| && end <= end' <= |u|
    requires forall j :: 0 <= j < i ==> SlotOk(t, base, nb, cs, p, l, j, end, maxLen)
    requires FilledFrom(t, base, nb, cs, p, l, i)
    requires forall k :: base <= k < end && k != base + i ==> t[k] == u[k]
    ensures forall j :: 0 <= j < i ==> SlotOk(u, base, nb, cs, p, l, j, end', maxLen)
    ensures FilledFrom(u, base, nb, cs, p, l, i + 1)
  {
    hide SlotOk, FirstPass;
    forall j | 0 <= j < i
      ensures SlotOk(u, base, nb, cs, p, l, j, end', maxLen)
    {
      SlotFrame(t, u, base, nb, cs, p, l, j, end, end', maxLen);
    }
  }

  lemma EmptyHasNoBits()
    ensures EMPTY.bits == 0
  {
  }

  // ----- get_vlc2 -----

  /** What a successful walk says of its first step. */
  lemma WalkFirst(t: seq<Entry>, base: int, nb: int, s: seq<int>, pos: nat, depth: nat)
    requires Walk(t, base, nb, s, pos, depth).Some?
    ensures 1 <= nb <= 25 && pos + nb <= |s| && 0 <= base + Peek(s, pos, nb) < |t|
    ensures var e := t[base + Peek(s, pos, nb)];
            Walk(t, base, nb, s, pos, depth) ==
            if depth > 1 && e.bits < 0 then Walk(t, e.code, -e.bits, s, pos + nb, depth - 1)
            else Some((e.code, pos + e.bits))
  {
    hide Peek;
  }

  lemma PaddedBuffer(gb: GetBitContext, n: nat)
    requires gb.Padded(n)
    ensures IsBytes(gb.buffer) && gb.index + n + 25 <= 8 * |gb.buffer| == |ByteBits(gb.buffer)|
    ensures IsBits(ByteBits(gb.buffer))
    ensures forall pos: nat :: pos <= gb.index + n ==> pos / 8 + 4 <= |gb.buffer|
  {
    hide ByteBits;
  }

  /** What the reader shows is there in any beginning of the stream that is long enough. */
  lemma ShowIsPeek(b: seq<int>, s: seq<int>, index: nat, n: nat)
    requires IsBytes(b) && index / 8 + 4 <= |b| && 1 <= n <= 25 && s <= ByteBits(b) && index + n <= |s|
    ensures Show(b, index, n) == Peek(s, index, n)
  {
    hide FromBits, ByteBits, Shr, Low;
    ShowIsBits(b, index, n);
    assert s[index..index + n] == ByteBits(b)[index..index + n];
  }

  /** One look-up of GET_VLC: SHOW_UBITS indexes the table at base. */
  method LookUp(gb: GetBitContext, table: seq<Entry>, base: int, nb: int, ghost s: seq<int>, ghost depth: nat)
    returns (code: int, n: int)
    requires IsBytes(gb.buffer) && gb.index / 8 + 4 <= |gb.buffer| && s <= ByteBits(gb.buffer)
    requires Walk(table, base, nb, s, gb.index, depth).Some?
    ensures 1 <= nb <= 25 && gb.index + nb <= |s|
    ensures Walk(table, base, nb, s, gb.index, depth) ==
            if depth > 1 && n < 0 then Walk(table, code, -n, s, gb.index + nb, depth - 1)
            else Some((code, gb.index + n))
  {
    hide *;
    WalkFirst(table, base, nb, s, gb.index, depth);
    ShowIsPeek(gb.buffer, s, gb.index, nb);
    var index := Show(gb.buffer, gb.index, nb) + base;
    code, n := table[index].code, table[index].bits;
  }

  /** get_vlc2: up to maxDepth <= 3 table look-ups, for a walk that looks at no more than `reach`
      bits. */
  method GetVlc2(gb: GetBitContext, table: seq<Entry>, bits: nat, maxDepth: nat, ghost reach: nat) returns (code: int)
    requires 1 <= maxDepth <= 3 && gb.Padded(reach) && gb.index + reach <= |ByteBits(gb.buffer)|
    requires var r := Walk(table, 0, bits, ByteBits(gb.buffer)[..gb.index + reach], gb.index, maxDepth);
             r.Some? && r.value.1 >= 0
    modifies gb`index
    ensures Walk(table, 0, bits, ByteBits(gb.buffer)[..old(gb.index) + reach], old(gb.index), maxDepth)
         == Some((code, gb.index))
  {
    hide *;
    PaddedBuffer(gb, reach);
    ghost var s := ByteBits(gb.buffer)[..gb.index + reach];
    var n: int;
    code, n := LookUp(gb, table, 0, bits, s, maxDepth);
    if maxDepth > 1 && n < 0 {
      gb.index := gb.index + bits;
      var nbBits := -n;
      code, n := LookUp(gb, table, code, nbBits, s, maxDepth - 1);
      if maxDepth > 2 && n < 0 {
        gb.index := gb.index + nbBits;
        nbBits := -n;
        code, n := LookUp(gb, table, code, nbBits, s, maxDepth - 2);
      }
    }
    gb.index := gb.index + n;
  }

  /** Code words that end inside a beginning of the stream stand there or in the stream alike. */
  lemma DecodedInAll(cs: seq<Code>, s: seq<int>, all: seq<int>, pos: nat, r: Option<(int, int)>)
    requires s <= all && (forall i :: 0 <= i < |cs| ==> pos + cs[i].len <= |s|) && Decoded(cs, s, pos, r)
    ensures Decoded(cs, all, pos, r)
  {
    hide FromBits;
    forall i | 0 <= i < |cs|
      ensures Matches(cs[i], s, pos) <==> Matches(cs[i], all, pos)
    {
      if cs[i].len > 0 {
        assert s[pos..pos + cs[i].len] == all[pos..pos + cs[i].len];
      }
    }
    hide Matches;
  }

  /** Building and decoding together: for every prefix-free code of words of at most three
      times nbBits bits, the table init_vlc leaves lets get_vlc2 at depth 3 decode by matching
      on every buffer that is padded behind the longest code word. */
  method BuildAndDecode(nbBits: nat, cs: seq<Code>, room: nat, gb: GetBitContext) returns (code: int)
    requires 1 <= nbBits <= 25 && CodesOk(cs, 3 * nbBits) && PrefixFree(cs) && |cs| <= 0x8000
    requires Space(cs, nbBits, 0, 0, 3 * nbBits) <= room <= 0x8000
    requires gb.Padded(3 * nbBits)
    modifies gb`index
    ensures Decoded(cs, ByteBits(gb.buffer), old(gb.index), Some((code, gb.index)))
  {
    hide *;
    PaddedBuffer(gb, 3 * nbBits);
    CacheBits();
    var v := new Vlc(room);
    v.InitVlc(nbBits, cs, 3 * nbBits);
    ghost var all, pos := ByteBits(gb.buffer), gb.index;
    ghost var s := all[..pos + 3 * nbBits];
    LengthsBounded(cs, 3 * nbBits);
    BitsPrefix(all, s);
    DecodesByMatching(v.table[..], nbBits, cs, s, pos);
    DecodedForward(cs, s, pos, Walk(v.table[..], 0, nbBits, s, pos, 3));
    code := GetVlc2(gb, v.table[..], nbBits, 3, 3 * nbBits);
    DecodedInAll(cs, s, all, pos, Some((code, gb.index)));
  }

  lemma BitsPrefix(all: seq<int>, s: seq<int>)
    requires IsBits(all) && s <= all
    ensures IsBits(s)
  {
  }

  lemma LengthsBounded(cs: seq<Code>, maxLen: nat)
    requires CodesOk(cs, maxLen)
    ensures forall i :: 0 <= i < |cs| ==> cs[i].len <= maxLen
  {
  }

  lemma DecodedForward(cs: seq<Code>, s: seq<int>, pos: nat, r: Option<(int, int)>)
    requires Decoded(cs, s, pos, r)
    ensures r.Some? && r.value.1 >= 0
  {
    hide Matches;
  }

  lemma CacheBits()
    ensures MIN_CACHE_BITS == 25
  {
  }
}
