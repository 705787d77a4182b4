/** Bit strings, most significant bit first, and the numbers and bytes they spell. */
module Bits {

  function Pow2(n: nat): nat
    ensures Pow2(n) > 0
  {
    if n == 0 then 1 else 2 * Pow2(n - 1)
  }

  predicate IsBits(s: seq<int>) { forall i :: 0 <= i < |s| ==> s[i] == 0 || s[i] == 1 }

  predicate IsBytes(s: seq<int>) { forall i :: 0 <= i < |s| ==> 0 <= s[i] < 256 }

  /** The n low bits of v. */
  function ToBits(v: nat, n: nat): (s: seq<int>)
    ensures |s| == n && IsBits(s)
  {
    if n == 0 then [] else ToBits(v / 2, n - 1) + [v % 2]
  }

  function FromBits(s: seq<int>): (v: int)
    ensures IsBits(s) ==> 0 <= v < Pow2(|s|)
  {
    if s == [] then 0 else FromBits(s[..|s| - 1]) * 2 + s[|s| - 1]
  }

  /** The bits of a string of bytes. */
  function ByteBits(b: seq<int>): (s: seq<int>)
    requires IsBytes(b)
    ensures |s| == 8 * |b| && IsBits(s)
  {
    if b == [] then [] else ByteBits(b[..|b| - 1]) + ToBits(b[|b| - 1], 8)
  }

  lemma {:induction false} Pow2Add(a: nat, b: nat)
    ensures Pow2(a + b) == Pow2(a) * Pow2(b)
  {
    if a > 0 {
      Pow2Add(a - 1, b);
    }
  }

  lemma Pow2Values()
    ensures Pow2(1) == 2 && Pow2(2) == 4 && Pow2(3) == 8 && Pow2(4) == 16 && Pow2(8) == 256
    ensures Pow2(16) == 0x1_0000 && Pow2(24) == 0x100_0000 && Pow2(32) == 0x1_0000_0000
  {
    Pow2Small();
    hide *;
    Pow2Add(4, 4);
    Pow2Add(8, 8);
    Pow2Add(16, 8);
    Pow2Add(16, 16);
  }

  lemma Pow2Small()
    ensures Pow2(1) == 2 && Pow2(2) == 4 && Pow2(3) == 8 && Pow2(4) == 16
  {
  }

  lemma {:induction false} Pow2Mono(a: nat, b: nat)
    requires a <= b
    ensures Pow2(a) <= Pow2(b)
  {
    if a < b {
      Pow2Mono(a, b - 1);
    }
  }

  // ----- division by powers of two -----

  /** v shifted right by n. */
  function Shr(v: nat, n: nat): nat { Quotient(v, Pow2(n)); v / Pow2(n) }

  lemma Quotient(v: nat, d: nat)
    requires d > 0
    ensures 0 <= v / d
  {
  }

  /** v shifted left by n, in an unbounded register. */
  function Shl(v: nat, n: nat): nat { v * Pow2(n) }

  /** The n low bits of v. */
  function Low(v: nat, n: nat): (r: nat)
    ensures r < Pow2(n)
  {
    v % Pow2(n)
  }

  lemma BigMultiple(k: int, d: int)
    requires d > 0 && k != 0
    ensures k * d >= d || k * d <= -d
  {
    if k > 0 {
      assert (k - 1) * d >= 0;
    } else {
      assert (-k - 1) * d >= 0;
    }
  }

  lemma DivModUnique(v: int, d: int, q: int, r: int)
    requires 0 <= r < d && v == q * d + r
    ensures v / d == q && v % d == r
  {
    var k := v / d - q;
    assert k * d == v / d * d - q * d;
    if k != 0 {
      BigMultiple(k, d);
    }
  }

  lemma DivDiv(v: nat, p: nat, q: nat)
    requires p > 0 && q > 0
    ensures p * q > 0 && v / (p * q) == v / p / q
  {
    var x, r := v / p, v % p;
    var y, t := x / q, x % q;
    var low := t * p + r;
    assert low < p * q by {
      assert t * p <= (q - 1) * p;
      assert (q - 1) * p == q * p - p;
    }
    assert v == y * (p * q) + low by {
      assert x * p == (y * q + t) * p;
      assert (y * q + t) * p == y * q * p + t * p;
      assert y * q * p == y * (p * q);
    }
    DivModUnique(v, p * q, y, low);
  }

  /** A number is its high part and its n low bits. */
  lemma ShrLow(v: nat, n: nat)
    ensures v == Shr(v, n) * Pow2(n) + Low(v, n)
  {
  }

  lemma ShrUnique(v: nat, n: nat, q: nat, r: nat)
    requires r < Pow2(n) && v == q * Pow2(n) + r
    ensures Shr(v, n) == q && Low(v, n) == r
  {
    DivModUnique(v, Pow2(n), q, r);
  }

  lemma ShrShr(v: nat, a: nat, b: nat)
    ensures Shr(v, a + b) == Shr(Shr(v, a), b)
  {
    Pow2Add(a, b);
    DivDiv(v, Pow2(a), Pow2(b));
  }

  // ----- bit strings as numbers -----

  lemma FromBitsLast(s: seq<int>)
    requires s != []
    ensures FromBits(s) == FromBits(s[..|s| - 1]) * 2 + s[|s| - 1]
  {
  }

  lemma Pow2Next(n: nat)
    ensures Pow2(n + 1) == 2 * Pow2(n)
  {
  }

  lemma TimesTwo(x: int, p: int)
    ensures x * p * 2 == x * (2 * p)
  {
  }

  lemma {:induction false} FromBitsAppend(a: seq<int>, b: seq<int>)
    ensures FromBits(a + b) == FromBits(a) * Pow2(|b|) + FromBits(b)
  {
    if b == [] {
      assert a + b == a;
    } else {
      var c := b[..|b| - 1];
      FromBitsAppend(a, c);
      hide *;
      assert (a + b)[..|a + b| - 1] == a + c;
      FromBitsLast(a + b);
      FromBitsLast(b);
      Pow2Next(|c|);
      TimesTwo(FromBits(a), Pow2(|c|));
    }
  }

  lemma LowHalf(v: nat, n: nat)
    requires n > 0
    ensures Low(v, n) == 2 * Low(v / 2, n - 1) + v % 2
  {
    var q, r := Shr(v / 2, n - 1), Low(v / 2, n - 1);
    ShrLow(v / 2, n - 1);
    assert 2 * (q * Pow2(n - 1)) == q * (2 * Pow2(n - 1));
    ShrUnique(v, n, q, 2 * r + v % 2);
  }

  lemma {:induction false} FromToBits(v: nat, n: nat)
    ensures FromBits(ToBits(v, n)) == Low(v, n)
  {
    if n > 0 {
      var s := ToBits(v / 2, n - 1);
      FromToBits(v / 2, n - 1);
      assert (s + [v % 2])[..n - 1] == s;
      LowHalf(v, n);
    }
  }

  lemma {:induction false} FromBitsInjective(a: seq<int>, b: seq<int>)
    requires IsBits(a) && IsBits(b) && |a| == |b| && FromBits(a) == FromBits(b)
    ensures a == b
  {
    if a != [] {
      FromBitsInjective(a[..|a| - 1], b[..|b| - 1]);
      assert a == a[..|a| - 1] + [a[|a| - 1]] && b == b[..|b| - 1] + [b[|b| - 1]];
    }
  }

  /** The bits of a number in two parts. */
  lemma {:induction false} ToBitsSplit(v: nat, n: nat, m: nat)
    ensures ToBits(v, n + m) == ToBits(Shr(v, m), n) + ToBits(v, m)
    decreases m
  {
    if m == 0 {
      assert ToBits(v, n) + [] == ToBits(v, n);
    } else {
      ToBitsSplit(v / 2, n, m - 1);
      ShrShr(v, 1, m - 1);
      assert Pow2(1) == 2;
      var a, b, c := ToBits(Shr(v, m), n), ToBits(v / 2, m - 1), [v % 2];
      assert a + (b + c) == a + b + c;
    }
  }

  lemma ToBitsLow(v: nat, w: nat, n: nat)
    requires Low(v, n) == Low(w, n)
    ensures ToBits(v, n) == ToBits(w, n)
  {
    FromToBits(v, n);
    FromToBits(w, n);
    FromBitsInjective(ToBits(v, n), ToBits(w, n));
  }

  // ----- bytes -----

  lemma {:induction false} ByteBitsAppend(a: seq<int>, b: seq<int>)
    requires IsBytes(a) && IsBytes(b)
    ensures ByteBits(a + b) == ByteBits(a) + ByteBits(b)
  {
    hide ByteBits, ToBits;
    if b == [] {
      NoBytes();
      assert a + b == a && ByteBits(a) + [] == ByteBits(a);
    } else {
      var c, x := b[..|b| - 1], b[|b| - 1];
      assert c + [x] == b;
      ByteBitsAppend(a, c);
      ByteBitsSnoc(c, x);
      ByteBitsSnoc(a + c, x);
      Associative(a, c, [x]);
      Associative(ByteBits(a), ByteBits(c), ToBits(x, 8));
    }
  }

  lemma NoBytes()
    ensures ByteBits([]) == []
  {
  }

  lemma Associative(a: seq<int>, b: seq<int>, c: seq<int>)
    ensures a + b + c == a + (b + c)
  {
  }

  lemma ByteBitsSnoc(b: seq<int>, x: int)
    requires IsBytes(b) && 0 <= x < 256
    ensures IsBytes(b + [x]) && ByteBits(b + [x]) == ByteBits(b) + ToBits(x, 8)
  {
    hide ToBits;
    assert (b + [x])[..|b|] == b;
  }

  lemma ByteBitsOne(x: int)
    requires 0 <= x < 256
    ensures ByteBits([x]) == ToBits(x, 8)
  {
    assert [x][..0] == [];
    assert ByteBits([]) + ToBits(x, 8) == ToBits(x, 8);
  }

  lemma ByteBitsLength(b: seq<int>)
    requires IsBytes(b)
    ensures |ByteBits(b)| == 8 * |b|
  {
  }

  lemma BytesSlice(b: seq<int>, i: nat, j: nat)
    requires IsBytes(b) && i <= j <= |b|
    ensures IsBytes(b[i..j])
  {
  }

  lemma ByteBitsSlice(b: seq<int>, i: nat, j: nat)
    requires IsBytes(b) && i <= j <= |b|
    ensures ByteBits(b)[8 * i..8 * j] == ByteBits(b[i..j])
  {
    hide *;
    BytesSlice(b, 0, i);
    BytesSlice(b, 0, j);
    BytesSlice(b, i, j);
    BytesSlice(b, j, |b|);
    var x, y, z := b[0..i], b[i..j], b[j..|b|];
    assert x + y == b[0..j] && x + y + z == b;
    ByteBitsAppend(x, y);
    ByteBitsAppend(x + y, z);
    ByteBitsLength(x);
    ByteBitsLength(y);
    assert (ByteBits(x) + ByteBits(y) + ByteBits(z))[8 * i..8 * j] == ByteBits(y);
  }

  /** Four bytes, the most significant first. */
  function Word(b: seq<int>): int
    requires |b| == 4
  {
    b[0] * 0x100_0000 + b[1] * 0x1_0000 + b[2] * 0x100 + b[3]
  }

  lemma WordIsItsBits(b: seq<int>)
    requires |b| == 4 && IsBytes(b)
    ensures FromBits(ByteBits(b)) == Word(b)
  {
    hide *;
    WordMeans(b);
    Pow2Values();
    var x, y := [b[0]] + [b[1]], [b[2]] + [b[3]];
    assert b == x + y;
    ByteBitsAppend(x, y);
    ByteBitsLength(y);
    FromBitsAppend(ByteBits(x), ByteBits(y));
    TwoBytes(b[0], b[1]);
    TwoBytes(b[2], b[3]);
  }

  lemma WordMeans(b: seq<int>)
    requires |b| == 4 && IsBytes(b)
    ensures Word(b) == (b[0] * 0x100 + b[1]) * 0x1_0000 + (b[2] * 0x100 + b[3])
    ensures 0 <= b[0] < 256 && 0 <= b[1] < 256 && 0 <= b[2] < 256 && 0 <= b[3] < 256
    ensures IsBytes([b[0]] + [b[1]]) && IsBytes([b[2]] + [b[3]])
  {
  }

  lemma TwoBytes(p: int, q: int)
    requires 0 <= p < 256 && 0 <= q < 256
    ensures FromBits(ByteBits([p] + [q])) == p * 0x100 + q
  {
    ByteLow(p);
    ByteLow(q);
    hide *;
    ByteBitsPair(p, q);
    FromBitsAppend(ToBits(p, 8), ToBits(q, 8));
    ToBitsLength(q, 8);
    FromToBits(p, 8);
    FromToBits(q, 8);
  }

  lemma ByteLow(p: int)
    requires 0 <= p < 256
    ensures Pow2(8) == 256 && Low(p, 8) == p
  {
    Pow2Values();
  }

  lemma ByteBitsPair(p: int, q: int)
    requires 0 <= p < 256 && 0 <= q < 256
    ensures IsBytes([p] + [q]) && ByteBits([p] + [q]) == ToBits(p, 8) + ToBits(q, 8)
  {
    ByteBitsAppend([p], [q]);
    ByteBitsOne(p);
    ByteBitsOne(q);
  }

  lemma ToBitsLength(v: nat, n: nat)
    ensures |ToBits(v, n)| == n
  {
  }
}
