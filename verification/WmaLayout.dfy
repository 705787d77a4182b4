/** Where the bands of a WMA block end: the critical frequencies rounded to the grid of the version,
    as boundaries of a row of widths. */
module WmaLayout {
  import opened Ints
  import opened Bits

  function Sum(s: seq<int>): int { if s == [] then 0 else Sum(s[..|s| - 1]) + s[|s| - 1] }

  lemma SumStep(s: seq<int>, i: nat)
    requires i < |s|
    ensures Sum(s[..i + 1]) == Sum(s[..i]) + s[i]
  {
    assert s[..i + 1][..i] == s[..i];
  }

  lemma SumAppend(s: seq<int>, x: int)
    ensures Sum(s + [x]) == Sum(s) + x
  {
    assert (s + [x])[..|s|] == s;
  }

  function SumTo(s: seq<int>, n: nat): int
    requires n <= |s|
  {
    if n == 0 then 0 else SumTo(s, n - 1) + s[n - 1]
  }

  lemma {:induction false} SumToIsSum(s: seq<int>, n: nat)
    requires n <= |s|
    ensures SumTo(s, n) == Sum(s[..n])
  {
    if n > 0 {
      SumToIsSum(s, n - 1);
      SumStep(s, n - 1);
    }
  }

  lemma {:induction false} SumToPrefix(s: seq<int>, w: int, n: nat)
    requires n <= |s|
    ensures SumTo(s + [w], n) == SumTo(s, n)
  {
    if n > 0 {
      SumToPrefix(s, w, n - 1);
    }
  }

  // ----- where bands end -----

  const WMA_CRITICAL_FREQS: seq<int> := [
    100, 200, 300, 400, 510, 630, 770, 920, 1080, 1270, 1480, 1720, 2000, 2320, 2700, 3150,
    3700, 4400, 5300, 6400, 7700, 9500, 12000, 15500, 24500]

  /** Where the band of a critical frequency ends, before it is cut to the block; version 1
      rounds to a whole coefficient, version 2 to a multiple of four. */
  function BandEnd(version: int, len: nat, rate: nat, freq: nat): int
    requires rate > 0
  {
    if version == 1 then (len * 2 * freq + rate / 2) / rate
    else (len * 2 * freq + rate * 2) / (4 * rate) * 4
  }

  lemma Critical()
    ensures |WMA_CRITICAL_FREQS| == 25 && WMA_CRITICAL_FREQS[24] == 24500
    ensures forall i :: 0 <= i < 25 ==> 0 < WMA_CRITICAL_FREQS[i] <= 24500
    ensures forall i :: 0 < i < 25 ==> WMA_CRITICAL_FREQS[i - 1] < WMA_CRITICAL_FREQS[i]
  {
  }

  lemma Rising(version: int, len: nat, rate: nat, a: nat, b: nat)
    requires rate > 0 && a <= b
    ensures 0 <= BandEnd(version, len, rate, a) <= BandEnd(version, len, rate, b)
  {
    assert len * 2 * a <= len * 2 * b;
    if version == 1 {
      Quotients(len * 2 * a + rate / 2, len * 2 * b + rate / 2, rate);
    } else {
      Quotients(len * 2 * a + rate * 2, len * 2 * b + rate * 2, 4 * rate);
    }
  }

  lemma Product(a: nat, b: nat, d: nat)
    requires a <= b
    ensures a * d <= b * d
  {
  }

  lemma AtLeast(x: nat, k: nat, d: nat)
    requires d > 0 && k * d <= x
    ensures x / d >= k
  {
    var q := x / d;
    assert x == q * d + x % d;
    if q < k {
      Product(q + 1, k, d);
    }
  }

  lemma Quotients(x: nat, y: nat, d: nat)
    requires d > 0 && x <= y
    ensures 0 <= x / d <= y / d
  {
    Below(x, d);
    AtLeast(y, x / d, d);
  }

  lemma Below(x: nat, d: nat)
    requires d > 0
    ensures 0 <= x / d && x / d * d <= x
  {
  }

  /** A place on the grid of whole coefficients or of multiples of four, half a step at most from the
      critical frequency, or just below the middle between two. */
  predicate Near(version: int, len: nat, rate: nat, freq: nat, pos: int) {
    var step := if version == 1 then 1 else 4;
    pos % step == 0 && -(step * rate) <= 2 * (2 * len * freq - pos * rate) < step * rate
  }

  /** There is one such place. */
  lemma NearIs(version: int, len: nat, rate: nat, freq: nat, pos: int)
    requires rate > 0
    ensures Near(version, len, rate, freq, pos) <==> pos == BandEnd(version, len, rate, freq)
  {
    var x := len * 2 * freq;
    assert 2 * len * freq == x;
    if version == 1 {
      Rounds(x, rate, pos);
    } else {
      RoundsToFour(x, rate, pos);
    }
  }

  lemma Rounds(x: nat, d: int, q: int)
    requires d > 0
    ensures -d <= 2 * (x - q * d) < d <==> q == (x + d / 2) / d
  {
    var y := x + d / 2;
    assert 0 <= y - q * d < d <==> -d <= 2 * (x - q * d) < d;
    if 0 <= y - q * d < d {
      DivModUnique(y, d, q, y - q * d);
    }
  }

  lemma RoundsToFour(x: nat, rate: nat, pos: int)
    requires rate > 0
    ensures pos % 4 == 0 && -(4 * rate) <= 2 * (x - pos * rate) < 4 * rate
            <==> pos == (x + rate * 2) / (4 * rate) * 4
  {
    if pos % 4 == 0 {
      var q := pos / 4;
      assert pos == q * 4;
      assert q * 4 * rate == q * (4 * rate);
      Rounds(x, 4 * rate, q);
    }
  }

  /** The place of a critical frequency. */
  ghost function Position(version: int, len: nat, rate: nat, freq: nat): (pos: int)
    requires rate > 0
    ensures Near(version, len, rate, freq, pos)
  {
    NearIs(version, len, rate, freq, BandEnd(version, len, rate, freq));
    var pos :| Near(version, len, rate, freq, pos);
    pos
  }

  /** Where the k-th band would end in a block of len coefficients. */
  ghost function End(version: int, len: nat, rate: nat, k: nat): int
    requires rate > 0 && k < |WMA_CRITICAL_FREQS|
  {
    Min(len, Position(version, len, rate, WMA_CRITICAL_FREQS[k]))
  }

  lemma EndIs(version: int, len: nat, rate: nat, k: nat)
    requires rate > 0 && k < 25
    ensures |WMA_CRITICAL_FREQS| == 25
    ensures End(version, len, rate, k) == Min(len, BandEnd(version, len, rate, WMA_CRITICAL_FREQS[k]))
  {
    hide BandEnd, Near;
    Critical();
    var freq := WMA_CRITICAL_FREQS[k];
    NearIs(version, len, rate, freq, Position(version, len, rate, freq));
  }

  lemma EndsRise(version: int, len: nat, rate: nat, j: nat, k: nat)
    requires rate > 0 && j <= k < 25
    ensures |WMA_CRITICAL_FREQS| == 25 && 0 <= End(version, len, rate, j) <= End(version, len, rate, k) <= len
    decreases k - j
  {
    hide BandEnd, End;
    Critical();
    if j == k {
      EndIs(version, len, rate, j);
      Rising(version, len, rate, 0, WMA_CRITICAL_FREQS[j]);
    } else {
      EndsRise(version, len, rate, j, k - 1);
      EndIs(version, len, rate, k - 1);
      EndIs(version, len, rate, k);
      Rising(version, len, rate, WMA_CRITICAL_FREQS[k - 1], WMA_CRITICAL_FREQS[k]);
    }
  }

  // ----- the boundaries of a row -----

  /** Where the widths of a row end. */
  function Bounds(s: seq<int>): set<int> { if s == [] then {} else Bounds(s[..|s| - 1]) + {Sum(s)} }

  lemma BoundsAppend(s: seq<int>, x: int)
    ensures Bounds(s + [x]) == Bounds(s) + {Sum(s) + x}
  {
    SumAppend(s, x);
    assert (s + [x])[..|s|] == s;
    hide Sum;
  }

  predicate Positive(s: seq<int>) { forall j :: 0 <= j < |s| ==> s[j] > 0 }

  lemma {:induction false} LastBound(s: seq<int>)
    requires Positive(s)
    ensures forall x :: x in Bounds(s) ==> 0 < x <= Sum(s)
    ensures s == [] <==> Bounds(s) == {}
    ensures s != [] ==> Sum(s) in Bounds(s)
  {
    if s != [] {
      var init, w := s[..|s| - 1], s[|s| - 1];
      assert s == init + [w];
      LastBound(init);
      BoundsAppend(init, w);
      SumAppend(init, w);
      if init == [] {
        assert Sum(init) == 0;
      }
    }
  }

  /** The boundaries of a row of positive widths decide it. */
  lemma {:induction false} BoundsDecide(s: seq<int>, t: seq<int>)
    requires Positive(s) && Positive(t) && Bounds(s) == Bounds(t)
    ensures s == t
    decreases |s|
  {
    hide Bounds, Sum;
    LastBound(s);
    LastBound(t);
    if s != [] {
      var a, b, x, y := s[..|s| - 1], t[..|t| - 1], s[|s| - 1], t[|t| - 1];
      assert s == a + [x] && t == b + [y];
      BoundsAppend(a, x);
      BoundsAppend(b, y);
      SumAppend(a, x);
      SumAppend(b, y);
      LastBound(a);
      LastBound(b);
      assert Bounds(a) == Bounds(s) - {Sum(s)} && Bounds(b) == Bounds(t) - {Sum(t)};
      BoundsDecide(a, b);
      if a != [] {
        assert Sum(a) == Sum(b);
      }
    }
  }

  /** The ends of the first i bands, but for those at zero. */
  ghost function Ends(version: int, len: nat, rate: nat, i: nat): set<int>
    requires rate > 0 && i <= |WMA_CRITICAL_FREQS|
  {
    set k | 0 <= k < i && End(version, len, rate, k) > 0 :: End(version, len, rate, k)
  }

  /** How a block is laid out. In version 1 the i-th band ends where the i-th critical frequency is,
      until the block is full; in version 2 the bands end exactly at all these places, without empty
      bands. */
  ghost predicate Laid(version: int, len: nat, rate: nat, bands: seq<int>)
    requires rate > 0
  {
    if version == 1 then
      && |bands| <= |WMA_CRITICAL_FREQS|
      && (forall j :: 0 < j <= |bands| ==> SumTo(bands, j) == End(version, len, rate, j - 1))
      && (forall j :: 0 < j < |bands| ==> SumTo(bands, j) < len)
      && (|bands| < |WMA_CRITICAL_FREQS| ==> Sum(bands) == len)
    else
      Positive(bands) && Bounds(bands) == Ends(version, len, rate, |WMA_CRITICAL_FREQS|)
  }

  /** So far, with i critical frequencies done. */
  ghost predicate LaidTo(version: int, len: nat, rate: nat, bands: seq<int>, i: nat)
    requires rate > 0 && i <= |WMA_CRITICAL_FREQS|
  {
    if version == 1 then
      && |bands| == i
      && forall j :: 0 < j <= i ==> SumTo(bands, j) == End(version, len, rate, j - 1) < len
    else
      Positive(bands) && Bounds(bands) == Ends(version, len, rate, i)
  }

  lemma NothingLaid(version: int, len: nat, rate: nat)
    requires rate > 0
    ensures LaidTo(version, len, rate, [], 0)
  {
  }

  lemma AllLaid(version: int, len: nat, rate: nat, bands: seq<int>)
    requires rate > 0 && LaidTo(version, len, rate, bands, |WMA_CRITICAL_FREQS|)
    ensures Laid(version, len, rate, bands)
  {
    hide End, Bounds, Ends, Sum;
  }

  lemma EndsNext(version: int, len: nat, rate: nat, i: nat)
    requires rate > 0 && i < 25 == |WMA_CRITICAL_FREQS|
    ensures var e := End(version, len, rate, i);
            Ends(version, len, rate, i + 1) == Ends(version, len, rate, i) + if e > 0 then {e} else {}
  {
    hide End;
  }

  /** One critical frequency more: its band, unless it is empty in version 2. */
  lemma LaidStep(version: int, len: nat, rate: nat, bands: seq<int>, i: nat, lpos: int, more: seq<int>)
    requires rate > 0 && i < 25 == |WMA_CRITICAL_FREQS| && LaidTo(version, len, rate, bands, i)
    requires Sum(bands) == lpos == (if i > 0 then End(version, len, rate, i - 1) else 0)
    requires var e := End(version, len, rate, i);
             0 <= lpos <= e && more == if version == 1 || e > lpos then bands + [e - lpos] else bands
    ensures Sum(more) == End(version, len, rate, i)
    ensures version != 1 || End(version, len, rate, i) < len ==> LaidTo(version, len, rate, more, i + 1)
    ensures version == 1 && End(version, len, rate, i) == len ==> Laid(version, len, rate, more)
  {
    hide End, Bounds, Sum;
    var e := End(version, len, rate, i);
    SumAppend(bands, e - lpos);
    if version == 1 {
      WholeStep(version, len, rate, bands, i, e - lpos);
    } else {
      EndsNext(version, len, rate, i);
      BoundsAppend(bands, e - lpos);
      if e == lpos && e > 0 {
        assert Ends(version, len, rate, i) + {e} == Ends(version, len, rate, i);
      }
    }
  }

  lemma WholeStep(version: int, len: nat, rate: nat, bands: seq<int>, i: nat, w: int)
    requires rate > 0 && i < 25 == |WMA_CRITICAL_FREQS| && LaidTo(version, len, rate, bands, i) && version == 1
    requires Sum(bands + [w]) == End(version, len, rate, i)
    ensures End(version, len, rate, i) < len ==> LaidTo(version, len, rate, bands + [w], i + 1)
    ensures End(version, len, rate, i) == len ==> Laid(version, len, rate, bands + [w])
  {
    hide End, Sum, SumTo;
    var more := bands + [w];
    SumToIsSum(more, i + 1);
    assert more[..i + 1] == more;
    forall j | 0 < j <= i
      ensures SumTo(more, j) == SumTo(bands, j)
    {
      SumToPrefix(bands, w, j);
    }
  }

  /** A full block: the later critical frequencies are cut to its end. */
  lemma FullIsLaid(version: int, len: nat, rate: nat, bands: seq<int>, i: nat)
    requires rate > 0 && i < 25 == |WMA_CRITICAL_FREQS| && version != 1 && LaidTo(version, len, rate, bands, i + 1)
    requires End(version, len, rate, i) == len > 0
    ensures Laid(version, len, rate, bands)
  {
    hide End, Bounds, Sum;
    forall k | i <= k < 25
      ensures End(version, len, rate, k) == len
    {
      EndsRise(version, len, rate, i, k);
    }
    assert Ends(version, len, rate, 25) == Ends(version, len, rate, i + 1);
  }

  // ----- the part of a row between two places -----

  function Cut(ends: set<int>, from: int, to: int): set<int> {
    set x | x in ends && Min(x, to) > Max(from, 0) :: Min(x, to) - Max(from, 0)
  }

  lemma CutMore(ends: set<int>, x: int, from: int, to: int)
    ensures Cut(ends + {x}, from, to)
         == Cut(ends, from, to) + if Min(x, to) > Max(from, 0) then {Min(x, to) - Max(from, 0)} else {}
  {
    hide Min, Max;
  }

  /** The row `high` is what lies between two places of the row `bands`, band by band. */
  ghost predicate CutOut(bands: seq<int>, from: int, to: int, high: seq<int>) {
    Positive(high) && Bounds(high) == Cut(Bounds(bands), from, to)
  }
}
