/** The band layout of the WMA decoder: the bands of each block length and the high bands among
    them, which noise may replace. */
module WmaBands {
  import opened Bits
  import opened Ints
  import opened Optional
  import opened WmaLayout

  // ----- the bands of a block length -----

  /** The band-building loops for a block of len coefficients. */
  method BuildBands(version: int, len: nat, rate: nat) returns (bands: seq<int>)
    requires rate > 0 && len > 0
    ensures |bands| <= 25 && Sum(bands) == Min(len, BandEnd(version, len, rate, 24500))
    ensures forall i :: 0 <= i < |bands| ==> bands[i] >= if version == 1 then 0 else 1
    ensures Laid(version, len, rate, bands)
  {
    hide BandEnd, End, Laid, LaidTo, Sum;
    bands := [];
    var lpos := 0;
    Critical();
    NoBands();
    NothingLaid(version, len, rate);
    for i := 0 to 25
      invariant Sum(bands) == lpos && 0 <= lpos < len && |bands| <= i
      invariant lpos == if i > 0 then End(version, len, rate, i - 1) else 0
      invariant forall k :: 0 <= k < |bands| ==> bands[k] >= if version == 1 then 0 else 1
      invariant LaidTo(version, len, rate, bands, i)
    {
      var a := WMA_CRITICAL_FREQS[i];
      var pos := BandEnd(version, len, rate, a);
      EndIs(version, len, rate, i);
      EndsRise(version, len, rate, if i > 0 then i - 1 else 0, i);
      if pos > len {
        pos := len;
      }
      ghost var was := bands;
      if version == 1 || pos > lpos {
        bands := bands + [pos - lpos];
      }
      LaidStep(version, len, rate, was, i, lpos, bands);
      if pos >= len {
        Rising(version, len, rate, a, 24500);
        if version != 1 {
          FullIsLaid(version, len, rate, bands, i);
        }
        return;
      }
      lpos := pos;
    }
    EndIs(version, len, rate, 24);
    AllLaid(version, len, rate, bands);
  }

  lemma NoBands()
    ensures Sum([]) == 0
  {
  }

  /** For all rates up to 49000 the bands fill the block. */
  lemma BandsFillBlock(version: int, len: nat, rate: nat)
    requires 0 < rate <= 49000 && len % 4 == 0
    ensures BandEnd(version, len, rate, 24500) >= len
  {
    Product(rate, 49000, len);
    if version == 1 {
      AtLeast(len * 2 * 24500 + rate / 2, len, rate);
    } else {
      Quarter(len, rate);
      AtLeast(len * 2 * 24500 + rate * 2, len / 4, 4 * rate);
    }
  }

  lemma Quarter(len: nat, rate: nat)
    requires len % 4 == 0
    ensures len / 4 * (4 * rate) == len * rate
  {
    assert len / 4 * (4 * rate) == (len / 4 * 4) * rate;
  }

  // ----- the high bands -----

  /** The parts of the bands between the start of the high bands and the end of the coded
      coefficients. */
  method HighBands(bands: seq<int>, highStart: int, coefsEnd: int) returns (high: seq<int>)
    requires forall i :: 0 <= i < |bands| ==> bands[i] >= 0
    ensures forall j :: 0 <= j < |high| ==> high[j] > 0
    ensures |high| <= |bands|
    ensures Sum(high) == Covered(Sum(bands), highStart, coefsEnd)
    ensures CutOut(bands, highStart, coefsEnd, high)
  {
    hide *;
    high := [];
    var pos := 0;
    NoHighBands(highStart, coefsEnd);
    assert bands[..0] == [] && bands[..|bands|] == bands;
    for i := 0 to |bands|
      invariant pos == Sum(bands[..i]) && 0 <= pos && |high| <= i
      invariant forall j :: 0 <= j < |high| ==> high[j] > 0
      invariant Sum(high) == Covered(pos, highStart, coefsEnd) && CutOut(bands[..i], highStart, coefsEnd, high)
    {
      var start := pos;
      ghost var was := high;
      SumStep(bands, i);
      assert bands[..i + 1] == bands[..i] + [bands[i]];
      pos := pos + bands[i];
      var end := pos;
      CoveredMore(start, end, highStart, coefsEnd);
      if start < highStart {
        start := highStart;
      }
      if end > coefsEnd {
        end := coefsEnd;
      }
      if end > start {
        SumAppend(high, end - start);
        high := high + [end - start];
      }
      CutStep(bands[..i], bands[i], highStart, coefsEnd, was, high);
    }
  }

  /** One band more: what lies of it between the two places is a band of its own. */
  lemma CutStep(bands: seq<int>, w: int, highStart: int, coefsEnd: int, high: seq<int>, more: seq<int>)
    requires CutOut(bands, highStart, coefsEnd, high) && 0 <= w && 0 <= Sum(bands)
    requires Sum(high) == Covered(Sum(bands), highStart, coefsEnd)
    requires var start, end := Sum(bands), Sum(bands) + w;
             var from, to := if start < highStart then highStart else start, if end > coefsEnd then coefsEnd else end;
             more == if to > from then high + [to - from] else high
    ensures CutOut(bands + [w], highStart, coefsEnd, more)
  {
    hide Sum, Bounds, Cut;
    NoBands();
    BoundsAppend(bands, w);
    CutMore(Bounds(bands), Sum(bands) + w, highStart, coefsEnd);
    LastBound(high);
    if more != high {
      BoundsAppend(high, more[|high|]);
    } else if Min(Sum(bands) + w, coefsEnd) > Max(highStart, 0) {
      assert Sum(high) == Min(Sum(bands) + w, coefsEnd) - Max(highStart, 0);
      assert Bounds(high) + {Sum(high)} == Bounds(high);
    }
  }

  /** How much of the first pos coefficients lies between highStart and coefsEnd. */
  function Covered(pos: int, highStart: int, coefsEnd: int): int { Max(0, Min(pos, coefsEnd) - Max(highStart, 0)) }

  lemma NoHighBands(highStart: int, coefsEnd: int)
    ensures Sum([]) == 0 && Covered(0, highStart, coefsEnd) == 0 && CutOut([], highStart, coefsEnd, [])
  {
  }

  lemma CoveredMore(from: int, to: int, highStart: int, coefsEnd: int)
    requires 0 <= from <= to
    ensures var start, end := if from < highStart then highStart else from, if to > coefsEnd then coefsEnd else to;
            Covered(to, highStart, coefsEnd) ==
            Covered(from, highStart, coefsEnd) + if end > start then end - start else 0
  {
  }

  // ----- the hard-coded bands -----

  const BLOCK_MIN_BITS := 7

  // the number of bands first, for blocks of 128, 256 and 512 coefficients
  const BAND_22050: seq<seq<int>> := [
    [10, 4, 8, 4, 8, 8, 12, 20, 24, 24, 16],
    [14, 4, 8, 8, 4, 12, 12, 16, 24, 16, 20, 24, 32, 40, 36],
    [23, 4, 4, 4, 8, 4, 4, 8, 8, 8, 8, 8, 12, 12, 16, 16, 24, 24, 32, 44, 48, 60, 84, 72]]
  const BAND_32000: seq<seq<int>> := [
    [11, 4, 4, 8, 4, 4, 12, 16, 24, 20, 28, 4],
    [15, 4, 8, 4, 4, 8, 8, 16, 20, 12, 20, 20, 28, 40, 56, 8],
    [16, 8, 4, 8, 8, 12, 16, 20, 24, 40, 32, 32, 44, 56, 80, 112, 16]]
  const BAND_44100: seq<seq<int>> := [
    [12, 4, 4, 4, 4, 4, 8, 8, 8, 12, 16, 20, 36],
    [15, 4, 8, 4, 8, 8, 4, 8, 8, 12, 12, 12, 24, 28, 40, 76],
    [17, 4, 8, 8, 4, 12, 12, 8, 8, 24, 16, 20, 24, 32, 40, 60, 80, 152]]

  /** The hard-coded bands of a block of 2^(7 + a) coefficients, if there are any. */
  function Table(rate: nat, a: nat): Option<seq<int>> {
    if a >= 3 then None
    else if rate >= 44100 then Some(BAND_44100[a])
    else if rate >= 32000 then Some(BAND_32000[a])
    else if rate >= 22050 then Some(BAND_22050[a])
    else None
  }

  /** The widths of a hard-coded row fill their block. */
  predicate Fills(t: seq<int>, len: nat) {
    && 0 < |t| <= 26 && t[0] == |t| - 1 && (forall i :: 0 < i < |t| ==> t[i] > 0)
    && SumTo(t, |t|) == t[0] + len
  }

  /** Four entries more. */
  lemma FourMore(t: seq<int>, n: nat)
    requires n + 4 <= |t|
    ensures SumTo(t, n + 4) == SumTo(t, n) + t[n] + t[n + 1] + t[n + 2] + t[n + 3]
  {
    assert SumTo(t, n + 2) == SumTo(t, n) + t[n] + t[n + 1];
  }

  lemma Tables128()
    ensures Fills(BAND_22050[0], 128) && Fills(BAND_32000[0], 128) && Fills(BAND_44100[0], 128)
  {
    FourMore(BAND_22050[0], 0);
    FourMore(BAND_22050[0], 4);
    FourMore(BAND_32000[0], 0);
    FourMore(BAND_32000[0], 4);
    FourMore(BAND_44100[0], 0);
    FourMore(BAND_44100[0], 4);
  }

  lemma Table256For22050()
    ensures Fills(BAND_22050[1], 256)
  {
    FourMore(BAND_22050[1], 0);
    FourMore(BAND_22050[1], 4);
    FourMore(BAND_22050[1], 8);
  }

  lemma Table256For32000()
    ensures Fills(BAND_32000[1], 256)
  {
    FourMore(BAND_32000[1], 0);
    FourMore(BAND_32000[1], 4);
    FourMore(BAND_32000[1], 8);
  }

  lemma Tables256()
    ensures Fills(BAND_22050[1], 256) && Fills(BAND_32000[1], 256) && Fills(BAND_44100[1], 256)
  {
    Table256For22050();
    Table256For32000();
    FourMore(BAND_44100[1], 0);
    FourMore(BAND_44100[1], 4);
    FourMore(BAND_44100[1], 8);
  }

  lemma Table512For22050()
    ensures Fills(BAND_22050[2], 512)
  {
    FourMore(BAND_22050[2], 0);
    FourMore(BAND_22050[2], 4);
    FourMore(BAND_22050[2], 8);
    FourMore(BAND_22050[2], 12);
    FourMore(BAND_22050[2], 16);
    FourMore(BAND_22050[2], 20);
  }

  lemma Table512For32000()
    ensures Fills(BAND_32000[2], 512)
  {
    FourMore(BAND_32000[2], 0);
    FourMore(BAND_32000[2], 4);
    FourMore(BAND_32000[2], 8);
  }

  lemma Table512For44100()
    ensures Fills(BAND_44100[2], 512)
  {
    FourMore(BAND_44100[2], 0);
    FourMore(BAND_44100[2], 4);
    FourMore(BAND_44100[2], 8);
    FourMore(BAND_44100[2], 12);
  }

  lemma Tables512()
    ensures Fills(BAND_22050[2], 512) && Fills(BAND_32000[2], 512) && Fills(BAND_44100[2], 512)
  {
    hide Fills;
    Table512For22050();
    Table512For32000();
    Table512For44100();
  }

  /** Every hard-coded row fills its block. */
  lemma TableFills(rate: nat, a: nat)
    requires Table(rate, a).Some?
    ensures Fills(Table(rate, a).value, Pow2(BLOCK_MIN_BITS + a))
  {
    hide Fills;
    Tables128();
    Tables256();
    Tables512();
    Pow2Values();
    assert Pow2(8) == 2 * Pow2(7) && Pow2(9) == 2 * Pow2(8);
  }

  /** Which row is whose: at the rate it is made for, its last band begins within three coefficients
      of a critical frequency, 9500 Hz for the lowest rate and 15500 Hz for the others. */
  lemma TableTop(rate: nat, a: nat)
    requires Table(rate, a).Some?
    ensures var t, len := Table(rate, a).value, Pow2(BLOCK_MIN_BITS + a);
            var nominal := if rate >= 44100 then 44100 else if rate >= 32000 then 32000 else 22050;
            var freq := if nominal == 22050 then 9500 else 15500;
            && nominal <= rate && t != []
            && -3 * nominal < (len - t[|t| - 1]) * nominal - 2 * len * freq < 3 * nominal
  {
    Pow2Values();
    assert Pow2(8) == 2 * Pow2(7) && Pow2(9) == 2 * Pow2(8);
  }

  // ----- the bands of all block lengths -----

  function FrameLenBits(version: int, rate: nat): nat {
    if rate <= 16000 then 9 else if rate <= 22050 || (rate <= 32000 && version == 1) then 10 else 11
  }

  /** How long a frame is. */
  lemma FrameLengths(version: int, rate: nat)
    ensures Pow2(FrameLenBits(version, rate)) == 512 <==> rate <= 16000
    ensures Pow2(FrameLenBits(version, rate)) == 2048 <==> rate > 32000 || (rate > 22050 && version != 1)
    ensures FrameLenBits(version, rate) == 9 || Pow2(FrameLenBits(version, rate)) == 1024
            || Pow2(FrameLenBits(version, rate)) == 2048
  {
    Pow2Values();
    assert Pow2(9) == 512 && Pow2(10) == 2 * Pow2(9) && Pow2(11) == 2 * Pow2(10);
  }

  /** The end of the coded coefficients of a block 2^k times shorter than a frame. */
  function CodedEnd(bits: nat, k: nat): int { Coded(Pow2(bits)) / Pow2(k) }

  function Coded(len: nat): int { len - len * 9 / 100 }

  /** Most of the coefficients are coded, of q blocks of p coefficients at least those of one. */
  lemma MostCoded(q: nat, p: nat)
    requires p > 0
    ensures 0 <= Coded(q * p) / p <= q && (q >= 2 ==> Coded(q * p) / p > 0)
  {
    var n := q * p;
    assert 0 <= n * 9 / 100 <= n / 2;
    AtMost(Coded(n), q, p);
    if q >= 2 {
      Product(2, q, p);
      AtLeast(Coded(n), 1, p);
    }
  }

  lemma AtMost(x: nat, q: nat, p: nat)
    requires p > 0 && x <= q * p
    ensures 0 <= x / p <= q
  {
    Below(x, p);
    if x / p > q {
      Product(q + 1, x / p, p);
    }
  }

  lemma Larger(a: int, b: int, p: nat)
    ensures a >= b ==> a * p >= b * p
  {
    if a >= b {
      assert (a - b) * p >= 0;
    }
  }

  lemma CodedBounds(n: nat)
    ensures 91 * n <= 100 * Coded(n) < 91 * n + 100
  {
  }

  lemma MostOfBlock(q: nat, p: nat)
    requires p > 0
    ensures 100 * (Coded(q * p) / p + 1) > 91 * q
    ensures 100 * (Coded(q * p) / p - 1) < 91 * q
  {
    hide *;
    CodedBounds(q * p);
    AboutQuotient(Coded(q * p), q, p);
  }

  lemma AboutQuotient(c: int, q: nat, p: nat)
    requires p > 0 && 91 * (q * p) <= 100 * c < 91 * (q * p) + 100
    ensures 100 * (c / p + 1) > 91 * q && 100 * (c / p - 1) < 91 * q
  {
    var e := c / p;
    Remainder(c, p);
    Scale(100, e + 1, p);
    Scale(100, e - 1, p);
    Scale(91, q, p);
    Larger(91 * q, 100 * (e + 1), p);
    Larger(100 * (e - 1), 91 * q, p);
  }

  lemma Remainder(c: int, p: nat)
    requires p > 0
    ensures c / p * p <= c < (c / p + 1) * p && (c / p - 1) * p == c / p * p - p && (c / p + 1) * p == c / p * p + p
  {
  }

  lemma Scale(k: int, x: int, p: int)
    ensures k * x * p == k * (x * p)
  {
  }

  lemma CodedEndFits(bits: nat, k: nat)
    requires k <= bits
    ensures 0 <= CodedEnd(bits, k) <= Pow2(bits - k)
    ensures k < bits ==> CodedEnd(bits, k) > 0
    ensures 100 * (CodedEnd(bits, k) - 1) < 91 * Pow2(bits - k) < 100 * (CodedEnd(bits, k) + 1)
  {
    hide Coded;
    Pow2Add(bits - k, k);
    MostCoded(Pow2(bits - k), Pow2(k));
    MostOfBlock(Pow2(bits - k), Pow2(k));
  }

  /** How many coefficients the bands built for a block of 2^len coefficients hold. */
  function Width(version: int, rate: nat, len: nat): int
    requires rate > 0
  {
    if version != 1 && len >= BLOCK_MIN_BITS && Table(rate, len - BLOCK_MIN_BITS).Some? then Pow2(len)
    else Min(Pow2(len), BandEnd(version, Pow2(len), rate, 24500))
  }

  /** For all rates up to 49000 the bands fill their block, and so do hard-coded ones. */
  lemma BandsFill(version: int, rate: nat, len: nat)
    requires 0 < rate <= 49000 && len >= BLOCK_MIN_BITS
    ensures Width(version, rate, len) == Pow2(len)
  {
    Pow2Add(2, len - 2);
    Pow2Small();
    BandsFillBlock(version, Pow2(len), rate);
  }

  /** The row of a block of 2^len coefficients: a hard-coded one, or what the loops lay out. */
  ghost predicate RowOk(version: int, rate: nat, len: nat, row: seq<int>)
    requires rate > 0
  {
    && Sum(row) == Width(version, rate, len)
    && if version != 1 && len >= BLOCK_MIN_BITS && Table(rate, len - BLOCK_MIN_BITS).Some?
       then row == Table(rate, len - BLOCK_MIN_BITS).value[1..]
       else Laid(version, Pow2(len), rate, row)
  }

  lemma RowWidth(version: int, rate: nat, len: nat, row: seq<int>)
    requires rate > 0 && RowOk(version, rate, len, row)
    ensures Sum(row) == Width(version, rate, len)
  {
    hide Sum, Width;
  }

  // ----- where the high bands start -----

  /** A signed number of 32 bits, which wraps around. */
  function Int32(x: int): (y: int)
    ensures -0x8000_0000 <= y < 0x8000_0000
    ensures -0x8000_0000 <= x < 0x8000_0000 ==> y == x
  {
    if x % 0x1_0000_0000 >= 0x8000_0000 then x % 0x1_0000_0000 - 0x1_0000_0000 else x % 0x1_0000_0000
  }

  lemma Int32Wraps(x: int)
    ensures (Int32(x) - x) % 0x1_0000_0000 == 0
  {
  }

  /** A quotient that is rounded towards zero. */
  function Truncated(x: int, d: int): int
    requires d != 0
  {
    if x < 0 then -((-x) / d) else x / d
  }

  function FixMul32(x: int, y: int): int { Int32(x * y / 0x1_0000) }

  function FixDiv32(x: int, y: int): int {
    if x == 0 then 0 else if y == 0 then 0x7FFF_FFFF else Int32(Truncated(x * 0x1_0000, y))
  }

  /** Version 2 normalizes the rate. */
  function NormalRate(version: int, rate: nat): nat {
    if version != 2 then rate
    else if rate >= 44100 then 44100
    else if rate >= 22050 then 22050
    else if rate >= 16000 then 16000
    else if rate >= 11025 then 11025
    else if rate >= 8000 then 8000
    else rate
  }

  /** The bits of a sample, in fixed point. */
  function BitsPerSample(rate: nat, bitRate: nat, channels: nat): int
    requires rate > 0 && channels > 0
  {
    bitRate * 0x1_0000 / (channels * rate)
  }

  /** The part of the frequencies below the high bands, in fixed point, or None when there is no
      noise coding. */
  function NoiseFactor(version: int, rate: nat, bitRate: nat, channels: nat): (f: Option<nat>)
    requires rate > 0 && channels > 0
  {
    var bps := BitsPerSample(rate, bitRate, channels);
    var bps1 := if channels == 2 then FixMul32(Int32(bps), 0x1999A) else bps;
    match NormalRate(version, rate)
    case 44100 => if bps1 >= 0x9C29 then None else Some(0x6666)
    case 22050 => if bps1 >= 0x128F6 then None else if bps1 >= 0xB852 then Some(0xB333) else Some(0x999A)
    case 16000 => Some(if bps > 0x8000 then 0x8000 else 0x4CCD)
    case 11025 => Some(0xB333)
    case 8000 => if bps <= 0xA000 then Some(0x8000) else if bps > 0xC000 then None else Some(0xA666)
    case _ => Some(if bps >= 0xCCCD then 0xC000 else if bps >= 0x999A then 0x999A else 0x8000)
  }

  /** A number of thousandths, in fixed point. */
  function Thousandths(n: nat): nat { (n * 0x1_0000 + 500) / 1000 }

  /** The factors and their limits in bits a sample, as decimals: b is taken for two channels as 1.6
      times as much at the two highest rates. */
  function Decimal(rate: nat, bps: int, bps1: int): Option<nat> {
    match rate
    case 44100 => if bps1 >= Thousandths(610) then None else Some(400)
    case 22050 =>
      if bps1 >= Thousandths(1160) then None else if bps1 >= Thousandths(720) then Some(700) else Some(600)
    case 16000 => Some(if bps > Thousandths(500) then 500 else 300)
    case 11025 => Some(700)
    case 8000 =>
      if bps <= Thousandths(625) then Some(500) else if bps > Thousandths(750) then None else Some(650)
    case _ => Some(if bps >= Thousandths(800) then 750 else if bps >= Thousandths(600) then 600 else 500)
  }

  lemma NoiseDecimal(version: int, rate: nat, bitRate: nat, channels: nat)
    requires rate > 0 && channels > 0
    ensures var bps := BitsPerSample(rate, bitRate, channels);
            var bps1 := if channels == 2 then FixMul32(Int32(bps), Thousandths(1600)) else bps;
            NoiseFactor(version, rate, bitRate, channels)
            == match Decimal(NormalRate(version, rate), bps, bps1)
               case None => None
               case Some(n) => Some(Thousandths(n))
  {
    hide BitsPerSample, FixMul32, Int32, NormalRate;
  }

  /** More bits a sample never start the noise lower, nor bring it back, below a bit rate at which
      they still fit. */
  lemma NoiseGrows(version: int, rate: nat, slow: nat, fast: nat, channels: nat)
    requires rate > 0 && channels > 0 && slow <= fast && BitsPerSample(rate, fast, channels) < 0x4000_0000
    ensures var f, g := NoiseFactor(version, rate, slow, channels), NoiseFactor(version, rate, fast, channels);
            g.Some? ==> f.Some? && f.value <= g.value
  {
    Quotients(slow * 0x1_0000, fast * 0x1_0000, channels * rate);
    hide NormalRate;
  }

  function HighFreq(rate: nat, factor: Option<nat>): int {
    var highFreq := Int32(rate * 0x1_0000 / 2);
    if factor.None? then highFreq else FixMul32(highFreq, factor.value)
  }

  /** The first coefficient of the high bands of a block of len coefficients. */
  function HighBandStart(rate: nat, highFreq: int, len: nat): int {
    Int32(FixDiv32(Int32(highFreq * 2), Int32(rate / 2 * 0x1_0000)) * (len / 2) + 0x8000) / 0x1_0000
  }

  /** The product of rate and factor does not fit a fixed-point number. */
  predicate Overflows(rate: nat, factor: nat) { rate * factor >= 0x8000_0000 }

  /** The factors, and the one case among rates up to 49000 in which the product overflows. */
  lemma Factors(version: int, rate: nat, bitRate: nat, channels: nat)
    requires 0 < rate <= 49000 && channels > 0 && NoiseFactor(version, rate, bitRate, channels).Some?
    ensures var f := NoiseFactor(version, rate, bitRate, channels).value;
            0x4CCD <= f <= 0xC000 && (Overflows(rate, f) ==> version != 2 && f == 0xC000 && rate >= 43691)
  {
    hide BitsPerSample, FixMul32, Int32;
  }

  /** Twice a scaled frequency, before it is cut to 32 bits, is the product but for its last bit. */
  lemma Doubled(rate: nat, f: nat)
    requires rate <= 49000 && f <= 0xC000
    ensures 0 <= rate * f <= 49000 * 0xC000
    ensures HighFreq(rate, Some(f)) == rate * f / 2
  {
    Product(rate, 49000, f);
    Product(f, 0xC000, 49000);
    assert rate * 0x1_0000 / 2 == rate * 0x8000;
    assert rate * 0x8000 * f == rate * f * 0x8000;
    assert rate * f * 0x8000 / 0x1_0000 == rate * f / 2;
  }

  /** A quotient of two fixed-point numbers whose divisor is the whole number r. */
  lemma WholeDivisor(x: int, r: nat)
    requires x > 0 && r > 0
    ensures FixDiv32(x, r * 0x1_0000) == Int32(x / r) && FixDiv32(-x, r * 0x1_0000) == Int32(-(x / r))
  {
    hide Int32;
    DivDiv(x * 0x1_0000, 0x1_0000, r);
    assert x * 0x1_0000 / 0x1_0000 == x;
    var y := x * 0x1_0000;
    assert Truncated(y, r * 0x1_0000) == x / r && Truncated(-y, r * 0x1_0000) == -(x / r);
  }

  /** Twice the factor, for rate == 2 * r or 2 * r + 1. */
  lemma TwiceFactor(t: nat, r: nat, f: nat)
    requires r >= 4 && f > 0 && 2 * r * f - 1 <= t <= (2 * r + 1) * f
    ensures 2 * f - 1 <= t / r <= 2 * f + f / 4 + 1
  {
    Product(4, r, f / 4 + 1);
    assert (2 * f + f / 4 + 1) * r == 2 * r * f + r * (f / 4 + 1);
    assert (2 * r + 1) * f == 2 * r * f + f;
    AtMost(t, 2 * f + f / 4 + 1, r);
    assert (2 * f - 1) * r == 2 * r * f - r;
    AtLeast(t, 2 * f - 1, r);
  }

  lemma Halved(rate: nat, f: nat)
    ensures 2 * (rate / 2) * f - 1 <= rate * f / 2 * 2 <= (2 * (rate / 2) + 1) * f
  {
    assert (2 * (rate / 2) + 1) * f == 2 * (rate / 2) * f + f;
    if rate % 2 == 1 {
      assert rate == 2 * (rate / 2) + 1;
    } else {
      assert rate == 2 * (rate / 2);
    }
  }

  lemma Wrapped(n: nat, r: nat)
    requires 1886000000 <= n <= 0x8000_0000 && 21845 <= r <= 24500
    ensures 70000 <= n / r <= 100000
  {
    Product(r, 24500, 70000);
    AtLeast(n, 70000, r);
    Product(21845, r, 100000);
    AtMost(n, 100000, r);
  }

  predicate IsBlockLen(len: nat) { len == 128 || len == 256 || len == 512 || len == 1024 || len == 2048 }

  lemma Rounded(p: int, m: nat)
    requires 64 <= m <= 1024
    ensures 39321 * m <= p <= 110593 * m ==>
              3 <= (p + 0x8000) / 0x1_0000 && 50 * ((p + 0x8000) / 0x1_0000 + 2) <= 91 * m
    ensures p <= -70000 * m ==> (p + 0x8000) / 0x1_0000 < 0
  {
  }

  /** What the quotient q of the frequencies makes of a block. */
  lemma StartFrom(q: int, f: nat, len: nat)
    requires IsBlockLen(len) && 0x4CCD <= f <= 0xC000
    ensures var start := Int32(Int32(q) * (len / 2) + 0x8000) / 0x1_0000;
            && (2 * f - 1 <= q <= 2 * f + f / 4 + 1 ==> 3 <= start && 100 * (start + 2) <= 91 * len)
            && (-100000 <= q <= -70000 ==> start < 0)
  {
    hide Int32;
    var m: nat := len / 2;
    assert len == 2 * m && 64 <= m <= 1024;
    hide IsBlockLen;
    if -100000 <= q <= -70000 {
      Product(-q, 100000, m);
      Product(70000, -q, m);
      assert -(-q * m) == q * m;
      Rounded(q * m, m);
    } else if 2 * f - 1 <= q <= 2 * f + f / 4 + 1 {
      Product(39321, q, m);
      Product(q, 110593, m);
      Rounded(q * m, m);
    }
  }

  lemma StartOf(rate: nat, f: nat, len: nat)
    requires 0 < rate <= 49000 && f <= 0xC000
    ensures HighBandStart(rate, HighFreq(rate, Some(f)), len)
         == Int32(FixDiv32(Int32(rate * f / 2 * 2), rate / 2 * 0x1_0000) * (len / 2) + 0x8000) / 0x1_0000
  {
    Doubled(rate, f);
    hide HighFreq, FixDiv32, Int32;
  }

  /** What is left of the product in 32 bits, over half the rate. */
  lemma QuotientOf(rate: nat, f: nat)
    requires 8 <= rate <= 49000 && 0x4CCD <= f <= 0xC000
    ensures exists q :: FixDiv32(Int32(rate * f / 2 * 2), rate / 2 * 0x1_0000) == Int32(q)
                        && if Overflows(rate, f) then -100000 <= q <= -70000 else 2 * f - 1 <= q <= 2 * f + f / 4 + 1
  {
    var r, t := rate / 2, rate * f / 2 * 2;
    Halved(rate, f);
    Doubled(rate, f);
    hide FixDiv32, HighFreq;
    if Overflows(rate, f) {
      Product(f, 0xC000, rate);
      var n := 0x1_0000_0000 - t;
      assert Int32(t) == -n;
      hide Int32;
      WholeDivisor(n, r);
      Wrapped(n, r);
    } else {
      Product(8, rate, f);
      assert Int32(t) == t;
      hide Int32;
      WholeDivisor(t, r);
      TwiceFactor(t, r, f);
    }
  }

  /** Without overflow the high bands start between the first coded coefficient and the end of the
      coded ones; with it they start before the block. */
  lemma StartInside(rate: nat, f: nat, len: nat)
    requires 8 <= rate <= 49000 && 0x4CCD <= f <= 0xC000 && IsBlockLen(len)
    ensures var start := HighBandStart(rate, HighFreq(rate, Some(f)), len);
            if Overflows(rate, f) then start < 0 else 3 <= start && 100 * (start + 2) <= 91 * len
  {
    hide *;
    StartOf(rate, f, len);
    QuotientOf(rate, f);
    var q :| FixDiv32(Int32(rate * f / 2 * 2), rate / 2 * 0x1_0000) == Int32(q)
             && if Overflows(rate, f) then -100000 <= q <= -70000 else 2 * f - 1 <= q <= 2 * f + f / 4 + 1;
    StartFrom(q, f, len);
  }

  /** At even rates and without overflow the start is the factor's part of the block, rounded. */
  lemma StartExact(rate: nat, f: nat, len: nat)
    requires 8 <= rate <= 49000 && rate % 2 == 0 && 0x4CCD <= f <= 0xC000 && IsBlockLen(len) && !Overflows(rate, f)
    ensures HighBandStart(rate, HighFreq(rate, Some(f)), len) == (f * len + 0x8000) / 0x1_0000
  {
    var r := rate / 2;
    StartOf(rate, f, len);
    EvenProduct(rate, r, f);
    hide *;
    FitsIf(rate, f, len);
    WholeDivisor(rate * f, r);
    EvenLength(f, len);
  }

  lemma FitsIf(rate: nat, f: nat, len: nat)
    requires !Overflows(rate, f)
    ensures Int32(rate * f) == rate * f || rate * f < 0
  {
  }

  lemma EvenLength(f: nat, len: nat)
    requires IsBlockLen(len) && f <= 0xC000
    ensures Int32(2 * f) == 2 * f && Int32(2 * f * (len / 2) + 0x8000) == f * len + 0x8000
  {
    var m := len / 2;
    assert len == 2 * m && m <= 1024;
    Product(m, 1024, f);
    assert 2 * f * m == f * len;
  }

  lemma EvenProduct(rate: nat, r: nat, f: nat)
    requires rate == 2 * r && r > 0 && f > 0
    ensures rate * f == 2 * f * r && rate * f / 2 * 2 == rate * f > 0 && rate * f / r == 2 * f
  {
    assert rate * f == 2 * (r * f);
    DivModUnique(rate * f, r, 2 * f, 0);
  }

  function CodedStart(version: int): nat { if version == 1 then 3 else 0 }

  /** The high bands of every block under noise coding: the overflow of the one factor of 0xC000
      above 43690 Hz, which version 2 does not use there, puts them before the block, and otherwise
      they start inside the coded coefficients. */
  lemma HighBandsInside(version: int, rate: nat, bitRate: nat, channels: nat, k: nat)
    requires 8 <= rate <= 49000 && channels > 0 && k + BLOCK_MIN_BITS <= FrameLenBits(version, rate)
    requires NoiseFactor(version, rate, bitRate, channels).Some?
    ensures var bits, f := FrameLenBits(version, rate), NoiseFactor(version, rate, bitRate, channels).value;
            var start := HighBandStart(rate, HighFreq(rate, Some(f)), Pow2(bits - k));
            if Overflows(rate, f) then start < 0 && version != 2 && f == 0xC000 && rate >= 43691
            else CodedStart(version) <= start < CodedEnd(bits, k)
  {
    hide NoiseFactor, HighFreq, HighBandStart, Overflows, CodedEnd, Pow2;
    var bits, f := FrameLenBits(version, rate), NoiseFactor(version, rate, bitRate, channels).value;
    Factors(version, rate, bitRate, channels);
    BlockLens(bits - k);
    StartInside(rate, f, Pow2(bits - k));
    CodedEndFits(bits, k);
  }

  lemma BlockLens(n: nat)
    requires BLOCK_MIN_BITS <= n <= 11
    ensures IsBlockLen(Pow2(n))
  {
    Pow2Values();
    assert Pow2(7) == 128 && Pow2(9) == 512 && Pow2(10) == 2 * Pow2(9) && Pow2(11) == 2 * Pow2(10);
  }

  predicate Widths(row: seq<int>) { forall i :: 0 <= i < |row| ==> row[i] >= 0 }

  class Bands {
    var version: int
    var frameLenBits: nat
    var nbBlockSizes: nat
    var coefsStart: nat
    var useNoiseCoding: bool
    const coefsEnd: array<int>
    const highStart: array<int>
    /** Row k is what exponent_sizes[k] counts of exponent_bands[k], and so for the high bands. */
    const bands: array<seq<int>>
    const high: array<seq<int>>

    /** The row that block length k took its high bands from, as it then was. */
    ghost var held: seq<seq<int>>

    ghost predicate Shape()
      reads this, bands
    {
      && coefsEnd.Length == highStart.Length == bands.Length == high.Length == |held| == 5
      && coefsEnd != highStart && bands != high
      && forall k :: 0 <= k < 5 ==> Widths(bands[k])
    }

    /** Block length k is set up. */
    ghost predicate Ready(k: nat)
      requires coefsEnd.Length == highStart.Length == high.Length == |held| == 5
      reads this, coefsEnd, highStart, high
    {
      && k < 5 && k <= frameLenBits
      && coefsEnd[k] == CodedEnd(frameLenBits, k)
      && (forall j :: 0 <= j < |high[k]| ==> high[k][j] > 0)
      && Sum(high[k]) == Covered(Sum(held[k]), highStart[k], coefsEnd[k])
      && CutOut(held[k], highStart[k], coefsEnd[k], high[k])
    }

    ghost predicate Valid()
      reads this, coefsEnd, highStart, bands, high
    {
      && Shape() && nbBlockSizes <= frameLenBits - 6 <= 5
      && forall k :: 0 <= k < nbBlockSizes ==> Ready(k)
    }

    lemma ReadyMeans(k: nat)
      requires Valid() && k < nbBlockSizes
      ensures k < 5 == coefsEnd.Length == highStart.Length == high.Length == |held| && k + 7 <= frameLenBits
      ensures coefsEnd[k] == CodedEnd(frameLenBits, k)
      ensures 0 <= coefsEnd[k] <= Pow2(frameLenBits - k)
      ensures forall j :: 0 <= j < |high[k]| ==> high[k][j] > 0
      ensures Sum(high[k]) == Covered(Sum(held[k]), highStart[k], coefsEnd[k])
      ensures CutOut(held[k], highStart[k], coefsEnd[k], high[k])
    {
      hide Sum, Covered, CodedEnd, CutOut;
      assert Ready(k);
      CodedEndFits(frameLenBits, k);
    }

    constructor ()
      ensures Valid() && forall k :: 0 <= k < 5 ==> bands[k] == []
      ensures fresh(coefsEnd) && fresh(highStart) && fresh(bands) && fresh(high)
    {
      version, frameLenBits, nbBlockSizes, coefsStart, useNoiseCoding := 0, 9, 0, 0, false;
      coefsEnd := new int[5](_ => 0);
      highStart := new int[5](_ => 0);
      bands := new seq<int>[5](_ => []);
      high := new seq<int>[5](_ => []);
      held := [[], [], [], [], []];
    }

    /** The bands of block length k, in the row the program stores them in: version 1 stores
        those of every block length in the first row. */
    method InitRow(rate: nat, k: nat)
      requires Shape() && rate > 0 && k < 5 && k + BLOCK_MIN_BITS <= frameLenBits
      modifies bands
      ensures Shape()
      ensures var row := if version == 1 then 0 else k;
              && RowOk(version, rate, frameLenBits - k, bands[row])
              && forall i :: 0 <= i < 5 && i != row ==> bands[i] == old(bands[i])
    {
      hide BandEnd, Table, Fills, Sum, Laid;
      var blockLen := Pow2(frameLenBits - k);
      if version == 1 {
        bands[0] := BuildBands(version, blockLen, rate);
      } else {
        var table := Table(rate, frameLenBits - BLOCK_MIN_BITS - k);
        if table.Some? {
          TableFills(rate, frameLenBits - BLOCK_MIN_BITS - k);
          bands[k] := CopyRow(table.value, blockLen);
        } else {
          bands[k] := BuildBands(version, blockLen, rate);
        }
      }
    }

    /** The set-up of one block length. */
    method InitBlock(rate: nat, k: nat, highFreq: int)
      requires Shape() && rate > 0 && k < 5 && k + BLOCK_MIN_BITS <= frameLenBits
      modifies `held, coefsEnd, highStart, bands, high
      ensures Shape() && Ready(k) && highStart[k] == HighBandStart(rate, highFreq, Pow2(frameLenBits - k))
      ensures held == old(held)[k := bands[k]]
      ensures RowOk(version, rate, frameLenBits - k, bands[if version == 1 then 0 else k])
      ensures forall i :: 0 <= i < 5 && i != k ==>
                coefsEnd[i] == old(coefsEnd[i]) && highStart[i] == old(highStart[i]) && high[i] == old(high[i])
      ensures forall i :: 0 <= i < 5 && i != (if version == 1 then 0 else k) ==> bands[i] == old(bands[i])
      ensures forall i: nat :: i < 5 && i != k && old(Ready(i)) ==> Ready(i)
    {
      hide Width, BandEnd, Table, Sum, CodedEnd, Covered, Int32, FixDiv32, CutOut, RowOk;
      InitRow(rate, k);
      coefsEnd[k] := CodedEnd(frameLenBits, k);
      var tmp1 := Int32(highFreq * 2);
      var tmp2 := Int32(rate / 2 * 0x1_0000);
      highStart[k] := Int32(FixDiv32(tmp1, tmp2) * (Pow2(frameLenBits - k) / 2) + 0x8000) / 0x1_0000;
      high[k] := HighBands(bands[k], highStart[k], coefsEnd[k]);
      held := held[k := bands[k]];
    }

    /** The set-up of all block lengths. In version 1 only the first one sees its own bands: the
        others find in their rows what was there before. */
    method Init(ver: int, rate: nat, nb: nat, bitRate: nat, channels: nat)
      requires Valid() && rate > 0 && channels > 0 && nb <= FrameLenBits(ver, rate) - 6
      modifies this, coefsEnd, highStart, bands, high
      ensures Valid() && version == ver && frameLenBits == FrameLenBits(ver, rate) && nbBlockSizes == nb
      ensures coefsStart == CodedStart(ver)
      ensures useNoiseCoding == NoiseFactor(ver, rate, bitRate, channels).Some?
      ensures forall k :: 0 <= k < nb ==>
                highStart[k] == HighBandStart(rate, HighFreq(rate, NoiseFactor(ver, rate, bitRate, channels)),
                                              Pow2(frameLenBits - k))
      ensures forall k :: 0 <= k < nb ==>
                if ver == 1 && k > 0 then held[k] == old(bands[k]) else RowOk(ver, rate, frameLenBits - k, held[k])
      ensures ver == 1 ==> forall k :: 1 <= k < 5 ==> bands[k] == old(bands[k])
      ensures ver == 1 && nb > 0 ==> RowOk(ver, rate, frameLenBits - (nb - 1), bands[0])
      ensures ver != 1 ==> forall k :: 0 <= k < nb ==> bands[k] == held[k]
    {
      hide Width, BandEnd, Table, Sum, CodedEnd, Covered, HighBandStart, HighFreq, NoiseFactor, Pow2, Widths, RowOk;
      hide CutOut, Ready;
      version, frameLenBits, nbBlockSizes := ver, FrameLenBits(ver, rate), nb;
      var factor := NoiseFactor(ver, rate, bitRate, channels);
      var highFreq := HighFreq(rate, factor);
      useNoiseCoding := factor.Some?;
      coefsStart := if version == 1 then 3 else 0;
      for k := 0 to nb
        invariant Shape() && version == ver && frameLenBits == FrameLenBits(ver, rate) && nbBlockSizes == nb
        invariant coefsStart == CodedStart(ver) && useNoiseCoding == factor.Some?
        invariant forall i :: 0 <= i < k ==>
                    Ready(i) && highStart[i] == HighBandStart(rate, highFreq, Pow2(frameLenBits - i))
        invariant forall i :: 0 <= i < k ==>
                    if ver == 1 && i > 0 then held[i] == old(bands[i]) else RowOk(ver, rate, frameLenBits - i, held[i])
        invariant ver == 1 ==> forall i :: 1 <= i < 5 ==> bands[i] == old(bands[i])
        invariant ver == 1 && k > 0 ==> RowOk(ver, rate, frameLenBits - (k - 1), bands[0])
        invariant ver != 1 ==> forall i :: 0 <= i < k ==> bands[i] == held[i]
      {
        InitBlock(rate, k, highFreq);
      }
    }
  }

  /** The copy of a hard-coded row. */
  method CopyRow(table: seq<int>, ghost len: nat) returns (row: seq<int>)
    requires Fills(table, len)
    ensures Widths(row) && Sum(row) == len && row == table[1..]
  {
    row := [];
    for i := 0 to table[0]
      invariant row == table[1..i + 1]
    {
      row := row + [table[i + 1]];
    }
    SumToIsSum(table, |table|);
    SumTail(table);
    assert table[..|table|] == table && row == table[1..];
  }

  lemma {:induction false} SumTail(s: seq<int>)
    requires s != []
    ensures Sum(s) == s[0] + Sum(s[1..])
    decreases |s|
  {
    if |s| > 1 {
      SumTail(s[..|s| - 1]);
      assert s[..|s| - 1][1..] == s[1..][..|s| - 2];
    }
  }
}
