/** The coefficient loops of the WMA decoder under noise coding: where each coefficient of a block
    comes from. */
module WmaCoefs {
  import opened Bits
  import opened Ints
  import opened Optional
  import opened WmaLayout
  import opened WmaBands

  // ----- noise coding -----

  /** The coefficients of the first j high bands that are transmitted, and those that are
      replaced by noise. */
  function Sent(high: seq<int>, coded: seq<bool>, j: nat): int
    requires j <= |high| == |coded|
  {
    if j == 0 then 0 else Sent(high, coded, j - 1) + if coded[j - 1] then 0 else high[j - 1]
  }

  function Noisy(high: seq<int>, coded: seq<bool>, j: nat): int
    requires j <= |high| == |coded|
  {
    if j == 0 then 0 else Noisy(high, coded, j - 1) + if coded[j - 1] then high[j - 1] else 0
  }

  lemma {:induction false} SentAndNoisy(high: seq<int>, coded: seq<bool>, j: nat)
    requires j <= |high| == |coded|
    ensures Sent(high, coded, j) + Noisy(high, coded, j) == Sum(high[..j])
  {
    if j > 0 {
      SentAndNoisy(high, coded, j - 1);
      SumStep(high, j - 1);
    }
  }

  /** How many coefficients the bit stream holds: the program subtracts the noise-coded bands. */
  method CountCoefs(coefsStart: int, coefsEnd: int, high: seq<int>, coded: seq<bool>) returns (nbCoefs: int)
    requires |high| == |coded|
    ensures nbCoefs == coefsEnd - coefsStart - Noisy(high, coded, |high|)
  {
    nbCoefs := coefsEnd - coefsStart;
    for i := 0 to |high|
      invariant nbCoefs == coefsEnd - coefsStart - Noisy(high, coded, i)
    {
      if coded[i] {
        nbCoefs := nbCoefs - high[i];
      }
    }
  }

  const NOISE_TAB_SIZE := 8192

  /** A place in the noise table, which is used cyclically. */
  function Place(n: int): (p: nat)
    ensures p < NOISE_TAB_SIZE
  {
    n % NOISE_TAB_SIZE
  }

  /** Where a coefficient comes from: noise below, noise with the power of a high band, the
      transmitted coefficient of a number with a little noise, noise above; and zeros without
      noise coding. */
  datatype Source = Low | Band(j: nat) | Transmitted(number: int) | High | Zero

  /** A coefficient: its source and the place of its noise in the noise table. */
  datatype Coef = Coef(source: Source, noise: nat)

  /** The coefficients of high band j, which starts at highStart + Sum(high[..j]). */
  ghost predicate BandFilled(coefs: seq<Coef>, coefsStart: int, highStart: int, high: seq<int>, coded: seq<bool>,
                             j: nat)
    requires j < |high| == |coded|
  {
    var from, to := highStart + Sum(high[..j]), highStart + Sum(high[..j + 1]);
    forall i :: from <= i < to && 0 <= i < |coefs| ==>
      coefs[i].source == if coded[j] then Band(j)
                         else Transmitted(highStart - coefsStart + Sent(high, coded, j) + (i - from))
  }

  /** The coefficients below the high bands, and those of the first n high bands, have their
      sources, and each has its own noise. */
  ghost predicate FilledTo(coefs: seq<Coef>, coefsStart: int, highStart: int, high: seq<int>, coded: seq<bool>,
                           noise: nat, n: nat)
    requires n <= |high| == |coded|
  {
    && (forall i :: 0 <= i < |coefs| ==> coefs[i].noise == Place(noise + i))
    && (forall i :: 0 <= i < coefsStart && i < |coefs| ==> coefs[i].source == Low)
    && (forall i :: coefsStart <= i < highStart && 0 <= i < |coefs| ==> coefs[i].source == Transmitted(i - coefsStart))
    && (forall j :: 0 <= j < n ==> BandFilled(coefs, coefsStart, highStart, high, coded, j))
  }

  /** All coefficients have their sources. */
  ghost predicate Filled(coefs: seq<Coef>, coefsStart: int, highStart: int, high: seq<int>, coded: seq<bool>,
                         noise: nat)
    requires |high| == |coded|
  {
    && FilledTo(coefs, coefsStart, highStart, high, coded, noise, |high|)
    && (forall i :: highStart + Sum(high) <= i < |coefs| && 0 <= i ==> coefs[i].source == High)
  }

  lemma {:induction false} SumMono(high: seq<int>, i: nat, j: nat)
    requires i <= j <= |high| && forall k :: 0 <= k < |high| ==> high[k] >= 0
    ensures 0 <= Sum(high[..i]) <= Sum(high[..j])
  {
    if j == 0 {
    } else if i == j {
      SumMono(high, i - 1, j - 1);
      SumStep(high, j - 1);
    } else {
      SumMono(high, i, j - 1);
      SumStep(high, j - 1);
    }
  }

  lemma ModAdd(a: nat, b: nat)
    ensures Place(Place(a) + b) == Place(a + b) && (a < NOISE_TAB_SIZE ==> Place(a) == a)
  {
  }

  /** Coefficients added behind the first n bands leave those as they are. */
  lemma Kept(t: seq<Coef>, u: seq<Coef>, coefsStart: int, highStart: int, high: seq<int>, coded: seq<bool>,
             noise: nat, n: nat, at: nat)
    requires n <= |high| == |coded| && FilledTo(t, coefsStart, highStart, high, coded, noise, n)
    requires t <= u && highStart >= coefsStart && |t| == highStart + Sum(high[..n]) && at == Place(noise + |t|)
    requires forall k :: 0 <= k < |high| ==> high[k] >= 0
    requires forall k :: |t| <= k < |u| ==> u[k].noise == Place(at + (k - |t|))
    ensures FilledTo(u, coefsStart, highStart, high, coded, noise, n)
  {
    forall k | |t| <= k < |u|
      ensures u[k].noise == Place(noise + k)
    {
      ModAdd(noise + |t|, k - |t|);
    }
    SumMono(high, 0, n);
    forall j | 0 <= j < n
      ensures BandFilled(u, coefsStart, highStart, high, coded, j)
    {
      assert BandFilled(t, coefsStart, highStart, high, coded, j);
      SumMono(high, j + 1, n);
    }
  }

  /** One band more. */
  lemma Grown(t: seq<Coef>, u: seq<Coef>, coefsStart: int, highStart: int, high: seq<int>, coded: seq<bool>,
              noise: nat, n: nat, at: nat,
              source: int -> Source)
    requires n < |high| == |coded| && FilledTo(t, coefsStart, highStart, high, coded, noise, n)
    requires t <= u && highStart >= coefsStart && |t| == highStart + Sum(high[..n]) && at == Place(noise + |t|)
    requires (forall k :: 0 <= k < |high| ==> high[k] >= 0) && |u| == |t| + high[n]
    requires forall k :: |t| <= k < |u| ==> u[k] == Coef(source(k), Place(at + (k - |t|)))
    requires forall k :: source(k) == if coded[n] then Band(n)
               else Transmitted(highStart - coefsStart + Sent(high, coded, n) + (k - |t|))
    ensures FilledTo(u, coefsStart, highStart, high, coded, noise, n + 1)
  {
    hide BandFilled;
    Kept(t, u, coefsStart, highStart, high, coded, noise, n, at);
    SumStep(high, n);
    BandIs(u, |t|, coefsStart, highStart, high, coded, n, source);
  }

  lemma BandIs(u: seq<Coef>, from: int, coefsStart: int, highStart: int, high: seq<int>, coded: seq<bool>, n: nat,
               source: int -> Source)
    requires n < |high| == |coded| && from == highStart + Sum(high[..n])
    requires highStart + Sum(high[..n + 1]) == |u| && 0 <= from
    requires forall k :: from <= k < |u| ==> u[k].source == source(k)
    requires forall k :: source(k) == if coded[n] then Band(n)
               else Transmitted(highStart - coefsStart + Sent(high, coded, n) + (k - from))
    ensures BandFilled(u, coefsStart, highStart, high, coded, n)
  {
  }

  /** A run of n coefficients from one source of noise. */
  method PutNoise(coefs: array<Coef>, c0: nat, n: int, noise0: nat, source: Source) returns (c: nat, noise: nat)
    requires c0 + Max(n, 0) <= coefs.Length && noise0 < NOISE_TAB_SIZE
    modifies coefs
    ensures c == c0 + Max(n, 0) && noise == Place(noise0 + Max(n, 0))
    ensures forall k :: 0 <= k < c0 || c <= k < coefs.Length ==> coefs[k] == old(coefs[k])
    ensures forall k :: c0 <= k < c ==> coefs[k] == Coef(source, Place(noise0 + (k - c0)))
  {
    hide Place;
    ModAdd(noise0, 0);
    c, noise := c0, noise0;
    var i := 0;
    while i < n
      invariant 0 <= i <= Max(n, 0) && c == c0 + i && noise == Place(noise0 + i)
      invariant forall k :: 0 <= k < c0 || c <= k < coefs.Length ==> coefs[k] == old(coefs[k])
      invariant forall k :: c0 <= k < c ==> coefs[k] == Coef(source, Place(noise0 + (k - c0)))
    {
      coefs[c] := Coef(source, noise);
      ModAdd(noise0 + i, 1);
      c := c + 1;
      noise := Place(noise + 1);
      i := i + 1;
    }
  }

  /** A run of n coefficients as they were transmitted. */
  method PutSent(coefs: array<Coef>, c0: nat, n: int, noise0: nat, sent0: nat) returns (c: nat, noise: nat, sent: nat)
    requires c0 + Max(n, 0) <= coefs.Length && noise0 < NOISE_TAB_SIZE
    modifies coefs
    ensures c == c0 + Max(n, 0) && noise == Place(noise0 + Max(n, 0)) && sent == sent0 + Max(n, 0)
    ensures forall k :: 0 <= k < c0 || c <= k < coefs.Length ==> coefs[k] == old(coefs[k])
    ensures forall k :: c0 <= k < c ==> coefs[k] == Coef(Transmitted(sent0 + (k - c0)), Place(noise0 + (k - c0)))
  {
    hide Place;
    ModAdd(noise0, 0);
    c, noise, sent := c0, noise0, sent0;
    var i := 0;
    while i < n
      invariant 0 <= i <= Max(n, 0) && c == c0 + i && noise == Place(noise0 + i) && sent == sent0 + i
      invariant forall k :: 0 <= k < c0 || c <= k < coefs.Length ==> coefs[k] == old(coefs[k])
      invariant forall k :: c0 <= k < c ==> coefs[k] == Coef(Transmitted(sent0 + (k - c0)), Place(noise0 + (k - c0)))
    {
      coefs[c] := Coef(Transmitted(sent), noise);
      ModAdd(noise0 + i, 1);
      c, sent := c + 1, sent + 1;
      noise := Place(noise + 1);
      i := i + 1;
    }
  }

  /** The coefficient loops under noise coding. The high bands are put where they start, or behind
      the low coefficients if that is later; all that are transmitted are consumed, each in its
      place. */
  method FillCoefs(coefs: array<Coef>, len: nat, coefsStart: nat, highStart: int, coefsEnd: nat, high: seq<int>,
                   coded: seq<bool>, noise0: nat)
    returns (written: nat, sent: nat, noise: nat)
    requires |high| == |coded| && (forall j :: 0 <= j < |high| ==> high[j] > 0)
    requires coefsEnd <= len && noise0 < NOISE_TAB_SIZE
    requires Max(coefsStart, highStart) + Sum(high) + (len - coefsEnd) <= coefs.Length
    modifies coefs
    ensures written == Max(coefsStart, highStart) + Sum(high) + (len - coefsEnd)
    ensures sent == Max(coefsStart, highStart) - coefsStart + Sent(high, coded, |high|)
    ensures noise == Place(noise0 + written)
    ensures Filled(coefs[..written], coefsStart, Max(coefsStart, highStart), high, coded, noise0)
  {
    hide *;
    ghost var base: nat := Max(coefsStart, highStart);
    written, noise, sent := 0, noise0, 0;
    NothingSent(high, coded);
    SumMono(high, 0, |high|);
    assert high[..|high|] == high && high[..0] == [];
    MaxMeans(len - coefsEnd);
    written, noise, sent := PutLow(coefs, coefsStart, highStart, high, coded, noise0);
    for j := 0 to |high|
      invariant written == base + Sum(high[..j]) <= coefs.Length
      invariant sent == base - coefsStart + Sent(high, coded, j)
      invariant noise == Place(noise0 + written) && noise < NOISE_TAB_SIZE
      invariant FilledTo(coefs[..written], coefsStart, base, high, coded, noise0, j)
    {
      SumMono(high, j + 1, |high|);
      written, noise, sent := PutBand(coefs, written, coefsStart, base, high, coded, noise0, noise, sent, j);
    }
    ghost var t, c := coefs[..written], written;
    written, noise := PutNoise(coefs, written, len - coefsEnd, noise, High);
    assert t <= coefs[..written];
    Kept(t, coefs[..written], coefsStart, base, high, coded, noise0, |high|, Place(noise0 + c));
    ModAdd(noise0 + c, len - coefsEnd);
    AllFilled(coefs[..written], coefsStart, base, high, coded, noise0);
  }

  /** The coefficients below the high bands. */
  method PutLow(coefs: array<Coef>, coefsStart: nat, highStart: int, ghost high: seq<int>, ghost coded: seq<bool>,
                noise0: nat)
    returns (c: nat, noise: nat, sent: nat)
    requires |high| == |coded| && Max(coefsStart, highStart) <= coefs.Length && noise0 < NOISE_TAB_SIZE
    modifies coefs
    ensures c == Max(coefsStart, highStart) && sent == c - coefsStart
    ensures noise == Place(noise0 + c) && noise < NOISE_TAB_SIZE
    ensures FilledTo(coefs[..c], coefsStart, c, high, coded, noise0, 0)
  {
    hide *;
    MaxMeans(coefsStart);
    MaxMeans(highStart - coefsStart);
    TableSize();
    c, noise := PutNoise(coefs, 0, coefsStart, noise0, Low);
    c, noise, sent := PutSent(coefs, c, highStart - coefsStart, noise, 0);
    Started(coefs[..c], coefsStart, c, high, coded, noise0);
    ModAdd(noise0 + coefsStart, c - coefsStart);
  }

  lemma TableSize()
    ensures NOISE_TAB_SIZE == 8192
  {
  }

  /** One high band. */
  method PutBand(coefs: array<Coef>, c0: nat, ghost coefsStart: nat, ghost highStart: nat, high: seq<int>,
                 coded: seq<bool>,
                 ghost first: nat, noise0: nat, sent0: nat, j: nat) returns (c: nat, noise: nat, sent: nat)
    requires j < |high| == |coded| && (forall k :: 0 <= k < |high| ==> high[k] >= 0) && coefsStart <= highStart
    requires c0 == highStart + Sum(high[..j]) && highStart + Sum(high[..j + 1]) <= coefs.Length
    requires sent0 == highStart - coefsStart + Sent(high, coded, j)
    requires c0 <= coefs.Length && noise0 == Place(first + c0) && noise0 < NOISE_TAB_SIZE
    requires FilledTo(coefs[..c0], coefsStart, highStart, high, coded, first, j)
    modifies coefs
    ensures c == highStart + Sum(high[..j + 1]) <= coefs.Length
    ensures sent == highStart - coefsStart + Sent(high, coded, j + 1)
    ensures noise == Place(first + c) && noise < NOISE_TAB_SIZE
    ensures FilledTo(coefs[..c], coefsStart, highStart, high, coded, first, j + 1)
  {
    hide *;
    ghost var t := coefs[..c0];
    SumStep(high, j);
    SentStep(high, coded, j);
    MaxMeans(high[j]);
    c, noise, sent := c0, noise0, sent0;
    if coded[j] {
      c, noise := PutNoise(coefs, c0, high[j], noise0, Band(j));
    } else {
      c, noise, sent := PutSent(coefs, c0, high[j], noise0, sent0);
    }
    assert t <= coefs[..c];
    ModAdd(first + c0, high[j]);
    Grown(t, coefs[..c], coefsStart, highStart, high, coded, first, j, noise0,
      k => if coded[j] then Band(j) else Transmitted(sent0 + (k - c0)));
  }

  lemma MaxMeans(n: int)
    ensures Max(n, 0) == if n <= 0 then 0 else n
  {
  }

  lemma NothingSent(high: seq<int>, coded: seq<bool>)
    requires |high| == |coded|
    ensures Sent(high, coded, 0) == 0 && Sum([]) == 0
  {
  }

  lemma SentStep(high: seq<int>, coded: seq<bool>, j: nat)
    requires j < |high| == |coded|
    ensures Sent(high, coded, j + 1) == Sent(high, coded, j) + if coded[j] then 0 else high[j]
  {
  }

  lemma Started(u: seq<Coef>, coefsStart: nat, highStart: nat, high: seq<int>, coded: seq<bool>, noise: nat)
    requires |high| == |coded| && coefsStart <= highStart == |u|
    requires forall k :: 0 <= k < coefsStart ==> u[k] == Coef(Low, Place(noise + (k - 0)))
    requires forall k :: coefsStart <= k < |u| ==>
               u[k] == Coef(Transmitted(0 + (k - coefsStart)), Place(Place(noise + coefsStart) + (k - coefsStart)))
    ensures FilledTo(u, coefsStart, highStart, high, coded, noise, 0)
  {
    forall k | coefsStart <= k < |u|
      ensures u[k].noise == Place(noise + k)
    {
      ModAdd(noise + coefsStart, k - coefsStart);
    }
  }

  lemma AllFilled(u: seq<Coef>, coefsStart: int, highStart: int, high: seq<int>, coded: seq<bool>, noise: nat)
    requires |high| == |coded| && FilledTo(u, coefsStart, highStart, high, coded, noise, |high|)
    requires forall k :: highStart + Sum(high) <= k < |u| && 0 <= k ==> u[k].source == High
    ensures Filled(u, coefsStart, highStart, high, coded, noise)
  {
    hide FilledTo;
  }

  /** The high bands, taken from a row that holds `held` coefficients, reach from their start to
      the end of the coded coefficients; or they start below the coded coefficients, and the row
      falls short by just as much. */
  predicate Reaches(held: int, coefsStart: int, highStart: int, coefsEnd: int) {
    var start := Max(highStart, 0);
    if start >= coefsStart then start == coefsEnd || start < coefsEnd <= held
    else (coefsEnd == coefsStart && held <= start)
         || (coefsEnd > coefsStart && held == coefsEnd - (coefsStart - start))
  }

  /** A block is written exactly, and all its transmitted coefficients are consumed, if and only
      if the high bands reach to the end of the coded coefficients. */
  lemma BlockIsExact(held: int, len: int, coefsStart: int, highStart: int, coefsEnd: int, high: seq<int>,
                     coded: seq<bool>)
    requires |high| == |coded| && 0 <= coefsStart && 0 <= coefsEnd <= len
    requires Sum(high) == Covered(held, highStart, coefsEnd)
    ensures Max(coefsStart, highStart) + Sum(high) + (len - coefsEnd) == len <==>
            Reaches(held, coefsStart, highStart, coefsEnd)
    ensures (Max(coefsStart, highStart) - coefsStart + Sent(high, coded, |high|)
             == coefsEnd - coefsStart - Noisy(high, coded, |high|)) <==>
            Reaches(held, coefsStart, highStart, coefsEnd)
  {
    SentAndNoisy(high, coded, |high|);
    assert high[..|high|] == high;
  }

  /** The coefficients of one channel of a block under noise coding: the count, then the loops. */
  method BlockCoefs(b: Bands, k: nat, coefs: array<Coef>, coded: seq<bool>, noise0: nat)
    returns (nbCoefs: int, written: nat, sent: nat, noise: nat)
    requires b.Valid() && k < b.nbBlockSizes && |coded| == |b.high[k]| && noise0 < NOISE_TAB_SIZE
    requires Max(b.coefsStart, b.highStart[k]) + Sum(b.high[k]) + (Pow2(b.frameLenBits - k) - b.coefsEnd[k])
          <= coefs.Length
    modifies coefs
    ensures nbCoefs == b.coefsEnd[k] - b.coefsStart - Noisy(b.high[k], coded, |coded|)
    ensures written ==
            Max(b.coefsStart, b.highStart[k]) + Sum(b.high[k]) + (Pow2(b.frameLenBits - k) - b.coefsEnd[k])
    ensures written == Pow2(b.frameLenBits - k) <==>
            Reaches(Sum(b.held[k]), b.coefsStart, b.highStart[k], b.coefsEnd[k])
    ensures sent == nbCoefs <==> Reaches(Sum(b.held[k]), b.coefsStart, b.highStart[k], b.coefsEnd[k])
    ensures Filled(coefs[..written], b.coefsStart, Max(b.coefsStart, b.highStart[k]), b.high[k], coded, noise0)
    ensures noise == Place(noise0 + written)
  {
    hide *;
    b.ReadyMeans(k);
    var len := Pow2(b.frameLenBits - k);
    var coefsEnd, highStart, high := b.coefsEnd[k], b.highStart[k], b.high[k];
    nbCoefs := CountCoefs(b.coefsStart, coefsEnd, high, coded);
    written, sent, noise := FillCoefs(coefs, len, b.coefsStart, highStart, coefsEnd, high, coded, noise0);
    BlockIsExact(Sum(b.held[k]), len, b.coefsStart, highStart, coefsEnd, high, coded);
  }

  /** Up to 49000 Hz, under noise coding: every block of version 2 is exact, without condition. The
      first block length of version 1 is exact unless the factor overflows, and a shorter one,
      whose row was never filled, never is. */
  lemma ExactBlocks(version: int, rate: nat, bitRate: nat, channels: nat, k: nat)
    requires 8 <= rate <= 49000 && channels > 0 && k + BLOCK_MIN_BITS <= FrameLenBits(version, rate)
    requires NoiseFactor(version, rate, bitRate, channels).Some? && (version == 1 || version == 2)
    ensures var bits, f := FrameLenBits(version, rate), NoiseFactor(version, rate, bitRate, channels);
            var start, end := HighBandStart(rate, HighFreq(rate, f), Pow2(bits - k)), CodedEnd(bits, k);
            && (Reaches(Width(version, rate, bits - k), CodedStart(version), start, end) <==>
                !(version == 1 && Overflows(rate, f.value)))
            && (version == 1 ==> !Reaches(0, CodedStart(version), start, end))
  {
    var bits := FrameLenBits(version, rate);
    hide Width, CodedEnd, NoiseFactor, HighFreq, HighBandStart, Overflows, Pow2, FrameLenBits;
    HighBandsInside(version, rate, bitRate, channels, k);
    BandsFill(version, rate, bits - k);
    CodedEndFits(bits, k);
    LongEnough(bits - k);
  }

  lemma LongEnough(n: nat)
    requires n >= BLOCK_MIN_BITS
    ensures Pow2(n) >= 128
  {
    Pow2Mono(BLOCK_MIN_BITS, n);
    Pow2Values();
    assert Pow2(7) == 128;
  }

  /** A version 1 stream at 44100 Hz and half a bit a sample: its second block length starts its
      high bands at 410, and 522 of its 1024 coefficients are never written. */
  method ShortBlockOfVersionOne() returns (written: nat)
    ensures written == 1024 - 522
  {
    hide BandEnd, Filled, Noisy, Table, Width, NoiseFactor, HighFreq, HighBandStart;
    StartAt44100();
    var b := new Bands();
    b.Init(1, 44100, 2, 22050, 1);
    var coefs := new Coef[4096](_ => Coef(Low, 0));
    b.ReadyMeans(1);
    Halves();
    NoBands(b.high[1]);
    var nbCoefs, sent, noise;
    nbCoefs, written, sent, noise := BlockCoefs(b, 1, coefs, [], 0);
  }

  lemma StartAt44100()
    ensures HighBandStart(44100, HighFreq(44100, NoiseFactor(1, 44100, 22050, 1)), 1024) == 410
  {
    assert BitsPerSample(44100, 22050, 1) == 0x8000;
    assert NoiseFactor(1, 44100, 22050, 1) == Some(0x6666);
    hide *;
    StartOf(44100, 0x6666, 1024);
    WholeDivisor(44100 * 0x6666, 22050);
    assert 44100 * 0x6666 / 22050 == 52428;
  }

  lemma StartAt48000()
    ensures HighBandStart(48000, HighFreq(48000, NoiseFactor(1, 48000, 40000, 1)), 2048) < 0
  {
    assert BitsPerSample(48000, 40000, 1) == 54613;
    assert NoiseFactor(1, 48000, 40000, 1) == Some(0xC000);
    hide NoiseFactor, BitsPerSample, HighFreq, HighBandStart;
    StartInside(48000, 0xC000, 2048);
  }

  lemma Halves()
    ensures Pow2(10) == 1024 && Pow2(11) == 2048 && CodedEnd(11, 0) == 1864 && CodedEnd(11, 1) == 932
  {
    Pow2Values();
    Pow2Add(8, 2);
    Pow2Add(8, 3);
  }

  lemma NoBands(high: seq<int>)
    requires forall j :: 0 <= j < |high| ==> high[j] > 0
    ensures Sum(high) == 0 ==> high == []
  {
    if high != [] {
      SumMono(high, 0, |high| - 1);
    }
  }

  /** A version 1 stream at 48000 Hz and more than 0.8 bits a sample: the factor overflows, and the
      loops write three coefficients more than the block has. */
  method LongBlockOfVersionOne() returns (written: nat)
    ensures written == 2048 + 3
  {
    hide BandEnd, Filled, Noisy, Table, Width, NoiseFactor, HighFreq, HighBandStart;
    StartAt48000();
    var b := new Bands();
    b.Init(1, 48000, 1, 40000, 1);
    var coefs := new Coef[4096](_ => Coef(Low, 0));
    b.ReadyMeans(0);
    Halves();
    BandsFill(1, 48000, 11);
    RowWidth(1, 48000, 11, b.held[0]);
    var nbCoefs, sent, noise;
    nbCoefs, written, sent, noise := BlockCoefs(b, 0, coefs, seq(|b.high[0]|, i => true), 0);
  }

  // ----- without noise coding -----

  /** The loops without noise coding: zeros below and above, and all that are transmitted between
      them. */
  method PlainCoefs(coefs: array<Source>, len: nat, coefsStart: nat, coefsEnd: nat) returns (nbCoefs: nat)
    requires coefsStart <= coefsEnd <= len <= coefs.Length
    modifies coefs
    ensures nbCoefs == coefsEnd - coefsStart
    ensures forall i :: 0 <= i < coefsStart || coefsEnd <= i < len ==> coefs[i] == Zero
    ensures forall i :: coefsStart <= i < coefsEnd ==> coefs[i] == Transmitted(i - coefsStart)
    ensures forall i :: len <= i < coefs.Length ==> coefs[i] == old(coefs[i])
  {
    nbCoefs := coefsEnd - coefsStart;
    var c := 0;
    for i := 0 to coefsStart
      invariant c == i && forall j :: 0 <= j < i ==> coefs[j] == Zero
      invariant forall j :: len <= j < coefs.Length ==> coefs[j] == old(coefs[j])
    {
      coefs[c] := Zero;
      c := c + 1;
    }
    for i := 0 to nbCoefs
      invariant c == coefsStart + i && (forall j :: 0 <= j < coefsStart ==> coefs[j] == Zero)
      invariant forall j :: coefsStart <= j < c ==> coefs[j] == Transmitted(j - coefsStart)
      invariant forall j :: len <= j < coefs.Length ==> coefs[j] == old(coefs[j])
    {
      coefs[c] := Transmitted(i);
      c := c + 1;
    }
    for i := 0 to len - coefsEnd
      invariant c == coefsEnd && (forall j :: 0 <= j < coefsStart || coefsEnd <= j < c + i ==> coefs[j] == Zero)
      invariant forall j :: coefsStart <= j < coefsEnd ==> coefs[j] == Transmitted(j - coefsStart)
      invariant forall j :: len <= j < coefs.Length ==> coefs[j] == old(coefs[j])
    {
      coefs[c + i] := Zero;
    }
  }
}
