/** The block and frame machinery of the WMA decoder: block lengths, windowing with overlap
    add, and the frame shift. One channel, every block coded. */
module WmaOverlap {
  import opened Bits
  import opened Ints

  /** A fixed-point sample of 32 bits. */
  type Sample = x: int | -0x8000_0000 <= x < 0x8000_0000

  /** Addition wraps around. */
  function Add(x: Sample, y: Sample): Sample {
    if x + y >= 0x8000_0000 then x + y - 0x1_0000_0000
    else if x + y < -0x8000_0000 then x + y + 0x1_0000_0000
    else x + y
  }

  /** What is left uninterpreted: fixed-point multiplication, the windows (windows[bsize][j]),
      the inverse transform of each coded block and the lengths its header announces. */
  datatype Stream = Stream(
    mul: (Sample, Sample) -> Sample,
    window: (nat, nat) -> Sample,
    imdct: (nat, nat) -> Sample,
    header: nat -> Header)

  /** The three values a block header may hold: previous, current and next block length. */
  datatype Header = Header(prev: nat, block: nat, next: nat)

  /** A decoded block: its number in the stream, the sample it starts at, and the binary
      logarithms of its length and of the lengths it is windowed for. */
  datatype Block = Block(number: nat, start: nat, bits: nat, prev: nat, next: nat)

  function Len(b: Block): nat { Pow2(b.bits) }

  /** Half the part of a long window that lies outside the overlap with a short neighbour. */
  function Gap(bits: nat, side: nat): nat { Pow2Min(bits, side); (Pow2(bits) - Pow2(Min(bits, side))) / 2 }

  predicate BlockOk(b: Block, fb: nat) { 1 <= b.bits <= fb && 1 <= b.prev <= fb && 1 <= b.next <= fb }

  /** Where a block's 2 * Len(b) transformed samples begin in the output. */
  function Origin(b: Block, fb: nat): int { b.start + Pow2(fb) / 2 - Len(b) / 2 }

  /** What a block contributes to the output sample at time t: silence, a rising window over
      the overlap with the block before, the plain transform, a falling window over the
      overlap with the block after, silence. */
  function Windowed(s: Stream, fb: nat, b: Block, t: int): Sample
    requires BlockOk(b, fb)
  {
    var i := t - Origin(b, fb);
    var left, right := Pow2(Min(b.bits, b.prev)), Pow2(Min(b.bits, b.next));
    var n, m := Gap(b.bits, b.prev), Len(b) + Gap(b.bits, b.next);
    if i < n then 0
    else if i < n + left then s.mul(s.imdct(b.number, i), s.window(fb - Min(b.bits, b.prev), i - n))
    else if i < m then s.imdct(b.number, i)
    else if i < m + right then s.mul(s.imdct(b.number, i), s.window(fb - Min(b.bits, b.next), right - 1 - (i - m)))
    else 0
  }

  predicate BlocksOk(bs: seq<Block>, fb: nat) { forall k :: 0 <= k < |bs| ==> BlockOk(bs[k], fb) }

  /** The sum of all windowed blocks at time t. */
  function Sum(s: Stream, fb: nat, bs: seq<Block>, t: int): Sample
    requires BlocksOk(bs, fb)
  {
    if bs == [] then 0 else Add(Sum(s, fb, bs[..|bs| - 1], t), Windowed(s, fb, bs[|bs| - 1], t))
  }

  /** The blocks follow each other without a hole and each is windowed for its neighbours. */
  predicate Agree(bs: seq<Block>) {
    && (bs != [] ==> bs[0].start == 0)
    && forall k :: 0 < k < |bs| ==> Follows(bs[k - 1], bs[k])
  }

  predicate Follows(a: Block, b: Block) { b.start == a.start + Len(a) && b.bits == a.next && b.prev == a.bits }

  /** The block carries on the lengths of the last one of bs. */
  predicate Carried(bs: seq<Block>, b: Block) {
    bs != [] && b.bits == bs[|bs| - 1].next && b.prev == bs[|bs| - 1].bits
  }

  /** The lengths of the block behind bs: with block switching the header gives the next length, and
      if they are read anew the other two; those are otherwise carried on from the block before. */
  predicate Announced(s: Stream, fb: nat, variable: bool, bs: seq<Block>, b: Block) {
    && b.number == |bs|
    && if !variable then b.prev == b.bits == b.next == fb
       else
         && b.next == fb - s.header(b.number).next
         && (Carried(bs, b) || (b.bits == fb - s.header(b.number).block && b.prev == fb - s.header(b.number).prev))
  }

  /** So for every block. */
  ghost predicate AllAnnounced(s: Stream, fb: nat, variable: bool, bs: seq<Block>) {
    forall k :: 0 <= k < |bs| ==> Announced(s, fb, variable, bs[..k], bs[k])
  }

  /** The header of the block behind bs cannot be followed: it holds a length out of range, or the
      block does not fit behind the first `pos` samples of its frame. */
  predicate BadHeader(s: Stream, fb: nat, sizes: nat, bs: seq<Block>, anew: bool, pos: nat) {
    var h := s.header(|bs|);
    var bits := if anew then fb - h.block else if bs != [] then bs[|bs| - 1].next else 0;
    (anew && (h.prev >= sizes || h.block >= sizes)) || h.next >= sizes || bits < 0 || pos + Pow2(bits) > Pow2(fb)
  }

  lemma AnnouncedOne(s: Stream, fb: nat, variable: bool, bs: seq<Block>, b: Block)
    requires AllAnnounced(s, fb, variable, bs) && Announced(s, fb, variable, bs, b)
    ensures AllAnnounced(s, fb, variable, bs + [b])
  {
    hide Announced;
    forall k | 0 <= k < |bs + [b]|
      ensures Announced(s, fb, variable, (bs + [b])[..k], (bs + [b])[k])
    {
      assert (bs + [b])[..k] == bs[..k];
      assert k == |bs| ==> bs[..k] == bs;
    }
  }

  /** Where a block's contribution ends. */
  function End(b: Block, fb: nat): int { b.start + Len(b) + Pow2(fb) / 2 + Pow2(Min(b.bits, b.next)) / 2 }

  /** Where a block stops adding to what was there. */
  function Rise(b: Block, fb: nat): int { b.start + Pow2(fb) / 2 + Pow2(Min(b.bits, b.prev)) / 2 }

  /** What the output buffer held before the first block remains audible only until the first
      block's rising window is over. */
  function Stale(init: seq<Sample>, fb: nat, bs: seq<Block>, t: int): Sample {
    if 0 <= t < |init| && (bs == [] || t < Rise(bs[0], fb)) then init[t] else 0
  }

  /** What the output has to be. */
  function Expected(s: Stream, fb: nat, init: seq<Sample>, bs: seq<Block>, t: int): Sample
    requires BlocksOk(bs, fb)
  {
    Add(Stale(init, fb, bs, t), Sum(s, fb, bs, t))
  }

  // ----- lengths -----

  lemma {:induction false} EvenPow2(n: nat)
    requires n >= 1
    ensures Pow2(n) % 2 == 0 && Pow2(n) >= 2
  {
  }

  lemma Pow2Min(a: nat, b: nat)
    ensures Pow2(Min(a, b)) <= Pow2(a) && Pow2(Min(a, b)) <= Pow2(b)
  {
    Pow2Mono(Min(a, b), a);
    Pow2Mono(Min(a, b), b);
  }

  /** The samples of a block in numbers: gap, rising overlap, plain part, falling overlap, gap. */
  lemma Layout(bits: nat, side: nat, fb: nat)
    requires 1 <= bits <= fb && 1 <= side <= fb
    ensures 2 <= Pow2(Min(bits, side)) <= Pow2(bits) <= Pow2(fb) && Pow2(Min(bits, side)) <= Pow2(side)
    ensures 2 * Gap(bits, side) + Pow2(Min(bits, side)) == Pow2(bits)
    ensures Pow2(Min(bits, side)) % 2 == 0 && Pow2(bits) % 2 == 0 && Pow2(fb) % 2 == 0
  {
    hide Pow2;
    EvenPow2(bits);
    EvenPow2(fb);
    EvenPow2(Min(bits, side));
    Pow2Min(bits, side);
    Pow2Mono(bits, fb);
    hide Min;
    Halves(Pow2(bits), Pow2(Min(bits, side)));
  }

  lemma Halves(a: nat, b: nat)
    requires a % 2 == 0 && b % 2 == 0
    ensures 2 * ((a - b) / 2) == a - b
  {
  }

  lemma Silent(s: Stream, fb: nat, b: Block, t: int)
    requires BlockOk(b, fb)
    ensures t < b.start || t >= End(b, fb) || t < Origin(b, fb) + Gap(b.bits, b.prev) ==> Windowed(s, fb, b, t) == 0
    ensures Origin(b, fb) + Gap(b.bits, b.prev) + Pow2(Min(b.bits, b.prev)) == Rise(b, fb) < End(b, fb)
  {
    Layout(b.bits, b.prev, fb);
    Layout(b.bits, b.next, fb);
    hide Pow2, Gap, Min;
  }

  /** The overlap zones of adjacent blocks coincide. */
  lemma ZonesMeet(a: Block, b: Block, fb: nat)
    requires BlockOk(a, fb) && BlockOk(b, fb) && Follows(a, b)
    ensures End(a, fb) == Rise(b, fb) < End(b, fb)
    ensures Rise(b, fb) <= a.start + Len(a) + Pow2(fb) / 2 + Len(a) / 2
    ensures Rise(a, fb) <= End(a, fb)
  {
    hide Pow2;
    Layout(a.bits, a.next, fb);
    Layout(a.bits, a.prev, fb);
    Layout(b.bits, b.next, fb);
    assert Min(a.bits, a.next) == Min(b.bits, b.prev);
  }

  /** In their common zone, which is the part of the shorter block that starts or ends in the other
      one, the earlier block falls with the window that the later one rises with: read backwards. */
  lemma Crossfade(s: Stream, fb: nat, a: Block, b: Block, t: int)
    requires BlockOk(a, fb) && BlockOk(b, fb) && Follows(a, b)
    requires Rise(b, fb) - Pow2(Min(a.bits, b.bits)) <= t < Rise(b, fb)
    ensures var side := Min(a.bits, b.bits);
            var j: nat := t - (Rise(b, fb) - Pow2(side));
            && j < Pow2(side) && t - Origin(a, fb) >= 0 && t - Origin(b, fb) >= 0
            && Windowed(s, fb, a, t)
               == s.mul(s.imdct(a.number, t - Origin(a, fb)), s.window(fb - side, Pow2(side) - 1 - j))
            && Windowed(s, fb, b, t) == s.mul(s.imdct(b.number, t - Origin(b, fb)), s.window(fb - side, j))
  {
    Layout(a.bits, a.next, fb);
    Layout(a.bits, a.prev, fb);
    Layout(b.bits, b.prev, fb);
    assert Min(a.bits, a.next) == Min(b.bits, b.prev) == Min(a.bits, b.bits);
    hide Pow2, Gap, Min;
  }

  /** Outside that zone at most one of the two is heard. */
  lemma OneIsHeard(s: Stream, fb: nat, a: Block, b: Block, t: int)
    requires BlockOk(a, fb) && BlockOk(b, fb) && Follows(a, b)
    ensures t < Rise(b, fb) - Pow2(Min(a.bits, b.bits)) ==> Windowed(s, fb, b, t) == 0
    ensures t >= Rise(b, fb) ==> Windowed(s, fb, a, t) == 0
  {
    Silent(s, fb, b, t);
    Silent(s, fb, a, t);
    ZonesMeet(a, b, fb);
    Layout(b.bits, b.prev, fb);
    hide Pow2, Gap, Windowed;
  }

  /** Nothing is heard of the blocks so far, nor of the stale contents, from the last block's
      end on. */
  lemma {:induction false} SilentAfter(s: Stream, fb: nat, init: seq<Sample>, bs: seq<Block>, t: int)
    requires BlocksOk(bs, fb) && Agree(bs) && bs != [] && t >= End(bs[|bs| - 1], fb)
    ensures Sum(s, fb, bs, t) == 0 && Stale(init, fb, bs, t) == 0
  {
    var k := |bs| - 1;
    Silent(s, fb, bs[k], t);
    if k > 0 {
      var front := bs[..k];
      assert Follows(bs[k - 1], bs[k]);
      ZonesMeet(bs[k - 1], bs[k], fb);
      assert front[0] == bs[0] && front[|front| - 1] == bs[k - 1];
      hide End, Rise, Follows, Windowed;
      AgreePrefix(bs, k);
      SilentAfter(s, fb, init, front, t);
    }
  }

  lemma AgreePrefix(bs: seq<Block>, k: nat)
    requires Agree(bs) && k <= |bs|
    ensures Agree(bs[..k])
  {
    hide Follows;
    forall i | 0 < i < k
      ensures Follows(bs[..k][i - 1], bs[..k][i])
    {
      assert bs[..k][i - 1] == bs[i - 1] && bs[..k][i] == bs[i];
    }
  }

  lemma SumStep(s: Stream, fb: nat, bs: seq<Block>, b: Block, t: int)
    requires BlocksOk(bs, fb) && BlockOk(b, fb)
    ensures BlocksOk(bs + [b], fb) && Sum(s, fb, bs + [b], t) == Add(Sum(s, fb, bs, t), Windowed(s, fb, b, t))
  {
    hide Windowed, BlockOk;
    assert (bs + [b])[..|bs|] == bs;
  }

  // ----- one block -----

  /** Up to where the buffer is right: beyond, it holds what earlier frames left there. */
  function Limit(bs: seq<Block>, fb: nat): int {
    if bs == [] then 2 * Pow2(fb) else var b := bs[|bs| - 1]; b.start + Len(b) + Pow2(fb) / 2 + Len(b) / 2
  }

  /** The buffer, which starts at time `base`, holds what it has to up to the limit. */
  ghost predicate Right(s: Stream, fb: nat, init: seq<Sample>, bs: seq<Block>, buf: seq<Sample>, base: nat) {
    && BlocksOk(bs, fb)
    && forall k :: 0 <= k < |buf| && base + k < Limit(bs, fb) ==> buf[k] == Expected(s, fb, init, bs, base + k)
  }

  /** What wma_window leaves at time t, where the buffer held `was`: it adds over the rising
      overlap, overwrites from there to the end of the transform, and touches nothing else. */
  function AddedAt(s: Stream, fb: nat, b: Block, t: int, was: Sample): Sample
    requires BlockOk(b, fb)
  {
    var i := t - Origin(b, fb);
    if i < Gap(b.bits, b.prev) || i >= 2 * Len(b) then was
    else if i < Gap(b.bits, b.prev) + Pow2(Min(b.bits, b.prev)) then Add(Windowed(s, fb, b, t), was)
    else Windowed(s, fb, b, t)
  }

  /** What wma_window does to the buffer. */
  ghost predicate Added(s: Stream, fb: nat, b: Block, t: seq<Sample>, u: seq<Sample>, base: nat)
    requires BlockOk(b, fb)
  {
    && |u| == |t|
    && forall k :: 0 <= k < |u| ==> u[k] == AddedAt(s, fb, b, base + k, t[k])
  }

  /** The sum is right modulo 2^32. */
  lemma AddWraps(x: Sample, y: Sample)
    ensures (Add(x, y) - (x + y)) % 0x1_0000_0000 == 0
    ensures -0x8000_0000 <= x + y < 0x8000_0000 ==> Add(x, y) == x + y
  {
  }

  lemma AddZero(x: Sample)
    ensures Add(x, 0) == x && Add(0, x) == x
  {
  }

  lemma AddAssoc(x: Sample, y: Sample, z: Sample)
    ensures Add(z, Add(x, y)) == Add(y, Add(z, x))
  {
  }

  /** At one sample: what was expected before and what the block adds make what is expected
      after it. */
  lemma ExpectedStep(s: Stream, fb: nat, init: seq<Sample>, bs: seq<Block>, b: Block, t: int)
    requires BlocksOk(bs, fb) && BlockOk(b, fb) && Agree(bs + [b])
    ensures BlocksOk(bs + [b], fb)
    ensures t < Rise(b, fb) ==> t < Limit(bs, fb)
    ensures t < Rise(b, fb) ==>
            Expected(s, fb, init, bs + [b], t) == Add(Windowed(s, fb, b, t), Expected(s, fb, init, bs, t))
    ensures t >= Rise(b, fb) ==> Expected(s, fb, init, bs + [b], t) == Windowed(s, fb, b, t)
  {
    var all := bs + [b];
    SumStep(s, fb, bs, b, t);
    if bs == [] {
      Layout(b.bits, b.prev, fb);
    } else {
      assert all[0] == bs[0] && Follows(all[|bs| - 1], all[|bs|]);
      var a := bs[|bs| - 1];
      ZonesMeet(a, b, fb);
      assert bs == all[..|bs|];
      AgreePrefix(all, |bs|);
      if t >= Rise(b, fb) {
        SilentAfter(s, fb, init, bs, t);
      }
      assert Rise(b, fb) <= Limit(bs, fb);
    }
    ExpectedArith(s, fb, init, bs, b, t);
  }

  lemma ExpectedIs(s: Stream, fb: nat, init: seq<Sample>, bs: seq<Block>, t: int)
    requires BlocksOk(bs, fb)
    ensures Expected(s, fb, init, bs, t) == Add(Stale(init, fb, bs, t), Sum(s, fb, bs, t))
  {
  }

  lemma ExpectedArith(s: Stream, fb: nat, init: seq<Sample>, bs: seq<Block>, b: Block, t: int)
    requires BlocksOk(bs, fb) && BlocksOk(bs + [b], fb) && BlockOk(b, fb)
    requires Sum(s, fb, bs + [b], t) == Add(Sum(s, fb, bs, t), Windowed(s, fb, b, t))
    ensures Stale(init, fb, bs + [b], t) == Stale(init, fb, bs, t) ==>
      Expected(s, fb, init, bs + [b], t) == Add(Windowed(s, fb, b, t), Expected(s, fb, init, bs, t))
    ensures Stale(init, fb, bs + [b], t) == 0 && Sum(s, fb, bs, t) == 0 ==>
      Expected(s, fb, init, bs + [b], t) == Windowed(s, fb, b, t)
  {
    hide *;
    AddZero(Windowed(s, fb, b, t));
    ExpectedIs(s, fb, init, bs, t);
    ExpectedIs(s, fb, init, bs + [b], t);
    AddAssoc(Sum(s, fb, bs, t), Windowed(s, fb, b, t), Stale(init, fb, bs, t));
  }

  lemma AddedCases(s: Stream, fb: nat, b: Block, t: int, was: Sample)
    requires BlockOk(b, fb)
    ensures t < Origin(b, fb) + Gap(b.bits, b.prev) ==> AddedAt(s, fb, b, t, was) == was
    ensures Origin(b, fb) + Gap(b.bits, b.prev) <= t < Rise(b, fb) ==>
            AddedAt(s, fb, b, t, was) == Add(Windowed(s, fb, b, t), was)
    ensures Rise(b, fb) <= t < b.start + Len(b) + Pow2(fb) / 2 + Len(b) / 2 ==>
            AddedAt(s, fb, b, t, was) == Windowed(s, fb, b, t)
  {
    Silent(s, fb, b, t);
    Layout(b.bits, b.prev, fb);
    hide Windowed, Add, Pow2, Gap;
  }

  /** Adding a block that fits its neighbours keeps the buffer right, further than before. */
  lemma RightStep(s: Stream, fb: nat, init: seq<Sample>, bs: seq<Block>, b: Block, t: seq<Sample>, u: seq<Sample>,
                  base: nat)
    requires BlockOk(b, fb) && Agree(bs + [b])
    requires Right(s, fb, init, bs, t, base) && Added(s, fb, b, t, u, base)
    ensures Right(s, fb, init, bs + [b], u, base)
  {
    hide *;
    RightMeans(s, fb, init, bs, t, base);
    AddedMeans(s, fb, b, t, u, base);
    LimitOf(bs, b, fb);
    forall k | 0 <= k < |u| && base + k < Limit(bs + [b], fb)
      ensures BlocksOk(bs + [b], fb) && u[k] == Expected(s, fb, init, bs + [b], base + k)
    {
      ExpectedStep(s, fb, init, bs, b, base + k);
      AddedCases(s, fb, b, base + k, t[k]);
      Silent(s, fb, b, base + k);
      AddZero(t[k]);
    }
    RightIs(s, fb, init, bs, b, u, base);
  }

  lemma RightMeans(s: Stream, fb: nat, init: seq<Sample>, bs: seq<Block>, t: seq<Sample>, base: nat)
    requires Right(s, fb, init, bs, t, base)
    ensures BlocksOk(bs, fb)
    ensures forall k :: 0 <= k < |t| && base + k < Limit(bs, fb) ==> t[k] == Expected(s, fb, init, bs, base + k)
  {
  }

  lemma RightIs(s: Stream, fb: nat, init: seq<Sample>, bs: seq<Block>, b: Block, t: seq<Sample>, base: nat)
    requires BlocksOk(bs, fb) && BlockOk(b, fb)
    requires BlocksOk(bs + [b], fb) ==> forall k :: 0 <= k < |t| && base + k < Limit(bs + [b], fb) ==>
               t[k] == Expected(s, fb, init, bs + [b], base + k)
    ensures Right(s, fb, init, bs + [b], t, base)
  {
    hide Expected, Limit, BlockOk;
  }

  lemma AddedMeans(s: Stream, fb: nat, b: Block, t: seq<Sample>, u: seq<Sample>, base: nat)
    requires BlockOk(b, fb) && Added(s, fb, b, t, u, base)
    ensures |u| == |t| && forall k :: 0 <= k < |u| ==> u[k] == AddedAt(s, fb, b, base + k, t[k])
  {
  }

  lemma LimitOf(bs: seq<Block>, b: Block, fb: nat)
    ensures Limit(bs + [b], fb) == b.start + Len(b) + Pow2(fb) / 2 + Len(b) / 2
  {
  }

  // ----- frames -----

  /** Where the next block starts. */
  function Next(bs: seq<Block>): nat {
    if bs == [] then 0 else bs[|bs| - 1].start + Len(bs[|bs| - 1])
  }

  /** Later blocks change nothing before their own start: what has been emitted stays right. */
  lemma {:induction false} Settled(s: Stream, fb: nat, init: seq<Sample>, bs: seq<Block>, n: nat, t: int)
    requires BlocksOk(bs, fb) && Agree(bs) && n <= |bs| && t < Next(bs[..n])
    ensures Next(bs[..n]) <= Next(bs)
    ensures Expected(s, fb, init, bs, t) == Expected(s, fb, init, bs[..n], t)
  {
    if n == |bs| {
      assert bs[..n] == bs;
    } else {
      var front, b := bs[..|bs| - 1], bs[|bs| - 1];
      assert bs == front + [b] && front[..n] == bs[..n];
      AgreePrefix(bs, |bs| - 1);
      Settled(s, fb, init, front, n, t);
      NextBlock(front, b);
      hide *;
      OneMore(s, fb, init, front, b, t);
    }
  }

  lemma NextBlock(bs: seq<Block>, b: Block)
    requires Agree(bs + [b])
    ensures b.start == Next(bs) <= Next(bs + [b])
  {
    var all := bs + [b];
    if bs != [] {
      assert Follows(all[|bs| - 1], all[|bs|]);
    }
  }

  lemma OneMore(s: Stream, fb: nat, init: seq<Sample>, bs: seq<Block>, b: Block, t: int)
    requires BlocksOk(bs + [b], fb) && Agree(bs + [b]) && t < b.start
    ensures BlocksOk(bs, fb) && Expected(s, fb, init, bs + [b], t) == Expected(s, fb, init, bs, t)
  {
    var all := bs + [b];
    hide *;
    FrontOk(bs, b, fb);
    ExpectedStep(s, fb, init, bs, b, t);
    Silent(s, fb, b, t);
    StartsBeforeRise(b, fb);
    AddZero(Expected(s, fb, init, bs, t));
  }

  lemma FrontOk(bs: seq<Block>, b: Block, fb: nat)
    requires BlocksOk(bs + [b], fb)
    ensures BlocksOk(bs, fb) && BlockOk(b, fb)
  {
    hide BlockOk;
    var all := bs + [b];
    assert all[|bs|] == b;
    assert forall k :: 0 <= k < |bs| ==> all[k] == bs[k];
  }

  lemma StartsBeforeRise(b: Block, fb: nat)
    ensures b.start <= Rise(b, fb)
  {
  }

  /** Moving the second half of the buffer to the front keeps it right for the next frame. */
  lemma RightShift(s: Stream, fb: nat, init: seq<Sample>, bs: seq<Block>, t: seq<Sample>, u: seq<Sample>, base: nat)
    requires fb >= 1 && bs != [] && Right(s, fb, init, bs, t, base) && Next(bs) == base + Pow2(fb)
    requires |t| == |u| == 2 * Pow2(fb) && forall k :: 0 <= k < Pow2(fb) ==> u[k] == t[Pow2(fb) + k]
    ensures Right(s, fb, init, bs, u, base + Pow2(fb))
    ensures Limit(bs, fb) >= base + Pow2(fb)
  {
    var b := bs[|bs| - 1];
    assert BlockOk(b, fb);
    Layout(b.bits, b.next, fb);
    hide Expected, Pow2;
    forall k | 0 <= k < |u| && base + Pow2(fb) + k < Limit(bs, fb)
      ensures u[k] == Expected(s, fb, init, bs, base + Pow2(fb) + k)
    {
      assert u[k] == t[Pow2(fb) + k];
    }
  }

  lemma AddIsOther(x: Sample, y: Sample)
    ensures Add(x, y) == y <==> x == 0
  {
  }

  /** The expected output is exactly the sum of all windowed blocks if and only if the buffer
      held zeros up to where the first block's rising window is over. */
  lemma SilenceAtFirst(s: Stream, fb: nat, init: seq<Sample>, bs: seq<Block>)
    requires BlocksOk(bs, fb)
    ensures (forall t :: Expected(s, fb, init, bs, t) == Sum(s, fb, bs, t)) <==>
            forall t :: 0 <= t < |init| && (bs == [] || t < Rise(bs[0], fb)) ==> init[t] == 0
  {
    hide Sum, Add, Rise;
    forall t
      ensures Expected(s, fb, init, bs, t) == Sum(s, fb, bs, t) <==> Stale(init, fb, bs, t) == 0
    {
      AddIsOther(Stale(init, fb, bs, t), Sum(s, fb, bs, t));
    }
    if forall t :: Expected(s, fb, init, bs, t) == Sum(s, fb, bs, t) {
      forall t | 0 <= t < |init| && (bs == [] || t < Rise(bs[0], fb))
        ensures init[t] == 0
      {
        assert Expected(s, fb, init, bs, t) == Sum(s, fb, bs, t);
      }
    }
  }
}
