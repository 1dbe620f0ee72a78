/** The binary range decoder: normalization, one modelled bit, one direct bit (LzmaDec.c, the bit macros). */
module LzmaCoder {
  import opened Bits

  const TOP: int := 0x100_0000
  const BIT_MODEL_TOTAL: int := 2048
  const INITIAL_PROB: int := 1024

  /** `pos` counts the input bytes taken so far. */
  datatype Coder = Coder(range: int, code: int, pos: nat)

  /** Holds whenever a bit is about to be decoded: one 8-bit shift restores the top bits. */
  predicate CoderOk(c: Coder) {
    0x1_0000 <= c.range < U32 && 0 <= c.code < U32
  }

  /** Holds after normalization. */
  predicate Settled(c: Coder) {
    CoderOk(c) && c.range >= TOP
  }

  predicate ProbOk(p: int) { 31 <= p <= 2017 }

  predicate ProbsOk(probs: seq<int>) {
    forall i :: 0 <= i < |probs| ==> ProbOk(probs[i])
  }

  /** NORMALIZE_CHECK: takes one byte when the range has become small; None when there is no byte to take. */
  function Pull(c: Coder, inp: seq<byte>): Option<Coder> {
    if c.range >= TOP then Some(c)
    else if c.pos < |inp| then Some(Coder(c.range * 256, (c.code * 256 + inp[c.pos]) % U32, c.pos + 1))
    else None
  }

  function Bound(c: Coder, p: int): int { (c.range / BIT_MODEL_TOTAL) * p }

  function CodeBit(c: Coder, p: int): (bit, Coder) {
    var bound := Bound(c, p);
    if c.code < bound then (0, c.(range := bound))
    else (1, c.(range := c.range - bound, code := c.code - bound))
  }

  /** The probability of a zero bit after a bit was seen. */
  function Adapt(p: int, b: bit): int {
    if b == 0 then p + (BIT_MODEL_TOTAL - p) / 32 else p - p / 32
  }

  /** One equiprobable bit; 32-bit wrap-around makes a code far above the range read as a zero bit. */
  function DirectBit(c: Coder): (bit, Coder) {
    var range := c.range / 2;
    var diff := (c.code - range) % U32;
    if diff < 0x8000_0000 then (1, c.(range := range, code := diff))
    else (0, c.(range := range))
  }

  lemma PullSettles(c: Coder, inp: seq<byte>)
    requires CoderOk(c)
    ensures Pull(c, inp).Some? ==> Settled(Pull(c, inp).value)
    ensures Pull(c, inp).Some? ==> c.pos <= Pull(c, inp).value.pos <= c.pos + 1
    ensures Pull(c, inp).Some? && c.pos <= |inp| ==> Pull(c, inp).value.pos <= |inp|
  {
  }

  /** Both sub-intervals are at least 1/67 of the interval, so one 8-bit shift always renormalizes. */
  lemma ModelledBitShrinks(c: Coder, p: int)
    requires Settled(c) && ProbOk(p)
    ensures 0 < Bound(c, p) < c.range
    ensures CoderOk(CodeBit(c, p).1) && CodeBit(c, p).1.pos == c.pos
    ensures CodeBit(c, p).1.range * 67 >= c.range
  {
    var q := c.range / BIT_MODEL_TOTAL;
    assert q >= 8192 && q * 2048 <= c.range < q * 2048 + 2048;
    MulBetween(q, 31, p, 2017);
  }

  lemma MulBetween(q: int, lo: int, p: int, hi: int)
    requires q >= 0 && lo <= p <= hi
    ensures lo * q <= q * p <= hi * q
  {
  }

  lemma DirectBitShrinks(c: Coder)
    requires Settled(c)
    ensures CoderOk(DirectBit(c).1) && DirectBit(c).1.pos == c.pos
    ensures 2 * DirectBit(c).1.range >= c.range - 1
  {
  }

  /** A zero bit gets its share of the range: as much of it as its probability of 2048, rounded down. */
  lemma FairShare(c: Coder, p: int)
    requires Settled(c) && ProbOk(p)
    ensures 0 <= c.range * p - BIT_MODEL_TOTAL * Bound(c, p) < BIT_MODEL_TOTAL * p
  {
    ShareOf(c.range / BIT_MODEL_TOTAL, c.range % BIT_MODEL_TOTAL, p);
    assert c.range == BIT_MODEL_TOTAL * (c.range / BIT_MODEL_TOTAL) + c.range % BIT_MODEL_TOTAL;
  }

  lemma ShareOf(q: int, r: int, p: int)
    requires 0 <= r < BIT_MODEL_TOTAL && p > 0
    ensures 0 <= (BIT_MODEL_TOTAL * q + r) * p - BIT_MODEL_TOTAL * (q * p) < BIT_MODEL_TOTAL * p
  {
    assert (BIT_MODEL_TOTAL * q + r) * p == BIT_MODEL_TOTAL * (q * p) + r * p;
    MulBetween(p, 0, r, BIT_MODEL_TOTAL - 1);
  }

  /** A probability moves towards the bit that was coded, and rests only where the 32nd part of the way is nothing. */
  lemma AdaptSettles(p: int)
    requires ProbOk(p)
    ensures p <= Adapt(p, 0) < BIT_MODEL_TOTAL && (Adapt(p, 0) == p <==> p == 2017)
    ensures 0 < Adapt(p, 1) <= p && (Adapt(p, 1) == p <==> p == 31)
  {
  }

  lemma AdaptKeepsProb(p: int, b: bit)
    requires ProbOk(p)
    ensures ProbOk(Adapt(p, b))
  {
  }

  /** A modelled bit keeps the code below the range. */
  lemma ModelledBitKeepsCodeBelow(c: Coder, p: int)
    requires Settled(c) && ProbOk(p) && c.code < c.range
    ensures CodeBit(c, p).1.code < CodeBit(c, p).1.range
  {
  }

  /** A direct bit keeps the code below the range, except that an odd range whose top value was coded ends level. */
  lemma DirectBitKeepsCodeBelow(c: Coder)
    requires Settled(c) && c.code < c.range
    ensures DirectBit(c).1.code < DirectBit(c).1.range <==> !(c.range % 2 == 1 && c.code == c.range - 1)
    ensures DirectBit(c).1.code <= DirectBit(c).1.range
  {
    var h := c.range / 2;
    assert c.code < h ==> (c.code - h) % U32 == c.code - h + U32;
    assert c.code >= h ==> (c.code - h) % U32 == c.code - h;
  }

  /** A coder that ends level. */
  lemma DirectBitLevel()
    ensures var c := Coder(0x100_0001, 0x100_0000, 0);
            Settled(c) && c.code < c.range && DirectBit(c).1.code == DirectBit(c).1.range == 0x80_0000
  {
  }

  /** Shifting in a byte keeps the code below the range, so only a direct bit can ever end level. */
  lemma PullKeepsCodeBelow(c: Coder, inp: seq<byte>)
    requires CoderOk(c) && c.code < c.range && Pull(c, inp).Some?
    ensures Pull(c, inp).value.code < Pull(c, inp).value.range
  {
  }
}
