/**
 A range encoder for whole streams, written without the decoder's code register, and the round trip: whatever symbols
 are encoded, the decoder gives back their text. The encoder works with one unbounded number, the place it aims at
 inside the current range, and the number of bytes that are still to be shifted in.
 */
module LzmaEncoder {
  import opened Bits
  import opened LzmaLayout
  import opened LzmaCoder
  import opened LzmaWalk
  import opened LzmaRange
  import opened LzmaStream
  import opened LzmaChunks
  import opened LzmaHistory
  import opened LzmaSymbols

  // ---- numbers as bytes, most significant first ----

  function Number(s: seq<byte>): (r: nat)
    ensures r < Power256(|s|)
    decreases |s|
  {
    if s == [] then 0
    else
      FirstDigit(s[0], Number(s[1..]), Power256(|s| - 1));
      s[0] * Power256(|s| - 1) + Number(s[1..])
  }

  lemma FirstDigit(b: byte, v: nat, p: nat)
    requires v < p
    ensures b * p + v < 256 * p
  {
    Times(b + 1, 256, p);
  }

  lemma Times(u: int, v: int, p: nat)
    requires u <= v
    ensures u * p <= v * p
  {
  }

  function BigEndian(v: nat, k: nat): (r: seq<byte>)
    ensures |r| == k
    decreases k
  {
    if k == 0 then [] else [v / Power256(k - 1) % 256] + BigEndian(v % Power256(k - 1), k - 1)
  }

  lemma NumberFront(b: byte, rest: seq<byte>)
    ensures Number([b] + rest) == b * Power256(|rest|) + Number(rest)
  {
    assert ([b] + rest)[1..] == rest;
  }

  lemma PowerNext(k: nat)
    ensures Power256(k + 1) == 256 * Power256(k)
  {
  }

  lemma BigEndianFront(v: nat, k: nat)
    requires k > 0
    ensures BigEndian(v, k) == [v / Power256(k - 1) % 256] + BigEndian(v % Power256(k - 1), k - 1)
  {
  }

  lemma DigitFront(v: nat, p: nat, rest: seq<byte>)
    requires p == Power256(|rest|) && v < 256 * p && p > 0 && Number(rest) == v % p
    ensures Number([v / p % 256] + rest) == v
  {
    hide Number, Power256;
    DigitInRange(v, p);
    var b: byte := v / p;
    NumberFront(b, rest);
  }

  lemma {:induction false} NumberBack(v: nat, k: nat)
    requires v < Power256(k)
    ensures Number(BigEndian(v, k)) == v
    decreases k, 1
  {
    if k == 0 {
    } else {
      NextDigit(v, k);
    }
  }

  lemma NextDigit(v: nat, k: nat)
    requires k > 0 && v < Power256(k)
    ensures Number(BigEndian(v, k)) == v
    decreases k, 0
  {
    hide Number, Power256, BigEndian;
    PowerNext(k - 1);
    BigEndianFront(v, k);
    var p := Power256(k - 1);
    var low := v % p;
    NumberBack(low, k - 1);
    DigitFront(v, p, BigEndian(low, k - 1));
  }

  lemma DigitInRange(v: nat, p: nat)
    requires p > 0 && v < 256 * p
    ensures v / p < 256 && v == v / p * p + v % p && v % p < p
  {
    var q := v / p;
    assert v == p * q + v % p;
    if q >= 256 { Times(256, q, p); }
  }

  // ---- aiming ----

  /** The coder with the next `k` bytes of the input stands for the number `a`. */
  predicate Aimed(c: Coder, inp: seq<byte>, a: nat, k: nat) {
    c.code >= 0 && c.pos + k <= |inp| && c.code * Power256(k) + Number(inp[c.pos..c.pos + k]) == a
  }

  /** A number of units of `k` bytes that lies inside a range. */
  predicate Inside(a: nat, range: int, k: nat) { a < range * Power256(k) }

  lemma Below(code: int, w: int, p: nat, v: nat)
    requires v < p && code * p + v < w * p
    ensures code < w
  {
    if code >= w { Times(w, code, p); }
  }

  lemma NotBelow(code: int, lo: int, p: nat, v: nat)
    requires v < p && code * p + v >= lo * p
    ensures code >= lo
  {
    if code + 1 <= lo { Times(code + 1, lo, p); }
  }

  lemma NumberAt(inp: seq<byte>, pos: nat, k: nat)
    requires pos + k + 1 <= |inp|
    ensures Number(inp[pos..pos + (k + 1)]) == inp[pos] * Power256(k) + Number(inp[pos + 1..pos + 1 + k])
  {
    hide Number, Power256;
    assert inp[pos..pos + (k + 1)] == [inp[pos]] + inp[pos + 1..pos + 1 + k];
    NumberFront(inp[pos], inp[pos + 1..pos + 1 + k]);
  }

  /** Shifting a byte in does not change the number. */
  lemma PullAimed(c: Coder, inp: seq<byte>, a: nat, k: nat)
    requires CoderOk(c) && c.range < TOP && Aimed(c, inp, a, k + 1) && Inside(a, c.range * 256, k)
    ensures Pull(c, inp).Some? && Aimed(Pull(c, inp).value, inp, a, k)
  {
    hide Power256, Number, Pull;
    PowerNext(k);
    NumberAt(inp, c.pos, k);
    ShiftIn(c.code, c.range, inp[c.pos], Power256(k), Number(inp[c.pos + 1..c.pos + 1 + k]), a);
    PulledByte(c, inp);
  }

  lemma PulledByte(c: Coder, inp: seq<byte>)
    requires CoderOk(c) && c.range < TOP && c.pos < |inp| && c.code * 256 + inp[c.pos] < U32
    ensures Pull(c, inp) == Some(Coder(c.range * 256, c.code * 256 + inp[c.pos], c.pos + 1))
  {
  }

  lemma ShiftIn(code: int, range: int, b: byte, p: nat, v: nat, a: nat)
    requires v < p && code * (256 * p) + (b * p + v) == a && a < range * 256 * p
    ensures (code * 256 + b) * p + v == a && code * 256 + b < range * 256
  {
    Shifting(code, b, p, v);
    Below(code * 256 + b, range * 256, p, v);
  }

  lemma Shifting(code: int, b: byte, p: nat, v: nat)
    ensures code * (256 * p) + (b * p + v) == (code * 256 + b) * p + v
  {
  }

  /** A number that lies `a` above `lo`, within `w`, has its code there too. */
  lemma CodeAimed(c: Coder, inp: seq<byte>, a: nat, k: nat, lo: nat, w: int)
    requires Aimed(c, inp, a + lo * Power256(k), k) && Inside(a, w, k)
    ensures lo <= c.code < lo + w && Aimed(c.(code := c.code - lo), inp, a, k)
  {
    hide Power256, Number;
    CodeWithin(c.code, Power256(k), Number(inp[c.pos..c.pos + k]), a, lo, w);
  }

  lemma CodeWithin(code: int, p: nat, v: nat, a: nat, lo: nat, w: int)
    requires v < p && code * p + v == a + lo * p && a < w * p
    ensures lo <= code < lo + w && (code - lo) * p + v == a
  {
    NotBelow(code, lo, p, v);
    assert (code - lo) * p == code * p - lo * p;
    Below(code - lo, w, p, v);
  }

  // ---- one bit ----

  /** The part of a range that a bit takes: where it begins and how wide it is. */
  ghost function Part(x: Ctx, n: Node, range: int, probs: seq<int>, b: bit): (int, int)
    requires NodeOk(n) && !n.Done? && Fits(x, probs)
  {
    if n.AskDirect? then (if b == 0 then 0 else range / 2, range / 2)
    else
      AskedCellFits(x, n, probs);
      var bound := range / BIT_MODEL_TOTAL * probs[Index(CellOf(x, n))];
      if b == 0 then (0, bound) else (bound, range - bound)
  }

  ghost function Shifted(range: int): int { if range < TOP then range * 256 else range }

  /** Parts lie inside the range, and one shift restores them. */
  lemma PartOk(x: Ctx, n: Node, range: int, probs: seq<int>, b: bit)
    requires NodeOk(n) && !n.Done? && Fits(x, probs) && ProbsOk(probs) && TOP <= range < U32
    ensures var (lo, w) := Part(x, n, range, probs, b); 0 <= lo && 0x1_0000 <= w && lo + w <= range
    ensures ProbsOk(Learn(x, n, probs, b)) && Fits(x, Learn(x, n, probs, b))
  {
    var c := Coder(range, 0, 0);
    if n.AskDirect? {
      DirectBitShrinks(c);
    } else {
      AskedCellFits(x, n, probs);
      var p := probs[Index(CellOf(x, n))];
      ModelledBitShrinks(c, p);
      ModelledBitShrinks(c.(code := range - 1), p);
      AdaptKeepsProb(p, b);
    }
  }

  /** A settled coder whose code lies in the part of a bit reads that bit. */
  lemma BitRead(x: Ctx, n: Node, c: Coder, probs: seq<int>, b: bit)
    requires NodeOk(n) && !n.Done? && Fits(x, probs) && Settled(c) && ProbsOk(probs)
    requires var (lo, w) := Part(x, n, c.range, probs, b); lo <= c.code < lo + w
    ensures var (lo, w) := Part(x, n, c.range, probs, b);
            ReadBit(x, n, c, probs) == (b, c.(range := w, code := c.code - lo))
  {
    hide NodeOk, CellOf, Index;
    PartOk(x, n, c.range, probs, b);
  }

  // ---- the bits of one symbol ----

  /** A place inside the current range, counted in units of `k` further bytes. */
  datatype Aim = Aim(a: nat, k: nat)

  ghost predicate Ready(x: Ctx, n: Node, range: int, probs: seq<int>, bits: seq<bit>) {
    NodeOk(n) && Fits(x, probs) && ProbsOk(probs) && 0x1_0000 <= range < U32 && Follow(x, n, bits).Some?
  }

  lemma ReadyNext(x: Ctx, n: Node, range: int, probs: seq<int>, bits: seq<bit>)
    requires Ready(x, n, range, probs, bits) && bits != []
    ensures !n.Done? && NodeOk(Next(x, n, bits[0])) && TOP <= Shifted(range) < U32
    ensures var (lo, w) := Part(x, n, Shifted(range), probs, bits[0]);
            0 <= lo && lo + w <= Shifted(range)
            && Ready(x, Next(x, n, bits[0]), w, Learn(x, n, probs, bits[0]), bits[1..])
    ensures Follow(x, Next(x, n, bits[0]), bits[1..]) == Follow(x, n, bits)
  {
    hide NodeOk, Next, Part, Learn;
    NextOk(x, n, bits[0]);
    PartOk(x, n, Shifted(range), probs, bits[0]);
  }

  /** The range and the probabilities when all bits are coded. */
  ghost function EndOf(x: Ctx, n: Node, range: int, probs: seq<int>, bits: seq<bit>): (int, seq<int>)
    requires Ready(x, n, range, probs, bits)
    decreases |bits|
  {
    if bits == [] then (range, probs)
    else
      ReadyNext(x, n, range, probs, bits);
      EndOf(x, Next(x, n, bits[0]), Part(x, n, Shifted(range), probs, bits[0]).1, Learn(x, n, probs, bits[0]),
          bits[1..])
  }

  /** What to aim at for these bits, so that behind them the aim is `t`. */
  ghost function AimBits(x: Ctx, n: Node, range: int, probs: seq<int>, bits: seq<bit>, t: Aim): Aim
    requires Ready(x, n, range, probs, bits)
    decreases |bits|
  {
    if bits == [] then t
    else
      ReadyNext(x, n, range, probs, bits);
      var (lo, w) := Part(x, n, Shifted(range), probs, bits[0]);
      var rest := AimBits(x, Next(x, n, bits[0]), w, Learn(x, n, probs, bits[0]), bits[1..], t);
      Aim(rest.a + lo * Power256(rest.k), rest.k + if range < TOP then 1 else 0)
  }

  lemma AimAbove(a: nat, lo: int, w: int, range: int, k: nat)
    requires 0 <= lo && lo + w <= range && Inside(a, w, k)
    ensures lo * Power256(k) >= 0 && Inside(a + lo * Power256(k), range, k)
  {
    var p := Power256(k);
    Times(0, lo, p);
    assert (lo + w) * p == lo * p + w * p;
    Times(lo + w, range, p);
  }

  /** The aim lies inside the range. */
  lemma {:induction false} AimInside(x: Ctx, n: Node, range: int, probs: seq<int>, bits: seq<bit>, t: Aim)
    requires Ready(x, n, range, probs, bits) && Inside(t.a, EndOf(x, n, range, probs, bits).0, t.k)
    ensures var aim := AimBits(x, n, range, probs, bits, t); Inside(aim.a, range, aim.k)
    decreases |bits|
  {
    hide NodeOk, Next, Part, Learn, Follow, Power256;
    if bits == [] {
    } else {
      ReadyNext(x, n, range, probs, bits);
      hide Ready;
      var (lo, w) := Part(x, n, Shifted(range), probs, bits[0]);
      var rest := AimBits(x, Next(x, n, bits[0]), w, Learn(x, n, probs, bits[0]), bits[1..], t);
      AimInside(x, Next(x, n, bits[0]), w, Learn(x, n, probs, bits[0]), bits[1..], t);
      AimAbove(rest.a, lo, w, Shifted(range), rest.k);
      ShiftedInside(rest.a + lo * Power256(rest.k), range, rest.k);
    }
  }

  lemma ShiftedInside(a: nat, range: int, k: nat)
    requires Inside(a, Shifted(range), k)
    ensures Inside(a, range, k + if range < TOP then 1 else 0)
  {
    PowerNext(k);
    hide Power256;
    assert range * 256 * Power256(k) == range * (256 * Power256(k));
  }

  // ---- decoding one symbol ----

  /** Normalizing an aimed coder keeps it aimed. */
  lemma Normalized(c: Coder, inp: seq<byte>, a: nat, k: nat)
    requires CoderOk(c) && Aimed(c, inp, a, k + if c.range < TOP then 1 else 0) && Inside(a, Shifted(c.range), k)
    ensures Pull(c, inp).Some? && Settled(Pull(c, inp).value)
    ensures Aimed(Pull(c, inp).value, inp, a, k) && Pull(c, inp).value.range == Shifted(c.range)
  {
    hide Power256, Aimed, Inside;
    if c.range < TOP { PullAimed(c, inp, a, k); }
    PullSettles(c, inp);
  }

  /** One bit of a walk: an aimed coder reads the bit that was coded and is aimed at the rest. */
  lemma BitAimed(x: Ctx, n: Node, rc: Coder, probs: seq<int>, inp: seq<byte>, b: bit, rest: Aim)
    requires NodeOk(n) && !n.Done? && Fits(x, probs) && ProbsOk(probs) && CoderOk(rc)
    requires var (lo, w) := Part(x, n, Shifted(rc.range), probs, b);
             Inside(rest.a, w, rest.k) && 0 <= lo
             && Aimed(rc, inp, rest.a + lo * Power256(rest.k), rest.k + if rc.range < TOP then 1 else 0)
             && Inside(rest.a + lo * Power256(rest.k), Shifted(rc.range), rest.k)
    ensures Pull(rc, inp).Some?
    ensures var c := Pull(rc, inp).value;
            var (lo, w) := Part(x, n, Shifted(rc.range), probs, b);
            ReadBit(x, n, c, probs) == (b, c.(range := w, code := c.code - lo)) && c.range == Shifted(rc.range)
            && Aimed(c.(range := w, code := c.code - lo), inp, rest.a, rest.k)
            && CoderOk(c.(range := w, code := c.code - lo))
  {
    hide Power256, Part, ReadBit, NodeOk, Inside;
    var (lo, w) := Part(x, n, Shifted(rc.range), probs, b);
    Normalized(rc, inp, rest.a + lo * Power256(rest.k), rest.k);
    var c := Pull(rc, inp).value;
    CodeAimed(c, inp, rest.a, rest.k, lo, w);
    BitRead(x, n, c, probs, b);
    ReadBitOk(x, n, c, probs);
  }

  lemma EndOfNext(x: Ctx, n: Node, range: int, probs: seq<int>, bits: seq<bit>, t: Aim)
    requires Ready(x, n, range, probs, bits) && bits != []
    ensures var (lo, w) := Part(x, n, Shifted(range), probs, bits[0]);
            Ready(x, Next(x, n, bits[0]), w, Learn(x, n, probs, bits[0]), bits[1..])
            && EndOf(x, n, range, probs, bits) ==
               EndOf(x, Next(x, n, bits[0]), w, Learn(x, n, probs, bits[0]), bits[1..])
            && var rest := AimBits(x, Next(x, n, bits[0]), w, Learn(x, n, probs, bits[0]), bits[1..], t);
               AimBits(x, n, range, probs, bits, t) ==
               Aim(rest.a + lo * Power256(rest.k), rest.k + if range < TOP then 1 else 0)
  {
    hide NodeOk, Next, Part, Learn, Power256, Follow, Fits, ProbsOk, CellOf, Shifted, Ready;
    ReadyNext(x, n, range, probs, bits);
  }

  /** The coder and the input stand for what these bits, with `t` behind them, aim at. */
  ghost predicate AimedAt(x: Ctx, n: Node, rc: Coder, probs: seq<int>, inp: seq<byte>, bits: seq<bit>, t: Aim) {
    Ready(x, n, rc.range, probs, bits) && CoderOk(rc) && Inside(t.a, EndOf(x, n, rc.range, probs, bits).0, t.k)
    && var aim := AimBits(x, n, rc.range, probs, bits, t); Aimed(rc, inp, aim.a, aim.k)
  }

  /** An aimed coder reads the first bit that was coded, and then stands for what the others aim at. */
  lemma StepAimed(x: Ctx, n: Node, rc: Coder, probs: seq<int>, inp: seq<byte>, bits: seq<bit>, t: Aim)
    requires AimedAt(x, n, rc, probs, inp, bits, t) && bits != []
    ensures NodeOk(n) && Fits(x, probs) && !n.Done? && Pull(rc, inp).Some?
    ensures var (b, c) := ReadBit(x, n, Pull(rc, inp).value, probs);
            b == bits[0] && AimedAt(x, Next(x, n, b), c, Learn(x, n, probs, b), inp, bits[1..], t)
            && EndOf(x, n, rc.range, probs, bits) == EndOf(x, Next(x, n, b), c.range, Learn(x, n, probs, b), bits[1..])
            && Follow(x, Next(x, n, b), bits[1..]) == Follow(x, n, bits)
  {
    hide Power256, Part, ReadBit, Learn, NodeOk, Next, Follow, Aimed, CoderOk, Inside;
    ReadyNext(x, n, rc.range, probs, bits);
    EndOfNext(x, n, rc.range, probs, bits, t);
    hide EndOf, AimBits;
    var b := bits[0];
    var (lo, w) := Part(x, n, Shifted(rc.range), probs, b);
    var n', probs' := Next(x, n, b), Learn(x, n, probs, b);
    var rest := AimBits(x, n', w, probs', bits[1..], t);
    AimInside(x, n', w, probs', bits[1..], t);
    AimAbove(rest.a, lo, w, Shifted(rc.range), rest.k);
    BitAimed(x, n, rc, probs, inp, b, rest);
  }

  /** An aimed coder decodes the symbol whose bits were coded, and is aimed at what comes behind. */
  lemma {:induction false} WalkAimed(x: Ctx, n: Node, rc: Coder, probs: seq<int>, inp: seq<byte>, bits: seq<bit>,
                                     t: Aim)
    requires AimedAt(x, n, rc, probs, inp, bits, t) && Follow(x, n, bits).value.Done?
    ensures var w := Walk(x, n, rc, probs, inp, true);
            w.Hit? && w.symbol == Follow(x, n, bits).value.symbol
            && (w.rc.range, w.probs) == EndOf(x, n, rc.range, probs, bits)
            && Aimed(w.rc, inp, t.a, t.k)
    decreases |bits|
  {
    hide Power256, ReadBit, Learn, NodeOk, Next, Follow, Aimed, CoderOk, Inside;
    if bits == [] {
      NoBits(x, n);
    } else {
      StepAimed(x, n, rc, probs, inp, bits, t);
      hide AimedAt, EndOf, Pull;
      var (b, c) := ReadBit(x, n, Pull(rc, inp).value, probs);
      OneBit(x, n, rc, probs, inp);
      hide Walk;
      WalkAimed(x, Next(x, n, b), c, Learn(x, n, probs, b), inp, bits[1..], t);
    }
  }

  lemma NoBits(x: Ctx, n: Node)
    requires NodeOk(n)
    ensures Follow(x, n, []) == Some(n)
  {
  }

  /** A walk as its first bit and the rest. */
  lemma OneBit(x: Ctx, n: Node, rc: Coder, probs: seq<int>, inp: seq<byte>)
    requires NodeOk(n) && Fits(x, probs) && !n.Done? && Pull(rc, inp).Some?
    ensures var (b, c) := ReadBit(x, n, Pull(rc, inp).value, probs);
            NodeOk(Next(x, n, b)) && Fits(x, Learn(x, n, probs, b))
            && Walk(x, n, rc, probs, inp, true) == Walk(x, Next(x, n, b), c, Learn(x, n, probs, b), inp, true)
  {
    var (b, c) := ReadBit(x, n, Pull(rc, inp).value, probs);
    NextOk(x, n, b);
    hide NodeOk, Next, ReadBit, Learn;
  }

  // ---- streams ----

  /** The decoder could be in this state with this symbol ahead. */
  ghost predicate Codable(d: Dec, s: Symbol, goal: nat) {
    Sound(d) && d.phase.Running? && d.owed == 0 && Legal(d, s) && |d.out| <= goal
  }

  lemma CodableReady(d: Dec, s: Symbol, goal: nat)
    requires Codable(d, s, goal)
    ensures Ready(CtxOf(d), AskIsMatch, d.range, d.probs, BitsOf(s))
    ensures Follow(CtxOf(d), AskIsMatch, BitsOf(s)) == Some(Done(s))
  {
    CtxFits(d);
    SymbolBack(CtxOf(d), s);
    hide Follow, BitsOf, Fits, CtxOf;
  }

  /** The decoder behind a symbol, apart from its code: the bits, the normalization, and what the symbol does. */
  ghost function Behind(d: Dec, s: Symbol, goal: nat): Dec
    requires Codable(d, s, goal)
  {
    CodableReady(d, s, goal);
    var (range, probs) := EndOf(CtxOf(d), AskIsMatch, d.range, d.probs, BitsOf(s));
    Apply(d.(range := Shifted(range), probs := probs), s, goal)
  }

  /** What to aim at for a whole text; only what the decoder could decode is coded. */
  ghost function AimText(d: Dec, h: seq<Symbol>, goal: nat): Aim
    decreases |h|, 1
  {
    if h == [] || !Codable(d, h[0], goal) then Aim(0, 0)
    else
      CodableReady(d, h[0], goal);
      AimBits(CtxOf(d), AskIsMatch, d.range, d.probs, BitsOf(h[0]), AimAfter(d, h, goal))
  }

  /** The aim behind the first symbol, before the byte that its normalization takes. */
  ghost function AimAfter(d: Dec, h: seq<Symbol>, goal: nat): Aim
    requires h != [] && Codable(d, h[0], goal)
    decreases |h|, 0
  {
    CodableReady(d, h[0], goal);
    var range := EndOf(CtxOf(d), AskIsMatch, d.range, d.probs, BitsOf(h[0])).0;
    var t := AimText(Behind(d, h[0], goal), h[1..], goal);
    Aim(t.a, t.k + if range < TOP then 1 else 0)
  }

  lemma {:induction false} EndOk(x: Ctx, n: Node, range: int, probs: seq<int>, bits: seq<bit>)
    requires Ready(x, n, range, probs, bits)
    ensures var (range', probs') := EndOf(x, n, range, probs, bits);
            0x1_0000 <= range' < U32 && ProbsOk(probs') && |probs'| == |probs|
    decreases |bits|
  {
    if bits == [] {
    } else {
      ReadyNext(x, n, range, probs, bits);
      EndOfNext(x, n, range, probs, bits, Aim(0, 0));
      var w, probs' := Part(x, n, Shifted(range), probs, bits[0]).1, Learn(x, n, probs, bits[0]);
      hide NodeOk, Next, Part, Follow, EndOf, AimBits, Ready, Shifted;
      EndOk(x, Next(x, n, bits[0]), w, probs', bits[1..]);
    }
  }

  /** The aim of a text lies inside the range. */
  lemma {:induction false} TextInside(d: Dec, h: seq<Symbol>, goal: nat)
    requires 0 < d.range
    ensures var aim := AimText(d, h, goal); Inside(aim.a, d.range, aim.k)
    decreases |h|, 2
  {
    if h == [] || !Codable(d, h[0], goal) {
      assert Power256(0) == 1;
    } else {
      AfterInside(d, h, goal);
      CodableReady(d, h[0], goal);
      hide Power256, AimBits, EndOf, Codable, AimAfter;
      AimInside(CtxOf(d), AskIsMatch, d.range, d.probs, BitsOf(h[0]), AimAfter(d, h, goal));
    }
  }

  lemma BehindRange(d: Dec, s: Symbol, goal: nat)
    requires Codable(d, s, goal)
    ensures Ready(CtxOf(d), AskIsMatch, d.range, d.probs, BitsOf(s))
    ensures 0x1_0000 <= EndOf(CtxOf(d), AskIsMatch, d.range, d.probs, BitsOf(s)).0 < U32
    ensures Behind(d, s, goal).range == Shifted(EndOf(CtxOf(d), AskIsMatch, d.range, d.probs, BitsOf(s)).0)
  {
    CodableReady(d, s, goal);
    EndOk(CtxOf(d), AskIsMatch, d.range, d.probs, BitsOf(s));
    hide Ready, EndOf, CopyUnder, Copy, Follow;
  }

  lemma RestInside(d: Dec, h: seq<Symbol>, goal: nat)
    requires h != [] && Codable(d, h[0], goal)
    ensures Ready(CtxOf(d), AskIsMatch, d.range, d.probs, BitsOf(h[0]))
    ensures var t := AimText(Behind(d, h[0], goal), h[1..], goal);
            Inside(t.a, Shifted(EndOf(CtxOf(d), AskIsMatch, d.range, d.probs, BitsOf(h[0])).0), t.k)
    decreases |h|, 0
  {
    hide Power256, EndOf, Codable, Behind, Ready, AimText, CtxOf, BitsOf, Inside;
    BehindRange(d, h[0], goal);
    TextInside(Behind(d, h[0], goal), h[1..], goal);
  }

  lemma AfterInside(d: Dec, h: seq<Symbol>, goal: nat)
    requires h != [] && Codable(d, h[0], goal)
    ensures Ready(CtxOf(d), AskIsMatch, d.range, d.probs, BitsOf(h[0]))
    ensures var aim := AimAfter(d, h, goal);
            Inside(aim.a, EndOf(CtxOf(d), AskIsMatch, d.range, d.probs, BitsOf(h[0])).0, aim.k)
    decreases |h|, 1
  {
    hide Power256, EndOf, Behind, Ready, AimText, CtxOf, BitsOf, Shifted, Sound, Legal, Inside;
    assert Sound(d);
    RestInside(d, h, goal);
    var t := AimText(Behind(d, h[0], goal), h[1..], goal);
    ShiftedInside(t.a, EndOf(CtxOf(d), AskIsMatch, d.range, d.probs, BitsOf(h[0])).0, t.k);
  }

  // ---- decoding a stream ----

  /** What the encoder knows of a decoder. */
  function Blind(d: Dec): Dec { d.(code := 0) }

  lemma BlindSame(d: Dec)
    requires Sound(d)
    ensures Sound(Blind(d)) && CtxOf(Blind(d)) == CtxOf(d)
  {
  }

  lemma FirstAimed(d: Dec, b: Dec, h: seq<Symbol>, inp: seq<byte>, pos: nat, goal: nat)
    requires Sound(d) && b == Blind(d) && h != [] && Codable(b, h[0], goal)
    requires var aim := AimText(b, h, goal); Aimed(Coder(d.range, d.code, pos), inp, aim.a, aim.k)
    ensures AimedAt(CtxOf(b), AskIsMatch, Coder(d.range, d.code, pos), b.probs, inp, BitsOf(h[0]), AimAfter(b, h, goal))
  {
    AfterInside(b, h, goal);
    AimTextIs(b, h, goal);
    hide Power256, EndOf, AimText, AimBits, AimAfter, Follow, Aimed, Ready, Codable, CtxOf, BitsOf, Inside;
  }

  lemma WholeAimed(d: Dec, b: Dec, h: seq<Symbol>, inp: seq<byte>, pos: nat, goal: nat)
    requires Sound(d) && b == Blind(d) && pos <= |inp| && h != [] && Codable(b, h[0], goal)
    requires var aim := AimText(b, h, goal); Aimed(Coder(d.range, d.code, pos), inp, aim.a, aim.k)
    ensures Fits(CtxOf(b), b.probs) && Ready(CtxOf(b), AskIsMatch, b.range, b.probs, BitsOf(h[0]))
    ensures var w := Whole(CtxOf(b), Coder(d.range, d.code, pos), b.probs, inp, true);
            var t := AimText(Behind(b, h[0], goal), h[1..], goal);
            var (range, probs) := EndOf(CtxOf(b), AskIsMatch, b.range, b.probs, BitsOf(h[0]));
            w.Hit? && w.symbol == h[0] && w.rc.range == Shifted(range) && w.probs == probs && Aimed(w.rc, inp, t.a, t.k)
  {
    hide Power256, EndOf, AimText, AimBits, Follow, Aimed, AimedAt, Ready, Whole, Behind, CtxOf, Fits, Shifted, BitsOf,
         Inside, Legal;
    CtxFits(b);
    CodableReady(b, h[0], goal);
    FirstAimed(d, b, h, inp, pos, goal);
    RestInside(b, h, goal);
    NormalizedWalk(CtxOf(b), Coder(d.range, d.code, pos), b.probs, inp, h[0],
                   AimText(Behind(b, h[0], goal), h[1..], goal));
  }

  /** The walk of a symbol and its normalization, when the aim behind both is `t`. */
  lemma NormalizedWalk(x: Ctx, rc: Coder, probs: seq<int>, inp: seq<byte>, s: Symbol, t: Aim)
    requires Ready(x, AskIsMatch, rc.range, probs, BitsOf(s)) && Fits(x, probs) && rc.pos <= |inp|
    requires Follow(x, AskIsMatch, BitsOf(s)) == Some(Done(s))
    requires var range := EndOf(x, AskIsMatch, rc.range, probs, BitsOf(s)).0;
             Inside(t.a, Shifted(range), t.k)
             && AimedAt(x, AskIsMatch, rc, probs, inp, BitsOf(s), Aim(t.a, t.k + if range < TOP then 1 else 0))
    ensures var w := Whole(x, rc, probs, inp, true);
            var (range, probs') := EndOf(x, AskIsMatch, rc.range, probs, BitsOf(s));
            w.Hit? && w.symbol == s && w.rc.range == Shifted(range) && w.probs == probs' && Aimed(w.rc, inp, t.a, t.k)
  {
    hide Power256, EndOf, Follow, Aimed, Walk, Fits, Pull, Shifted, BitsOf, Inside;
    var range := EndOf(x, AskIsMatch, rc.range, probs, BitsOf(s)).0;
    var u := Aim(t.a, t.k + if range < TOP then 1 else 0);
    WalkAimed(x, AskIsMatch, rc, probs, inp, BitsOf(s), u);
    hide AimedAt;
    ReadyOk(x, rc, probs, inp, BitsOf(s), u);
    WalkKeeps(x, AskIsMatch, rc, probs, inp, true);
    Normalized(Walk(x, AskIsMatch, rc, probs, inp, true).rc, inp, t.a, t.k);
  }

  lemma ReadyOk(x: Ctx, rc: Coder, probs: seq<int>, inp: seq<byte>, bits: seq<bit>, t: Aim)
    requires AimedAt(x, AskIsMatch, rc, probs, inp, bits, t)
    ensures NodeOk(AskIsMatch) && ProbsOk(probs) && CoderOk(rc)
  {
  }

  lemma BehindIs(d: Dec, w: Res, goal: nat)
    requires w.Hit? && Codable(Blind(d), w.symbol, goal) && Sound(d) && Legal(d, w.symbol)
    requires Ready(CtxOf(Blind(d)), AskIsMatch, d.range, d.probs, BitsOf(w.symbol))
    requires var (range, probs) := EndOf(CtxOf(Blind(d)), AskIsMatch, d.range, d.probs, BitsOf(w.symbol));
             w.rc.range == Shifted(range) && w.probs == probs
    ensures Blind(Stepped(d, w, goal)) == Behind(Blind(d), w.symbol, goal)
  {
    hide Ready, EndOf, Copy, Sound, CtxOf, BitsOf;
  }

  /** An aimed decoder decodes the first symbol of the text, and is then aimed at the others. */
  lemma SymbolAimed(d: Dec, h: seq<Symbol>, inp: seq<byte>, pos: nat, goal: nat)
    requires Sound(d) && pos <= |inp| && h != [] && Codable(Blind(d), h[0], goal) && Legal(d, h[0])
    requires var aim := AimText(Blind(d), h, goal); Aimed(Coder(d.range, d.code, pos), inp, aim.a, aim.k)
    ensures var w := SymbolAt(d, inp, pos);
            w.Hit? && w.symbol == h[0] && |d.out| <= goal
            && Blind(Stepped(d, w, goal)) == Behind(Blind(d), h[0], goal)
            && var t := AimText(Behind(Blind(d), h[0], goal), h[1..], goal); Aimed(w.rc, inp, t.a, t.k)
  {
    BlindSame(d);
    hide Power256, EndOf, AimText, AimBits, Follow, Aimed, Ready, Whole, Behind, CtxOf, Fits, Stepped;
    WholeAimed(d, Blind(d), h, inp, pos, goal);
    BehindIs(d, SymbolAt(d, inp, pos), goal);
  }

  lemma AimTextIs(d: Dec, h: seq<Symbol>, goal: nat)
    requires h != [] && Codable(d, h[0], goal)
    ensures Ready(CtxOf(d), AskIsMatch, d.range, d.probs, BitsOf(h[0]))
    ensures AimText(d, h, goal) == AimBits(CtxOf(d), AskIsMatch, d.range, d.probs, BitsOf(h[0]), AimAfter(d, h, goal))
  {
    CodableReady(d, h[0], goal);
  }

  // ---- a whole text ----

  /** The text's symbols can be written: there is something to repeat, and every distance is in reach. */
  predicate Writable(p: Props, h: seq<Symbol>) {
    forall i :: 0 <= i < |h| ==> CanFollow(p, |Expanded(h[..i])|, h[i])
  }

  /** A symbol that may come after `n` bytes of text. */
  predicate CanFollow(p: Props, n: nat, s: Symbol) {
    match s
    case Literal(_) => true
    case ShortRep => n > 0
    case RepMatch(which, len) => n > 0 && which < 4 && len < 272
    case Match(len, dist) => len < 272 && dist < Min(n, p.dicSize) && dist != END_MARKER_DISTANCE && dist < U32
  }

  /** The file: a zero byte, and the number that is aimed at, the first four bytes of which are the code. */
  ghost function Encode(p: Props, h: seq<Symbol>): seq<byte>
    requires PropsOk(p)
  {
    var aim := AimText(Started(p, 0), h, |Expanded(h)|);
    [0] + BigEndian(aim.a, aim.k + 4)
  }

  lemma {:induction false} NumberSplit(s: seq<byte>, rest: seq<byte>)
    ensures Number(s + rest) == Number(s) * Power256(|rest|) + Number(rest)
    decreases |s|
  {
    if s == [] {
      assert s + rest == rest;
    } else {
      NumberSplit(s[1..], rest);
      SplitFront(s[0], s[1..], rest);
      hide Number, Power256;
      assert s == [s[0]] + s[1..] && s + rest == [s[0]] + (s[1..] + rest);
    }
  }

  lemma SplitFront(b: byte, tail: seq<byte>, rest: seq<byte>)
    requires Number(tail + rest) == Number(tail) * Power256(|rest|) + Number(rest)
    ensures Number([b] + (tail + rest)) == Number([b] + tail) * Power256(|rest|) + Number(rest)
  {
    hide Number, Power256;
    PowerAdd(|tail|, |rest|);
    NumberFront(b, tail + rest);
    NumberFront(b, tail);
    SplitAlgebra(b, Power256(|tail|), Power256(|rest|), Number(tail));
  }

  lemma SplitAlgebra(b: byte, p: nat, q: nat, v: nat)
    ensures b * (p * q) + v * q == (b * p + v) * q
  {
  }

  lemma {:induction false} PowerAdd(a: nat, b: nat)
    ensures Power256(a + b) == Power256(a) * Power256(b)
    decreases a
  {
    if a == 0 {
    } else {
      PowerAdd(a - 1, b);
      PowerNext(a - 1);
      PowerNext(a - 1 + b);
      assert 256 * Power256(a - 1) * Power256(b) == 256 * (Power256(a - 1) * Power256(b));
    }
  }

  /** The first four bytes of the number are the decoder's code. */
  lemma FourBytes(s: seq<byte>)
    requires |s| == 4
    ensures Number(s) == s[0] as int * 0x100_0000 + s[1] as int * 0x1_0000 + s[2] as int * 0x100 + s[3] as int
  {
    assert Power256(0) == 1 && Power256(1) == 256 && Power256(2) == 0x1_0000 && Power256(3) == 0x100_0000;
    assert s[1..][1..] == s[2..] && s[2..][1..] == s[3..] && s[3..][1..] == [];
    assert Number(s[3..]) == s[3] as int;
    assert Number(s[2..]) == s[2] * 256 + Number(s[3..]);
    assert Number(s[1..]) == s[1] * 0x1_0000 + Number(s[2..]);
  }

  /** The header of an encoded text, and what the decoder stands for behind it. */
  lemma HeaderAimed(p: Props, h: seq<Symbol>)
    requires PropsOk(p)
    ensures var inp, aim := Encode(p, h), AimText(Started(p, 0), h, |Expanded(h)|);
            |inp| >= RC_INIT_SIZE && inp[0] == 0
            && Aimed(Coder(0xFFFF_FFFF, HeaderCode(inp), RC_INIT_SIZE), inp, aim.a, aim.k)
  {
    hide AimText, Power256, Expanded, Aimed, HeaderCode, BigEndian;
    var d, goal := Started(p, 0), |Expanded(h)|;
    var aim := AimText(d, h, goal);
    TextInside(d, h, goal);
    assert d.range == 0xFFFF_FFFF;
    NumberHeader(Encode(p, h), aim.a, aim.k);
  }

  lemma NumberHeader(inp: seq<byte>, a: nat, k: nat)
    requires inp == [0] + BigEndian(a, k + 4) && Inside(a, 0xFFFF_FFFF, k)
    ensures |inp| >= RC_INIT_SIZE && inp[0] == 0
    ensures Aimed(Coder(0xFFFF_FFFF, HeaderCode(inp), RC_INIT_SIZE), inp, a, k)
  {
    hide Power256, Number, BigEndian, HeaderCode;
    WholeNumber(a, k);
    assert inp[1..] == BigEndian(a, k + 4);
    SplitHeader(inp, a, k);
  }

  lemma WholeNumber(a: nat, k: nat)
    requires Inside(a, 0xFFFF_FFFF, k)
    ensures a < Power256(k + 4) && Number(BigEndian(a, k + 4)) == a
  {
    PowerAdd(4, k);
    Powers();
    hide Power256, Number, BigEndian;
    Times(0xFFFF_FFFF, U32, Power256(k));
    NumberBack(a, k + 4);
  }

  lemma SplitHeader(inp: seq<byte>, a: nat, k: nat)
    requires |inp| == k + 5 && Number(inp[1..]) == a
    ensures HeaderCode(inp) * Power256(k) + Number(inp[5..5 + k]) == a
  {
    var code, rest := inp[1..5], inp[5..5 + k];
    FourBytes(code);
    hide Number, Power256;
    assert inp[1..] == code + rest;
    NumberSplit(code, rest);
  }

  /** A text that begins with a literal has a code that no repeated match begins with. */
  lemma FirstCode(p: Props, h: seq<Symbol>, inp: seq<byte>, code: int, goal: nat)
    requires PropsOk(p) && 0 <= code < U32 && RC_INIT_SIZE <= |inp| && (h != [] ==> h[0].Literal?)
    requires var aim := AimText(Started(p, 0), h, goal);
             Aimed(Coder(0xFFFF_FFFF, code, RC_INIT_SIZE), inp, aim.a, aim.k)
    ensures code < BAD_REP_CODE
  {
    var d, rc := Started(p, 0), Coder(0xFFFF_FFFF, code, RC_INIT_SIZE);
    if h == [] || !Codable(d, h[0], goal) {
      assert Power256(0) == 1;
    } else {
      CtxFits(d);
      StartSound(p, code);
      FirstAimed(Started(p, code), d, h, inp, RC_INIT_SIZE, goal);
      FirstBit(h[0]);
      hide Power256, EndOf, AimText, AimBits, AimAfter, Aimed, AimedAt, Ready, Codable, BitsOf, ReadBit, CtxOf, Fits;
      StepAimed(CtxOf(d), AskIsMatch, rc, d.probs, inp, BitsOf(h[0]), AimAfter(d, h, goal));
      BadCodeReads(CtxOf(d), rc, d.probs, inp);
    }
  }

  lemma StartSound(p: Props, code: int)
    requires PropsOk(p) && 0 <= code < U32
    ensures Sound(Started(p, code)) && Blind(Started(p, code)) == Started(p, 0)
  {
  }

  lemma BadCodeReads(x: Ctx, c: Coder, probs: seq<int>, inp: seq<byte>)
    requires Fits(x, probs) && (forall i :: 0 <= i < |probs| ==> probs[i] == INITIAL_PROB)
    requires c.range == 0xFFFF_FFFF && 0 <= c.code < U32
    ensures c.code >= BAD_REP_CODE ==> ReadBit(x, AskIsMatch, c, probs).0 == 1
  {
    if c.code >= BAD_REP_CODE { BadCodeMeansRep(x, c, probs, inp); }
  }

  lemma FirstBit(s: Symbol)
    requires s.Literal?
    ensures BitsOf(s) != [] && BitsOf(s)[0] == 0
  {
  }

  /** How many bytes a symbol adds to the text. */
  function Adds(s: Symbol): nat {
    match s
    case Literal(_) => 1
    case ShortRep => 1
    case RepMatch(_, len) => len + MATCH_MIN_LEN
    case Match(len, dist) => if dist == END_MARKER_DISTANCE then 0 else len + MATCH_MIN_LEN
  }

  /** A text only grows, and never by more than its symbols say. */
  lemma ExpandedGrows(h: seq<Symbol>, s: Symbol)
    ensures |Expanded(h)| <= |Expanded(h + [s])| <= |Expanded(h)| + Adds(s)
  {
    LastExpanded(h, s);
    hide Expanded, Recent;
  }

  lemma {:induction false} ExpandedLonger(h: seq<Symbol>, more: seq<Symbol>)
    ensures |Expanded(h)| <= |Expanded(h + more)|
    decreases |more|
  {
    if more == [] {
      assert h + more == h;
    } else {
      hide Expanded;
      ExpandedGrows(h, more[0]);
      ExpandedLonger(h + [more[0]], more[1..]);
      assert (h + [more[0]]) + more[1..] == h + more;
    }
  }

  /** What a writable symbol does to a decoder that owes nothing: it stays in the stream, and owes nothing again. */
  lemma WritableStep(d: Dec, w: Res, goal: nat, h: seq<Symbol>)
    requires DecOk(d) && d.phase.Running? && d.owed == 0 && Known(d, h) && w.Hit?
             && CanFollow(d.props, |d.out|, w.symbol)
    requires Settled(w.rc) && ProbsOk(w.probs) && |w.probs| == |d.probs| && |Expanded(h + [w.symbol])| <= goal
    ensures Legal(d, w.symbol) && |d.out| < goal && d.out == Expanded(h)
    ensures var f := Stepped(d, w, goal);
            f.phase.Running? && f.owed == 0 && Known(f, h + [w.symbol]) && f.props == d.props
            && f.range == w.rc.range && f.code == w.rc.code
  {
    LegalNow(d, w.symbol, h);
    TextAfter(d, w.symbol, h);
    StepKnown(d, w, goal, h);
    hide Known, Expanded, Recent, CanFollow;
    NothingOwed(d, w.symbol, w, goal);
  }

  lemma LegalNow(d: Dec, s: Symbol, h: seq<Symbol>)
    requires DecOk(d) && d.phase.Running? && d.owed == 0 && Known(d, h) && CanFollow(d.props, |d.out|, s)
    ensures Legal(d, s) && d.out == Expanded(h) && Remembers(d, h) && RepsOk(d) && Sound(d)
    ensures s.Match? ==> s.dist < Reach(d) && s.dist != END_MARKER_DISTANCE
  {
    hide Expanded, Recent;
  }

  /** The text behind a writable symbol has all its bytes. */
  lemma TextAfter(d: Dec, s: Symbol, h: seq<Symbol>)
    requires d.out == Expanded(h) && Remembers(d, h) && RepsOk(d) && Legal(d, s)
    requires s.Match? ==> s.dist < Reach(d) && s.dist != END_MARKER_DISTANCE
    ensures |Expanded(h + [s])| == |d.out| + Adds(s) && Adds(s) > 0
  {
    LastExpanded(h, s);
    FourReps(h, d);
    hide Expanded, Recent;
  }

  lemma NothingOwed(d: Dec, s: Symbol, w: Res, goal: nat)
    requires RepsOk(d) && d.phase.Running? && d.owed == 0 && w.Hit? && w.symbol == s && Legal(d, s)
    requires |d.out| + Adds(s) <= goal
    requires s.Match? ==> s.dist < Reach(d) && s.dist != END_MARKER_DISTANCE
    ensures var f := Stepped(d, w, goal);
            f.phase.Running? && f.owed == 0 && f.props == d.props && f.range == w.rc.range && f.code == w.rc.code
  {
    hide Copy;
  }

  /**
   The main loop on an aimed decoder: it decodes exactly the symbols of the text, and ends with all of the text
   written. `done` has been decoded before.
   */
  lemma {:induction false} DriveAimed(d: Dec, inp: seq<byte>, pos: nat, held: nat, goal: nat, done: seq<Symbol>,
                                      todo: seq<Symbol>)
    requires Live(d, goal) && d.phase.Running? && d.owed == 0 && Known(d, done) && pos <= |inp| && held <= |inp|
    requires Writable(d.props, done + todo) && goal == |Expanded(done + todo)|
    requires var aim := AimText(Blind(d), todo, goal); Aimed(Coder(d.range, d.code, pos), inp, aim.a, aim.k)
    ensures var r := Drive(d, inp, pos, held, goal, FinishAny); r.res.Ok? && r.dec.out == Expanded(done + todo)
    ensures Decoded(d, inp, pos, goal, FinishAny) == todo
    decreases |todo|
  {
    hide Drive, Decoded, TakeTurn, AimText, Expanded, Aimed, Known, Writable, TurnSymbol, Blind, DecOk, Effort,
         Power256;
    if todo == [] {
      assert done + todo == done;
      AllWritten(d, inp, pos, held, goal, done);
    } else {
      OneTurn(d, inp, pos, held, goal, FinishAny);
      TurnAimed(d, inp, pos, goal, done, todo);
      var f := TakeTurn(d, inp, pos, goal, FinishAny);
      assert (done + [todo[0]]) + todo[1..] == done + todo && [todo[0]] + todo[1..] == todo;
      DriveAimed(f.dec, inp, f.end, held, goal, done + [todo[0]], todo[1..]);
    }
  }

  /** At the end of the text the limit ends the call. */
  lemma AllWritten(d: Dec, inp: seq<byte>, pos: nat, held: nat, goal: nat, done: seq<Symbol>)
    requires Live(d, goal) && d.phase.Running? && d.owed == 0 && Known(d, done) && pos <= |inp| && held <= |inp|
    requires goal == |Expanded(done)|
    ensures var r := Drive(d, inp, pos, held, goal, FinishAny); r.res.Ok? && r.dec.out == Expanded(done)
    ensures Decoded(d, inp, pos, goal, FinishAny) == []
  {
    hide Expanded, Recent, Stands, Copy;
    assert d.out == Expanded(done);
    assert StopsAtLimit(d, goal, FinishAny);
    assert Pay(d, goal) == d;
  }

  /** A turn on an aimed decoder takes the first symbol of what is to be decoded. */
  lemma TurnAimed(d: Dec, inp: seq<byte>, pos: nat, goal: nat, done: seq<Symbol>, todo: seq<Symbol>)
    requires Live(d, goal) && d.phase.Running? && d.owed == 0 && Known(d, done) && pos <= |inp| && todo != []
    requires Writable(d.props, done + todo) && goal == |Expanded(done + todo)|
    requires var aim := AimText(Blind(d), todo, goal); Aimed(Coder(d.range, d.code, pos), inp, aim.a, aim.k)
    ensures var t := TakeTurn(d, inp, pos, goal, FinishAny);
            t.Went? && t.dec.phase.Running? && t.dec.owed == 0 && Known(t.dec, done + [todo[0]])
            && t.dec.props == d.props
            && TurnSymbol(d, inp, pos, goal) == todo[0]
            && var aim := AimText(Blind(t.dec), todo[1..], goal);
               Aimed(Coder(t.dec.range, t.dec.code, t.end), inp, aim.a, aim.k)
  {
    hide AimText, Expanded, Aimed, Known, Writable, CanFollow, Recent, TakeTurn, TurnSymbol, SymbolAt, Stepped, Behind,
         Codable, Legal, Sound, Remembers, DecOk, Power256;
    var s := todo[0];
    NextFollows(d, done, todo);
    ExpandedLonger(done + [s], todo[1..]);
    assert (done + [s]) + todo[1..] == done + todo;
    LegalNow(d, s, done);
    TextAfter(d, s, done);
    SoundNow(d, s, goal);
    SymbolAimed(d, todo, inp, pos, goal);
    SymbolKeeps(d, inp, pos);
    WritableStep(d, SymbolAt(d, inp, pos), goal, done);
    PlainTurn(d, inp, pos, goal);
  }

  /** A turn that finds a symbol and has room for it. */
  lemma PlainTurn(d: Dec, inp: seq<byte>, pos: nat, goal: nat)
    requires Live(d, goal) && d.phase.Running? && d.owed == 0 && pos <= |inp| && |d.out| < goal && Sound(d)
    requires SymbolAt(d, inp, pos).Hit? && Legal(d, SymbolAt(d, inp, pos).symbol)
    requires Stepped(d, SymbolAt(d, inp, pos), goal).phase.Running?
    ensures TakeTurn(d, inp, pos, goal, FinishAny) ==
            Went(Stepped(d, SymbolAt(d, inp, pos), goal), SymbolAt(d, inp, pos).rc.pos)
    ensures TurnSymbol(d, inp, pos, goal) == SymbolAt(d, inp, pos).symbol
  {
    assert Pay(d, goal) == d;
    hide SymbolAt, Stepped, Legal, RunningOk, Sound;
  }

  lemma NextFollows(d: Dec, done: seq<Symbol>, todo: seq<Symbol>)
    requires Writable(d.props, done + todo) && todo != [] && DecOk(d) && d.phase.Running? && d.owed == 0
             && Known(d, done)
    ensures d.out == Expanded(done) && CanFollow(d.props, |d.out|, todo[0])
  {
    hide Expanded, CanFollow, Recent, Stands;
    assert (done + todo)[..|done|] == done && (done + todo)[|done|] == todo[0];
  }

  lemma SoundNow(d: Dec, s: Symbol, goal: nat)
    requires DecOk(d) && d.phase.Running? && d.owed == 0 && Legal(d, s) && |d.out| <= goal
    ensures Sound(d) && Codable(Blind(d), s, goal)
  {
  }

  /**
   The round trip: for every text whose symbols can be written, the bytes of the encoder, given to a fresh decoder in
   one call, give back the text.
   */
  lemma TextBack(p: Props, h: seq<Symbol>)
    requires PropsOk(p) && Writable(p, h)
    ensures var r := Feed(Blank(p), [], Encode(p, h), |Expanded(h)|, FinishAny);
            r.res.Ok? && r.dec.out == Expanded(h)
    ensures FeedSymbols(Blank(p), [], Encode(p, h), |Expanded(h)|, FinishAny) == h
  {
    hide AimText, Expanded, Aimed, Known, Writable, Drive, Decoded, Encode, HeaderCode, Number, Power256, DecOk,
         Started, Blind, Feed, FeedSymbols, Live;
    var inp, goal := Encode(p, h), |Expanded(h)|;
    HeaderAimed(p, h);
    FirstIsLiteral(p, h);
    FirstCode(p, h, inp, HeaderCode(inp), goal);
    StartKnown(p, HeaderCode(inp), goal);
    assert [] + h == h;
    DriveAimed(Started(p, HeaderCode(inp)), inp, RC_INIT_SIZE, RC_INIT_SIZE, goal, [], h);
    FirstFeed(p, inp, goal);
  }

  /** The first call of a fresh decoder that gets a good header. */
  lemma FirstFeed(p: Props, inp: seq<byte>, goal: nat)
    requires PropsOk(p) && |inp| >= RC_INIT_SIZE && inp[0] == 0 && HeaderCode(inp) < BAD_REP_CODE
    ensures var d := Started(p, HeaderCode(inp));
            Live(d, goal)
            && Feed(Blank(p), [], inp, goal, FinishAny) == Drive(d, inp, RC_INIT_SIZE, RC_INIT_SIZE, goal, FinishAny)
            && FeedSymbols(Blank(p), [], inp, goal, FinishAny) == Decoded(d, inp, RC_INIT_SIZE, goal, FinishAny)
  {
    StartedOk(p, HeaderCode(inp));
    assert [] + inp == inp;
    hide Drive, Decoded;
  }

  /** The same in however many pieces the bytes come. */
  lemma TextBackInPieces(p: Props, h: seq<Symbol>, chunks: seq<seq<byte>>)
    requires PropsOk(p) && Writable(p, h) && chunks != [] && Joined(chunks) == Encode(p, h)
    ensures FeedAll(Blank(p), [], chunks, |Expanded(h)|, FinishAny).dec.out == Expanded(h)
  {
    hide Feed, FeedAll, Encode, Expanded, Writable, AimText;
    HeaderAimed(p, h);
    TextBack(p, h);
    ChunksAgree(Blank(p), [], chunks, |Expanded(h)|, FinishAny);
  }

  lemma FirstIsLiteral(p: Props, h: seq<Symbol>)
    requires Writable(p, h)
    ensures h != [] ==> h[0].Literal?
  {
    if h != [] { assert CanFollow(p, |Expanded(h[..0])|, h[0]) && h[..0] == []; }
  }

  lemma StartKnown(p: Props, code: int, goal: nat)
    requires PropsOk(p) && 0 <= code < BAD_REP_CODE
    ensures var d := Started(p, code);
            Live(d, goal) && d.phase.Running? && d.owed == 0 && d.props == p && d.range == 0xFFFF_FFFF && d.code == code
            && Known(d, []) && Blind(d) == Started(p, 0)
  {
    StartedOk(p, code);
  }
}
