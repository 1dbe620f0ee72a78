/**
 One LZMA symbol as a walk through a decision tree. A node says which bit is read next; the tree is the one of
 the LZMA specification ("The main loop of decoder"). A walk may adapt the probabilities it reads, as the real
 decoder does, or leave them alone, as the look-ahead does.
 */
module LzmaWalk {
  import opened Bits
  import opened LzmaLayout
  import opened LzmaCoder

  const END_MARKER_DISTANCE := 0xFFFF_FFFF

  /** What a symbol's tree depends on: the state, the position bits, the literal coder and the byte at rep0. */
  datatype Ctx = Ctx(state: nat, posState: nat, litState: nat, matchByte: byte)

  /** Who asked for a length: a simple match, or a repeated match of distance `which`. */
  datatype LenUse = Fresh | Again(which: nat)

  /** `len` counts from 0 (two bytes); `dist` counts from 0 (the previous byte). */
  datatype Symbol = Literal(value: byte) | ShortRep | RepMatch(which: nat, len: nat) | Match(len: nat, dist: nat)

  datatype Node =
    | AskIsMatch
    | AskLit(m: nat)
    | AskMatchedLit(m: nat, rest: nat)
    | AskIsRep
    | AskRepG0
    | AskRep0Long
    | AskRepG1
    | AskRepG2
    | AskLenChoice(use: LenUse)
    | AskLenChoice2(use: LenUse)
    | AskLenLow(use: LenUse, m: nat)
    | AskLenMid(use: LenUse, m: nat)
    | AskLenHigh(use: LenUse, m: nat)
    | AskSlot(len: nat, m: nat)
    | AskSpec(len: nat, slot: nat, k: nat, rev: nat)
    | AskDirect(len: nat, slot: nat, k: nat, acc: nat)
    | AskAlign(len: nat, acc: nat, k: nat, rev: nat)
    | Done(symbol: Symbol)

  function ExtraBits(slot: nat): nat
    requires slot >= 4
  {
    slot / 2 - 1
  }

  predicate CtxOk(x: Ctx) { x.state < NUM_STATES && x.posState < 16 }

  predicate UseOk(u: LenUse) { u.Again? ==> u.which < 4 }

  predicate SymbolOk(s: Symbol) {
    match s
    case RepMatch(which, len) => which < 4 && len < 272
    case Match(len, dist) => len < 272 && dist < U32
    case _ => true
  }

  predicate NodeOk(n: Node) {
    match n
    case AskLit(m) => 1 <= m < 256
    case AskMatchedLit(m, rest) => 1 <= m < 256 && rest < 256
    case AskLenChoice(u) => UseOk(u)
    case AskLenChoice2(u) => UseOk(u)
    case AskLenLow(u, m) => UseOk(u) && 1 <= m < 8
    case AskLenMid(u, m) => UseOk(u) && 1 <= m < 8
    case AskLenHigh(u, m) => UseOk(u) && 1 <= m < 256
    case AskSlot(len, m) => len < 272 && 1 <= m < 64
    case AskSpec(len, slot, k, rev) => len < 272 && 4 <= slot < 14 && k < ExtraBits(slot) && rev < Pow2(k)
    case AskDirect(len, slot, k, acc) => len < 272 && 14 <= slot < 64 && k < ExtraBits(slot) - 4 && acc < 4 * Pow2(k)
    case AskAlign(len, acc, k, rev) => len < 272 && acc < 0x1000_0000 && k < 4 && rev < Pow2(k)
    case Done(s) => SymbolOk(s)
    case _ => true
  }

  function RepFlag(u: LenUse): bool { u.Again? }

  /** The top bit of what is left of the byte a matched literal follows. */
  function TopBit(rest: nat): nat { (rest / 128) % 2 }

  function SpecBase(slot: nat): nat
    requires slot >= 4
  {
    (2 + slot % 2) * Pow2(ExtraBits(slot))
  }

  /** The probability a node reads; direct bits and finished walks read none. */
  function CellOf(x: Ctx, n: Node): Cell
    requires NodeOk(n) && !n.Done? && !n.AskDirect?
  {
    match n
    case AskIsMatch => IsMatch(x.posState, x.state)
    case AskLit(m) => Lit(x.litState, 0, m)
    case AskMatchedLit(m, rest) => Lit(x.litState, 1 + TopBit(rest), m)
    case AskIsRep => IsRep(x.state)
    case AskRepG0 => IsRepG0(x.state)
    case AskRep0Long => IsRep0Long(x.posState, x.state)
    case AskRepG1 => IsRepG1(x.state)
    case AskRepG2 => IsRepG2(x.state)
    case AskLenChoice(u) => LenChoice(RepFlag(u))
    case AskLenChoice2(u) => LenChoice2(RepFlag(u))
    case AskLenLow(u, m) => LenLow(RepFlag(u), x.posState, m)
    case AskLenMid(u, m) => LenMid(RepFlag(u), x.posState, m)
    case AskLenHigh(u, m) => LenHigh(RepFlag(u), m)
    case AskSlot(len, m) => PosSlot(if len < 4 then len else 3, m)
    case AskSpec(_, slot, k, rev) => SpecPos(SpecBase(slot) + Pow2(k) + rev)
    case AskAlign(_, _, k, rev) => Align(Pow2(k) + rev)
  }

  function AfterLen(u: LenUse, len: nat): Node {
    if u.Fresh? then AskSlot(len, 1) else Done(RepMatch(u.which, len))
  }

  function AfterSlot(len: nat, slot: nat): Node {
    if slot < 4 then Done(Match(len, slot))
    else if slot < 14 then AskSpec(len, slot, 0, 0)
    else AskDirect(len, slot, 0, 2 + slot % 2)
  }

  /** The next node once a bit is known. Forward trees append the bit to `m`, reverse trees add it above `rev`. */
  function Next(x: Ctx, n: Node, b: bit): Node
    requires NodeOk(n) && !n.Done?
  {
    match n
    case AskIsMatch =>
      if b == 1 then AskIsRep
      else if x.state < NUM_LIT_STATES then AskLit(1)
      else AskMatchedLit(1, x.matchByte)
    case AskLit(m) => if m < 128 then AskLit(2 * m + b) else Done(Literal(2 * m + b - 256))
    case AskMatchedLit(m, rest) =>
      if m >= 128 then Done(Literal(2 * m + b - 256))
      else if b == TopBit(rest) then AskMatchedLit(2 * m + b, (2 * rest) % 256)
      else AskLit(2 * m + b)
    case AskIsRep => if b == 0 then AskLenChoice(Fresh) else AskRepG0
    case AskRepG0 => if b == 0 then AskRep0Long else AskRepG1
    case AskRep0Long => if b == 0 then Done(ShortRep) else AskLenChoice(Again(0))
    case AskRepG1 => if b == 0 then AskLenChoice(Again(1)) else AskRepG2
    case AskRepG2 => AskLenChoice(Again(2 + b))
    case AskLenChoice(u) => if b == 0 then AskLenLow(u, 1) else AskLenChoice2(u)
    case AskLenChoice2(u) => if b == 0 then AskLenMid(u, 1) else AskLenHigh(u, 1)
    case AskLenLow(u, m) => if m < 4 then AskLenLow(u, 2 * m + b) else AfterLen(u, 2 * m + b - 8)
    case AskLenMid(u, m) => if m < 4 then AskLenMid(u, 2 * m + b) else AfterLen(u, 2 * m + b)
    case AskLenHigh(u, m) => if m < 128 then AskLenHigh(u, 2 * m + b) else AfterLen(u, 2 * m + b - 240)
    case AskSlot(len, m) => if m < 32 then AskSlot(len, 2 * m + b) else AfterSlot(len, 2 * m + b - 64)
    case AskSpec(len, slot, k, rev) =>
      var rev' := rev + b * Pow2(k);
      if k + 1 < ExtraBits(slot) then AskSpec(len, slot, k + 1, rev')
      else Done(Match(len, SpecBase(slot) + rev'))
    case AskDirect(len, slot, k, acc) =>
      if k + 1 < ExtraBits(slot) - 4 then AskDirect(len, slot, k + 1, 2 * acc + b)
      else AskAlign(len, 2 * acc + b, 0, 0)
    case AskAlign(len, acc, k, rev) =>
      var rev' := rev + b * Pow2(k);
      if k < 3 then AskAlign(len, acc, k + 1, rev') else Done(Match(len, 16 * acc + rev'))
  }

  /** How many tree levels lie above node `m`. */
  function Depth(m: nat): nat {
    if m < 2 then 0 else if m < 4 then 1 else if m < 8 then 2 else if m < 16 then 3
    else if m < 32 then 4 else if m < 64 then 5 else if m < 128 then 6 else if m < 256 then 7 else 8
  }

  function TailBits(u: LenUse): nat { if u.Fresh? then 10 else 0 }

  /** An upper bound on the modelled bits still to come. */
  function Modelled(n: Node): int
    requires NodeOk(n)
  {
    match n
    case AskIsMatch => 22
    case AskLit(m) => 8 - Depth(m)
    case AskMatchedLit(m, _) => 8 - Depth(m)
    case AskIsRep => 21
    case AskRepG0 => 14
    case AskRep0Long => 13
    case AskRepG1 => 13
    case AskRepG2 => 12
    case AskLenChoice(u) => 10 + TailBits(u)
    case AskLenChoice2(u) => 9 + TailBits(u)
    case AskLenLow(u, m) => 3 - Depth(m) + TailBits(u)
    case AskLenMid(u, m) => 3 - Depth(m) + TailBits(u)
    case AskLenHigh(u, m) => 8 - Depth(m) + TailBits(u)
    case AskSlot(_, m) => 10 - Depth(m)
    case AskSpec(_, slot, k, _) => ExtraBits(slot) - k
    case AskDirect(_, _, _, _) => 4
    case AskAlign(_, _, k, _) => 4 - k
    case Done(_) => 0
  }

  /** An upper bound on the direct bits still to come. */
  function Direct(n: Node): int
    requires NodeOk(n)
  {
    match n
    case AskIsMatch => 26
    case AskIsRep => 26
    case AskLenChoice(u) => if u.Fresh? then 26 else 0
    case AskLenChoice2(u) => if u.Fresh? then 26 else 0
    case AskLenLow(u, _) => if u.Fresh? then 26 else 0
    case AskLenMid(u, _) => if u.Fresh? then 26 else 0
    case AskLenHigh(u, _) => if u.Fresh? then 26 else 0
    case AskSlot(_, _) => 26
    case AskDirect(_, slot, k, _) => ExtraBits(slot) - 4 - k
    case _ => 0
  }

  lemma NextSpecOk(x: Ctx, n: Node, b: bit)
    requires NodeOk(n) && n.AskSpec?
    ensures NodeOk(Next(x, n, b))
  {
    Pow2Values(n.k + 1);
    Pow2Values(ExtraBits(n.slot));
    assert n.rev + b * Pow2(n.k) < Pow2(n.k + 1);
  }

  lemma NextDirectOk(x: Ctx, n: Node, b: bit)
    requires NodeOk(n) && n.AskDirect?
    ensures NodeOk(Next(x, n, b))
  {
    assert 2 * n.acc + b < 4 * Pow2(n.k + 1);
    Pow2Monotone(n.k + 1, 26);
    Pow2At26();
  }

  lemma NextAlignOk(x: Ctx, n: Node, b: bit)
    requires NodeOk(n) && n.AskAlign?
    ensures NodeOk(Next(x, n, b))
  {
    Pow2Values(n.k + 1);
    assert n.rev + b * Pow2(n.k) < Pow2(n.k + 1);
  }

  lemma NextOk(x: Ctx, n: Node, b: bit)
    requires NodeOk(n) && !n.Done?
    ensures NodeOk(Next(x, n, b))
  {
    if n.AskSpec? {
      NextSpecOk(x, n, b);
    } else if n.AskDirect? {
      NextDirectOk(x, n, b);
    } else if n.AskAlign? {
      NextAlignOk(x, n, b);
    } else if n.AskSlot? {
      Pow2Values(0);
    }
  }

  lemma Pow2Values(k: nat)
    requires k <= 6
    ensures Pow2(k) == if k == 0 then 1 else if k == 1 then 2 else if k == 2 then 4
                       else if k == 3 then 8 else if k == 4 then 16 else if k == 5 then 32 else 64
  {
    assert Pow2(1) == 2 && Pow2(2) == 4 && Pow2(3) == 8;
    assert Pow2(4) == 16;
    assert Pow2(5) == 32;
  }

  lemma Pow2At26()
    ensures Pow2(26) == 0x400_0000
  {
    Pow2Values(6);
    Pow2Add(6, 6);
    Pow2Add(12, 12);
    assert Pow2(24) == 4096 * 4096;
    assert Pow2(25) == 2 * Pow2(24);
  }

  /** Every bit brings the walk nearer its end. */
  lemma NextDecreases(x: Ctx, n: Node, b: bit)
    requires NodeOk(n) && !n.Done?
    ensures NodeOk(Next(x, n, b))
    ensures 0 <= Modelled(Next(x, n, b)) + Direct(Next(x, n, b)) < Modelled(n) + Direct(n)
  {
    NextOk(x, n, b);
  }

  /** How a walk ended: out of input, or at a symbol, with the coder and the probabilities it left behind. */
  datatype Res = Eof | Hit(symbol: Symbol, rc: Coder, probs: seq<int>)

  predicate Fits(x: Ctx, probs: seq<int>) {
    CtxOk(x) && |probs| >= LITERAL + LIT_SIZE * (x.litState + 1)
  }

  predicate CellFits(c: Cell, size: nat) { CellOk(c) && Index(c) < size }

  lemma SpecCellOk(x: Ctx, n: Node)
    requires NodeOk(n) && n.AskSpec?
    ensures CellOk(CellOf(x, n))
  {
    Pow2Values(n.k);
    Pow2Values(ExtraBits(n.slot));
  }

  lemma AskedCellFits(x: Ctx, n: Node, probs: seq<int>)
    requires NodeOk(n) && !n.Done? && !n.AskDirect? && Fits(x, probs)
    ensures CellFits(CellOf(x, n), |probs|)
  {
    if n.AskSpec? {
      SpecCellOk(x, n);
    } else if n.AskAlign? {
      Pow2Values(n.k);
    } else if n.AskLit? || n.AskMatchedLit? {
      assert CellOf(x, n).sub < 3;
    }
  }

  function ReadBit(x: Ctx, n: Node, c: Coder, probs: seq<int>): (bit, Coder)
    requires NodeOk(n) && !n.Done? && Fits(x, probs)
  {
    if n.AskDirect? then DirectBit(c)
    else
      AskedCellFits(x, n, probs);
      CodeBit(c, probs[Index(CellOf(x, n))])
  }

  /** The probabilities after the asked one adapted to the bit read. */
  function Learn(x: Ctx, n: Node, probs: seq<int>, b: bit): (r: seq<int>)
    requires NodeOk(n) && !n.Done? && Fits(x, probs)
    ensures |r| == |probs|
  {
    if n.AskDirect? then probs
    else
      AskedCellFits(x, n, probs);
      var i := Index(CellOf(x, n));
      probs[i := Adapt(probs[i], b)]
  }

  function Walk(x: Ctx, n: Node, rc: Coder, probs: seq<int>, inp: seq<byte>, adapt: bool): Res
    requires NodeOk(n) && Fits(x, probs)
    decreases Modelled(n) + Direct(n)
  {
    if n.Done? then Hit(n.symbol, rc, probs)
    else
      match Pull(rc, inp)
      case None => Eof
      case Some(c) =>
        var (b, c') := ReadBit(x, n, c, probs);
        NextDecreases(x, n, b);
        Walk(x, Next(x, n, b), c', if adapt then Learn(x, n, probs, b) else probs, inp, adapt)
  }

  /** A whole symbol: the walk from the root, then the byte the final normalization takes. */
  function Whole(x: Ctx, rc: Coder, probs: seq<int>, inp: seq<byte>, adapt: bool): Res
    requires Fits(x, probs)
  {
    match Walk(x, AskIsMatch, rc, probs, inp, adapt)
    case Eof => Eof
    case Hit(s, c, p) =>
      match Pull(c, inp)
      case None => Eof
      case Some(c') => Hit(s, c', p)
  }

  /** A settled coder walks like the unsettled one it came from, so normalization may be put off. */
  lemma WalkAfterPull(x: Ctx, n: Node, rc: Coder, probs: seq<int>, inp: seq<byte>, adapt: bool)
    requires NodeOk(n) && Fits(x, probs) && !n.Done? && CoderOk(rc)
    ensures Pull(rc, inp).None? ==> Walk(x, n, rc, probs, inp, adapt).Eof?
    ensures Pull(rc, inp).Some? ==>
              Walk(x, n, Pull(rc, inp).value, probs, inp, adapt) == Walk(x, n, rc, probs, inp, adapt)
  {
    PullSettles(rc, inp);
  }

  /** What every walk keeps: a decodable coder, healthy probabilities, a legal symbol, bytes taken in order. */
  lemma {:induction false} WalkKeeps(x: Ctx, n: Node, rc: Coder, probs: seq<int>, inp: seq<byte>, adapt: bool)
    requires NodeOk(n) && Fits(x, probs) && CoderOk(rc) && ProbsOk(probs) && rc.pos <= |inp|
    ensures var w := Walk(x, n, rc, probs, inp, adapt);
            w.Hit? ==> CoderOk(w.rc) && ProbsOk(w.probs) && |w.probs| == |probs| && SymbolOk(w.symbol)
                       && rc.pos <= w.rc.pos <= |inp| && (!adapt ==> w.probs == probs)
    decreases Modelled(n) + Direct(n)
  {
    if n.Done? || Pull(rc, inp).None? {
    } else {
      PullSettles(rc, inp);
      var c := Pull(rc, inp).value;
      var (b, c') := ReadBit(x, n, c, probs);
      ReadBitOk(x, n, c, probs);
      NextDecreases(x, n, b);
      WalkKeeps(x, Next(x, n, b), c', if adapt then Learn(x, n, probs, b) else probs, inp, adapt);
    }
  }

  lemma ReadBitOk(x: Ctx, n: Node, c: Coder, probs: seq<int>)
    requires NodeOk(n) && !n.Done? && Fits(x, probs) && Settled(c) && ProbsOk(probs)
    ensures CoderOk(ReadBit(x, n, c, probs).1) && ReadBit(x, n, c, probs).1.pos == c.pos
    ensures ProbsOk(Learn(x, n, probs, ReadBit(x, n, c, probs).0))
    ensures !n.AskDirect? ==> ReadBit(x, n, c, probs).1.range * 67 >= c.range
  {
    if n.AskDirect? {
      DirectBitShrinks(c);
    } else {
      AskedCellFits(x, n, probs);
      var p := probs[Index(CellOf(x, n))];
      ModelledBitShrinks(c, p);
      AdaptKeepsProb(p, CodeBit(c, p).0);
    }
  }

  /** A walk that went into the literal tree ends at a literal. */
  lemma {:induction false} LiteralWalk(x: Ctx, n: Node, rc: Coder, probs: seq<int>, inp: seq<byte>, adapt: bool)
    requires NodeOk(n) && Fits(x, probs) && (n.AskLit? || n.AskMatchedLit? || (n.Done? && n.symbol.Literal?))
    ensures var w := Walk(x, n, rc, probs, inp, adapt); w.Hit? ==> w.symbol.Literal?
    decreases Modelled(n) + Direct(n)
  {
    if n.Done? || Pull(rc, inp).None? {
    } else {
      var c := Pull(rc, inp).value;
      var (b, c') := ReadBit(x, n, c, probs);
      NextDecreases(x, n, b);
      LiteralWalk(x, Next(x, n, b), c', if adapt then Learn(x, n, probs, b) else probs, inp, adapt);
    }
  }
}
