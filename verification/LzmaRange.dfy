/**
 The range decoder as LzmaDec.c runs it: it updates `range`, `code`, `buf` and the probability array in place.
 Every method is proved to move along the walk of the symbol being decoded: what is left of the walk afterwards is
 what was left of it before, minus the bits that were read.
 */
module LzmaRange {
  import opened Bits
  import opened LzmaLayout
  import opened LzmaCoder
  import opened LzmaWalk

  /** The five bit trees that are read forwards. */
  datatype Tree = LitTree | LowTree(use: LenUse) | MidTree(use: LenUse) | HighTree(use: LenUse) | SlotTree(len: nat)

  ghost predicate TreeOk(t: Tree) {
    match t
    case LitTree => true
    case SlotTree(len) => len < 272
    case _ => UseOk(t.use)
  }

  function TreeLimit(t: Tree): nat {
    match t
    case LitTree => 0x100
    case LowTree(_) => 8
    case MidTree(_) => 8
    case HighTree(_) => 0x100
    case SlotTree(_) => 64
  }

  ghost function TreeNode(t: Tree, m: nat): Node {
    match t
    case LitTree => AskLit(m)
    case LowTree(u) => AskLenLow(u, m)
    case MidTree(u) => AskLenMid(u, m)
    case HighTree(u) => AskLenHigh(u, m)
    case SlotTree(len) => AskSlot(len, m)
  }

  /** The node after a tree whose index has reached `i`. */
  ghost function TreeEnd(t: Tree, i: nat): Node
    requires TreeOk(t) && TreeLimit(t) <= i < 2 * TreeLimit(t)
  {
    match t
    case LitTree => Done(Literal(i - 0x100))
    case LowTree(u) => AfterLen(u, i - 8)
    case MidTree(u) => AfterLen(u, i)
    case HighTree(u) => AfterLen(u, i - 240)
    case SlotTree(len) => AfterSlot(len, i - 64)
  }

  ghost function TreeBase(x: Ctx, t: Tree): nat {
    match t
    case LitTree => LITERAL + LIT_SIZE * x.litState
    case LowTree(u) => LenBase(u.Again?) + LEN_LOW + 16 * x.posState
    case MidTree(u) => LenBase(u.Again?) + LEN_LOW + 16 * x.posState + 8
    case HighTree(u) => LenBase(u.Again?) + LEN_HIGH
    case SlotTree(len) => POS_SLOT + 64 * (if len < 4 then len else 3)
  }

  lemma TreeStep(x: Ctx, t: Tree, m: nat, b: bit)
    requires TreeOk(t) && 1 <= m < TreeLimit(t)
    ensures NodeOk(TreeNode(t, m)) && !TreeNode(t, m).Done? && !TreeNode(t, m).AskDirect?
    ensures Index(CellOf(x, TreeNode(t, m))) == TreeBase(x, t) + m
    ensures Next(x, TreeNode(t, m), b) ==
            if 2 * m + b < TreeLimit(t) then TreeNode(t, 2 * m + b) else TreeEnd(t, 2 * m + b)
  {
  }

  /** The nodes that tell the kinds of match apart. */
  lemma HeadSteps(x: Ctx, b: bit)
    ensures NodeOk(AskIsRep) && NodeOk(AskRepG0) && NodeOk(AskRep0Long) && NodeOk(AskRepG1) && NodeOk(AskRepG2)
    ensures Index(CellOf(x, AskIsRep)) == IS_REP + x.state
    ensures Index(CellOf(x, AskRepG0)) == IS_REP_G0 + x.state
    ensures Index(CellOf(x, AskRep0Long)) == IS_REP0_LONG + 16 * x.posState + x.state
    ensures Index(CellOf(x, AskRepG1)) == IS_REP_G1 + x.state
    ensures Index(CellOf(x, AskRepG2)) == IS_REP_G2 + x.state
    ensures Next(x, AskIsRep, b) == if b == 0 then AskLenChoice(Fresh) else AskRepG0
    ensures Next(x, AskRepG0, b) == if b == 0 then AskRep0Long else AskRepG1
    ensures Next(x, AskRep0Long, b) == if b == 0 then Done(ShortRep) else AskLenChoice(Again(0))
    ensures Next(x, AskRepG1, b) == if b == 0 then AskLenChoice(Again(1)) else AskRepG2
    ensures Next(x, AskRepG2, b) == AskLenChoice(Again(2 + b))
  {
  }

  /** The nodes in front of a length's trees. */
  lemma LenSteps(x: Ctx, u: LenUse, b: bit)
    requires UseOk(u)
    ensures NodeOk(AskLenChoice(u)) && Index(CellOf(x, AskLenChoice(u))) == LenBase(u.Again?) + LEN_CHOICE
    ensures Next(x, AskLenChoice(u), b) == if b == 0 then TreeNode(LowTree(u), 1) else AskLenChoice2(u)
    ensures NodeOk(AskLenChoice2(u)) && Index(CellOf(x, AskLenChoice2(u))) == LenBase(u.Again?) + LEN_CHOICE2
    ensures Next(x, AskLenChoice2(u), b) == TreeNode(if b == 0 then MidTree(u) else HighTree(u), 1)
  {
  }

  class RangeDecoder {
    var range: int
    var code: int
    var buf: nat
    const probs: array<int>

    constructor (numProbs: nat)
      ensures probs.Length == numProbs && fresh(probs)
    {
      range, code, buf := 0, 0, 0;
      probs := new int[numProbs];
    }

    ghost function Coder(): Coder
      reads this
    {
      LzmaCoder.Coder(range, code, buf)
    }

    /** What is left of the walk that has come to `n`. */
    ghost function Rest(x: Ctx, n: Node, inp: seq<byte>): Res
      requires NodeOk(n) && Fits(x, probs[..])
      reads this, probs
    {
      Walk(x, n, Coder(), probs[..], inp, true)
    }

    /** The decoder stands at `n` and the symbol is all there. */
    ghost predicate At(x: Ctx, n: Node, inp: seq<byte>)
      reads this, probs
    {
      NodeOk(n) && Fits(x, probs[..]) && CoderOk(Coder()) && ProbsOk(probs[..]) && buf <= |inp| && Rest(x, n, inp).Hit?
    }

    method Normalize(inp: seq<byte>)
      requires CoderOk(Coder()) && Pull(Coder(), inp).Some?
      modifies this
      ensures Pull(old(Coder()), inp) == Some(Coder())
    {
      if range < TOP {
        range := range * 256;
        code := (code * 256 + inp[buf]) % U32;
        buf := buf + 1;
      }
    }

    lemma Unfold(x: Ctx, n: Node, inp: seq<byte>)
      requires At(x, n, inp) && !n.Done?
      ensures Pull(Coder(), inp).Some? && Settled(Pull(Coder(), inp).value) && Pull(Coder(), inp).value.pos <= |inp|
      ensures var c := Pull(Coder(), inp).value;
              var (b, c') := ReadBit(x, n, c, probs[..]);
              NodeOk(Next(x, n, b)) && CoderOk(c') && c'.pos == c.pos && ProbsOk(Learn(x, n, probs[..], b))
              && Walk(x, Next(x, n, b), c', Learn(x, n, probs[..], b), inp, true) == Rest(x, n, inp)
    {
      PullSettles(Coder(), inp);
      var c := Pull(Coder(), inp).value;
      NextOk(x, n, ReadBit(x, n, c, probs[..]).0);
      ReadBitOk(x, n, c, probs[..]);
    }

    /** One adaptive bit (IF_BIT_0, UPDATE_0, UPDATE_1). */
    method DecodeBit(ghost x: Ctx, ghost n: Node, inp: seq<byte>, i: nat) returns (b: bit)
      requires At(x, n, inp) && !n.Done? && !n.AskDirect? && i == Index(CellOf(x, n))
      modifies this, probs
      ensures NodeOk(Next(x, n, b)) && At(x, Next(x, n, b), inp)
      ensures Rest(x, Next(x, n, b), inp) == old(Rest(x, n, inp))
    {
      hide Walk;
      Unfold(x, n, inp);
      AskedCellFits(x, n, probs[..]);
      ghost var p := probs[..];
      var ttt := probs[i];
      Normalize(inp);
      var bound := (range / BIT_MODEL_TOTAL) * ttt;
      if code < bound {
        range := bound;
        probs[i] := ttt + (BIT_MODEL_TOTAL - ttt) / 32;
        b := 0;
      } else {
        range, code := range - bound, code - bound;
        probs[i] := ttt - ttt / 32;
        b := 1;
      }
      assert probs[..] == Learn(x, n, p, b);
    }

    /** TREE_DECODE, without the final subtraction of the limit. */
    method DecodeTree(ghost x: Ctx, ghost t: Tree, inp: seq<byte>, base: nat, limit: nat) returns (i: nat)
      requires TreeOk(t) && base == TreeBase(x, t) && limit == TreeLimit(t) && At(x, TreeNode(t, 1), inp)
      modifies this, probs
      ensures limit <= i < 2 * limit && At(x, TreeEnd(t, i), inp)
      ensures Rest(x, TreeEnd(t, i), inp) == old(Rest(x, TreeNode(t, 1), inp))
    {
      hide Walk, Next, CellOf, Index, NodeOk, Fits, CoderOk, ProbsOk, TreeNode, TreeEnd, TreeBase;
      i := 1;
      ghost var n := TreeNode(t, 1);
      while i < limit
        invariant 1 <= i < 2 * limit
        invariant n == if i < limit then TreeNode(t, i) else TreeEnd(t, i)
        invariant At(x, n, inp) && Rest(x, n, inp) == old(Rest(x, TreeNode(t, 1), inp))
      {
        TreeStep(x, t, i, 0);
        var b := DecodeBit(x, n, inp, base + i);
        TreeStep(x, t, i, b);
        n := Next(x, n, b);
        i := 2 * i + b;
      }
    }

    /** The literal that follows a match: `offs` stays 0x100 while every bit equals the match byte's. */
    method DecodeMatchedLiteral(ghost x: Ctx, inp: seq<byte>, base: nat, match0: byte) returns (symbol: nat)
      requires base == LITERAL + LIT_SIZE * x.litState && At(x, AskMatchedLit(1, match0), inp)
      modifies this, probs
      ensures 0x100 <= symbol < 0x200 && At(x, Done(Literal(symbol - 0x100)), inp)
      ensures Rest(x, Done(Literal(symbol - 0x100)), inp) == old(Rest(x, AskMatchedLit(1, match0), inp))
    {
      hide Walk, Next, CellOf, Index, NodeOk, Fits, CoderOk, ProbsOk, And, Xor;
      symbol := 1;
      var matchByte: nat, offs: nat := match0, 0x100;
      ghost var n := AskMatchedLit(1, match0);
      while symbol < 0x100
        invariant 1 <= symbol < 0x200 && (offs == 0 || offs == 0x100)
        invariant n == MatchedNode(symbol, offs, matchByte)
        invariant At(x, n, inp) && Rest(x, n, inp) == old(Rest(x, AskMatchedLit(1, match0), inp))
      {
        MatchedStep(x, symbol, offs, matchByte, 0);
        matchByte := matchByte + matchByte;
        var held := offs;
        offs := And(matchByte, offs);
        var b := DecodeBit(x, n, inp, base + offs + held + symbol);
        MatchedStep(x, symbol, held, matchByte / 2, b);
        n := Next(x, n, b);
        if b == 0 { offs := Xor(offs, held); }
        symbol := 2 * symbol + b;
      }
    }

    /** The length of a match or a repeated match; `posState` is already shifted into its block of 16 cells. */
    method DecodeLen(ghost x: Ctx, ghost u: LenUse, inp: seq<byte>, coder: nat, posState: nat) returns (len: nat)
      requires UseOk(u) && coder == LenBase(u.Again?) && posState == 16 * x.posState && At(x, AskLenChoice(u), inp)
      modifies this, probs
      ensures len < 272 && At(x, AfterLen(u, len), inp)
      ensures Rest(x, AfterLen(u, len), inp) == old(Rest(x, AskLenChoice(u), inp))
    {
      hide Walk, Next, CellOf, Index, NodeOk, Fits, At, Rest, TreeNode;
      LenSteps(x, u, 0);
      LenSteps(x, u, 1);
      var b := DecodeBit(x, AskLenChoice(u), inp, coder + LEN_CHOICE);
      if b == 0 {
        var i := DecodeTree(x, LowTree(u), inp, coder + LEN_LOW + posState, 8);
        return i - 8;
      }
      b := DecodeBit(x, AskLenChoice2(u), inp, coder + LEN_CHOICE2);
      if b == 0 {
        var i := DecodeTree(x, MidTree(u), inp, coder + LEN_LOW + posState + 8, 8);
        return i;
      }
      var i := DecodeTree(x, HighTree(u), inp, coder + LEN_HIGH, 0x100);
      return i - 240;
    }

    /** The low bits of a distance below 128, least significant first, each with its own probability. */
    method DecodeReverse(ghost x: Ctx, inp: seq<byte>, len: nat, slot: nat) returns (distance: nat)
      requires 4 <= slot < 14 && len < 272 && At(x, AskSpec(len, slot, 0, 0), inp)
      modifies this, probs
      ensures SymbolOk(Match(len, distance)) && At(x, Done(Match(len, distance)), inp)
      ensures Rest(x, Done(Match(len, distance)), inp) == old(Rest(x, AskSpec(len, slot, 0, 0), inp))
    {
      hide Walk, Next, CellOf, Index, NodeOk, Fits, CoderOk, ProbsOk, Pow2, SpecBase, SpecNode, ExtraBits;
      SpecEnds(len, slot, 0);
      var numDirectBits := slot / 2 - 1;
      distance := (2 + slot % 2) * Pow2(numDirectBits);
      var m := 1;
      distance := distance + 1;
      ghost var n, k := AskSpec(len, slot, 0, 0), 0;
      while numDirectBits > 0
        invariant 0 <= numDirectBits && k + numDirectBits == ExtraBits(slot) && m == Pow2(k)
        invariant distance >= SpecBase(slot) + m
        invariant n == SpecNode(len, slot, k, distance - SpecBase(slot) - m)
        invariant At(x, n, inp) && Rest(x, n, inp) == old(Rest(x, AskSpec(len, slot, 0, 0), inp))
      {
        ghost var rev := distance - SpecBase(slot) - m;
        SpecStep(x, len, slot, k, rev, 0);
        var b := DecodeBit(x, n, inp, SPEC_POS + distance);
        SpecStep(x, len, slot, k, rev, b);
        n := Next(x, n, b);
        if b == 0 {
          distance := distance + m;
          m := m + m;
        } else {
          m := m + m;
          distance := distance + m;
        }
        k := k + 1;
        numDirectBits := numDirectBits - 1;
      }
      distance := distance - m;
      SpecEnds(len, slot, distance - SpecBase(slot));
      DoneOk(x, Match(len, distance), inp);
    }

    lemma AtFacts(x: Ctx, n: Node, inp: seq<byte>)
      requires At(x, n, inp)
      ensures NodeOk(n) && Fits(x, probs[..]) && Rest(x, n, inp).Hit?
    {
    }

    lemma LiteralRest(x: Ctx, n: Node, inp: seq<byte>)
      requires At(x, n, inp) && (n.AskLit? || n.AskMatchedLit?)
      ensures Rest(x, n, inp).symbol.Literal?
    {
      LiteralWalk(x, n, Coder(), probs[..], inp, true);
    }

    /** At the end of a walk the decoder is what the walk said. */
    lemma AtDone(x: Ctx, s: Symbol, inp: seq<byte>)
      requires At(x, Done(s), inp)
      ensures Rest(x, Done(s), inp) == Hit(s, Coder(), probs[..])
    {
    }

    lemma DoneOk(x: Ctx, s: Symbol, inp: seq<byte>)
      requires At(x, Done(s), inp)
      ensures SymbolOk(s)
    {
    }

    /** The middle bits of a long distance: equiprobable, most significant first. */
    method DecodeDirectBits(ghost x: Ctx, inp: seq<byte>, len: nat, slot: nat) returns (distance: nat)
      requires 14 <= slot < 64 && len < 272 && At(x, AskDirect(len, slot, 0, 2 + slot % 2), inp)
      modifies this
      ensures At(x, AskAlign(len, distance, 0, 0), inp)
      ensures Rest(x, AskAlign(len, distance, 0, 0), inp) == old(Rest(x, AskDirect(len, slot, 0, 2 + slot % 2), inp))
    {
      hide Walk, NodeOk, Fits, CoderOk, ProbsOk;
      var numDirectBits := slot / 2 - 1 - 4;
      distance := 2 + slot % 2;
      ghost var n, k := AskDirect(len, slot, 0, distance), 0;
      while numDirectBits > 0
        invariant 0 <= numDirectBits && k + numDirectBits == ExtraBits(slot) - 4
        invariant n == if numDirectBits > 0 then AskDirect(len, slot, k, distance) else AskAlign(len, distance, 0, 0)
        invariant At(x, n, inp) && Rest(x, n, inp) == old(Rest(x, AskDirect(len, slot, 0, 2 + slot % 2), inp))
      {
        distance := DirectBitInPlace(x, n, inp, distance);
        n := Next(x, n, distance % 2);
        k := k + 1;
        numDirectBits := numDirectBits - 1;
      }
    }

    /** One direct bit without a branch: the sign of the difference becomes a mask that undoes the subtraction. */
    method DirectBitInPlace(ghost x: Ctx, ghost n: Node, inp: seq<byte>, distance: nat) returns (r: nat)
      requires At(x, n, inp) && n.AskDirect?
      modifies this
      ensures 2 * distance <= r < 2 * distance + 2
      ensures NodeOk(Next(x, n, r % 2)) && At(x, Next(x, n, r % 2), inp)
      ensures Rest(x, Next(x, n, r % 2), inp) == old(Rest(x, n, inp))
    {
      hide Walk, DirectBit;
      Unfold(x, n, inp);
      Normalize(inp);
      SignMask(Coder());
      range := range / 2;
      code := (code - range) % U32;
      var t := if code / 0x8000_0000 == 1 then U32 - 1 else 0;
      r := distance * 2 + (t + 1) % U32;
      code := (code + (if t == 0 then 0 else range)) % U32;
    }

    /** One of the four lowest bits of a long distance (REV_BIT_CONST, REV_BIT_LAST); `i` indexes the reverse tree. */
    method AlignBit(ghost x: Ctx, inp: seq<byte>, ghost len: nat, ghost high: nat, ghost k: nat, i: nat)
        returns (b: bit)
      requires k < 4 && i >= Bit(k) && At(x, AskAlign(len, high, k, i - Bit(k)), inp)
      modifies this, probs
      ensures var n := AfterAlignBit(len, high, k, i - Bit(k), b);
              At(x, n, inp) && Rest(x, n, inp) == old(Rest(x, AskAlign(len, high, k, i - Bit(k)), inp))
    {
      hide Walk, Next, CellOf, Index, NodeOk, Fits, CoderOk, ProbsOk, At, Rest;
      ghost var n := AskAlign(len, high, k, i - Bit(k));
      AtFacts(x, n, inp);
      AlignStep(x, len, high, k, i - Bit(k), 0);
      b := DecodeBit(x, n, inp, ALIGN + i);
      AlignStep(x, len, high, k, i - Bit(k), b);
    }

    /** The four lowest bits of a long distance. */
    method DecodeAlign(ghost x: Ctx, inp: seq<byte>, len: nat, high: nat) returns (distance: nat)
      requires At(x, AskAlign(len, high, 0, 0), inp)
      modifies this, probs
      ensures SymbolOk(Match(len, distance)) && At(x, Done(Match(len, distance)), inp)
      ensures Rest(x, Done(Match(len, distance)), inp) == old(Rest(x, AskAlign(len, high, 0, 0), inp))
    {
      hide Walk, NodeOk, Fits, At, Rest;
      var i := 1;
      var b := AlignBit(x, inp, len, high, 0, i);
      i := if b == 0 then i + 1 else i + 2;
      b := AlignBit(x, inp, len, high, 1, i);
      i := if b == 0 then i + 2 else i + 4;
      b := AlignBit(x, inp, len, high, 2, i);
      i := if b == 0 then i + 4 else i + 8;
      b := AlignBit(x, inp, len, high, 3, i);
      i := if b == 0 then i - 8 else i;
      distance := high * 16 + i;
      DoneOk(x, Match(len, distance), inp);
    }

    /** The distance of a simple match. */
    method DecodeDistance(ghost x: Ctx, inp: seq<byte>, len: nat) returns (distance: nat)
      requires len < 272 && At(x, AskSlot(len, 1), inp)
      modifies this, probs
      ensures SymbolOk(Match(len, distance)) && At(x, Done(Match(len, distance)), inp)
      ensures Rest(x, Done(Match(len, distance)), inp) == old(Rest(x, AskSlot(len, 1), inp))
    {
      hide Walk, NodeOk, Fits, CoderOk, ProbsOk;
      var lenState := if len < 4 then len else 3;
      var i := DecodeTree(x, SlotTree(len), inp, POS_SLOT + 64 * lenState, 64);
      var posSlot := i - 64;
      if posSlot < 4 {
        distance := posSlot;
        DoneOk(x, Match(len, distance), inp);
      } else if posSlot < 14 {
        distance := DecodeReverse(x, inp, len, posSlot);
      } else {
        var high := DecodeDirectBits(x, inp, len, posSlot);
        distance := DecodeAlign(x, inp, len, high);
      }
    }
  }

  /** The sign bit of the difference, spread to a mask, undoes the subtraction exactly when it went too far. */
  lemma SignMask(c: Coder)
    requires CoderOk(c)
    ensures var range := c.range / 2;
            var code := (c.code - range) % U32;
            var t := if code / 0x8000_0000 == 1 then U32 - 1 else 0;
            DirectBit(c) == ((t + 1) % U32, c.(range := range, code := (code + (if t == 0 then 0 else range)) % U32))
  {
    var range := c.range / 2;
    if c.code >= range {
      assert (c.code - range) % U32 == c.code - range;
    } else {
      assert (c.code - range) % U32 == c.code - range + U32;
    }
  }

  ghost function MatchedNode(symbol: nat, offs: nat, matchByte: nat): Node
    requires 1 <= symbol < 0x200
  {
    if symbol >= 0x100 then Done(Literal(symbol - 0x100))
    else if offs == 0x100 then AskMatchedLit(symbol, matchByte % 256)
    else AskLit(symbol)
  }

  /** The offs trick follows the specification: bit 8 of the doubled match byte is the bit to be matched. */
  lemma MatchedStep(x: Ctx, symbol: nat, offs: nat, matchByte: nat, b: bit)
    requires 1 <= symbol < 0x100 && (offs == 0 || offs == 0x100)
    ensures var n := MatchedNode(symbol, offs, matchByte);
            var offs' := And(2 * matchByte, offs);
            NodeOk(n) && !n.Done? && !n.AskDirect?
            && Index(CellOf(x, n)) == LITERAL + LIT_SIZE * x.litState + (offs' + offs + symbol)
            && (if b == 0 then Xor(offs', offs) == 0 || Xor(offs', offs) == 0x100 else offs' == 0 || offs' == 0x100)
            && Next(x, n, b) == MatchedNode(2 * symbol + b, if b == 0 then Xor(offs', offs) else offs', 2 * matchByte)
  {
    hide And, Xor;
    var y := 2 * matchByte;
    AndBit8(y);
    XorSame(offs);
    XorZero(offs);
    if offs == 0x100 { MatchedBits(matchByte); }
  }

  lemma MatchedBits(matchByte: nat)
    ensures (matchByte % 256 / 128) % 2 == (2 * matchByte / 256) % 2
    ensures (2 * (matchByte % 256)) % 256 == (2 * matchByte) % 256
  {
    var q, r := matchByte / 256, matchByte % 256;
    assert 2 * matchByte == 512 * q + 2 * r;
    assert 2 * matchByte / 256 == 2 * q + 2 * r / 256;
  }

  lemma AndBit8(y: nat)
    ensures And(y, 0x100) == 0x100 * ((y / 256) % 2)
    ensures And(y, 0) == 0
  {
    hide And, Pow2;
    Pow2Of8And9();
    AndMask(y, 8, 9);
    AndNothing(y);
    Mod512(y);
  }

  lemma Mod512(y: nat)
    ensures y % 512 == 256 * ((y / 256) % 2) + y % 256
  {
    var q, r := y / 256, y % 256;
    assert y == 512 * (q / 2) + (256 * (q % 2) + r);
    ModUnique(y, 512, q / 2, 256 * (q % 2) + r);
  }

  lemma Pow2Of8And9()
    ensures Pow2(8) == 256 && Pow2(9) == 512
  {
    Pow2Values(4);
    Pow2Add(4, 4);
  }

  lemma XorSame(a: nat)
    ensures Xor(a, a) == 0
  {
    if a == 0 {
    } else {
      XorSame(a / 2);
      assert (a + a) % 2 == 0;
    }
  }

  lemma XorZero(a: nat)
    ensures Xor(0, a) == a && Xor(a, 0) == a
  {
    if a == 0 {
    } else {
      XorZero(a / 2);
    }
  }

  ghost function SpecNode(len: nat, slot: nat, k: nat, rev: nat): Node
    requires slot >= 4
  {
    if k < ExtraBits(slot) then AskSpec(len, slot, k, rev) else Done(Match(len, SpecBase(slot) + rev))
  }

  /** Where a reverse tree starts and ends. */
  lemma SpecEnds(len: nat, slot: nat, rev: nat)
    requires 4 <= slot < 14
    ensures SpecNode(len, slot, 0, 0) == AskSpec(len, slot, 0, 0) && Pow2(0) == 1
    ensures SpecNode(len, slot, ExtraBits(slot), rev) == Done(Match(len, SpecBase(slot) + rev))
    ensures ExtraBits(slot) == slot / 2 - 1 && SpecBase(slot) == (2 + slot % 2) * Pow2(slot / 2 - 1)
  {
  }

  /** Reading a reverse tree with one running index equals keeping the bits and the tree position apart. */
  lemma SpecStep(x: Ctx, len: nat, slot: nat, k: nat, rev: nat, b: bit)
    requires 4 <= slot < 14 && k < ExtraBits(slot)
    ensures !SpecNode(len, slot, k, rev).Done? && !SpecNode(len, slot, k, rev).AskDirect?
    ensures NodeOk(SpecNode(len, slot, k, rev)) ==>
              Index(CellOf(x, SpecNode(len, slot, k, rev))) == SPEC_POS + (SpecBase(slot) + Pow2(k) + rev)
              && Next(x, SpecNode(len, slot, k, rev), b) ==
                   SpecNode(len, slot, k + 1, rev + if b == 0 then 0 else Pow2(k))
    ensures Pow2(k + 1) == 2 * Pow2(k)
  {
  }

  function Bit(k: nat): nat { if k == 0 then 1 else if k == 1 then 2 else if k == 2 then 4 else 8 }

  ghost function AfterAlignBit(len: nat, high: nat, k: nat, rev: nat, b: bit): Node {
    if k < 3 then AskAlign(len, high, k + 1, rev + b * Bit(k)) else Done(Match(len, 16 * high + rev + 8 * b))
  }

  lemma AlignStep(x: Ctx, len: nat, high: nat, k: nat, rev: nat, b: bit)
    requires k < 4
    ensures NodeOk(AskAlign(len, high, k, rev)) ==>
              Index(CellOf(x, AskAlign(len, high, k, rev))) == ALIGN + (Bit(k) + rev)
              && Next(x, AskAlign(len, high, k, rev), b) == AfterAlignBit(len, high, k, rev, b)
  {
    Pow2Values(k);
  }
}
