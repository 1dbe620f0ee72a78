/**
 The look-ahead's bit macros (the ones ending in _CHECK): the same bits, read from copies of `range` and `code`,
 with probabilities left alone and an answer "input ends here" before a byte that is not there.
 */
module LzmaDummy {
  import opened Bits
  import opened LzmaLayout
  import opened LzmaCoder
  import opened LzmaWalk
  import opened LzmaRange

  /** The walk at `n` that reads `probs` without changing them. */
  ghost function Peek(x: Ctx, n: Node, c: Coder, probs: array<int>, inp: seq<byte>): Res
    requires NodeOk(n) && Fits(x, probs[..])
    reads probs
  {
    Walk(x, n, c, probs[..], inp, false)
  }

  ghost predicate Here(x: Ctx, n: Node, probs: array<int>)
    reads probs
  {
    NodeOk(n) && Fits(x, probs[..])
  }

  /** NORMALIZE_CHECK */
  method NormalizeCheck(c: Coder, inp: seq<byte>) returns (eof: bool, r: Coder)
    ensures Pull(c, inp) == if eof then None else Some(r)
  {
    eof, r := false, c;
    if c.range < TOP {
      if c.pos >= |inp| { return true, c; }
      r := Coder.Coder(c.range * 256, (c.code * 256 + inp[c.pos]) % U32, c.pos + 1);
    }
  }

  lemma PeekUnfold(x: Ctx, n: Node, c: Coder, probs: array<int>, inp: seq<byte>)
    requires Here(x, n, probs) && !n.Done?
    ensures Pull(c, inp).None? ==> Peek(x, n, c, probs, inp).Eof?
    ensures Pull(c, inp).Some? ==>
              var (b, r) := ReadBit(x, n, Pull(c, inp).value, probs[..]);
              NodeOk(Next(x, n, b)) && Peek(x, n, c, probs, inp) == Peek(x, Next(x, n, b), r, probs, inp)
  {
    if Pull(c, inp).Some? { NextOk(x, n, ReadBit(x, n, Pull(c, inp).value, probs[..]).0); }
  }

  lemma PeekDone(x: Ctx, s: Symbol, c: Coder, probs: array<int>, inp: seq<byte>)
    requires Here(x, Done(s), probs)
    ensures SymbolOk(s) && Peek(x, Done(s), c, probs, inp) == Hit(s, c, probs[..])
  {
  }

  /** IF_BIT_0_CHECK, UPDATE_0_CHECK, UPDATE_1_CHECK */
  method BitCheck(ghost x: Ctx, ghost n: Node, c: Coder, probs: array<int>, inp: seq<byte>, i: nat)
      returns (eof: bool, b: bit, r: Coder)
    requires Here(x, n, probs) && !n.Done? && !n.AskDirect? && i == Index(CellOf(x, n))
    ensures eof ==> Peek(x, n, c, probs, inp).Eof?
    ensures !eof ==> Here(x, Next(x, n, b), probs)
                     && Peek(x, Next(x, n, b), r, probs, inp) == Peek(x, n, c, probs, inp)
  {
    hide Walk, Next, CellOf, Index, NodeOk, Fits;
    AskedCellFits(x, n, probs[..]);
    PeekUnfold(x, n, c, probs, inp);
    hide Peek;
    var ttt := probs[i];
    b := 0;
    eof, r := NormalizeCheck(c, inp);
    if eof { return; }
    var bound := (r.range / BIT_MODEL_TOTAL) * ttt;
    if r.code < bound {
      r := r.(range := bound);
    } else {
      r, b := r.(range := r.range - bound, code := r.code - bound), 1;
    }
  }

  /** TREE_DECODE_CHECK, without the final subtraction of the limit. */
  method TreeCheck(ghost x: Ctx, ghost t: Tree, c: Coder, probs: array<int>, inp: seq<byte>, base: nat, limit: nat)
      returns (eof: bool, i: nat, r: Coder)
    requires TreeOk(t) && base == TreeBase(x, t) && limit == TreeLimit(t) && Here(x, TreeNode(t, 1), probs)
    ensures eof ==> Peek(x, TreeNode(t, 1), c, probs, inp).Eof?
    ensures !eof ==> limit <= i < 2 * limit && Here(x, TreeEnd(t, i), probs)
                     && Peek(x, TreeEnd(t, i), r, probs, inp) == Peek(x, TreeNode(t, 1), c, probs, inp)
  {
    hide Walk, Next, CellOf, Index, NodeOk, Fits, TreeNode, TreeEnd, TreeBase;
    i, r, eof := 1, c, false;
    ghost var n := TreeNode(t, 1);
    while i < limit
      invariant !eof && 1 <= i < 2 * limit
      invariant n == if i < limit then TreeNode(t, i) else TreeEnd(t, i)
      invariant Here(x, n, probs) && Peek(x, n, r, probs, inp) == Peek(x, TreeNode(t, 1), c, probs, inp)
    {
      TreeStep(x, t, i, 0);
      var b;
      eof, b, r := BitCheck(x, n, r, probs, inp, base + i);
      if eof { return; }
      TreeStep(x, t, i, b);
      n := Next(x, n, b);
      i := 2 * i + b;
    }
  }

  /** The matched literal of the look-ahead; it needs no symbol, only the way to it. */
  method MatchedLiteralCheck(ghost x: Ctx, c: Coder, probs: array<int>, inp: seq<byte>, base: nat, match0: byte)
      returns (eof: bool, ghost symbol: nat, r: Coder)
    requires base == LITERAL + LIT_SIZE * x.litState && Here(x, AskMatchedLit(1, match0), probs)
    ensures eof ==> Peek(x, AskMatchedLit(1, match0), c, probs, inp).Eof?
    ensures !eof ==> 0x100 <= symbol < 0x200 && Here(x, Done(Literal(symbol - 0x100)), probs)
                     && Peek(x, Done(Literal(symbol - 0x100)), r, probs, inp)
                        == Peek(x, AskMatchedLit(1, match0), c, probs, inp)
  {
    hide Walk, Next, CellOf, Index, NodeOk, Fits, And, Xor;
    var sym: nat := 1;
    var matchByte: nat, offs: nat := match0, 0x100;
    r, eof, symbol := c, false, 0;
    ghost var n := AskMatchedLit(1, match0);
    while sym < 0x100
      invariant !eof && 1 <= sym < 0x200 && (offs == 0 || offs == 0x100)
      invariant n == MatchedNode(sym, offs, matchByte)
      invariant Here(x, n, probs) && Peek(x, n, r, probs, inp) == Peek(x, AskMatchedLit(1, match0), c, probs, inp)
    {
      MatchedStep(x, sym, offs, matchByte, 0);
      matchByte := matchByte + matchByte;
      var held := offs;
      offs := And(matchByte, offs);
      var b;
      eof, b, r := BitCheck(x, n, r, probs, inp, base + offs + held + sym);
      if eof { return; }
      MatchedStep(x, sym, held, matchByte / 2, b);
      n := Next(x, n, b);
      if b == 0 { offs := Xor(offs, held); }
      sym := 2 * sym + b;
    }
    symbol := sym;
  }

  method LenCheck(ghost x: Ctx, ghost u: LenUse, c: Coder, probs: array<int>, inp: seq<byte>, coder: nat, posState: nat)
      returns (eof: bool, len: nat, r: Coder)
    requires UseOk(u) && coder == LenBase(u.Again?) && posState == 16 * x.posState && Here(x, AskLenChoice(u), probs)
    ensures eof ==> Peek(x, AskLenChoice(u), c, probs, inp).Eof?
    ensures !eof ==> len < 272 && Here(x, AfterLen(u, len), probs)
                     && Peek(x, AfterLen(u, len), r, probs, inp) == Peek(x, AskLenChoice(u), c, probs, inp)
  {
    hide Walk, Next, CellOf, Index, NodeOk, Fits, Here, Peek, TreeNode;
    LenSteps(x, u, 0);
    LenSteps(x, u, 1);
    var b, offset: int, i;
    len := 0;
    eof, b, r := BitCheck(x, AskLenChoice(u), c, probs, inp, coder + LEN_CHOICE);
    if eof { return; }
    if b == 0 {
      offset := 0;
      eof, i, r := TreeCheck(x, LowTree(u), r, probs, inp, coder + LEN_LOW + posState, 8);
      if eof { return; }
      i := i - 8;
    } else {
      eof, b, r := BitCheck(x, AskLenChoice2(u), r, probs, inp, coder + LEN_CHOICE2);
      if eof { return; }
      if b == 0 {
        offset := 8;
        eof, i, r := TreeCheck(x, MidTree(u), r, probs, inp, coder + LEN_LOW + posState + 8, 8);
        if eof { return; }
        i := i - 8;
      } else {
        offset := 16;
        eof, i, r := TreeCheck(x, HighTree(u), r, probs, inp, coder + LEN_HIGH, 0x100);
        if eof { return; }
        i := i - 0x100;
      }
    }
    len := i + offset;
  }

  /** The bits of a distance after its slot, read least significant first from consecutive tree positions. */
  method ReverseCheck(ghost x: Ctx, ghost len: nat, ghost slot: nat, c: Coder, probs: array<int>, inp: seq<byte>,
                      base: nat, bits: nat)
      returns (eof: bool, ghost distance: nat, r: Coder)
    requires 4 <= slot < 14 && base == SPEC_POS + SpecBase(slot) && bits == ExtraBits(slot)
    requires Here(x, AskSpec(len, slot, 0, 0), probs)
    ensures eof ==> Peek(x, AskSpec(len, slot, 0, 0), c, probs, inp).Eof?
    ensures !eof ==> Here(x, Done(Match(len, distance)), probs)
                     && Peek(x, Done(Match(len, distance)), r, probs, inp) ==
                          Peek(x, AskSpec(len, slot, 0, 0), c, probs, inp)
  {
    hide Walk, Next, CellOf, Index, NodeOk, Fits, Pow2, SpecBase, SpecNode, ExtraBits;
    SpecEnds(len, slot, 0);
    var left := bits;
    var i: nat, m: nat := 1, 1;
    r, eof, distance := c, false, 0;
    ghost var n, k := AskSpec(len, slot, 0, 0), 0;
    while left > 0
      invariant !eof && k + left == ExtraBits(slot) && m == Pow2(k) && i >= m
      invariant n == SpecNode(len, slot, k, i - m)
      invariant Here(x, n, probs) && Peek(x, n, r, probs, inp) == Peek(x, AskSpec(len, slot, 0, 0), c, probs, inp)
    {
      ghost var rev := i - m;
      SpecStep(x, len, slot, k, rev, 0);
      var b;
      eof, b, r := BitCheck(x, n, r, probs, inp, base + i);
      if eof { return; }
      SpecStep(x, len, slot, k, rev, b);
      n := Next(x, n, b);
      if b == 0 {
        i := i + m;
        m := m + m;
      } else {
        m := m + m;
        i := i + m;
      }
      k, left := k + 1, left - 1;
    }
    distance := SpecBase(slot) + (i - m);
    SpecEnds(len, slot, i - m);
  }

  /** One direct bit of the look-ahead: the sign of the difference selects the subtraction. */
  method DirectCheck(ghost x: Ctx, ghost n: Node, c: Coder, probs: array<int>, inp: seq<byte>)
      returns (eof: bool, ghost b: bit, r: Coder)
    requires Here(x, n, probs) && n.AskDirect?
    ensures eof ==> Peek(x, n, c, probs, inp).Eof?
    ensures !eof ==> Here(x, Next(x, n, b), probs)
                     && Peek(x, Next(x, n, b), r, probs, inp) == Peek(x, n, c, probs, inp)
  {
    b := 0;
    eof, r := NormalizeCheck(c, inp);
    if eof { return; }
    ghost var settled := r;
    var range := r.range / 2;
    var sign := ((r.code - range) % U32) / 0x8000_0000;
    r := r.(range := range, code := if sign == 0 then (r.code - range) % U32 else r.code);
    b := DirectBit(settled).0;
    NextOk(x, n, b);
  }

  method DirectBitsCheck(ghost x: Ctx, ghost len: nat, ghost slot: nat, c: Coder, probs: array<int>, inp: seq<byte>,
                         bits: nat)
      returns (eof: bool, ghost distance: nat, r: Coder)
    requires 14 <= slot < 64 && bits == ExtraBits(slot) - 4
    requires Here(x, AskDirect(len, slot, 0, 2 + slot % 2), probs)
    ensures eof ==> Peek(x, AskDirect(len, slot, 0, 2 + slot % 2), c, probs, inp).Eof?
    ensures !eof ==> Here(x, AskAlign(len, distance, 0, 0), probs)
                     && Peek(x, AskAlign(len, distance, 0, 0), r, probs, inp)
                        == Peek(x, AskDirect(len, slot, 0, 2 + slot % 2), c, probs, inp)
  {
    hide Walk, NodeOk, Fits;
    var left := bits;
    r, eof, distance := c, false, 2 + slot % 2;
    ghost var n, k := AskDirect(len, slot, 0, distance), 0;
    while left > 0
      invariant !eof && k + left == ExtraBits(slot) - 4
      invariant n == if left > 0 then AskDirect(len, slot, k, distance) else AskAlign(len, distance, 0, 0)
      invariant Here(x, n, probs)
                && Peek(x, n, r, probs, inp) == Peek(x, AskDirect(len, slot, 0, 2 + slot % 2), c, probs, inp)
    {
      ghost var b;
      eof, b, r := DirectCheck(x, n, r, probs, inp);
      if eof { return; }
      n := Next(x, n, b);
      distance := 2 * distance + b;
      k, left := k + 1, left - 1;
    }
  }

  method AlignCheck(ghost x: Ctx, ghost len: nat, ghost high: nat, c: Coder, probs: array<int>, inp: seq<byte>)
      returns (eof: bool, ghost distance: nat, r: Coder)
    requires Here(x, AskAlign(len, high, 0, 0), probs)
    ensures eof ==> Peek(x, AskAlign(len, high, 0, 0), c, probs, inp).Eof?
    ensures !eof ==> Here(x, Done(Match(len, distance)), probs)
                     && Peek(x, Done(Match(len, distance)), r, probs, inp) ==
                          Peek(x, AskAlign(len, high, 0, 0), c, probs, inp)
  {
    hide Walk, Next, CellOf, Index, NodeOk, Fits;
    var left := 4;
    var i: nat, m: nat := 1, 1;
    r, eof, distance := c, false, 0;
    ghost var n, k := AskAlign(len, high, 0, 0), 0;
    while left > 0
      invariant !eof && k + left == 4 && m == (if k == 4 then 16 else Bit(k)) && i >= m
      invariant n == if k < 4 then AskAlign(len, high, k, i - m) else Done(Match(len, 16 * high + i - m))
      invariant Here(x, n, probs) && Peek(x, n, r, probs, inp) == Peek(x, AskAlign(len, high, 0, 0), c, probs, inp)
    {
      ghost var rev := i - m;
      AlignStep(x, len, high, k, rev, 0);
      var b;
      eof, b, r := BitCheck(x, n, r, probs, inp, ALIGN + i);
      if eof { return; }
      AlignStep(x, len, high, k, rev, b);
      n := Next(x, n, b);
      if b == 0 {
        i := i + m;
        m := m + m;
      } else {
        m := m + m;
        i := i + m;
      }
      k, left := k + 1, left - 1;
    }
    distance := 16 * high + i - m;
  }
}
