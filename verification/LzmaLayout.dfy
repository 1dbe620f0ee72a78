/**
 The probability cells of an LZMA decoder, named as the LZMA specification names them, and the hand-packed
 flat array in which the decoder keeps them (LzmaDec.c, the k* and layout macros).
 */
module LzmaLayout {
  import opened Bits

  const NUM_STATES := 12
  const NUM_LIT_STATES := 7
  const SPEC_POS := 0
  const IS_REP0_LONG := 128
  const REP_LEN_CODER := 384
  const LEN_CODER := 896
  const IS_MATCH := 1408
  const ALIGN := 1664
  const IS_REP := 1680
  const IS_REP_G0 := 1692
  const IS_REP_G1 := 1704
  const IS_REP_G2 := 1716
  const POS_SLOT := 1728
  const LITERAL := 1984
  const LIT_SIZE := 0x300
  const LEN_LOW := 0
  const LEN_CHOICE := 0
  const LEN_CHOICE2 := 8
  const LEN_HIGH := 256

  /** One adaptive probability. Tree cells carry the node index `m`; a tree's root is node 1. */
  datatype Cell =
    | IsMatch(posState: nat, state: nat)
    | IsRep(state: nat)
    | IsRepG0(state: nat)
    | IsRep0Long(posState: nat, state: nat)
    | IsRepG1(state: nat)
    | IsRepG2(state: nat)
    | LenChoice(rep: bool)
    | LenChoice2(rep: bool)
    | LenLow(rep: bool, posState: nat, m: nat)
    | LenMid(rep: bool, posState: nat, m: nat)
    | LenHigh(rep: bool, m: nat)
    | PosSlot(lenState: nat, m: nat)
    | SpecPos(m: nat)
    | Align(m: nat)
    | Lit(litState: nat, sub: nat, m: nat)

  predicate CellOk(c: Cell) {
    match c
    case IsMatch(ps, st) => ps < 16 && st < NUM_STATES
    case IsRep(st) => st < NUM_STATES
    case IsRepG0(st) => st < NUM_STATES
    case IsRep0Long(ps, st) => ps < 16 && st < NUM_STATES
    case IsRepG1(st) => st < NUM_STATES
    case IsRepG2(st) => st < NUM_STATES
    case LenChoice(_) => true
    case LenChoice2(_) => true
    case LenLow(_, ps, m) => ps < 16 && 1 <= m < 8
    case LenMid(_, ps, m) => ps < 16 && 1 <= m < 8
    case LenHigh(_, m) => 1 <= m < 256
    case PosSlot(ls, m) => ls < 4 && 1 <= m < 64
    case SpecPos(m) => 1 <= m < 128
    case Align(m) => 1 <= m < 16
    case Lit(_, sub, m) => sub < 3 && 1 <= m < 256
  }

  function LenBase(rep: bool): nat { if rep then REP_LEN_CODER else LEN_CODER }

  /** Where the decoder keeps a cell; the position in probs_1664 plus 1664. */
  function Index(c: Cell): nat {
    match c
    case IsMatch(ps, st) => IS_MATCH + 16 * ps + st
    case IsRep(st) => IS_REP + st
    case IsRepG0(st) => IS_REP_G0 + st
    case IsRep0Long(ps, st) => IS_REP0_LONG + 16 * ps + st
    case IsRepG1(st) => IS_REP_G1 + st
    case IsRepG2(st) => IS_REP_G2 + st
    case LenChoice(rep) => LenBase(rep) + LEN_CHOICE
    case LenChoice2(rep) => LenBase(rep) + LEN_CHOICE2
    case LenLow(rep, ps, m) => LenBase(rep) + LEN_LOW + 16 * ps + m
    case LenMid(rep, ps, m) => LenBase(rep) + LEN_LOW + 16 * ps + 8 + m
    case LenHigh(rep, m) => LenBase(rep) + LEN_HIGH + m
    case PosSlot(ls, m) => POS_SLOT + 64 * ls + m
    case SpecPos(m) => SPEC_POS + m
    case Align(m) => ALIGN + m
    case Lit(ls, sub, m) => LITERAL + LIT_SIZE * ls + 0x100 * sub + m
  }

  function NumProbs(lc: nat, lp: nat): nat { LITERAL + LIT_SIZE * Pow2(lc + lp) }

  /** The cell kept at an offset of a length coder: a choice bit, or a node of a low, mid or high tree. */
  function UnpackLen(rep: bool, o: nat): Cell {
    if o == LEN_CHOICE then LenChoice(rep)
    else if o == LEN_CHOICE2 then LenChoice2(rep)
    else if o >= LEN_HIGH then LenHigh(rep, o - LEN_HIGH)
    else if o % 16 < 8 then LenLow(rep, o / 16, o % 16)
    else LenMid(rep, o / 16, o % 16 - 8)
  }

  /** The cell kept at a flat position. */
  function Unpack(i: nat): Cell {
    if i < IS_REP0_LONG then SpecPos(i - SPEC_POS)
    else if i < REP_LEN_CODER then IsRep0Long((i - IS_REP0_LONG) / 16, (i - IS_REP0_LONG) % 16)
    else if i < LEN_CODER then UnpackLen(true, i - REP_LEN_CODER)
    else if i < IS_MATCH then UnpackLen(false, i - LEN_CODER)
    else if i < ALIGN then IsMatch((i - IS_MATCH) / 16, (i - IS_MATCH) % 16)
    else if i < IS_REP then Align(i - ALIGN)
    else if i < IS_REP_G0 then IsRep(i - IS_REP)
    else if i < IS_REP_G1 then IsRepG0(i - IS_REP_G0)
    else if i < IS_REP_G2 then IsRepG1(i - IS_REP_G1)
    else if i < POS_SLOT then IsRepG2(i - IS_REP_G2)
    else if i < LITERAL then PosSlot((i - POS_SLOT) / 64, (i - POS_SLOT) % 64)
    else
      var o := i - LITERAL;
      Lit(o / LIT_SIZE, (o % LIT_SIZE) / 0x100, o % 0x100)
  }

  lemma SplitBy(o: nat, k: nat, q: nat, r: nat)
    requires r < k && o == k * q + r
    ensures o / k == q && o % k == r
  {
    ModUnique(o, k, q, r);
  }

  lemma UnpackLenIndex(c: Cell)
    requires CellOk(c) && (c.LenChoice? || c.LenChoice2? || c.LenLow? || c.LenMid? || c.LenHigh?)
    ensures Index(c) >= LenBase(c.rep) && Index(c) - LenBase(c.rep) < 512
    ensures UnpackLen(c.rep, Index(c) - LenBase(c.rep)) == c
  {
    if c.LenLow? {
      SplitBy(Index(c) - LenBase(c.rep), 16, c.posState, c.m);
    } else if c.LenMid? {
      SplitBy(Index(c) - LenBase(c.rep), 16, c.posState, 8 + c.m);
    }
  }

  lemma UnpackLitIndex(c: Cell)
    requires CellOk(c) && c.Lit?
    ensures Unpack(Index(c)) == c
  {
    var o := Index(c) - LITERAL;
    SplitBy(o, LIT_SIZE, c.litState, 0x100 * c.sub + c.m);
    SplitBy(o % LIT_SIZE, 0x100, c.sub, c.m);
    SplitBy(o, 0x100, 3 * c.litState + c.sub, c.m);
  }

  lemma UnpackIndex(c: Cell)
    requires CellOk(c)
    ensures Unpack(Index(c)) == c
  {
    if c.LenChoice? || c.LenChoice2? || c.LenLow? || c.LenMid? || c.LenHigh? {
      UnpackLenIndex(c);
    } else if c.Lit? {
      UnpackLitIndex(c);
    } else if c.IsMatch? || c.IsRep0Long? {
      SplitBy(16 * c.posState + c.state, 16, c.posState, c.state);
    } else if c.PosSlot? {
      SplitBy(64 * c.lenState + c.m, 64, c.lenState, c.m);
    }
  }

  /** The flat array never holds two cells in one place, although the choice bits sit inside the length trees. */
  lemma PackingIsInjective(c: Cell, d: Cell)
    requires CellOk(c) && CellOk(d) && Index(c) == Index(d)
    ensures c == d
  {
    UnpackIndex(c);
    UnpackIndex(d);
  }

  /** Every cell of a decoder with these properties lies inside its probability array. */
  lemma PackingFits(c: Cell, lc: nat, lp: nat)
    requires CellOk(c)
    requires c.Lit? ==> c.litState < Pow2(lc + lp)
    ensures Index(c) < NumProbs(lc, lp)
  {
    assert Index(c) < LITERAL || c.Lit?;
  }
}
