/**
 The bits of a symbol as an encoder writes them, and the walk that reads them back ("The main loop of decoder" and
 the bit trees of the LZMA specification). The encoder's side is written without the decoder's tree: numbers most
 significant bit first, reverse trees least significant bit first, and a distance by the place of its top bit.
 */
module LzmaSymbols {
  import opened Bits
  import opened LzmaLayout
  import opened LzmaCoder
  import opened LzmaWalk
  import opened LzmaRange

  // ---- the encoder's side ----

  /** The `k` low bits of a number, the most significant one first. */
  function Msb(v: nat, k: nat): (r: seq<bit>)
    ensures |r| == k
  {
    if k == 0 then [] else Msb(v / 2, k - 1) + [v % 2]
  }

  /** The `k` low bits of a number, the least significant one first. */
  function Lsb(v: nat, k: nat): (r: seq<bit>)
    ensures |r| == k
  {
    if k == 0 then [] else [v % 2] + Lsb(v / 2, k - 1)
  }

  /** The place of the top bit of a number. */
  function Top(v: nat): nat { if v < 2 then 0 else 1 + Top(v / 2) }

  lemma {:induction false} TopIs(v: nat)
    requires v > 0
    ensures Pow2(Top(v)) <= v < 2 * Pow2(Top(v))
  {
    if v < 2 {
    } else {
      TopIs(v / 2);
    }
  }

  /** The top bit lies between the powers of two the number lies between. */
  lemma TopBetween(v: nat, a: nat, b: nat)
    requires Pow2(a) <= v < Pow2(b)
    ensures a <= Top(v) < b
  {
    TopIs(v);
    if Top(v) < a { Pow2Monotone(Top(v) + 1, a); }
    if Top(v) >= b { Pow2Monotone(b, Top(v)); }
  }

  function LenBits(len: nat): seq<bit> {
    if len < 8 then [0] + Msb(len, 3)
    else if len < 16 then [1, 0] + Msb(len - 8, 3)
    else [1, 1] + Msb(len - 16, 8)
  }

  lemma Pow2Small()
    ensures Pow2(0) == 1 && Pow2(1) == 2 && Pow2(2) == 4 && Pow2(3) == 8 && Pow2(4) == 16
    ensures Pow2(5) == 32 && Pow2(6) == 64 && Pow2(7) == 128 && Pow2(8) == 256
  {
  }

  lemma LargeDist(dist: nat)
    ensures dist >= 4 ==> Top(dist) >= 2
    ensures dist >= 128 ==> Top(dist) >= 7
  {
    Pow2Small();
    if dist >= 4 {
      TopIs(dist);
      TopBetween(dist, 2, Top(dist) + 1);
      if dist >= 128 { TopBetween(dist, 7, Top(dist) + 1); }
    }
  }

  /** The top two bits of a distance and the place of the first say its slot; the bits below follow. */
  function DistBits(dist: nat): seq<bit> {
    LargeDist(dist);
    if dist < 4 then Msb(dist, 6)
    else
      var below := Top(dist) - 1;
      DistTail(dist, 2 * Top(dist) + dist / Pow2(below) % 2, below, dist % Pow2(below))
  }

  /** The slot, and the bits below: all of them reversed, or for longer distances only the last four. */
  function DistTail(dist: nat, slot: nat, below: nat, low: nat): seq<bit>
    requires below >= 4 || dist < 128
  {
    Msb(slot, 6) + if dist < 128 then Lsb(low, below) else Msb(low / 16, below - 4) + Lsb(low % 16, 4)
  }

  function BitsOf(s: Symbol): seq<bit> {
    match s
    case Literal(v) => [0] + Msb(v, 8)
    case Match(len, dist) => [1, 0] + (LenBits(len) + DistBits(dist))
    case ShortRep => [1, 1, 0, 0]
    case RepMatch(which, len) =>
      (if which == 0 then [1, 1, 0, 1]
       else if which == 1 then [1, 1, 1, 0]
       else if which == 2 then [1, 1, 1, 1, 0]
       else [1, 1, 1, 1, 1]) + LenBits(len)
  }

  // ---- the decoder's side ----

  /** The node that some bits lead to; none when a symbol is complete before they are used up. */
  function Follow(x: Ctx, n: Node, bits: seq<bit>): (r: Option<Node>)
    requires NodeOk(n)
    ensures r.Some? ==> NodeOk(r.value)
    decreases |bits|
  {
    if bits == [] then Some(n)
    else if n.Done? then None
    else
      NextOk(x, n, bits[0]);
      Follow(x, Next(x, n, bits[0]), bits[1..])
  }

  lemma {:induction false} FollowTwo(x: Ctx, n: Node, a: seq<bit>, b: seq<bit>)
    requires NodeOk(n) && Follow(x, n, a).Some?
    ensures Follow(x, n, a + b) == Follow(x, Follow(x, n, a).value, b)
    decreases |a|
  {
    hide Next, NodeOk;
    if a == [] {
      assert a + b == b;
    } else {
      NextOk(x, n, a[0]);
      assert (a + b)[1..] == a[1..] + b;
      FollowTwo(x, Next(x, n, a[0]), a[1..], b);
    }
  }

  lemma FollowOne(x: Ctx, n: Node, b: bit)
    requires NodeOk(n) && !n.Done?
    ensures NodeOk(Next(x, n, b)) && Follow(x, n, [b]) == Some(Next(x, n, b))
  {
    hide Next, NodeOk;
    NextOk(x, n, b);
    assert [b][1..] == [];
  }

  /** One bit in front. */
  lemma FollowBit(x: Ctx, n: Node, b: bit, rest: seq<bit>)
    requires NodeOk(n) && !n.Done?
    ensures NodeOk(Next(x, n, b)) && Follow(x, n, [b] + rest) == Follow(x, Next(x, n, b), rest)
  {
    hide Next, NodeOk, Follow;
    FollowOne(x, n, b);
    FollowTwo(x, n, [b], rest);
  }

  lemma MsbIs(v: nat, k: nat)
    requires k > 0
    ensures Msb(v, k) == Msb(v / 2, k - 1) + [v % 2]
  {
  }

  lemma LsbIs(v: nat, k: nat)
    requires k > 0
    ensures Lsb(v, k) == [v % 2] + Lsb(v / 2, k - 1)
  {
  }

  /** Where a forward tree stands at an index. */
  ghost function TreeAt(t: Tree, i: nat): Node
    requires TreeOk(t) && i < 2 * TreeLimit(t)
  {
    if i < TreeLimit(t) then TreeNode(t, i) else TreeEnd(t, i)
  }

  lemma TreeBit(x: Ctx, t: Tree, m: nat, bits: seq<bit>, i: nat, b: bit)
    requires TreeOk(t) && 1 <= i < TreeLimit(t) && NodeOk(TreeNode(t, m))
    requires Follow(x, TreeNode(t, m), bits) == Some(TreeNode(t, i))
    ensures Follow(x, TreeNode(t, m), bits + [b]) == Some(TreeAt(t, 2 * i + b))
  {
    TreeStep(x, t, i, b);
    hide NodeOk, Next, TreeNode, TreeEnd, CellOf, Index, Follow;
    FollowOne(x, TreeNode(t, i), b);
    FollowTwo(x, TreeNode(t, m), bits, [b]);
  }

  /** Where `k` bits of a forward tree lead: to the index `i`. */
  lemma {:induction false} TreeFollow(x: Ctx, t: Tree, m: nat, v: nat, k: nat, i: nat)
    requires TreeOk(t) && 1 <= m < TreeLimit(t) && v < Pow2(k) && i == m * Pow2(k) + v < 2 * TreeLimit(t)
    ensures NodeOk(TreeNode(t, m)) && Follow(x, TreeNode(t, m), Msb(v, k)) == Some(TreeAt(t, i))
    decreases k
  {
    hide NodeOk, Next, TreeNode, TreeEnd, CellOf, Index, Follow, Pow2, Msb, TreeLimit, TreeAt;
    TreeStep(x, t, m, 0);
    if k == 0 {
      TreeHere(x, t, m, v);
    } else {
      Halved(m, v, k);
      MsbIs(v, k);
      FrontIndex(m, v, k);
      TreeFollow(x, t, m, v / 2, k - 1, i / 2);
      StillInside(t, i / 2);
      TreeBit(x, t, m, Msb(v / 2, k - 1), i / 2, v % 2);
    }
  }

  lemma TreeHere(x: Ctx, t: Tree, m: nat, v: nat)
    requires TreeOk(t) && 1 <= m < TreeLimit(t) && v < Pow2(0) && NodeOk(TreeNode(t, m))
    ensures m * Pow2(0) + v == m && Follow(x, TreeNode(t, m), Msb(v, 0)) == Some(TreeAt(t, m))
  {
  }

  lemma FrontIndex(m: nat, v: nat, k: nat)
    requires m > 0 && k > 0
    ensures 1 <= m * Pow2(k - 1) + v / 2
  {
    MulPositive(m, Pow2(k - 1));
  }

  lemma MulPositive(a: nat, b: nat)
    requires a > 0 && b > 0
    ensures a * b > 0
  {
  }

  lemma StillInside(t: Tree, i: nat)
    requires TreeOk(t) && i < TreeLimit(t)
    ensures TreeAt(t, i) == TreeNode(t, i)
  {
  }

  lemma Halved(m: nat, v: nat, k: nat)
    requires k > 0 && v < Pow2(k)
    ensures v / 2 < Pow2(k - 1) && m * Pow2(k) + v == 2 * (m * Pow2(k - 1) + v / 2) + v % 2
  {
    assert m * Pow2(k) == 2 * (m * Pow2(k - 1));
  }

  /** A whole tree. */
  lemma WholeTree(x: Ctx, t: Tree, v: nat, k: nat)
    requires TreeOk(t) && TreeLimit(t) == Pow2(k) && 0 < k && v < Pow2(k)
    ensures NodeOk(TreeNode(t, 1)) && Follow(x, TreeNode(t, 1), Msb(v, k)) == Some(TreeEnd(t, Pow2(k) + v))
  {
    hide Follow, NodeOk, TreeNode, TreeEnd, Next;
    TreeFollow(x, t, 1, v, k, Pow2(k) + v);
  }

  // ---- the parts of a symbol ----

  lemma ChoiceFollow(x: Ctx, u: LenUse, b: bit, rest: seq<bit>)
    requires UseOk(u)
    ensures NodeOk(AskLenChoice(u)) && NodeOk(AskLenChoice2(u)) && NodeOk(TreeNode(LowTree(u), 1))
    ensures Follow(x, AskLenChoice(u), [b] + rest) ==
            Follow(x, if b == 0 then TreeNode(LowTree(u), 1) else AskLenChoice2(u), rest)
  {
    LenSteps(x, u, b);
    TreeStep(x, LowTree(u), 1, 0);
    hide Follow, NodeOk, Next, CellOf, Index, TreeNode;
    FollowBit(x, AskLenChoice(u), b, rest);
  }

  lemma SecondChoiceFollow(x: Ctx, u: LenUse, b: bit, rest: seq<bit>)
    requires UseOk(u)
    ensures NodeOk(AskLenChoice(u)) && NodeOk(TreeNode(if b == 0 then MidTree(u) else HighTree(u), 1))
    ensures Follow(x, AskLenChoice(u), [1, b] + rest) ==
            Follow(x, TreeNode(if b == 0 then MidTree(u) else HighTree(u), 1), rest)
  {
    ChoiceFollow(x, u, 1, [b] + rest);
    LenSteps(x, u, b);
    TreeStep(x, if b == 0 then MidTree(u) else HighTree(u), 1, 0);
    hide Follow, NodeOk, Next, CellOf, Index, TreeNode;
    assert [1, b] + rest == [1] + ([b] + rest);
    FollowBit(x, AskLenChoice2(u), b, rest);
  }

  lemma LenFollow(x: Ctx, u: LenUse, len: nat)
    requires UseOk(u) && len < 272
    ensures NodeOk(AskLenChoice(u)) && Follow(x, AskLenChoice(u), LenBits(len)) == Some(AfterLen(u, len))
  {
    Pow2Small();
    hide Follow, NodeOk, Msb, Pow2, TreeNode;
    if len < 8 {
      ChoiceFollow(x, u, 0, Msb(len, 3));
      WholeTree(x, LowTree(u), len, 3);
    } else if len < 16 {
      SecondChoiceFollow(x, u, 0, Msb(len - 8, 3));
      WholeTree(x, MidTree(u), len - 8, 3);
    } else {
      SecondChoiceFollow(x, u, 1, Msb(len - 16, 8));
      WholeTree(x, HighTree(u), len - 16, 8);
    }
  }

  /** The bits of a literal behind a match: at the index they say, whether or not the match byte still agrees. */
  lemma {:induction false} MatchedFollow(x: Ctx, v: nat, k: nat)
    requires k <= 8 && v < Pow2(k) && x.matchByte < 256
    ensures NodeOk(AskMatchedLit(1, x.matchByte))
    ensures Follow(x, AskMatchedLit(1, x.matchByte), Msb(v, k)).Some?
    ensures var n := Follow(x, AskMatchedLit(1, x.matchByte), Msb(v, k)).value;
            if k == 8 then n == Done(Literal(v)) else (n.AskLit? || n.AskMatchedLit?) && n.m == Pow2(k) + v
    decreases k
  {
    if k == 0 {
    } else {
      Halved(1, v, k);
      MatchedFollow(x, v / 2, k - 1);
      var n := Follow(x, AskMatchedLit(1, x.matchByte), Msb(v / 2, k - 1)).value;
      Pow2Small();
      hide Follow;
      FollowOne(x, n, v % 2);
      FollowTwo(x, AskMatchedLit(1, x.matchByte), Msb(v / 2, k - 1), [v % 2]);
    }
  }

  /** The low bits of a distance below 128; there are `e` of them, and with those read they make `low`. */
  lemma {:induction false} SpecFollow(x: Ctx, len: nat, slot: nat, e: nat, k: nat, rev: nat, v: nat, low: nat)
    requires 4 <= slot < 14 && e == ExtraBits(slot) && k <= e && v < Pow2(e - k) && NodeOk(SpecNode(len, slot, k, rev))
    requires low == rev + v * Pow2(k)
    ensures Follow(x, SpecNode(len, slot, k, rev), Lsb(v, e - k)) == Some(Done(Match(len, SpecBase(slot) + low)))
    decreases e - k
  {
    hide Follow, Next, NodeOk, CellOf, Index, SpecNode, SpecBase, Pow2, ExtraBits, Lsb;
    if k == e {
      SpecHere(x, len, slot, rev, v);
    } else {
      var b: bit := v % 2;
      SpecStep(x, len, slot, k, rev, b);
      Halved(0, v, e - k);
      Shifted(v, k);
      LsbIs(v, e - k);
      FollowBit(x, SpecNode(len, slot, k, rev), b, Lsb(v / 2, e - k - 1));
      SpecFollow(x, len, slot, e, k + 1, rev + if b == 0 then 0 else Pow2(k), v / 2, low);
    }
  }

  lemma SpecHere(x: Ctx, len: nat, slot: nat, rev: nat, v: nat)
    requires 4 <= slot < 14 && v < Pow2(0) && NodeOk(SpecNode(len, slot, ExtraBits(slot), rev))
    ensures v == 0
    ensures Follow(x, SpecNode(len, slot, ExtraBits(slot), rev), Lsb(v, 0)) ==
            Some(Done(Match(len, SpecBase(slot) + rev)))
  {
  }

  lemma Shifted(v: nat, k: nat)
    ensures v * Pow2(k) == (if v % 2 == 0 then 0 else Pow2(k)) + v / 2 * Pow2(k + 1)
  {
    assert Pow2(k + 1) == 2 * Pow2(k);
    hide Pow2;
    ShiftAlgebra(v / 2, v % 2, Pow2(k));
  }

  lemma ShiftAlgebra(h: nat, b: bit, p: nat)
    ensures (2 * h + b) * p == (if b == 0 then 0 else p) + h * (2 * p)
  {
    assert (2 * h + b) * p == 2 * h * p + b * p;
  }

  lemma AlignBitFollow(x: Ctx, len: nat, high: nat, k: nat, rev: nat, b: bit, rest: seq<bit>)
    requires k < 4 && NodeOk(AskAlign(len, high, k, rev))
    ensures NodeOk(AfterAlignBit(len, high, k, rev, b))
    ensures Follow(x, AskAlign(len, high, k, rev), [b] + rest) == Follow(x, AfterAlignBit(len, high, k, rev, b), rest)
  {
    AlignStep(x, len, high, k, rev, b);
    hide Follow, Next, NodeOk, CellOf, Index, AfterAlignBit;
    FollowBit(x, AskAlign(len, high, k, rev), b, rest);
  }

  /** The four low bits of a longer distance. */
  lemma AlignFollow(x: Ctx, len: nat, high: nat, v: nat)
    requires NodeOk(AskAlign(len, high, 0, 0)) && v < 16
    ensures Follow(x, AskAlign(len, high, 0, 0), Lsb(v, 4)) == Some(Done(Match(len, 16 * high + v)))
  {
    var a: bit, b: bit, c: bit, e: bit := v % 2, v / 2 % 2, v / 4 % 2, v / 8 % 2;
    FourBits(v);
    FollowNothing(x, Match(len, 16 * high + v));
    hide Follow, NodeOk, Lsb;
    AlignBitFollow(x, len, high, 0, 0, a, [b, c, e]);
    AlignBitFollow(x, len, high, 1, a, b, [c, e]);
    AlignBitFollow(x, len, high, 2, a + 2 * b, c, [e]);
    AlignBitFollow(x, len, high, 3, a + 2 * b + 4 * c, e, []);
    assert [a] + [b, c, e] == [a, b, c, e] && [b] + [c, e] == [b, c, e] && [c] + [e] == [c, e] && [e] + [] == [e];
  }

  lemma FollowNothing(x: Ctx, s: Symbol)
    ensures SymbolOk(s) ==> Follow(x, Done(s), []) == Some(Done(s))
    ensures SymbolOk(s) == NodeOk(Done(s))
  {
  }

  lemma FourBits(v: nat)
    requires v < 16
    ensures Lsb(v, 4) == [v % 2, v / 2 % 2, v / 4 % 2, v / 8 % 2]
    ensures v == v % 2 + 2 * (v / 2 % 2) + 4 * (v / 4 % 2) + 8 * (v / 8 % 2)
  {
    assert Lsb(v / 8, 1) == [v / 8 % 2];
    assert Lsb(v / 4, 2) == [v / 4 % 2] + Lsb(v / 8, 1);
    assert Lsb(v / 2, 3) == [v / 2 % 2] + Lsb(v / 4, 2);
  }

  ghost function DirectAt(len: nat, slot: nat, k: nat, acc: nat): Node
    requires slot >= 14
  {
    if k < ExtraBits(slot) - 4 then AskDirect(len, slot, k, acc) else AskAlign(len, acc, 0, 0)
  }

  /** The equiprobable bits of a long distance: behind `acc` they make `sum`. */
  lemma {:induction false} DirectFollow(x: Ctx, len: nat, slot: nat, acc: nat, v: nat, k: nat, sum: nat)
    requires slot >= 14 && k <= ExtraBits(slot) - 4 && v < Pow2(k) && NodeOk(AskDirect(len, slot, 0, acc))
    requires sum == acc * Pow2(k) + v
    ensures Follow(x, AskDirect(len, slot, 0, acc), Msb(v, k)) == Some(DirectAt(len, slot, k, sum))
    decreases k
  {
    if k == 0 {
    } else {
      Halved(acc, v, k);
      MsbIs(v, k);
      var n := DirectAt(len, slot, k - 1, sum / 2);
      DirectNext(x, len, slot, k - 1, sum / 2, v % 2);
      hide Follow, Next, NodeOk, DirectAt, Pow2, Msb, ExtraBits;
      DirectFollow(x, len, slot, acc, v / 2, k - 1, sum / 2);
      FollowOne(x, n, v % 2);
      FollowTwo(x, AskDirect(len, slot, 0, acc), Msb(v / 2, k - 1), [v % 2]);
    }
  }

  lemma DirectNext(x: Ctx, len: nat, slot: nat, k: nat, acc: nat, b: bit)
    requires slot >= 14 && k < ExtraBits(slot) - 4
    ensures var n := DirectAt(len, slot, k, acc);
            !n.Done? && (NodeOk(n) ==> Next(x, n, b) == DirectAt(len, slot, k + 1, 2 * acc + b))
  {
  }

  // ---- distances ----

  lemma TopBounds(dist: nat)
    requires 4 <= dist < U32
    ensures 2 <= Top(dist) < 32 && (Top(dist) < 7 <==> dist < 128)
    ensures 2 * Pow2(Top(dist) - 1) <= dist < 4 * Pow2(Top(dist) - 1)
  {
    LargeDist(dist);
    TopIs(dist);
    Pow2Of32();
    TopBetween(dist, 2, 32);
    Pow2Small();
    if dist < 128 { TopBetween(dist, 2, 7); }
  }

  lemma SlotParts(h: nat, second: nat)
    requires 2 <= h < 32 && second < 2
    ensures var slot := 2 * h + second;
            4 <= slot < 64 && ExtraBits(slot) == h - 1 && slot % 2 == second && (slot < 14 <==> h < 7)
  {
  }

  /** A distance is its slot's base and the bits below its top two. */
  lemma DistParts(dist: nat)
    requires 4 <= dist < U32
    ensures var below, low := Top(dist) - 1, dist % Pow2(Top(dist) - 1);
            var slot := 2 * Top(dist) + dist / Pow2(below) % 2;
            4 <= slot < 64 && ExtraBits(slot) == below && (slot < 14 <==> dist < 128)
            && low < Pow2(below) && dist == (2 + slot % 2) * Pow2(below) + low
  {
    hide Pow2, Top, ExtraBits;
    TopBounds(dist);
    var p := Pow2(Top(dist) - 1);
    TopTwo(dist, p);
    SlotParts(Top(dist), dist / p % 2);
  }

  lemma Pow2Of32()
    ensures Pow2(32) == U32 && Pow2(2) == 4
  {
    Pow2Small();
    Pow2Add(8, 8);
    Pow2Add(16, 16);
  }

  lemma TopTwo(v: nat, p: nat)
    requires p > 0 && 2 * p <= v < 4 * p
    ensures 2 <= v / p < 4 && v / p == 2 + v / p % 2 && v == v / p * p + v % p && v % p < p
  {
    if v < 3 * p { ModUnique(v, p, 2, v - 2 * p); } else { ModUnique(v, p, 3, v - 3 * p); }
  }

  /** The slot of a distance, and what is left to read. */
  lemma SlotFollow(x: Ctx, len: nat, slot: nat, rest: seq<bit>)
    requires len < 272 && slot < 64
    ensures NodeOk(AskSlot(len, 1)) && NodeOk(AfterSlot(len, slot))
    ensures Follow(x, AskSlot(len, 1), Msb(slot, 6) + rest) == Follow(x, AfterSlot(len, slot), rest)
  {
    Pow2Small();
    WholeTree(x, SlotTree(len), slot, 6);
    assert TreeEnd(SlotTree(len), 64 + slot) == AfterSlot(len, slot) && TreeNode(SlotTree(len), 1) == AskSlot(len, 1);
    hide Pow2, Follow, Next, Msb, TreeEnd, TreeNode, AfterSlot, NodeOk;
    FollowTwo(x, AskSlot(len, 1), Msb(slot, 6), rest);
  }

  /** What follows the slot of a distance below 128. */
  lemma ShortTailFollow(x: Ctx, len: nat, slot: nat, below: nat, low: nat)
    requires len < 272 && 4 <= slot < 14 && below == ExtraBits(slot) && low < Pow2(below)
    ensures NodeOk(AfterSlot(len, slot))
    ensures Follow(x, AfterSlot(len, slot), Lsb(low, below)) ==
            Some(Done(Match(len, (2 + slot % 2) * Pow2(below) + low)))
  {
    SpecEnds(len, slot, 0);
    assert AfterSlot(len, slot) == SpecNode(len, slot, 0, 0) && low == 0 + low * Pow2(0);
    hide Pow2, Follow, Next, Lsb, ExtraBits, SpecNode, SpecBase, AfterSlot;
    SpecFollow(x, len, slot, below, 0, 0, low, low);
  }

  /** What follows the slot of a longer distance. */
  lemma LongTailFollow(x: Ctx, len: nat, slot: nat, below: nat, low: nat)
    requires len < 272 && 14 <= slot < 64 && below == ExtraBits(slot) && low < Pow2(below)
    ensures NodeOk(AfterSlot(len, slot))
    ensures Follow(x, AfterSlot(len, slot), Msb(low / 16, below - 4) + Lsb(low % 16, 4)) ==
            Some(Done(Match(len, (2 + slot % 2) * Pow2(below) + low)))
  {
    Sixteenths(low, below);
    Pow2Small();
    var first, high := 2 + slot % 2, (2 + slot % 2) * Pow2(below - 4) + low / 16;
    DirectFollow(x, len, slot, first, low / 16, below - 4, high);
    SixteenAlgebra(first, Pow2(below - 4), low);
    assert DirectAt(len, slot, below - 4, high) == AskAlign(len, high, 0, 0);
    assert AfterSlot(len, slot) == AskDirect(len, slot, 0, first);
    hide Pow2, Follow, Next, Msb, Lsb, NodeOk, ExtraBits, DirectAt, AfterSlot;
    FollowTwo(x, AskDirect(len, slot, 0, first), Msb(low / 16, below - 4), Lsb(low % 16, 4));
    AlignFollow(x, len, high, low % 16);
  }

  lemma PartsFollow(x: Ctx, len: nat, dist: nat, slot: nat, below: nat, low: nat)
    requires len < 272 && 4 <= slot < 64 && below == ExtraBits(slot) && low < Pow2(below) && (slot < 14 <==> dist < 128)
    requires below >= 4 || dist < 128
    requires dist == (2 + slot % 2) * Pow2(below) + low
    ensures NodeOk(AskSlot(len, 1))
    ensures Follow(x, AskSlot(len, 1), DistTail(dist, slot, below, low)) == Some(Done(Match(len, dist)))
  {
    hide Pow2, Follow, Next, Msb, Lsb, ExtraBits, NodeOk, AfterSlot;
    if dist < 128 {
      SlotFollow(x, len, slot, Lsb(low, below));
      ShortTailFollow(x, len, slot, below, low);
    } else {
      SlotFollow(x, len, slot, Msb(low / 16, below - 4) + Lsb(low % 16, 4));
      LongTailFollow(x, len, slot, below, low);
    }
  }

  lemma FarDistFollow(x: Ctx, len: nat, dist: nat)
    requires len < 272 && 4 <= dist < U32
    ensures NodeOk(AskSlot(len, 1)) && Follow(x, AskSlot(len, 1), DistBits(dist)) == Some(Done(Match(len, dist)))
  {
    hide Pow2, Top, Follow, Next, ExtraBits, NodeOk, DistTail;
    DistParts(dist);
    LargeDist(dist);
    var below := Top(dist) - 1;
    PartsFollow(x, len, dist, 2 * Top(dist) + dist / Pow2(below) % 2, below, dist % Pow2(below));
  }

  lemma Sixteenths(low: nat, below: nat)
    requires below >= 4 && low < Pow2(below)
    ensures Pow2(below) == 16 * Pow2(below - 4) && low / 16 < Pow2(below - 4)
  {
    Pow2Small();
    Pow2Add(4, below - 4);
  }

  lemma SixteenAlgebra(first: nat, p: nat, low: nat)
    ensures 16 * (first * p + low / 16) + low % 16 == first * (16 * p) + low
  {
  }

  lemma DistFollow(x: Ctx, len: nat, dist: nat)
    requires len < 272 && dist < U32
    ensures NodeOk(AskSlot(len, 1)) && Follow(x, AskSlot(len, 1), DistBits(dist)) == Some(Done(Match(len, dist)))
  {
    if dist < 4 {
      SlotFollow(x, len, dist, []);
      assert Msb(dist, 6) + [] == Msb(dist, 6);
      FollowNothing(x, Match(len, dist));
    } else {
      FarDistFollow(x, len, dist);
    }
    hide Follow;
  }

  // ---- a whole symbol ----

  lemma LiteralFollow(x: Ctx, v: byte)
    requires x.matchByte < 256
    ensures Follow(x, AskIsMatch, [0] + Msb(v, 8)) == Some(Done(Literal(v)))
  {
    Pow2Small();
    FollowBit(x, AskIsMatch, 0, Msb(v, 8));
    if x.state < NUM_LIT_STATES {
      WholeTree(x, LitTree, v, 8);
    } else {
      MatchedFollow(x, v, 8);
    }
  }

  /** Past the bits that say "match" and of which kind. */
  lemma MatchHead(x: Ctx, b: bit, rest: seq<bit>)
    ensures Follow(x, AskIsMatch, [1, b] + rest) == Follow(x, if b == 0 then AskLenChoice(Fresh) else AskRepG0, rest)
  {
    HeadSteps(x, b);
    MatchBit(x);
    hide Follow, Next, NodeOk, CellOf, Index;
    FollowBit(x, AskIsMatch, 1, [b] + rest);
    assert [1, b] + rest == [1] + ([b] + rest);
    FollowBit(x, AskIsRep, b, rest);
  }

  lemma MatchBit(x: Ctx)
    ensures NodeOk(AskIsMatch) && Next(x, AskIsMatch, 1) == AskIsRep
  {
  }

  ghost function RepNode(b: bit, c: bit): Node {
    if b == 0 then (if c == 0 then Done(ShortRep) else AskLenChoice(Again(0)))
    else if c == 0 then AskLenChoice(Again(1)) else AskRepG2
  }

  /** Past the two bits that say which repeat. */
  lemma RepHead(x: Ctx, b: bit, c: bit, rest: seq<bit>)
    ensures NodeOk(RepNode(b, c)) && Follow(x, AskRepG0, [b, c] + rest) == Follow(x, RepNode(b, c), rest)
  {
    HeadSteps(x, b);
    HeadSteps(x, c);
    RepNodeOk(b, c);
    hide Follow, Next, NodeOk, CellOf, Index;
    FollowBit(x, AskRepG0, b, [c] + rest);
    assert [b, c] + rest == [b] + ([c] + rest);
    FollowBit(x, if b == 0 then AskRep0Long else AskRepG1, c, rest);
  }

  lemma RepNodeOk(b: bit, c: bit)
    ensures NodeOk(RepNode(b, c))
  {
  }

  lemma LastHead(x: Ctx, b: bit, rest: seq<bit>)
    ensures NodeOk(AskLenChoice(Again(2 + b)))
    ensures Follow(x, AskRepG2, [b] + rest) == Follow(x, AskLenChoice(Again(2 + b)), rest)
  {
    HeadSteps(x, b);
    hide Follow, Next, CellOf, Index;
    FollowBit(x, AskRepG2, b, rest);
  }

  lemma FourHead(x: Ctx, b: bit, c: bit, rest: seq<bit>)
    ensures NodeOk(RepNode(b, c)) && Follow(x, AskIsMatch, [1, 1, b, c] + rest) == Follow(x, RepNode(b, c), rest)
  {
    RepHead(x, b, c, rest);
    hide Follow, NodeOk, RepNode;
    MatchHead(x, 1, [b, c] + rest);
    assert [1, 1, b, c] + rest == [1, 1] + ([b, c] + rest);
  }

  lemma FiveHead(x: Ctx, b: bit, rest: seq<bit>)
    ensures NodeOk(AskLenChoice(Again(2 + b)))
    ensures Follow(x, AskIsMatch, [1, 1, 1, 1, b] + rest) == Follow(x, AskLenChoice(Again(2 + b)), rest)
  {
    LastHead(x, b, rest);
    hide Follow, NodeOk;
    FourHead(x, 1, 1, [b] + rest);
    assert [1, 1, 1, 1, b] + rest == [1, 1, 1, 1] + ([b] + rest);
  }

  lemma RepFollow(x: Ctx, which: nat, len: nat)
    requires which < 4 && len < 272
    ensures Follow(x, AskIsMatch, BitsOf(RepMatch(which, len))) == Some(Done(RepMatch(which, len)))
  {
    hide Follow, LenBits, NodeOk;
    LenFollow(x, Again(which), len);
    if which == 0 {
      FourHead(x, 0, 1, LenBits(len));
    } else if which == 1 {
      FourHead(x, 1, 0, LenBits(len));
    } else {
      FiveHead(x, which - 2, LenBits(len));
    }
  }

  lemma ShortRepFollow(x: Ctx)
    ensures Follow(x, AskIsMatch, BitsOf(ShortRep)) == Some(Done(ShortRep))
  {
    RepHead(x, 0, 0, []);
    MatchHead(x, 1, [0, 0]);
    assert [0, 0] + [] == [0, 0] && [1, 1] + [0, 0] == [1, 1, 0, 0];
    assert Follow(x, Done(ShortRep), []) == Some(Done(ShortRep));
    hide Follow;
  }

  lemma MatchFollow(x: Ctx, len: nat, dist: nat)
    requires len < 272 && dist < U32
    ensures Follow(x, AskIsMatch, BitsOf(Match(len, dist))) == Some(Done(Match(len, dist)))
  {
    LenFollow(x, Fresh, len);
    DistFollow(x, len, dist);
    hide Follow, LenBits, DistBits, Next, NodeOk;
    MatchHead(x, 0, LenBits(len) + DistBits(dist));
    FollowTwo(x, AskLenChoice(Fresh), LenBits(len), DistBits(dist));
  }

  /**
   Whatever the context, the walk that decodes a symbol reads back exactly the symbol an encoder wrote, and uses up
   all of its bits.
   */
  lemma SymbolBack(x: Ctx, s: Symbol)
    requires SymbolOk(s)
    ensures Follow(x, AskIsMatch, BitsOf(s)) == Some(Done(s))
  {
    hide Follow, BitsOf;
    match s
    case Literal(v) => LiteralBack(x, v);
    case ShortRep => ShortRepFollow(x);
    case RepMatch(which, len) => RepFollow(x, which, len);
    case Match(len, dist) => MatchFollow(x, len, dist);
  }

  lemma LiteralBack(x: Ctx, v: byte)
    ensures Follow(x, AskIsMatch, BitsOf(Literal(v))) == Some(Done(Literal(v)))
  {
    hide Follow;
    LiteralFollow(x, v);
  }

  /** The bits that a walk reads. */
  ghost function BitsRead(x: Ctx, n: Node, rc: Coder, probs: seq<int>, inp: seq<byte>, adapt: bool): seq<bit>
    requires NodeOk(n) && Fits(x, probs)
    decreases Modelled(n) + Direct(n)
  {
    if n.Done? || Pull(rc, inp).None? then []
    else
      var (b, c) := ReadBit(x, n, Pull(rc, inp).value, probs);
      NextDecreases(x, n, b);
      [b] + BitsRead(x, Next(x, n, b), c, if adapt then Learn(x, n, probs, b) else probs, inp, adapt)
  }

  /** The symbol a walk comes to is the one its bits lead to. */
  lemma {:induction false} WalkFollows(x: Ctx, n: Node, rc: Coder, probs: seq<int>, inp: seq<byte>, adapt: bool)
    requires NodeOk(n) && Fits(x, probs) && Walk(x, n, rc, probs, inp, adapt).Hit?
    ensures Follow(x, n, BitsRead(x, n, rc, probs, inp, adapt)) ==
            Some(Done(Walk(x, n, rc, probs, inp, adapt).symbol))
    decreases Modelled(n) + Direct(n)
  {
    if n.Done? {
    } else {
      hide Modelled, Direct, Next, ReadBit, Learn, NodeOk, CellOf;
      var (b, c) := ReadBit(x, n, Pull(rc, inp).value, probs);
      NextDecreases(x, n, b);
      var probs' := if adapt then Learn(x, n, probs, b) else probs;
      WalkFollows(x, Next(x, n, b), c, probs', inp, adapt);
      hide Follow, Walk;
      FollowBit(x, n, b, BitsRead(x, Next(x, n, b), c, probs', inp, adapt));
    }
  }
}
