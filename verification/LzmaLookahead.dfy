/**
 Why the look-ahead and the real decoder agree on a symbol although only one of them adapts: along any walk the
 cells have strictly growing ranks, so no probability is read after it was changed.
 */
module LzmaLookahead {
  import opened Bits
  import opened LzmaLayout
  import opened LzmaCoder
  import opened LzmaWalk

  function Rank(c: Cell): nat {
    match c
    case IsMatch(_, _) => 0
    case IsRep(_) => 1
    case IsRepG0(_) => 2
    case IsRep0Long(_, _) => 3
    case IsRepG1(_) => 3
    case IsRepG2(_) => 4
    case LenChoice(_) => 5
    case LenChoice2(_) => 6
    case LenLow(_, _, m) => 6 + m
    case LenMid(_, _, m) => 6 + m
    case LenHigh(_, m) => 6 + m
    case PosSlot(_, m) => 300 + m
    case SpecPos(m) => 400 + m
    case Align(m) => 400 + m
    case Lit(_, _, m) => m
  }

  function NodeRank(x: Ctx, n: Node): nat
    requires NodeOk(n)
  {
    if n.Done? then 1000 else if n.AskDirect? then 400 else Rank(CellOf(x, n))
  }

  lemma RankGrows(x: Ctx, n: Node, b: bit)
    requires NodeOk(n) && !n.Done?
    ensures NodeOk(Next(x, n, b))
    ensures n.AskDirect? ==> NodeRank(x, Next(x, n, b)) >= NodeRank(x, n)
    ensures !n.AskDirect? ==> NodeRank(x, Next(x, n, b)) > NodeRank(x, n)
  {
    NextOk(x, n, b);
    if n.AskSpec? || n.AskAlign? || n.AskDirect? {
      TailRankGrows(x, n, b);
    } else if n.AskSlot? {
      SlotRankGrows(x, n, b);
    } else if n.AskLenLow? || n.AskLenMid? || n.AskLenHigh? {
      LenRankGrows(x, n, b);
    }
  }

  lemma TailRankGrows(x: Ctx, n: Node, b: bit)
    requires NodeOk(n) && (n.AskSpec? || n.AskAlign? || n.AskDirect?)
    ensures NodeOk(Next(x, n, b))
    ensures n.AskDirect? ==> NodeRank(x, Next(x, n, b)) >= NodeRank(x, n)
    ensures !n.AskDirect? ==> NodeRank(x, Next(x, n, b)) > NodeRank(x, n)
  {
    NextOk(x, n, b);
    if n.AskSpec? {
      SpecRankGrows(x, n, b);
    } else if n.AskAlign? {
      Pow2Values(n.k);
      Pow2Values(n.k + 1);
    } else {
      Pow2Values(0);
    }
  }

  lemma SpecRankGrows(x: Ctx, n: Node, b: bit)
    requires NodeOk(n) && n.AskSpec?
    ensures NodeOk(Next(x, n, b)) && NodeRank(x, Next(x, n, b)) > NodeRank(x, n)
  {
    NextOk(x, n, b);
    Pow2Values(n.k);
    Pow2Values(n.k + 1);
    Pow2Values(ExtraBits(n.slot));
    hide Pow2;
  }

  lemma LenRankGrows(x: Ctx, n: Node, b: bit)
    requires NodeOk(n) && (n.AskLenLow? || n.AskLenMid? || n.AskLenHigh?)
    ensures NodeOk(Next(x, n, b)) && NodeRank(x, Next(x, n, b)) > NodeRank(x, n)
  {
    NextOk(x, n, b);
    assert NodeRank(x, n) == 6 + n.m;
  }

  lemma SlotRankGrows(x: Ctx, n: Node, b: bit)
    requires NodeOk(n) && n.AskSlot?
    ensures NodeOk(Next(x, n, b)) && NodeRank(x, Next(x, n, b)) > NodeRank(x, n)
  {
    NextOk(x, n, b);
    Pow2Values(0);
    assert NodeRank(x, n) < 364;
  }

  /** The two tables hold the same values in every cell that a walk at rank `r` can still read. */
  ghost predicate SameFrom(p: seq<int>, q: seq<int>, r: nat) {
    |p| == |q| && forall c :: CellFits(c, |p|) && Rank(c) >= r ==> p[Index(c)] == q[Index(c)]
  }

  lemma LearnKeepsSame(x: Ctx, n: Node, p: seq<int>, q: seq<int>, b: bit)
    requires NodeOk(n) && !n.Done? && Fits(x, p) && SameFrom(p, q, NodeRank(x, n))
    ensures NodeOk(Next(x, n, b)) && SameFrom(Learn(x, n, p, b), q, NodeRank(x, Next(x, n, b)))
  {
    RankGrows(x, n, b);
    if !n.AskDirect? {
      AskedCellFits(x, n, p);
      var asked := CellOf(x, n);
      var r := NodeRank(x, Next(x, n, b));
      var p' := Learn(x, n, p, b);
      forall c | CellFits(c, |p'|) && Rank(c) >= r
        ensures p'[Index(c)] == q[Index(c)]
      {
        if Index(c) == Index(asked) { PackingIsInjective(c, asked); assert false; }
      }
    }
  }

  /** The walk that adapts and the walk that does not read the same bits and take the same bytes. */
  lemma {:induction false} WalksAgree(x: Ctx, n: Node, rc: Coder, p: seq<int>, q: seq<int>, inp: seq<byte>)
    requires NodeOk(n) && Fits(x, p) && SameFrom(p, q, NodeRank(x, n))
    ensures var full, look := Walk(x, n, rc, p, inp, true), Walk(x, n, rc, q, inp, false);
            (full.Eof? <==> look.Eof?) && (full.Hit? ==> full.symbol == look.symbol && full.rc == look.rc)
    decreases Modelled(n) + Direct(n)
  {
    if n.Done? || Pull(rc, inp).None? {
    } else {
      var c := Pull(rc, inp).value;
      var (b, c') := ReadBit(x, n, c, p);
      assert ReadBit(x, n, c, q) == (b, c') by {
        if !n.AskDirect? { AskedCellFits(x, n, p); }
      }
      LearnKeepsSame(x, n, p, q, b);
      NextDecreases(x, n, b);
      WalksAgree(x, Next(x, n, b), c', Learn(x, n, p, b), q, inp);
    }
  }

  /** The look-ahead sees exactly the symbol the real decoder would decode, and ends at the same byte. */
  lemma LookaheadAgrees(x: Ctx, rc: Coder, probs: seq<int>, inp: seq<byte>)
    requires Fits(x, probs)
    ensures var full, look := Whole(x, rc, probs, inp, true), Whole(x, rc, probs, inp, false);
            (full.Eof? <==> look.Eof?) && (full.Hit? ==> full.symbol == look.symbol && full.rc == look.rc)
  {
    WalksAgree(x, AskIsMatch, rc, probs, probs, inp);
  }

  /** The bytes from `i` on in `a` are the bytes from `j` on in `b`, as far as `a` goes. */
  ghost predicate Windows(a: seq<byte>, i: nat, b: seq<byte>, j: nat) {
    i <= |a| && j <= |b| && |a| - i <= |b| - j
    && forall t :: i <= t < |a| ==> a[t] == b[t - i + j]
  }

  function Shifted(r: Res, i: nat, j: nat): Res
    requires r.Hit? ==> r.rc.pos >= i
  {
    if r.Eof? then Eof else r.(rc := r.rc.(pos := r.rc.pos - i + j))
  }

  /** A walk looks at no byte behind the last one it takes: other buffers with the same bytes give the same symbol. */
  lemma {:induction false} WalkInWindow(x: Ctx, n: Node, rc: Coder, probs: seq<int>,
                                        a: seq<byte>, i: nat, b: seq<byte>, j: nat, adapt: bool)
    requires NodeOk(n) && Fits(x, probs) && i <= rc.pos <= |a| && Windows(a, i, b, j)
    ensures var w := Walk(x, n, rc, probs, a, adapt);
            w.Hit? ==> i <= w.rc.pos <= |a|
                       && Walk(x, n, rc.(pos := rc.pos - i + j), probs, b, adapt) == Shifted(w, i, j)
    decreases Modelled(n) + Direct(n)
  {
    if n.Done? || Pull(rc, a).None? {
    } else {
      var c := Pull(rc, a).value;
      var rc' := rc.(pos := rc.pos - i + j);
      assert Pull(rc', b) == Some(c.(pos := c.pos - i + j));
      var (v, d) := ReadBit(x, n, c, probs);
      assert ReadBit(x, n, c.(pos := c.pos - i + j), probs) == (v, d.(pos := d.pos - i + j));
      assert d.pos == c.pos;
      NextDecreases(x, n, v);
      WalkInWindow(x, Next(x, n, v), d, if adapt then Learn(x, n, probs, v) else probs, a, i, b, j, adapt);
    }
  }

  /** The same for a whole symbol. */
  lemma WholeInWindow(x: Ctx, rc: Coder, probs: seq<int>, a: seq<byte>, i: nat, b: seq<byte>, j: nat, adapt: bool)
    requires Fits(x, probs) && i <= rc.pos <= |a| && Windows(a, i, b, j)
    ensures var w := Whole(x, rc, probs, a, adapt);
            w.Hit? ==> i <= w.rc.pos <= |a|
                       && Whole(x, rc.(pos := rc.pos - i + j), probs, b, adapt) == Shifted(w, i, j)
  {
    hide Walk;
    WalkInWindow(x, AskIsMatch, rc, probs, a, i, b, j, adapt);
    var w := Walk(x, AskIsMatch, rc, probs, a, adapt);
    if w.Hit? && Pull(w.rc, a).Some? {
      PullInWindow(w.rc, a, i, b, j);
    }
  }

  lemma PullInWindow(c: Coder, a: seq<byte>, i: nat, b: seq<byte>, j: nat)
    requires i <= c.pos <= |a| && Windows(a, i, b, j) && Pull(c, a).Some?
    ensures i <= Pull(c, a).value.pos <= |a|
    ensures Pull(c.(pos := c.pos - i + j), b) == Some(Pull(c, a).value.(pos := Pull(c, a).value.pos - i + j))
  {
  }

  /** Cutting off bytes a walk did not take does not change it. */
  lemma {:induction false} WalkOnPrefix(x: Ctx, n: Node, rc: Coder, probs: seq<int>, a: seq<byte>, b: seq<byte>,
                                        adapt: bool)
    requires NodeOk(n) && Fits(x, probs) && a <= b && rc.pos <= |b|
    ensures var w := Walk(x, n, rc, probs, b, adapt);
            w.Hit? ==> rc.pos <= w.rc.pos && (w.rc.pos <= |a| ==> Walk(x, n, rc, probs, a, adapt) == w)
    decreases Modelled(n) + Direct(n)
  {
    if n.Done? || Pull(rc, b).None? {
    } else {
      var c := Pull(rc, b).value;
      var (v, d) := ReadBit(x, n, c, probs);
      assert d.pos == c.pos;
      NextDecreases(x, n, v);
      WalkOnPrefix(x, Next(x, n, v), d, if adapt then Learn(x, n, probs, v) else probs, a, b, adapt);
      assert c.pos <= |a| ==> Pull(rc, a) == Pull(rc, b);
    }
  }

  lemma WholeOnPrefix(x: Ctx, rc: Coder, probs: seq<int>, a: seq<byte>, b: seq<byte>, adapt: bool)
    requires Fits(x, probs) && a <= b && rc.pos <= |b|
    ensures var w := Whole(x, rc, probs, b, adapt);
            w.Hit? && w.rc.pos <= |a| ==> Whole(x, rc, probs, a, adapt) == w
  {
    hide Walk;
    WalkOnPrefix(x, AskIsMatch, rc, probs, a, b, adapt);
    var w := Walk(x, AskIsMatch, rc, probs, b, adapt);
    if w.Hit? {
      PullOnPrefix(w.rc, a, b);
    }
  }

  lemma PullOnPrefix(c: Coder, a: seq<byte>, b: seq<byte>)
    requires a <= b
    ensures Pull(c, b).Some? ==> c.pos <= Pull(c, b).value.pos
    ensures Pull(c, b).Some? && Pull(c, b).value.pos <= |a| ==> Pull(c, a) == Pull(c, b)
  {
  }
}
