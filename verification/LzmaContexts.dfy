/**
 Which probability a bit is decoded with: two bits share one exactly when the same question is asked in the same
 circumstances, the circumstances are what the text so far says they are, and a symbol adapts each probability it
 was decoded with once, and no other.
 */
module LzmaContexts {
  import opened Bits
  import opened LzmaLayout
  import opened LzmaCoder
  import opened LzmaWalk
  import opened LzmaLookahead
  import opened LzmaStream
  import opened LzmaSymbols
  import opened LzmaHistory

  // ---- questions ----

  /** A bit that is decoded with a probability. */
  predicate Asks(n: Node) { NodeOk(n) && !n.Done? && !n.AskDirect? }

  /**
   The same question in the same circumstances. The kind of the last symbols matters for what kind comes next, the
   position for the first bit of a symbol, for repeats of one byte and for short and middle lengths, the literal coder
   and what is left of the byte at the last distance for literals, and the length, up to five, for the slot of a
   distance.
   */
  predicate SameQuestion(x: Ctx, n: Node, y: Ctx, m: Node)
    requires Asks(n) && Asks(m)
  {
    var sameState, samePlace, sameCoder := x.state == y.state, x.posState == y.posState, x.litState == y.litState;
    match n
    case AskIsMatch => m.AskIsMatch? && sameState && samePlace
    case AskRep0Long => m.AskRep0Long? && sameState && samePlace
    case AskIsRep => m.AskIsRep? && sameState
    case AskRepG0 => m.AskRepG0? && sameState
    case AskRepG1 => m.AskRepG1? && sameState
    case AskRepG2 => m.AskRepG2? && sameState
    case AskLit(a) => m.AskLit? && sameCoder && a == m.m
    case AskMatchedLit(a, r) => m.AskMatchedLit? && sameCoder && a == m.m && (r >= 128 <==> m.rest >= 128)
    case AskLenChoice(u) => m.AskLenChoice? && u.Fresh? == m.use.Fresh?
    case AskLenChoice2(u) => m.AskLenChoice2? && u.Fresh? == m.use.Fresh?
    case AskLenLow(u, a) => m.AskLenLow? && u.Fresh? == m.use.Fresh? && samePlace && a == m.m
    case AskLenMid(u, a) => m.AskLenMid? && u.Fresh? == m.use.Fresh? && samePlace && a == m.m
    case AskLenHigh(u, a) => m.AskLenHigh? && u.Fresh? == m.use.Fresh? && a == m.m
    case AskSlot(l, a) => m.AskSlot? && (l == m.len || (l >= 3 && m.len >= 3)) && a == m.m
    case AskSpec(_, s, k, r) => m.AskSpec? && s == m.slot && k == m.k && r == m.rev
    case AskAlign(_, _, k, r) => m.AskAlign? && k == m.k && r == m.rev
    case _ => false
  }

  /** Two bits share a probability exactly when the same question is asked in the same circumstances. */
  lemma OnePlacePerQuestion(x: Ctx, n: Node, y: Ctx, m: Node)
    requires CtxOk(x) && CtxOk(y) && Asks(n) && Asks(m)
    ensures Index(CellOf(x, n)) == Index(CellOf(y, m)) <==> SameQuestion(x, n, y, m)
  {
    AskedCellOk(x, n);
    AskedCellOk(y, m);
    OneCellPerQuestion(x, n, y, m);
    hide CellOf, SameQuestion, Asks, Index, CtxOk;
    if Index(CellOf(x, n)) == Index(CellOf(y, m)) { PackingIsInjective(CellOf(x, n), CellOf(y, m)); }
  }

  lemma OneCellPerQuestion(x: Ctx, n: Node, y: Ctx, m: Node)
    requires CtxOk(x) && CtxOk(y) && Asks(n) && Asks(m)
    ensures CellOf(x, n) == CellOf(y, m) <==> SameQuestion(x, n, y, m)
  {
    hide Pow2, SpecBase, ExtraBits, UseOk;
    if n.AskSpec? && m.AskSpec? {
      SpecPlaces(n.slot, n.k, n.rev, m.slot, m.k, m.rev);
    } else if n.AskAlign? && m.AskAlign? {
      TreePlaces(n.k, n.rev, m.k, m.rev);
    }
  }

  lemma AskedCellOk(x: Ctx, n: Node)
    requires CtxOk(x) && Asks(n)
    ensures CellOk(CellOf(x, n))
  {
    AskedCellFits(x, n, seq(LITERAL + LIT_SIZE * (x.litState + 1), _ => 1024));
  }

  lemma TreePlaces(k: nat, r: nat, j: nat, q: nat)
    requires k < 6 && j < 6 && r < Pow2(k) && q < Pow2(j)
    ensures Pow2(k) + r == Pow2(j) + q <==> k == j && r == q
  {
    Pow2Values(k);
    Pow2Values(j);
  }

  lemma SpecPlaces(s: nat, k: nat, r: nat, t: nat, j: nat, q: nat)
    requires 4 <= s < 14 && k < ExtraBits(s) && r < Pow2(k)
    requires 4 <= t < 14 && j < ExtraBits(t) && q < Pow2(j)
    ensures SpecBase(s) + Pow2(k) + r == SpecBase(t) + Pow2(j) + q <==> s == t && k == j && r == q
  {
    SpecRoom(s, k, r);
    SpecRoom(t, j, q);
    TreePlaces(k, r, j, q);
    if s < t { SpecApart(s, t); }
    if t < s { SpecApart(t, s); }
  }

  lemma SpecRoom(s: nat, k: nat, r: nat)
    requires 4 <= s < 14 && k < ExtraBits(s) && r < Pow2(k)
    ensures SpecBase(s) < SpecBase(s) + Pow2(k) + r < SpecBase(s) + Pow2(ExtraBits(s))
  {
    Pow2Values(k);
    Pow2Values(ExtraBits(s));
  }

  lemma SpecApart(s: nat, t: nat)
    requires 4 <= s < t < 14
    ensures SpecBase(s) + Pow2(ExtraBits(s)) <= SpecBase(t)
  {
    Pow2Values(ExtraBits(s));
    Pow2Values(ExtraBits(t));
  }

  // ---- circumstances ----

  /**
   Two texts share a literal coder exactly when the low bits of their lengths and the high bits of their last bytes
   agree; before the first byte stands a zero.
   */
  lemma SameLiteralCoder(p: Props, a: seq<byte>, b: seq<byte>)
    requires PropsOk(p)
    ensures LitState(p, a) == LitState(p, b) <==>
            var last, other := if a == [] then 0 else a[|a| - 1], if b == [] then 0 else b[|b| - 1];
            |a| % Pow2(p.lp) == |b| % Pow2(p.lp) && last / Pow2(8 - p.lc) == other / Pow2(8 - p.lc)
  {
    TwoParts(p, a);
    TwoParts(p, b);
  }

  lemma TwoParts(p: Props, a: seq<byte>)
    requires PropsOk(p)
    ensures LitState(p, a) / Pow2(p.lc) == |a| % Pow2(p.lp)
    ensures LitState(p, a) % Pow2(p.lc) == PrevByte(a) / Pow2(8 - p.lc)
  {
    Pow2Add(p.lc, 8 - p.lc);
    Pow2Of8();
    DivBound(PrevByte(a), Pow2(p.lc), Pow2(8 - p.lc));
    hide Pow2, PrevByte;
    SplitBy(LitState(p, a), Pow2(p.lc), |a| % Pow2(p.lp), PrevByte(a) / Pow2(8 - p.lc));
  }

  /** Between two symbols the circumstances are those of the text that the symbols so far stand for. */
  lemma CircumstancesOf(d: Dec, h: seq<Symbol>)
    requires DecOk(d) && d.phase.Running? && d.owed == 0 && Known(d, h)
    ensures var x, text := CtxOf(d), Expanded(h);
            Stands(x.state, h) && x.posState == |text| % Pow2(d.props.pb) && x.litState == LitState(d.props, text)
            && (x.state >= NUM_LIT_STATES ==> Recent(h, 0) <= |text| && x.matchByte == text[|text| - Recent(h, 0)])
  {
  }

  // ---- what a symbol adapts ----

  /** The node that the first `k` bits lead to. */
  function NodeAt(x: Ctx, n: Node, bits: seq<bit>, k: nat): (r: Node)
    requires NodeOk(n) && k <= |bits| && Follow(x, n, bits).Some?
    ensures NodeOk(r)
    decreases k
  {
    if k == 0 then n
    else
      NextOk(x, n, bits[0]);
      NodeAt(x, Next(x, n, bits[0]), bits[1..], k - 1)
  }

  /** Along a walk every bit is decoded with a probability of its own. */
  lemma {:induction false} RankAt(x: Ctx, n: Node, bits: seq<bit>, k: nat)
    requires NodeOk(n) && k <= |bits| && Follow(x, n, bits).Some?
    ensures NodeRank(x, NodeAt(x, n, bits, k)) >= NodeRank(x, n)
    ensures k > 0 && !n.AskDirect? ==> NodeRank(x, NodeAt(x, n, bits, k)) > NodeRank(x, n)
    decreases k
  {
    hide Next, NodeOk, NodeRank;
    if k == 0 {
    } else {
      RankGrows(x, n, bits[0]);
      RankAt(x, Next(x, n, bits[0]), bits[1..], k - 1);
    }
  }

  /** The place of the probability that the bit `k` is decoded with; -1 for a direct bit. */
  function PlaceAt(x: Ctx, n: Node, bits: seq<bit>, k: nat): int
    requires NodeOk(n) && k < |bits| && Follow(x, n, bits).Some?
  {
    var m := NodeAt(x, n, bits, k);
    if m.Done? || m.AskDirect? then -1 else Index(CellOf(x, m))
  }

  lemma OwnPlace(x: Ctx, n: Node, bits: seq<bit>, k: nat)
    requires NodeOk(n) && 0 < k < |bits| && Follow(x, n, bits).Some? && CtxOk(x) && PlaceAt(x, n, bits, 0) >= 0
    ensures PlaceAt(x, n, bits, k) != PlaceAt(x, n, bits, 0)
  {
    var m := NodeAt(x, n, bits, k);
    RankAt(x, n, bits, k);
    hide NodeAt, Follow, Index, CellOf, NodeOk, CtxOk, Rank;
    if !m.Done? && !m.AskDirect? {
      AskedCellOk(x, n);
      AskedCellOk(x, m);
      if Index(CellOf(x, n)) == Index(CellOf(x, m)) { PackingIsInjective(CellOf(x, n), CellOf(x, m)); }
    }
  }

  /**
   Every probability that one of the bits was decoded with has adapted to that bit, once, and all others are as they
   were.
   */
  ghost predicate AdaptedOnce(x: Ctx, n: Node, bits: seq<bit>, probs: seq<int>, after: seq<int>) {
    NodeOk(n) && Follow(x, n, bits).Some? && |after| == |probs|
    && (forall k :: 0 <= k < |bits| && PlaceAt(x, n, bits, k) >= 0 ==>
          var i := PlaceAt(x, n, bits, k);
          i < |probs| && after[i] == Adapt(probs[i], bits[k]))
    && (forall i :: 0 <= i < |probs| && (forall k :: 0 <= k < |bits| ==> PlaceAt(x, n, bits, k) != i) ==>
          after[i] == probs[i])
  }

  lemma NoneAdapted(x: Ctx, n: Node, probs: seq<int>)
    requires NodeOk(n)
    ensures AdaptedOnce(x, n, [], probs, probs)
  {
  }

  /** One bit before others. */
  lemma OneMoreAdapted(x: Ctx, n: Node, b: bit, rest: seq<bit>, probs: seq<int>, after: seq<int>)
    requires NodeOk(n) && !n.Done? && Fits(x, probs)
    requires NodeOk(Next(x, n, b)) && AdaptedOnce(x, Next(x, n, b), rest, Learn(x, n, probs, b), after)
    ensures AdaptedOnce(x, n, [b] + rest, probs, after)
  {
    var next, bits, learned := Next(x, n, b), [b] + rest, Learn(x, n, probs, b);
    assert bits[1..] == rest;
    assert Follow(x, n, bits).Some?;
    AskedPlace(x, n, b, rest, probs);
    var first := PlaceAt(x, n, bits, 0);
    forall k | 0 < k < |bits| ensures PlaceAt(x, n, bits, k) == PlaceAt(x, next, rest, k - 1) {
    }
    hide Next, NodeOk, CellOf, Index, Adapt, PlaceAt, Learn, Follow, Fits;
    forall k | 0 < k < |bits| && first >= 0 ensures PlaceAt(x, n, bits, k) != first { OwnPlace(x, n, bits, k); }
    forall i | 0 <= i < |probs| && (forall k :: 0 <= k < |bits| ==> PlaceAt(x, n, bits, k) != i)
      ensures after[i] == probs[i]
    {
      assert PlaceAt(x, n, bits, 0) != i;
      forall k | 0 <= k < |rest| ensures PlaceAt(x, next, rest, k) != i {
        assert PlaceAt(x, n, bits, k + 1) != i;
      }
    }
    if first >= 0 {
      forall k | 0 <= k < |rest| ensures PlaceAt(x, next, rest, k) != first {
        assert PlaceAt(x, n, bits, k + 1) != first;
      }
    }
  }

  /** Reading a bit changes the probability it was decoded with, and no other. */
  lemma AskedPlace(x: Ctx, n: Node, b: bit, rest: seq<bit>, probs: seq<int>)
    requires NodeOk(n) && !n.Done? && Fits(x, probs) && Follow(x, n, [b] + rest).Some?
    ensures var first := PlaceAt(x, n, [b] + rest, 0);
            first < |probs|
            && Learn(x, n, probs, b) == if first < 0 then probs else probs[first := Adapt(probs[first], b)]
  {
    hide Follow, Next;
    if !n.AskDirect? { AskedCellFits(x, n, probs); }
  }

  /** After a symbol the probabilities have adapted to the bits it was read from. */
  lemma {:induction false} SymbolAdaptsOnce(x: Ctx, n: Node, rc: Coder, probs: seq<int>, inp: seq<byte>)
    requires NodeOk(n) && Fits(x, probs) && Walk(x, n, rc, probs, inp, true).Hit?
    ensures var w, bits := Walk(x, n, rc, probs, inp, true), BitsRead(x, n, rc, probs, inp, true);
            Follow(x, n, bits) == Some(Done(w.symbol)) && AdaptedOnce(x, n, bits, probs, w.probs)
    decreases Modelled(n) + Direct(n)
  {
    hide AdaptedOnce, Modelled, Direct, Next, ReadBit, NodeOk, Learn;
    WalkFollows(x, n, rc, probs, inp, true);
    if n.Done? {
      NoneAdapted(x, n, probs);
    } else {
      var (b, c) := ReadBit(x, n, Pull(rc, inp).value, probs);
      NextDecreases(x, n, b);
      var next, probs' := Next(x, n, b), Learn(x, n, probs, b);
      SymbolAdaptsOnce(x, next, c, probs', inp);
      OneMoreAdapted(x, n, b, BitsRead(x, next, c, probs', inp, true), probs, Walk(x, n, rc, probs, inp, true).probs);
    }
  }
}
