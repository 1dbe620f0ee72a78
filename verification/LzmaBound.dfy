/**
 LZMA_REQUIRED_INPUT_MAX: no symbol takes more than 20 bytes, whatever the probabilities. A modelled bit leaves
 at least 1/67 of the range and a direct bit about half of it; 22 of the one and 26 of the other leave more than
 2^-160.
 */
module LzmaBound {
  import opened Bits
  import opened LzmaCoder
  import opened LzmaWalk

  const REQUIRED_INPUT_MAX := 20

  function Power(b: nat, e: nat): (r: nat)
    ensures b > 0 ==> r > 0
  {
    if e == 0 then 1 else b * Power(b, e - 1)
  }

  /** What `d` direct bits can take from the range, scaled by 1000. */
  function Halvings(d: nat): (r: nat)
    ensures r >= 1000
  {
    Pow2(d) * (1000 + d)
  }

  /** What `m` modelled and `d` direct bits can take from the range, scaled by 1000. */
  function Shrink(m: nat, d: nat): (r: nat)
    ensures r >= 1000
  {
    Power(67, m) * Halvings(d)
  }

  function Weight(n: Node): (r: nat)
    requires NodeOk(n)
    ensures r >= 1000
  {
    Counted(n);
    Shrink(Modelled(n), Direct(n))
  }

  lemma Counted(n: Node)
    requires NodeOk(n)
    ensures 0 <= Modelled(n) && 0 <= Direct(n) <= 26
  {
  }

  /** After `k` bytes, with only `n`'s bits still to come, this much of the range must be left. */
  predicate Enough(range: int, k: nat, w: nat) {
    range * Weight(AskIsMatch) >= TOP * Power(256, k) * w
  }

  lemma PowerMonotone(b: nat, i: nat, j: nat)
    requires b >= 1 && i <= j
    ensures Power(b, i) <= Power(b, j)
  {
    hide Power;
    if i == j {
    } else {
      PowerMonotone(b, i, j - 1);
      PowerStep(b, j);
      MulKeepsOrder(1, b, Power(b, j - 1));
    }
  }

  lemma PowerStep(b: nat, e: nat)
    requires e > 0
    ensures Power(b, e) == b * Power(b, e - 1)
  {
  }

  lemma HalvingsMonotone(i: nat, j: nat)
    requires i <= j
    ensures Halvings(i) <= Halvings(j)
  {
    if i == j {
    } else {
      HalvingsMonotone(i, j - 1);
      assert Pow2(j) == 2 * Pow2(j - 1);
      assert Pow2(j) * (1000 + j) >= Pow2(j - 1) * (1000 + (j - 1));
    }
  }

  lemma MulMonotone(a: nat, b: nat, c: nat, d: nat)
    requires a <= b && c <= d
    ensures a * c <= b * d
  {
    assert a * c <= b * c;
    assert b * c <= b * d;
  }

  /** A modelled bit pays at least its factor of 67 out of the weight. */
  lemma ModelledBitPays(x: Ctx, n: Node, b: bit)
    requires NodeOk(n) && !n.Done? && !n.AskDirect?
    ensures NodeOk(Next(x, n, b)) && 67 * Weight(Next(x, n, b)) <= Weight(n)
  {
    hide Power, Halvings, Next, NodeOk, Modelled, Direct;
    NextOk(x, n, b);
    var n' := Next(x, n, b);
    Counted(n);
    Counted(n');
    BitsDrop(x, n, b);
    var m, d, m', d' := Modelled(n), Direct(n), Modelled(n'), Direct(n');
    if m' < m {
      PowerMonotone(67, m', m - 1);
      HalvingsMonotone(d', d);
      MulMonotone(Power(67, m'), Power(67, m - 1), Halvings(d'), Halvings(d));
      Regroup(m - 1, Halvings(d));
    } else {
      // the last bit of a slot in 4..13: no direct bits follow
      PowerMonotone(67, m', m);
      HalvingsOf26();
      MulMonotone(Power(67, m'), Power(67, m), 67 * 1000, Halvings(26));
      assert Power(67, m') * (67 * 1000) == 67 * (Power(67, m') * 1000);
    }
  }

  lemma Regroup(m: nat, h: nat)
    ensures 67 * (Power(67, m) * h) == Power(67, m + 1) * h
  {
    assert Power(67, m + 1) == 67 * Power(67, m);
  }

  lemma BitsDrop(x: Ctx, n: Node, b: bit)
    requires NodeOk(n) && !n.Done? && !n.AskDirect?
    ensures NodeOk(Next(x, n, b))
    ensures var n' := Next(x, n, b);
            (Modelled(n') < Modelled(n) && Direct(n') <= Direct(n))
            || (Modelled(n') <= Modelled(n) && Direct(n') == 0 && Direct(n) == 26)
  {
    NextOk(x, n, b);
  }

  lemma HalvingsOf26()
    ensures Halvings(26) == 0x400_0000 * 1026 && Halvings(0) == 1000
  {
    Pow2At26();
  }

  lemma ModelledStep(range: int, range': int, k: nat, w: nat, w': nat)
    requires Enough(range, k, w) && range' * 67 >= range && w >= 67 * w'
    ensures Enough(range', k, w')
  {
    hide Weight, Power;
    ModelledAlgebra(range, range', Weight(AskIsMatch), TOP * Power(256, k), w, w');
  }

  lemma ModelledAlgebra(r: int, r': int, a: nat, t: nat, w: int, w': int)
    requires r * a >= t * w && r' * 67 >= r && w >= 67 * w'
    ensures r' * a >= t * w'
  {
    MulKeepsOrder(r, r' * 67, a);
    MulKeepsOrder(67 * w', w, t);
    Times67(r', a);
    Times67(w', t);
  }

  lemma Times67(u: int, h: int)
    ensures (u * 67) * h == 67 * (u * h) && (67 * u) * h == 67 * (u * h) && h * u == u * h
  {
  }

  lemma DirectStep(range: int, range': int, k: nat, d: nat)
    requires range >= TOP && d < 26 && 2 * range' >= range - 1
    requires Enough(range, k, Shrink(4, d + 1))
    ensures Enough(range', k, Shrink(4, d))
  {
    HalvingsStep(range, range', d);
    DirectAlgebra(range, range', Weight(AskIsMatch), TOP * Power(256, k), Power(67, 4), Halvings(d + 1), Halvings(d));
  }

  lemma DirectAlgebra(r: int, r': int, a: nat, t: nat, q: nat, h: nat, h': nat)
    requires h > 0 && r' * h >= r * h' && r * a >= t * (q * h)
    ensures r' * a >= t * (q * h')
  {
    MulKeepsOrder(r * h', r' * h, a);
    MulKeepsOrder(t * (q * h), r * a, h');
    assert (r * h') * a == (r * a) * h';
    assert (t * (q * h)) * h' == (t * (q * h')) * h by {
      assert (q * h) * h' == (q * h') * h;
      assert t * ((q * h) * h') == (t * (q * h)) * h';
      assert t * ((q * h') * h) == (t * (q * h')) * h;
    }
    assert (r' * h) * a == (r' * a) * h;
    CancelMul(r' * a, t * (q * h'), h);
  }

  lemma MulKeepsOrder(u: int, v: int, h: nat)
    requires u <= v
    ensures u * h <= v * h
  {
  }

  lemma MulLess(u: int, v: int, h: nat)
    requires u < v && h > 0
    ensures u * h < v * h
  {
  }

  lemma CancelMul(u: int, v: int, h: nat)
    requires h > 0 && u * h >= v * h
    ensures u >= v
  {
    if u < v { MulLess(u, v, h); }
  }

  lemma HalvingsStep(range: int, range': int, d: nat)
    requires range >= TOP && d < 26 && 2 * range' >= range - 1
    ensures range' * Halvings(d + 1) >= range * Halvings(d)
  {
    var p, h, k := Pow2(d), 2 * range', 1000 + d;
    MulKeepsOrder(range - 1, h, k + 1);
    assert (range - 1) * (k + 1) == range * k + range - k - 1;
    HalvingsParts(range, range', p, k);
    MulKeepsOrder(range * k, h * (k + 1), p);
  }

  lemma HalvingsParts(range: int, range': int, p: int, k: int)
    ensures range' * (2 * p * (k + 1)) == ((2 * range') * (k + 1)) * p
    ensures range * (p * k) == (range * k) * p
  {
    assert range' * (2 * p * (k + 1)) == (2 * range') * ((k + 1) * p);
  }

  lemma ByteStep(range: int, k: nat, w: nat)
    requires Enough(range, k, w)
    ensures Enough(range * 256, k + 1, w)
  {
    var a := Weight(AskIsMatch);
    assert Power(256, k + 1) == 256 * Power(256, k);
    assert (range * 256) * a == 256 * (range * a);
    assert TOP * (256 * Power(256, k)) * w == 256 * (TOP * Power(256, k) * w);
  }

  lemma RootWeight()
    ensures Weight(AskIsMatch) < 1000 * Power(256, 20)
  {
    HalvingsOf26();
    PowersOfRoot();
  }

  lemma PowerAdd(b: nat, i: nat, j: nat)
    ensures Power(b, i + j) == Power(b, i) * Power(b, j)
  {
    if i == 0 {
    } else {
      PowerAdd(b, i - 1, j);
      assert Power(b, i + j) == b * Power(b, i - 1 + j);
    }
  }

  lemma PowersOfRoot()
    ensures Power(67, 22) == 14915769363385151583217201855136979828889
    ensures Power(256, 20) == 0x1_00000000_00000000_00000000_00000000_00000000
  {
    assert Power(67, 2) == 67 * 67;
    PowerAdd(67, 2, 2);
    PowerAdd(67, 4, 4);
    PowerAdd(67, 8, 8);
    PowerAdd(67, 16, 4);
    PowerAdd(67, 20, 2);
    assert Power(256, 2) == 256 * 256;
    PowerAdd(256, 2, 2);
    PowerAdd(256, 4, 4);
    PowerAdd(256, 8, 8);
    PowerAdd(256, 16, 4);
  }

  lemma TooManyBytes(range: int, k: nat, w: nat)
    requires k >= 20 && range < TOP && w >= 1000
    ensures !Enough(range, k, w)
  {
    hide Weight, Power;
    RootWeight();
    PowerMonotone(256, 20, k);
    TooMuch(range, Weight(AskIsMatch), Power(256, 20), Power(256, k), w);
  }

  lemma TooMuch(range: int, a: nat, p20: nat, p: nat, w: nat)
    requires range < TOP && a < 1000 * p20 && p20 <= p && w >= 1000
    ensures range * a < (TOP * p) * w
  {
    MulKeepsOrder(range, TOP, a);
    MulKeepsOrder(1000, w, TOP * p);
    assert 1000 * (TOP * p) > TOP * a;
  }

  /** As long as the weight is not used up, a range that needs a byte has used fewer than 20. */
  lemma NeedsByteBefore20(range: int, k: nat, w: nat)
    requires Enough(range, k, w) && range < TOP && w >= 1000
    ensures k < REQUIRED_INPUT_MAX
  {
    if k >= 20 { TooManyBytes(range, k, w); }
  }

  lemma PullPays(c: Coder, start: nat, w: nat, inp: seq<byte>)
    requires CoderOk(c) && start <= c.pos <= start + REQUIRED_INPUT_MAX
    requires Enough(c.range, c.pos - start, w) && w >= 1000
    ensures c.range < TOP ==> c.pos - start < REQUIRED_INPUT_MAX
    ensures Pull(c, inp).Some? ==> start <= Pull(c, inp).value.pos <= start + REQUIRED_INPUT_MAX
    ensures Pull(c, inp).Some? ==> Enough(Pull(c, inp).value.range, Pull(c, inp).value.pos - start, w)
  {
    if c.range < TOP {
      NeedsByteBefore20(c.range, c.pos - start, w);
      ByteStep(c.range, c.pos - start, w);
    }
  }

  lemma BitPays(x: Ctx, n: Node, c: Coder, k: nat, probs: seq<int>)
    requires NodeOk(n) && !n.Done? && Fits(x, probs) && Settled(c) && ProbsOk(probs)
    requires Enough(c.range, k, Weight(n))
    ensures var (b, c') := ReadBit(x, n, c, probs);
            NodeOk(Next(x, n, b)) && Enough(c'.range, k, Weight(Next(x, n, b)))
  {
    var (b, c') := ReadBit(x, n, c, probs);
    NextOk(x, n, b);
    if n.AskDirect? {
      DirectBitShrinks(c);
      Counted(Next(x, n, b));
      var d := Direct(Next(x, n, b));
      assert Direct(n) == d + 1;
      DirectStep(c.range, c'.range, k, d);
    } else {
      ReadBitOk(x, n, c, probs);
      ModelledBitPays(x, n, b);
      ModelledStep(c.range, c'.range, k, Weight(n), Weight(Next(x, n, b)));
    }
  }

  /** The walk is at `n`, has taken at most 20 bytes since `start`, and has the range left that its bits need. */
  predicate OnBudget(n: Node, rc: Coder, start: nat, size: nat) {
    NodeOk(n) && CoderOk(rc) && start <= rc.pos <= start + REQUIRED_INPUT_MAX && rc.pos <= size
    && Enough(rc.range, rc.pos - start, Weight(n))
  }

  lemma PullOnBudget(n: Node, rc: Coder, start: nat, inp: seq<byte>)
    requires OnBudget(n, rc, start, |inp|)
    ensures match Pull(rc, inp)
            case None => |inp| < start + REQUIRED_INPUT_MAX
            case Some(c) => Settled(c) && OnBudget(n, c, start, |inp|)
  {
    PullSettles(rc, inp);
    PullPays(rc, start, Weight(n), inp);
  }

  lemma BitOnBudget(x: Ctx, n: Node, c: Coder, probs: seq<int>, start: nat, size: nat)
    requires OnBudget(n, c, start, size) && Settled(c) && !n.Done? && Fits(x, probs) && ProbsOk(probs)
    ensures var (b, c') := ReadBit(x, n, c, probs);
            NodeOk(Next(x, n, b)) && OnBudget(Next(x, n, b), c', start, size) && ProbsOk(Learn(x, n, probs, b))
  {
    BitPays(x, n, c, c.pos - start, probs);
    ReadBitOk(x, n, c, probs);
  }

  /** A walk that starts with enough range stays within 20 bytes and runs dry only when fewer than 20 are there. */
  lemma {:induction false} WalkWithin20(x: Ctx, n: Node, rc: Coder, probs: seq<int>, start: nat,
                                        inp: seq<byte>, adapt: bool)
    requires Fits(x, probs) && ProbsOk(probs) && OnBudget(n, rc, start, |inp|)
    ensures match Walk(x, n, rc, probs, inp, adapt)
            case Eof => |inp| < start + REQUIRED_INPUT_MAX
            case Hit(s, c, _) => SymbolOk(s) && OnBudget(Done(s), c, start, |inp|)
    decreases Modelled(n) + Direct(n)
  {
    if n.Done? {
    } else {
      PullOnBudget(n, rc, start, inp);
      if Pull(rc, inp).Some? {
        var c := Pull(rc, inp).value;
        var (b, c') := ReadBit(x, n, c, probs);
        BitOnBudget(x, n, c, probs, start, |inp|);
        NextDecreases(x, n, b);
        WalkWithin20(x, Next(x, n, b), c', if adapt then Learn(x, n, probs, b) else probs, start, inp, adapt);
      }
    }
  }

  /**
   The input bound. With any healthy probabilities and a settled coder, a symbol takes at most 20 bytes including
   the last normalization, and can only run out of input when fewer than 20 bytes are left.
   */
  lemma SymbolWithin20(x: Ctx, rc: Coder, probs: seq<int>, inp: seq<byte>, adapt: bool)
    requires Fits(x, probs) && ProbsOk(probs) && Settled(rc) && rc.pos <= |inp|
    ensures var w := Whole(x, rc, probs, inp, adapt);
            (w.Eof? ==> |inp| < rc.pos + REQUIRED_INPUT_MAX)
            && (w.Hit? ==> Settled(w.rc) && rc.pos <= w.rc.pos <= rc.pos + REQUIRED_INPUT_MAX && w.rc.pos <= |inp|)
  {
    StartEnough(rc.range);
    WalkWithin20(x, AskIsMatch, rc, probs, rc.pos, inp, adapt);
    var w := Walk(x, AskIsMatch, rc, probs, inp, adapt);
    if w.Hit? {
      PullOnBudget(Done(w.symbol), w.rc, rc.pos, inp);
    }
  }

  lemma StartEnough(range: int)
    requires range >= TOP
    ensures Enough(range, 0, Weight(AskIsMatch))
  {
    MulKeepsOrder(TOP, range, Weight(AskIsMatch));
  }
}
