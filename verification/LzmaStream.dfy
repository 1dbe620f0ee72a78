/**
 The decoder on values: an unbounded output history instead of a circular dictionary, and one function that says
 what a call does with the bytes it is given (LzmaDec_DecodeToDic). The class LzmaDec is proved against it.
 */
module LzmaStream {
  import opened Bits
  import opened LzmaLayout
  import opened LzmaCoder
  import opened LzmaWalk
  import opened LzmaBound

  const DIC_MIN := 0x1000
  const MATCH_MIN_LEN := 2
  const MATCH_SPEC_LEN_START := 274
  const RC_INIT_SIZE := 5
  const BAD_REP_CODE := 0xC000_0000 - 0x400

  datatype Props = Props(lc: nat, lp: nat, pb: nat, dicSize: nat)

  datatype Phase = Header | Running | Finished | Broken

  /** `owed` counts the bytes of the last match that did not fit under the limit; `reps[0]` is its distance. */
  datatype Dec = Dec(props: Props, phase: Phase, out: seq<byte>, probs: seq<int>, range: int, code: int,
                     reps: seq<nat>, state: nat, owed: nat)

  datatype Finish = FinishAny | FinishEnd
  datatype SRes = Ok | ErrorData | ErrorFail | ErrorInputEof | ErrorUnsupported
  datatype Status = NotSpecified | FinishedWithMark | NotFinished | NeedsMoreInput | MaybeFinishedWithoutMark

  /** What a call did: the new decoder, the bytes taken (held ones included), the bytes held back, the answer. */
  datatype Outcome = Outcome(dec: Dec, taken: nat, held: seq<byte>, res: SRes, status: Status)

  predicate PropsOk(p: Props) {
    p.lc <= 8 && p.lp <= 4 && p.pb <= 4 && DIC_MIN <= p.dicSize < U32
  }

  lemma FromLe4(b: seq<byte>)
    requires |b| == 4
    ensures FromLe(b) == b[0] as int + b[1] as int * 0x100 + b[2] as int * 0x1_0000 + b[3] as int * 0x100_0000
  {
    assert b[1..][1..] == b[2..] && b[2..][1..] == b[3..] && b[3..][1..] == [];
    assert FromLe(b[3..]) == b[3] as int;
    assert FromLe(b[2..]) == b[2] as int + 256 * FromLe(b[3..]);
    assert FromLe(b[1..]) == b[1] as int + 256 * FromLe(b[2..]);
  }

  /**
   LzmaProps_Decode. The first byte packs (pb * 5 + lp) * 9 + lc and nothing else is accepted; the next four are the
   dictionary size, at least 4 KiB.
   */
  function ParseProps(data: seq<byte>): (r: Option<Props>)
    ensures r.Some? <==> |data| >= 5 && data[0] < 225
    ensures r.Some? ==> PropsOk(r.value)
    ensures r.Some? ==>
              r.value.dicSize as int
              == if FromLe(data[1..5]) < DIC_MIN then DIC_MIN else FromLe(data[1..5])
    ensures r.Some? ==> var p := r.value; data[0] as int == (p.pb * 5 + p.lp) * 9 + p.lc
  {
    if |data| < 5 then None
    else
      var size := data[1] as int + data[2] as int * 0x100 + data[3] as int * 0x1_0000 + data[4] as int * 0x100_0000;
      FromLe4(data[1..5]);
      var d := data[0] as int;
      if d >= 9 * 5 * 5 then None
      else Some(Props(d % 9, d / 9 % 5, d / 9 / 5, if size < DIC_MIN then DIC_MIN else size))
  }

  /** Every choice of literal and position bits has exactly one first byte. */
  lemma PropsRoundTrip(p: Props, data: seq<byte>)
    requires PropsOk(p) && |data| >= 5 && data[0] as int == (p.pb * 5 + p.lp) * 9 + p.lc
    ensures ParseProps(data).Some? && var q := ParseProps(data).value; q.lc == p.lc && q.lp == p.lp && q.pb == p.pb
  {
    var d := data[0] as int;
    ModUnique(d, 9, p.pb * 5 + p.lp, p.lc);
    ModUnique(d / 9, 5, p.pb, p.lp);
    hide FromLe;
  }

  function Min(a: nat, b: nat): nat { if a < b then a else b }

  /** How far back a match may reach. */
  function Reach(d: Dec): nat { Min(|d.out|, d.props.dicSize) }

  /** The state before the first symbol. */
  predicate Untouched(d: Dec) {
    (forall i :: 0 <= i < |d.probs| ==> d.probs[i] == INITIAL_PROB)
    && d.range == 0xFFFF_FFFF && d.code < BAD_REP_CODE && d.state == 0 && d.owed == 0 && d.reps == [1, 1, 1, 1]
  }

  /** Once there is output, every remembered distance reaches a byte the dictionary still has. */
  predicate RepsOk(d: Dec) {
    |d.reps| == 4 && (d.out != [] ==> forall i :: 0 <= i < 4 ==> 1 <= d.reps[i] <= Reach(d))
  }

  predicate RunningOk(d: Dec) {
    && |d.probs| == NumProbs(d.props.lc, d.props.lp) && ProbsOk(d.probs)
    && Settled(Coder(d.range, d.code, 0))
    && d.state < NUM_STATES && d.owed < MATCH_SPEC_LEN_START
    && RepsOk(d)
    && (d.out == [] ==> Untouched(d))
  }

  /** What decoding one symbol needs; the coder may still owe a normalization. */
  predicate Sound(d: Dec) {
    && PropsOk(d.props) && RepsOk(d) && d.state < NUM_STATES && CoderOk(Coder(d.range, d.code, 0))
    && |d.probs| == NumProbs(d.props.lc, d.props.lp) && ProbsOk(d.probs)
  }

  predicate DecOk(d: Dec) {
    PropsOk(d.props) && 0 <= d.code < U32 && (d.phase.Running? ==> RunningOk(d)) && (d.phase.Header? ==> d.out == [])
  }

  function PrevByte(out: seq<byte>): byte { if out == [] then 0 else out[|out| - 1] }

  /** The literal coder of the specification: low position bits above high bits of the previous byte. */
  function LitState(p: Props, out: seq<byte>): nat
    requires PropsOk(p)
  {
    (|out| % Pow2(p.lp)) * Pow2(p.lc) + PrevByte(out) / Pow2(8 - p.lc)
  }

  function CtxOf(d: Dec): Ctx
    requires Sound(d)
  {
    Ctx(d.state, |d.out| % Pow2(d.props.pb), LitState(d.props, d.out),
        if d.state < NUM_LIT_STATES || d.out == [] then 0 else d.out[|d.out| - d.reps[0]])
  }

  lemma Pow2Of8()
    ensures Pow2(8) == 256
  {
    Pow2Values(2);
    Pow2Values(6);
    Pow2Add(2, 6);
  }

  lemma LitStateBound(p: Props, out: seq<byte>)
    requires PropsOk(p)
    ensures LitState(p, out) < Pow2(p.lc + p.lp)
  {
    Pow2Add(p.lc, 8 - p.lc);
    Pow2Of8();
    Pow2Add(p.lp, p.lc);
    DivBound(PrevByte(out), Pow2(p.lc), Pow2(8 - p.lc));
    PackBound(|out| % Pow2(p.lp), Pow2(p.lp), PrevByte(out) / Pow2(8 - p.lc), Pow2(p.lc));
  }

  lemma PackBound(a: nat, t: nat, b: nat, q: nat)
    requires a < t && b < q
    ensures a * q + b < t * q
  {
    MulKeepsOrder(a, t - 1, q);
    assert (t - 1) * q + q == t * q;
  }

  lemma CtxFits(d: Dec)
    requires Sound(d)
    ensures Fits(CtxOf(d), d.probs)
  {
    Pow2Monotone(d.props.pb, 4);
    Pow2Values(4);
    LitStateBound(d.props, d.out);
  }

  lemma DivBound(b: nat, q: nat, r: nat)
    requires r > 0 && b < q * r
    ensures b / r < q
  {
    assert b / r * r <= b;
    if b / r >= q { MulKeepsOrder(q, b / r, r); }
  }

  /** LZ77: the byte `dist` back, `n` times over; the copy may read what it has just written. */
  function Copy(out: seq<byte>, dist: nat, n: nat): (r: seq<byte>)
    requires 1 <= dist <= |out|
    ensures |r| == |out| + n
    ensures out <= r
    decreases n
  {
    if n == 0 then out else Copy(out + [out[|out| - dist]], dist, n - 1)
  }

  lemma {:induction false} CopyInTwo(out: seq<byte>, dist: nat, a: nat, b: nat)
    requires 1 <= dist <= |out|
    ensures Copy(Copy(out, dist, a), dist, b) == Copy(out, dist, a + b)
    decreases a
  {
    if a == 0 {
    } else {
      CopyInTwo(out + [out[|out| - dist]], dist, a - 1, b);
    }
  }

  lemma CopyOne(out: seq<byte>, dist: nat, n: nat)
    requires 1 <= dist <= |out| && n > 0
    ensures Copy(out, dist, n) == Copy(out + [out[|out| - dist]], dist, n - 1)
  {
  }

  lemma CopyNothing(out: seq<byte>, dist: nat)
    requires 1 <= dist <= |out|
    ensures Copy(out, dist, 0) == out
  {
  }

  /** Every copied byte equals the one `dist` before it. */
  lemma {:induction false} CopyRepeats(out: seq<byte>, dist: nat, n: nat, i: nat)
    requires 1 <= dist <= |out| && |out| <= i < |out| + n
    ensures Copy(out, dist, n)[i] == Copy(out, dist, n)[i - dist]
    decreases n
  {
    var next := out + [out[|out| - dist]];
    if i == |out| {
      assert next <= Copy(next, dist, n - 1);
      assert Copy(next, dist, n - 1)[i] == next[i];
      assert Copy(next, dist, n - 1)[i - dist] == next[i - dist];
    } else {
      CopyRepeats(next, dist, n - 1, i);
    }
  }

  function StateAfterLiteral(s: nat): nat { if s < 4 then 0 else if s < 10 then s - 3 else s - 6 }
  function StateAfterMatch(s: nat): nat { if s < NUM_LIT_STATES then 7 else 10 }
  function StateAfterRep(s: nat): nat { if s < NUM_LIT_STATES then 8 else 11 }
  function StateAfterShortRep(s: nat): nat { if s < NUM_LIT_STATES then 9 else 11 }

  /** The recently used distances with the chosen one moved to the front. */
  function MoveToFront(reps: seq<nat>, which: nat): seq<nat>
    requires |reps| == 4 && which < 4
  {
    [reps[which]] + reps[..which] + reps[which + 1..]
  }

  /** Writes up to `want` bytes of the match at reps[0] under the limit `goal` and owes the rest. */
  function CopyUnder(d: Dec, want: nat, goal: nat): Dec
    requires |d.reps| == 4 && 1 <= d.reps[0] <= |d.out| <= goal
  {
    var n := Min(want, goal - |d.out|);
    d.(out := Copy(d.out, d.reps[0], n), owed := want - n)
  }

  /** LzmaDec_WriteRem. */
  function Pay(d: Dec, goal: nat): Dec
    requires RepsOk(d) && (d.owed > 0 ==> d.out != []) && |d.out| <= goal
  {
    if d.owed == 0 then d else CopyUnder(d, d.owed, goal)
  }

  /** A symbol the decoder can act on: a repeated match needs something to repeat. */
  predicate Legal(d: Dec, s: Symbol) {
    SymbolOk(s) && (d.out == [] ==> s.Literal? || s.Match?)
  }

  /** What one symbol does to the decoder, after the coder and the probabilities moved on. */
  function Apply(d: Dec, s: Symbol, goal: nat): Dec
    requires RepsOk(d) && Legal(d, s) && |d.out| <= goal
  {
    match s
    case Literal(b) => d.(out := d.out + [b], state := StateAfterLiteral(d.state))
    case ShortRep => d.(out := Copy(d.out, d.reps[0], 1), state := StateAfterShortRep(d.state))
    case RepMatch(which, len) =>
      CopyUnder(d.(reps := MoveToFront(d.reps, which), state := StateAfterRep(d.state)), len + MATCH_MIN_LEN, goal)
    case Match(len, dist) =>
      if dist == END_MARKER_DISTANCE then d.(phase := Finished)
      else
        var e := d.(reps := [dist + 1] + d.reps[..3], state := StateAfterMatch(d.state));
        if dist >= Reach(d) then e.(phase := Broken) else CopyUnder(e, len + MATCH_MIN_LEN, goal)
  }

  /** The symbol at `pos`, with the coder and the probabilities after it; Eof when it is not all there. */
  function SymbolAt(d: Dec, inp: seq<byte>, pos: nat): Res
    requires Sound(d)
  {
    CtxFits(d);
    Whole(CtxOf(d), Coder(d.range, d.code, pos), d.probs, inp, true)
  }

  /** The decoder with the coder and probabilities a symbol left behind. */
  function Advanced(d: Dec, w: Res): Dec
    requires w.Hit?
  {
    d.(range := w.rc.range, code := w.rc.code, probs := w.probs)
  }

  /** A symbol's effect does not depend on the coder and the probabilities before it, and neither does its context. */
  lemma SameStep(d: Dec, e: Dec, w: Res, goal: nat)
    requires Sound(d) && Sound(e) && e == d.(probs := e.probs, range := e.range, code := e.code)
    ensures CtxOf(e) == CtxOf(d)
    ensures w.Hit? && Legal(d, w.symbol) ==> Legal(e, w.symbol)
    ensures w.Hit? && Legal(d, w.symbol) && |d.out| <= goal ==> Stepped(e, w, goal) == Stepped(d, w, goal)
  {
    if w.Hit? { assert Advanced(e, w) == Advanced(d, w); }
  }

  /** Putting off the last normalization of one symbol and the first of the next changes only the coder. */
  lemma LazyStep(d: Dec, e: Dec, w: Res, v: Res, goal: nat)
    requires Sound(d) && Sound(e) && e == d.(range := e.range, code := e.code)
    requires w.Hit? && v.Hit? && w == v.(rc := w.rc) && Legal(d, w.symbol) && |d.out| <= goal
    ensures Legal(e, v.symbol)
    ensures Stepped(e, v, goal) == Stepped(d, w, goal).(range := v.rc.range, code := v.rc.code)
  {
    assert Advanced(e, v) == Advanced(d, w).(range := v.rc.range, code := v.rc.code);
  }

  /** The walk of a symbol from a coder that has not been normalized yet. */
  lemma LazySymbol(d: Dec, e: Dec, c: Coder, inp: seq<byte>, pos: nat)
    requires Sound(d) && Sound(e) && e == d.(range := e.range, code := e.code) && CoderOk(c)
    requires c.range == e.range && c.code == e.code && Pull(c, inp) == Some(Coder(d.range, d.code, pos))
    ensures CtxOf(e) == CtxOf(d) && Fits(CtxOf(e), e.probs)
    ensures var w, v := SymbolAt(d, inp, pos), Walk(CtxOf(e), AskIsMatch, c, e.probs, inp, true);
            w.Hit? ==> v.Hit? && w == v.(rc := w.rc) && Pull(v.rc, inp) == Some(w.rc)
  {
    CtxFits(d);
    SameStep(d, e, Eof, 0);
    WalkAfterPull(CtxOf(e), AskIsMatch, c, e.probs, inp, true);
  }

  // ---- what the first symbol can be ----

  /** Nodes from which a repeated match can no longer come. */
  predicate NoRepAhead(n: Node)
    requires NodeOk(n)
  {
    match n
    case AskIsMatch => false
    case AskIsRep => false
    case AskRepG0 => false
    case AskRep0Long => false
    case AskRepG1 => false
    case AskRepG2 => false
    case AskLenChoice(u) => u.Fresh?
    case AskLenChoice2(u) => u.Fresh?
    case AskLenLow(u, _) => u.Fresh?
    case AskLenMid(u, _) => u.Fresh?
    case AskLenHigh(u, _) => u.Fresh?
    case Done(s) => s.Literal? || s.Match?
    case _ => true
  }

  lemma NoRepNext(x: Ctx, n: Node, b: bit)
    requires NodeOk(n) && !n.Done? && NoRepAhead(n)
    ensures NodeOk(Next(x, n, b)) && NoRepAhead(Next(x, n, b))
  {
    NextOk(x, n, b);
  }

  lemma {:induction false} NoRepWalk(x: Ctx, n: Node, rc: Coder, probs: seq<int>, inp: seq<byte>)
    requires NodeOk(n) && Fits(x, probs) && NoRepAhead(n)
    ensures var w := Walk(x, n, rc, probs, inp, true); w.Hit? ==> w.symbol.Literal? || w.symbol.Match?
    decreases Modelled(n) + Direct(n)
  {
    if n.Done? || Pull(rc, inp).None? {
    } else {
      var c := Pull(rc, inp).value;
      var (b, c') := ReadBit(x, n, c, probs);
      NoRepNext(x, n, b);
      NextDecreases(x, n, b);
      NoRepWalk(x, Next(x, n, b), c', Learn(x, n, probs, b), inp);
    }
  }

  /** The early check against BAD_REP_CODE is exactly what keeps the first symbol from being a repeated match. */
  lemma FirstSymbolIsNoRep(d: Dec, inp: seq<byte>, pos: nat)
    requires DecOk(d) && d.phase.Running? && d.out == []
    ensures var w := SymbolAt(d, inp, pos); w.Hit? ==> w.symbol.Literal? || w.symbol.Match?
  {
    CtxFits(d);
    var x := CtxOf(d);
    var c := Coder(d.range, d.code, pos);
    AskedCellFits(x, AskIsMatch, d.probs);
    AskedCellFits(x, AskIsRep, d.probs);
    var (b, c') := ReadBit(x, AskIsMatch, c, d.probs);
    var p' := Learn(x, AskIsMatch, d.probs, b);
    if b == 0 {
      NoRepWalk(x, Next(x, AskIsMatch, 0), c', p', inp);
    } else {
      assert c'.range == 0x8000_03FF;
      assert Index(CellOf(x, AskIsRep)) != Index(CellOf(x, AskIsMatch));
      assert p'[Index(CellOf(x, AskIsRep))] == INITIAL_PROB;
      var (b2, c2) := ReadBit(x, AskIsRep, c', p');
      assert b2 == 0;
      var p2 := Learn(x, AskIsRep, p', b2);
      NoRepWalk(x, AskLenChoice(Fresh), c2, p2, inp);
      assert Walk(x, AskIsRep, c', p', inp, true) == Walk(x, AskLenChoice(Fresh), c2, p2, inp, true);
    }
    assert Walk(x, AskIsMatch, c, d.probs, inp, true) == Walk(x, Next(x, AskIsMatch, b), c', p', inp, true);
  }

  /** A code at or above BAD_REP_CODE, by contrast, makes the untouched decoder read a repeated match first. */
  lemma BadCodeMeansRep(x: Ctx, c: Coder, probs: seq<int>, inp: seq<byte>)
    requires Fits(x, probs) && (forall i :: 0 <= i < |probs| ==> probs[i] == INITIAL_PROB)
    requires c.range == 0xFFFF_FFFF && BAD_REP_CODE <= c.code < U32
    ensures ReadBit(x, AskIsMatch, c, probs).0 == 1
    ensures var p' := Learn(x, AskIsMatch, probs, 1);
            ReadBit(x, AskIsRep, ReadBit(x, AskIsMatch, c, probs).1, p').0 == 1
  {
    AskedCellFits(x, AskIsMatch, probs);
    AskedCellFits(x, AskIsRep, probs);
    assert Index(CellOf(x, AskIsRep)) != Index(CellOf(x, AskIsMatch));
  }

  // ---- what every symbol keeps ----

  lemma SymbolKeeps(d: Dec, inp: seq<byte>, pos: nat)
    requires DecOk(d) && d.phase.Running? && pos <= |inp|
    ensures var w := SymbolAt(d, inp, pos);
            (w.Eof? ==> |inp| < pos + REQUIRED_INPUT_MAX)
            && (w.Hit? ==> Legal(d, w.symbol) && Settled(w.rc) && ProbsOk(w.probs) && |w.probs| == |d.probs|
                           && pos <= w.rc.pos <= |inp| && w.rc.pos <= pos + REQUIRED_INPUT_MAX)
  {
    CtxFits(d);
    var c := Coder(d.range, d.code, pos);
    SymbolWithin20(CtxOf(d), c, d.probs, inp, true);
    WalkKeeps(CtxOf(d), AskIsMatch, c, d.probs, inp, true);
    if d.out == [] { FirstSymbolIsNoRep(d, inp, pos); }
  }

  lemma CopyUnderKeeps(d: Dec, want: nat, goal: nat)
    requires PropsOk(d.props) && RepsOk(d) && d.out != [] && |d.out| <= goal
    ensures var e := CopyUnder(d, want, goal);
            RepsOk(e) && d.out <= e.out && |e.out| <= goal && e.owed <= want
            && |e.out| + e.owed == |d.out| + want && (e.owed > 0 ==> |e.out| == goal)
  {
  }

  /** What a copy after a symbol keeps. */
  lemma CopyStepKeeps(d: Dec, e: Dec, want: nat, goal: nat)
    requires PropsOk(d.props) && RepsOk(e) && e.out == d.out != [] && e.props == d.props && |d.out| <= goal
    requires e.phase.Running? && e.state < NUM_STATES && 0 < want < MATCH_SPEC_LEN_START
    ensures AfterSymbol(d, CopyUnder(e, want, goal), goal)
  {
    hide Copy;
    CopyUnderKeeps(e, want, goal);
  }

  /** What the decoder looks like after a symbol under the limit `goal`. */
  ghost predicate AfterSymbol(d: Dec, e: Dec, goal: nat) {
    (e.phase.Running? ==> RepsOk(e) && e.out != [] && e.state < NUM_STATES && e.owed < MATCH_SPEC_LEN_START)
    && |e.out| <= goal && d.out <= e.out && !e.phase.Header?
    && (e.phase.Running? && |d.out| < goal ==> |e.out| > |d.out|)
    && (e.phase.Running? && |d.out| == goal ==> e.owed > 0)
    && (e.phase.Running? && e.owed > 0 ==> |e.out| == goal)
  }

  lemma OneByteKeeps(d: Dec, s: Symbol, goal: nat)
    requires PropsOk(d.props) && RepsOk(d) && d.phase.Running? && d.state < NUM_STATES && d.owed == 0
    requires d.out == [] ==> d.reps == [1, 1, 1, 1]
    requires Legal(d, s) && |d.out| < goal && (s.Literal? || s.ShortRep?)
    ensures AfterSymbol(d, Apply(d, s, goal), goal)
  {
  }

  /** What a symbol keeps: distances stay in reach, output only grows and never past the limit. */
  lemma ApplyKeeps(d: Dec, s: Symbol, goal: nat)
    requires PropsOk(d.props) && RepsOk(d) && d.phase.Running? && d.state < NUM_STATES && d.owed == 0
    requires d.out == [] ==> d.reps == [1, 1, 1, 1]
    requires Legal(d, s) && |d.out| <= goal && (|d.out| == goal ==> s.Match?)
    ensures AfterSymbol(d, Apply(d, s, goal), goal)
  {
    hide CopyUnder, Copy;
    match s
    case Literal(_) => OneByteKeeps(d, s, goal);
    case ShortRep => OneByteKeeps(d, s, goal);
    case RepMatch(which, len) =>
      var e := d.(reps := MoveToFront(d.reps, which), state := StateAfterRep(d.state));
      CopyStepKeeps(d, e, len + MATCH_MIN_LEN, goal);
    case Match(len, dist) =>
      if dist != END_MARKER_DISTANCE && dist < Reach(d) {
        var e := d.(reps := [dist + 1] + d.reps[..3], state := StateAfterMatch(d.state));
        CopyStepKeeps(d, e, len + MATCH_MIN_LEN, goal);
      }
  }

  lemma StepKeeps(d: Dec, w: Res, goal: nat)
    requires DecOk(d) && d.phase.Running? && d.owed == 0 && w.Hit? && Legal(d, w.symbol) && |d.out| <= goal
    requires |d.out| == goal ==> w.symbol.Match?
    requires Settled(w.rc) && ProbsOk(w.probs) && |w.probs| == |d.probs|
    ensures DecOk(Apply(Advanced(d, w), w.symbol, goal))
  {
    ApplyKeeps(Advanced(d, w), w.symbol, goal);
  }

  lemma PayKeeps(d: Dec, goal: nat)
    requires DecOk(d) && d.phase.Running? && |d.out| <= goal
    ensures var e := Pay(d, goal);
            DecOk(e) && e.phase.Running? && d.out <= e.out && |e.out| <= goal && e.owed <= d.owed
            && (e.owed > 0 ==> |e.out| == goal) && Pay(e, goal) == e && |e.out| + e.owed == |d.out| + d.owed
  {
    if d.owed > 0 { CopyUnderKeeps(d, d.owed, goal); }
  }

  // ---- a whole call ----

  /** A call that ends before the first symbol keeps the bytes it already held. */
  function Stop(d: Dec, inp: seq<byte>, pos: nat, held: nat, res: SRes, status: Status): Outcome
    requires pos <= |inp| && held <= |inp|
  {
    if pos < held then Outcome(d, held, inp[pos..held], res, status) else Outcome(d, pos, [], res, status)
  }

  /** Bounds the work left: bytes to the limit, then whether a match is owed or the end was seen. */
  function Effort(d: Dec, goal: nat): int {
    2 * (goal - |d.out|) + (if !d.phase.Running? then 0 else if d.owed == 0 then 2 else 1)
  }

  /** One round of the main loop: it ends the call, or runs out of input, or decodes a symbol up to `end`. */
  datatype Turn =
    | Halted(dec: Dec, res: SRes, status: Status)
    | Starved(dec: Dec)
    | Refused(dec: Dec, end: nat)
    | Failed(dec: Dec, end: nat)
    | Went(dec: Dec, end: nat)

  predicate Live(d: Dec, goal: nat) {
    DecOk(d) && (d.phase.Running? || d.phase.Finished?) && |d.out| <= goal
  }

  /** Whether the limit ends the call before another symbol is looked at. */
  predicate StopsAtLimit(e: Dec, goal: nat, fin: Finish) {
    |e.out| == goal && ((e.owed == 0 && e.code == 0) || fin.FinishAny? || e.owed != 0)
  }

  function LimitTurn(e: Dec, fin: Finish): Turn {
    if e.owed == 0 && e.code == 0 then Halted(e, Ok, MaybeFinishedWithoutMark)
    else if fin.FinishAny? then Halted(e, Ok, NotFinished)
    else Halted(e, ErrorData, NotFinished)
  }

  /** The decoder after a decoded symbol. */
  function Stepped(e: Dec, w: Res, goal: nat): Dec
    requires w.Hit? && RepsOk(e) && Legal(e, w.symbol) && |e.out| <= goal
  {
    Apply(Advanced(e, w), w.symbol, goal)
  }

  /** At the limit only a simple match may be decoded, for it may be the end marker. */
  function SymbolTurn(e: Dec, w: Res, goal: nat): Turn
    requires RepsOk(e) && |e.out| <= goal && (w.Hit? ==> Legal(e, w.symbol))
  {
    if w.Eof? then Starved(e)
    else if |e.out| == goal && !w.symbol.Match? then Refused(e, w.rc.pos)
    else
      var f := Stepped(e, w, goal);
      if f.phase.Broken? then Failed(f, w.rc.pos) else Went(f, w.rc.pos)
  }

  function TakeTurn(d: Dec, inp: seq<byte>, pos: nat, goal: nat, fin: Finish): Turn
    requires Live(d, goal) && pos <= |inp|
  {
    if d.phase.Finished? then
      if d.code != 0 then Halted(d, ErrorData, NotSpecified) else Halted(d, Ok, FinishedWithMark)
    else
      PayKeeps(d, goal);
      var e := Pay(d, goal);
      if StopsAtLimit(e, goal, fin) then LimitTurn(e, fin)
      else
        SymbolKeeps(e, inp, pos);
        SymbolTurn(e, SymbolAt(e, inp, pos), goal)
  }

  lemma SymbolTurnKeeps(e: Dec, w: Res, goal: nat)
    requires DecOk(e) && e.phase.Running? && e.owed == 0 && |e.out| <= goal && w.Hit? && Legal(e, w.symbol)
    requires Settled(w.rc) && ProbsOk(w.probs) && |w.probs| == |e.probs|
    ensures var t := SymbolTurn(e, w, goal);
            DecOk(t.dec) && !t.dec.phase.Header? && e.out <= t.dec.out && |t.dec.out| <= goal
            && (t.Went? ==> Live(t.dec, goal) && Effort(t.dec, goal) < Effort(e, goal))
            && (t.Failed? ==> t.dec.phase.Broken?)
  {
    if !SymbolTurn(e, w, goal).Refused? {
      StepKeeps(e, w, goal);
      ApplyKeeps(Advanced(e, w), w.symbol, goal);
    }
  }

  lemma TurnKeeps(d: Dec, inp: seq<byte>, pos: nat, goal: nat, fin: Finish)
    requires Live(d, goal) && pos <= |inp|
    ensures var t := TakeTurn(d, inp, pos, goal, fin);
            DecOk(t.dec) && !t.dec.phase.Header? && d.out <= t.dec.out && |t.dec.out| <= goal
            && (t.Went? ==> Live(t.dec, goal) && pos <= t.end <= |inp| && Effort(t.dec, goal) < Effort(d, goal))
            && (t.Refused? || t.Failed? ==> pos <= t.end <= |inp|)
            && (t.Halted? ==> !t.status.NeedsMoreInput? && !t.res.ErrorFail?)
  {
    hide Pay, Copy, ProbsOk, NumProbs, Stepped;
    if d.phase.Running? {
      PayKeeps(d, goal);
      var e := Pay(d, goal);
      if !StopsAtLimit(e, goal, fin) {
        SymbolKeeps(e, inp, pos);
        var w := SymbolAt(e, inp, pos);
        if w.Hit? { SymbolTurnKeeps(e, w, goal); }
      }
    }
  }

  /**
   The main loop of a call. `inp` is all input not yet decoded, its first `held` bytes come from earlier calls;
   `goal` is the output length at the dictionary limit.
   */
  function Drive(d: Dec, inp: seq<byte>, pos: nat, held: nat, goal: nat, fin: Finish): Outcome
    requires Live(d, goal) && pos <= |inp| && held <= |inp|
    decreases Effort(d, goal)
  {
    TurnKeeps(d, inp, pos, goal, fin);
    match TakeTurn(d, inp, pos, goal, fin)
    case Halted(e, res, status) => Stop(e, inp, pos, held, res, status)
    case Starved(e) => Outcome(e, |inp|, inp[pos..], Ok, NeedsMoreInput)
    case Refused(e, end) => Outcome(e, end, inp[pos..end], ErrorData, NotFinished)
    case Failed(f, end) => Outcome(f, end, [], ErrorData, NotSpecified)
    case Went(f, end) => Drive(f, inp, end, held, goal, fin)
  }

  /** Writing a match under a nearer limit first and the rest later comes to the same. */
  lemma PaySplit(d: Dec, want: nat, near: nat, goal: nat)
    requires RepsOk(d) && d.out != [] && |d.out| <= near <= goal && want > 0
    ensures var e, f := CopyUnder(d, want, near), CopyUnder(d, want, goal);
            RepsOk(e) && RepsOk(f) && Pay(e, goal) == Pay(f, goal) == f
  {
    CopyReps(d, want, near);
    CopyReps(d, want, goal);
    hide RepsOk, Copy;
    PaidUp(d, want, goal);
    PayTheRest(d, want, near, goal);
  }

  /** At the limit a second payment changes nothing. */
  lemma PaidUp(d: Dec, want: nat, goal: nat)
    requires |d.reps| == 4 && 1 <= d.reps[0] <= |d.out| <= goal
    ensures var f := CopyUnder(d, want, goal); f.owed > 0 ==> CopyUnder(f, f.owed, goal) == f
  {
    var f := CopyUnder(d, want, goal);
    CopyNothing(f.out, d.reps[0]);
    hide Copy;
  }

  lemma PayTheRest(d: Dec, want: nat, near: nat, goal: nat)
    requires |d.reps| == 4 && 1 <= d.reps[0] <= |d.out| <= near <= goal
    ensures var e, f := CopyUnder(d, want, near), CopyUnder(d, want, goal);
            if e.owed == 0 then e == f else CopyUnder(e, e.owed, goal) == f
  {
    hide Copy;
    var n := Min(want, near - |d.out|);
    if n < want {
      CopyInTwo(d.out, d.reps[0], n, Min(want - n, goal - near));
    }
  }

  lemma CopyReps(d: Dec, want: nat, goal: nat)
    requires RepsOk(d) && d.out != [] && |d.out| <= goal
    ensures RepsOk(CopyUnder(d, want, goal)) && d.reps[0] >= 1
  {
  }

  lemma SamePayDrives(e: Dec, f: Dec, inp: seq<byte>, pos: nat, held: nat, goal: nat, fin: Finish)
    requires Live(e, goal) && Live(f, goal) && e.phase.Running? && f.phase.Running? && pos <= |inp| && held <= |inp|
    requires Pay(e, goal) == Pay(f, goal)
    ensures Drive(e, inp, pos, held, goal, fin) == Drive(f, inp, pos, held, goal, fin)
  {
    assert TakeTurn(e, inp, pos, goal, fin) == TakeTurn(f, inp, pos, goal, fin);
  }

  /** A turn decoded under a nearer limit (the first byte the dictionary is full at) is still that turn. */
  lemma TurnUnderNearLimit(d: Dec, inp: seq<byte>, pos: nat, held: nat, near: nat, goal: nat, fin: Finish)
    requires Live(d, goal) && d.phase.Running? && d.owed == 0 && pos <= |inp| && held <= |inp|
    requires |d.out| <= near <= goal && (|d.out| == near ==> near == goal) && !StopsAtLimit(d, goal, fin)
    requires SymbolAt(d, inp, pos).Hit? && (|d.out| == goal ==> SymbolAt(d, inp, pos).symbol.Match?)
    ensures var w := SymbolAt(d, inp, pos);
            Legal(d, w.symbol) && pos <= w.rc.pos <= |inp| && Settled(w.rc) && w.rc.pos <= pos + REQUIRED_INPUT_MAX
            && (var f := Stepped(d, w, near);
                DecOk(f) && d.out <= f.out && |f.out| <= near
                && (f.phase.Running? && f.owed > 0 ==> |f.out| == near)
                && (if f.phase.Broken? then
                      Drive(d, inp, pos, held, goal, fin) == Outcome(f, w.rc.pos, [], ErrorData, NotSpecified)
                    else
                      Live(f, goal) && Effort(f, goal) < Effort(d, goal)
                      && Drive(d, inp, pos, held, goal, fin) == Drive(f, inp, w.rc.pos, held, goal, fin)))
  {
    SymbolKeeps(d, inp, pos);
    var w := SymbolAt(d, inp, pos);
    StepKeeps(d, w, near);
    ApplyKeeps(Advanced(d, w), w.symbol, near);
    SymbolTurnKeeps(d, w, goal);
    hide SymbolAt;
    NearStep(d, w, near, goal);
    var f, g := Stepped(d, w, near), Stepped(d, w, goal);
    assert TakeTurn(d, inp, pos, goal, fin) == SymbolTurn(d, w, goal);
    if f.phase.Running? { SamePayDrives(f, g, inp, w.rc.pos, held, goal, fin); }
  }

  /** The two decoders differ only in how much of the last match is still owed. */
  ghost predicate SamePay(f: Dec, g: Dec, goal: nat) {
    RepsOk(f) && RepsOk(g) && (f.owed > 0 ==> f.out != []) && |f.out| <= goal
    && (g.owed > 0 ==> g.out != []) && |g.out| <= goal && Pay(f, goal) == Pay(g, goal)
  }

  lemma NearCopy(e: Dec, want: nat, near: nat, goal: nat)
    requires RepsOk(e) && e.out != [] && |e.out| <= near <= goal && want > 0
    ensures SamePay(CopyUnder(e, want, near), CopyUnder(e, want, goal), goal)
  {
    hide Copy;
    PaySplit(e, want, near, goal);
  }

  lemma NearStep(d: Dec, w: Res, near: nat, goal: nat)
    requires DecOk(d) && d.phase.Running? && d.owed == 0 && |d.out| <= near <= goal && w.Hit? && Legal(d, w.symbol)
    requires |d.out| == near ==> w.symbol.Match?
    ensures var f, g := Stepped(d, w, near), Stepped(d, w, goal);
            f.phase == g.phase && (f.phase.Running? ==> SamePay(f, g, goal)) && (!f.phase.Running? ==> f == g)
  {
    hide CopyUnder, NumProbs;
    var e := Advanced(d, w);
    match w.symbol
    case Literal(_) => hide Copy;
    case ShortRep => NearShort(e, near, goal);
    case RepMatch(which, len) =>
      hide SamePay;
      var f := e.(reps := MoveToFront(e.reps, which), state := StateAfterRep(e.state));
      NearCopy(f, len + MATCH_MIN_LEN, near, goal);
      CopyKeepsPhase(f, len + MATCH_MIN_LEN, near, goal);
    case Match(len, dist) =>
      hide SamePay;
      if dist != END_MARKER_DISTANCE && dist < Reach(d) {
        var f := e.(reps := [dist + 1] + e.reps[..3], state := StateAfterMatch(e.state));
        NearCopy(f, len + MATCH_MIN_LEN, near, goal);
        CopyKeepsPhase(f, len + MATCH_MIN_LEN, near, goal);
      }
  }

  lemma CopyKeepsPhase(d: Dec, want: nat, near: nat, goal: nat)
    requires |d.reps| == 4 && 1 <= d.reps[0] <= |d.out| <= near <= goal
    ensures CopyUnder(d, want, near).phase == CopyUnder(d, want, goal).phase == d.phase
  {
  }

  lemma NearShort(e: Dec, near: nat, goal: nat)
    requires RepsOk(e) && e.out != [] && |e.out| < near <= goal && e.phase.Running? && e.owed == 0
    ensures var f := Apply(e, ShortRep, near); f == Apply(e, ShortRep, goal) && SamePay(f, f, goal)
  {
  }

  /** The decoder before its header; nothing but the properties means anything yet. */
  function Blank(p: Props): Dec {
    Dec(p, Header, [], [], 0, 0, [], 0, 0)
  }

  /** The decoder once the five header bytes are in. */
  function Started(p: Props, code: int): Dec
    requires PropsOk(p)
  {
    Dec(p, Running, [], seq(NumProbs(p.lc, p.lp), _ => INITIAL_PROB), 0xFFFF_FFFF, code, [1, 1, 1, 1], 0, 0)
  }

  function HeaderCode(h: seq<byte>): (r: int)
    requires |h| >= RC_INIT_SIZE
    ensures 0 <= r < U32
  {
    h[1] as int * 0x100_0000 + h[2] as int * 0x1_0000 + h[3] as int * 0x100 + h[4] as int
  }

  /** A call: header bytes first, then the main loop. `held` are the bytes kept from earlier calls. */
  function Feed(d: Dec, held: seq<byte>, src: seq<byte>, goal: nat, fin: Finish): Outcome
    requires DecOk(d) && |d.out| <= goal && (d.phase.Header? ==> |held| <= RC_INIT_SIZE)
  {
    var inp := held + src;
    match d.phase
    case Broken => Outcome(d, |held|, held, ErrorData, NotSpecified)
    case Header =>
      var n := Min(RC_INIT_SIZE, |inp|);
      if n > 0 && inp[0] != 0 then Outcome(d, n, inp[..n], ErrorData, NotSpecified)
      else if n < RC_INIT_SIZE then Outcome(d, n, inp[..n], Ok, NeedsMoreInput)
      else if HeaderCode(inp) >= BAD_REP_CODE then Outcome(d, n, inp[..n], ErrorData, NotSpecified)
      else Drive(Started(d.props, HeaderCode(inp)), inp, n, n, goal, fin)
    case _ => Drive(d, inp, 0, |held|, goal, fin)
  }
}
