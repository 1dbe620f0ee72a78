/**
 The decoder against the history of the symbols it has decoded: what its twelve states stand for, which distances it
 remembers, and what output it owes, whatever limits and pieces the calls came with.
 */
module LzmaHistory {
  import opened Bits
  import opened LzmaLayout
  import opened LzmaWalk
  import opened LzmaStream
  import opened LzmaChunks

  datatype Kind = Plain | Simple | Rep | Short

  function KindOf(s: Symbol): Kind {
    match s
    case Literal(_) => Plain
    case ShortRep => Short
    case RepMatch(_, _) => Rep
    case Match(_, _) => Simple
  }

  /** The kind of the symbol `i` symbols ago; a stream begins as if literals had gone before. */
  function Ago(h: seq<Symbol>, i: nat): Kind { if i < |h| then KindOf(h[|h| - 1 - i]) else Plain }

  /** What the last few symbols must have been for the decoder to be in a state. */
  predicate Stands(state: nat, h: seq<Symbol>) {
    var a, b, c, d := Ago(h, 0), Ago(h, 1), Ago(h, 2), Ago(h, 3);
    match state
    case 0 => a == Plain && b == Plain && c == Plain
    case 1 => a == Plain && b == Plain && c == Simple
    case 2 => a == Plain && b == Plain && (c == Rep || (c == Short && d != Plain))
    case 3 => a == Plain && b == Plain && c == Short && d == Plain
    case 4 => a == Plain && b == Simple
    case 5 => a == Plain && (b == Rep || (b == Short && c != Plain))
    case 6 => a == Plain && b == Short && c == Plain
    case 7 => a == Simple && b == Plain
    case 8 => a == Rep && b == Plain
    case 9 => a == Short && b == Plain
    case 10 => a == Simple && b != Plain
    case 11 => (a == Rep || a == Short) && b != Plain
    case _ => false
  }

  lemma LaterAgo(h: seq<Symbol>, s: Symbol, i: nat)
    ensures Ago(h + [s], i) == if i == 0 then KindOf(s) else Ago(h, i - 1)
  {
  }

  /** Every history stands for exactly one state. */
  lemma OneState(h: seq<Symbol>, s: nat, t: nat)
    requires Stands(s, h) && Stands(t, h)
    ensures s == t
  {
  }

  /** In the states below seven, and only there, the last symbol was a literal. */
  lemma LiteralStates(h: seq<Symbol>, s: nat)
    requires Stands(s, h)
    ensures s < NUM_LIT_STATES <==> Ago(h, 0) == Plain
  {
  }

  /** One symbol more. */
  lemma StateAfter(d: Dec, s: Symbol, goal: nat, h: seq<Symbol>)
    requires RepsOk(d) && Legal(d, s) && |d.out| <= goal && d.phase.Running? && Stands(d.state, h)
    ensures var e := Apply(d, s, goal); e.phase.Running? ==> Stands(e.state, h + [s])
  {
    hide Copy, Ago;
    LaterAgo(h, s, 0);
    LaterAgo(h, s, 1);
    LaterAgo(h, s, 2);
    LaterAgo(h, s, 3);
  }

  // ---- distances and output ----

  /** The distance used last (0), the one used last before that (1), and so on; before the first symbol all are 1. */
  function Recent(h: seq<Symbol>, i: nat): nat
    decreases |h|, 0
  {
    if h == [] then 1 else RecentAfter(h[..|h| - 1], h[|h| - 1], i)
  }

  /** A match uses a new distance; repeating a distance makes it the last one again. */
  function RecentAfter(h: seq<Symbol>, s: Symbol, i: nat): nat
    decreases |h|, 1
  {
    match s
    case Literal(_) => Recent(h, i)
    case ShortRep => Recent(h, i)
    case RepMatch(which, _) =>
      if i == 0 then Recent(h, which) else if i <= which then Recent(h, i - 1) else Recent(h, i)
    case Match(_, dist) =>
      if dist == END_MARKER_DISTANCE then Recent(h, i) else if i == 0 then dist + 1 else Recent(h, i - 1)
  }

  /** `n` bytes from `dist` back, one after the other. */
  function Repeated(out: seq<byte>, dist: nat, n: nat): seq<byte> {
    if 1 <= dist <= |out| then Copy(out, dist, n) else out
  }

  /** The text that the symbols stand for. */
  function Expanded(h: seq<Symbol>): seq<byte>
    decreases |h|, 0
  {
    if h == [] then [] else ExpandedBy(h[..|h| - 1], h[|h| - 1])
  }

  function ExpandedBy(h: seq<Symbol>, s: Symbol): seq<byte>
    decreases |h|, 1
  {
    match s
    case Literal(b) => Expanded(h) + [b]
    case ShortRep => Repeated(Expanded(h), Recent(h, 0), 1)
    case RepMatch(which, len) => Repeated(Expanded(h), Recent(h, which), len + MATCH_MIN_LEN)
    case Match(len, dist) =>
      if dist == END_MARKER_DISTANCE then Expanded(h) else Repeated(Expanded(h), dist + 1, len + MATCH_MIN_LEN)
  }

  /** The output with what is still owed. */
  function FullOutput(d: Dec): seq<byte> {
    if d.owed == 0 || |d.reps| != 4 then d.out else Repeated(d.out, d.reps[0], d.owed)
  }

  ghost predicate Remembers(d: Dec, h: seq<Symbol>) {
    |d.reps| == 4 && d.reps[0] == Recent(h, 0) && d.reps[1] == Recent(h, 1) && d.reps[2] == Recent(h, 2)
    && d.reps[3] == Recent(h, 3)
  }

  lemma LastRecent(h: seq<Symbol>, s: Symbol, i: nat)
    ensures Recent(h + [s], i) == RecentAfter(h, s, i)
  {
    assert (h + [s])[..|h|] == h;
  }

  lemma LastExpanded(h: seq<Symbol>, s: Symbol)
    ensures Expanded(h + [s]) == ExpandedBy(h, s)
  {
    assert (h + [s])[..|h|] == h;
  }

  lemma RemembersAfter(d: Dec, s: Symbol, goal: nat, h: seq<Symbol>)
    requires RepsOk(d) && Legal(d, s) && |d.out| <= goal && d.phase.Running? && Remembers(d, h)
    ensures var e := Apply(d, s, goal); e.phase.Running? ==> Remembers(e, h + [s])
  {
    hide Copy, Recent;
    LastRecent(h, s, 0);
    LastRecent(h, s, 1);
    LastRecent(h, s, 2);
    LastRecent(h, s, 3);
    FourReps(h, d);
  }

  lemma FourReps(h: seq<Symbol>, d: Dec)
    requires Remembers(d, h)
    ensures forall w :: 0 <= w < 4 ==> d.reps[w] == Recent(h, w)
  {
  }

  /** Cutting a copy at the limit and owing the rest leaves the full output as it is. */
  lemma CopyOwes(d: Dec, want: nat, goal: nat)
    requires |d.reps| == 4 && 1 <= d.reps[0] <= |d.out| <= goal
    ensures FullOutput(CopyUnder(d, want, goal)) == Copy(d.out, d.reps[0], want)
  {
    hide Copy;
    var n := Min(want, goal - |d.out|);
    CopyInTwo(d.out, d.reps[0], n, want - n);
    assert n + (want - n) == want;
  }

  lemma OutputAfter(d: Dec, s: Symbol, goal: nat, h: seq<Symbol>)
    requires RepsOk(d) && Legal(d, s) && |d.out| <= goal && d.phase.Running? && Remembers(d, h)
    requires d.owed == 0 && d.out == Expanded(h)
    ensures var e := Apply(d, s, goal);
            (e.phase.Running? ==> FullOutput(e) == Expanded(h + [s]))
            && (e.phase.Finished? ==> e.out == Expanded(h + [s]))
  {
    hide Copy, Recent, Expanded;
    LastExpanded(h, s);
    FourReps(h, d);
    match s
    case Literal(_) =>
    case ShortRep =>
    case RepMatch(which, len) =>
      CopyOwes(d.(reps := MoveToFront(d.reps, which), state := StateAfterRep(d.state)), len + MATCH_MIN_LEN, goal);
    case Match(len, dist) =>
      if dist != END_MARKER_DISTANCE && dist < Reach(d) {
        var e := d.(reps := [dist + 1] + d.reps[..3], state := StateAfterMatch(d.state));
        CopyOwes(e, len + MATCH_MIN_LEN, goal);
      }
  }

  // ---- over the turns of a call ----

  /** While the decoder is in a stream, its state, its distances and its output are what the symbols so far say. */
  ghost predicate Known(d: Dec, h: seq<Symbol>) {
    (d.phase.Running? ==> Stands(d.state, h) && Remembers(d, h) && FullOutput(d) == Expanded(h))
    && (d.phase.Finished? ==> d.out == Expanded(h))
  }

  /** The symbols that the main loop of a call decodes and acts on. */
  ghost function Decoded(d: Dec, inp: seq<byte>, pos: nat, goal: nat, fin: Finish): seq<Symbol>
    requires Live(d, goal) && pos <= |inp|
    decreases Effort(d, goal)
  {
    TurnKeeps(d, inp, pos, goal, fin);
    match TakeTurn(d, inp, pos, goal, fin)
    case Went(f, end) => [TurnSymbol(d, inp, pos, goal)] + Decoded(f, inp, end, goal, fin)
    case _ => []
  }

  /** The symbol of one turn, read once what was owed is written. */
  ghost function TurnSymbol(d: Dec, inp: seq<byte>, pos: nat, goal: nat): Symbol
    requires Live(d, goal) && pos <= |inp|
  {
    if !d.phase.Running? then ShortRep
    else
      PayKeeps(d, goal);
      var e := Pay(d, goal);
      if e.owed == 0 && SymbolAt(e, inp, pos).Hit? then SymbolAt(e, inp, pos).symbol else ShortRep
  }

  lemma TurnState(d: Dec, inp: seq<byte>, pos: nat, goal: nat, fin: Finish, h: seq<Symbol>)
    requires Live(d, goal) && pos <= |inp| && Known(d, h)
    ensures var t := TakeTurn(d, inp, pos, goal, fin);
            match t
            case Went(f, _) => Known(f, h + [TurnSymbol(d, inp, pos, goal)])
            case _ => Known(t.dec, h)
  {
    if d.phase.Running? {
      PayKeeps(d, goal);
      PaidKnown(d, goal, h);
      var e := Pay(d, goal);
      hide Stands, Remembers, FullOutput, Expanded, Pay, Known, Apply, Copy;
      if !StopsAtLimit(e, goal, fin) {
        SymbolKeeps(e, inp, pos);
        var w := SymbolAt(e, inp, pos);
        if w.Hit? && !SymbolTurn(e, w, goal).Refused? { StepKnown(e, w, goal, h); }
      }
    }
  }

  lemma PaidKnown(d: Dec, goal: nat, h: seq<Symbol>)
    requires DecOk(d) && d.phase.Running? && |d.out| <= goal && Known(d, h)
    ensures RepsOk(d) && (d.owed > 0 ==> d.out != []) && Pay(d, goal).phase.Running? && Known(Pay(d, goal), h)
  {
    hide Copy;
    if d.owed > 0 { CopyOwes(d, d.owed, goal); }
  }

  lemma StepKnown(e: Dec, w: Res, goal: nat, h: seq<Symbol>)
    requires DecOk(e) && e.phase.Running? && e.owed == 0 && |e.out| <= goal && w.Hit? && Legal(e, w.symbol)
             && Known(e, h)
    ensures var f := Stepped(e, w, goal);
            if f.phase.Broken? then Known(f, h) else Known(f, h + [w.symbol])
  {
    var a := Advanced(e, w);
    hide Stands, Apply, Expanded;
    SamePlace(e, a, h);
    StateAfter(a, w.symbol, goal, h);
    RemembersAfter(a, w.symbol, goal, h);
    OutputAfter(a, w.symbol, goal, h);
  }

  lemma SamePlace(e: Dec, a: Dec, h: seq<Symbol>)
    requires a == e.(range := a.range, code := a.code, probs := a.probs) && Remembers(e, h)
    ensures Remembers(a, h) && FullOutput(a) == FullOutput(e)
  {
  }

  lemma OneTurn(d: Dec, inp: seq<byte>, pos: nat, held: nat, goal: nat, fin: Finish)
    requires Live(d, goal) && pos <= |inp| && held <= |inp|
    ensures var t := TakeTurn(d, inp, pos, goal, fin);
            if t.Went? then
              Live(t.dec, goal) && pos <= t.end <= |inp| && Effort(t.dec, goal) < Effort(d, goal)
              && Drive(d, inp, pos, held, goal, fin) == Drive(t.dec, inp, t.end, held, goal, fin)
              && Decoded(d, inp, pos, goal, fin) ==
                 [TurnSymbol(d, inp, pos, goal)] + Decoded(t.dec, inp, t.end, goal, fin)
            else Drive(d, inp, pos, held, goal, fin).dec == t.dec && Decoded(d, inp, pos, goal, fin) == []
  {
    TurnKeeps(d, inp, pos, goal, fin);
    hide TakeTurn, TurnSymbol;
  }

  lemma {:induction false} DriveState(d: Dec, inp: seq<byte>, pos: nat, held: nat, goal: nat, fin: Finish,
                                      h: seq<Symbol>)
    requires Live(d, goal) && pos <= |inp| && held <= |inp| && Known(d, h)
    ensures Known(Drive(d, inp, pos, held, goal, fin).dec, h + Decoded(d, inp, pos, goal, fin))
    decreases Effort(d, goal)
  {
    hide Known, TurnSymbol, Drive, Decoded, TakeTurn, Effort, Live;
    OneTurn(d, inp, pos, held, goal, fin);
    TurnState(d, inp, pos, goal, fin, h);
    var t := TakeTurn(d, inp, pos, goal, fin);
    if t.Went? {
      var s := TurnSymbol(d, inp, pos, goal);
      EffortPositive(d, goal);
      DriveState(t.dec, inp, t.end, held, goal, fin, h + [s]);
      assert (h + [s]) + Decoded(t.dec, inp, t.end, goal, fin) == h + ([s] + Decoded(t.dec, inp, t.end, goal, fin));
    } else {
      assert h + [] == h;
    }
  }

  lemma EffortPositive(d: Dec, goal: nat)
    requires Live(d, goal)
    ensures Effort(d, goal) >= 0
  {
  }

  // ---- over calls ----

  /** The symbols of one call. */
  ghost function FeedSymbols(d: Dec, held: seq<byte>, src: seq<byte>, goal: nat, fin: Finish): seq<Symbol>
    requires DecOk(d) && |d.out| <= goal && (d.phase.Header? ==> |held| <= RC_INIT_SIZE)
  {
    var inp := held + src;
    if d.phase.Broken? then []
    else if !d.phase.Header? then Decoded(d, inp, 0, goal, fin)
    else if |inp| < RC_INIT_SIZE || inp[0] != 0 || HeaderCode(inp) >= BAD_REP_CODE then []
    else
      StartedOk(d.props, HeaderCode(inp));
      Decoded(Started(d.props, HeaderCode(inp)), inp, RC_INIT_SIZE, goal, fin)
  }

  lemma FeedState(d: Dec, held: seq<byte>, src: seq<byte>, goal: nat, fin: Finish, h: seq<Symbol>)
    requires DecOk(d) && |d.out| <= goal && (d.phase.Header? ==> |held| <= RC_INIT_SIZE && h == []) && Known(d, h)
    ensures var r := Feed(d, held, src, goal, fin).dec;
            var more := h + FeedSymbols(d, held, src, goal, fin);
            Known(r, more) && (r.phase.Header? ==> more == [])
  {
    var inp := held + src;
    hide Drive, Decoded;
    assert h + [] == h;
    if d.phase.Header? {
      if |inp| >= RC_INIT_SIZE && inp[0] == 0 && HeaderCode(inp) < BAD_REP_CODE {
        var s := Started(d.props, HeaderCode(inp));
        StartedOk(d.props, HeaderCode(inp));
        DriveState(s, inp, RC_INIT_SIZE, RC_INIT_SIZE, goal, fin, h);
        DriveKeeps(s, inp, RC_INIT_SIZE, RC_INIT_SIZE, goal, fin);
      }
    } else if !d.phase.Broken? {
      DriveState(d, inp, 0, |held|, goal, fin, h);
      DriveKeeps(d, inp, 0, |held|, goal, fin);
    }
  }

  /** One call of a decoder: a piece of input, how far the output may go, and how it is to end. */
  datatype Call = Call(src: seq<byte>, goal: nat, fin: Finish)

  /** A decoder, the bytes it holds, and every symbol it has decoded. */
  datatype Life = Life(dec: Dec, held: seq<byte>, symbols: seq<Symbol>)

  ghost predicate LifeOk(l: Life) {
    DecOk(l.dec) && Known(l.dec, l.symbols) && (l.dec.phase.Header? ==> |l.held| <= RC_INIT_SIZE && l.symbols == [])
  }

  /** A call under a limit that was already passed is none. */
  ghost function Called(l: Life, c: Call): Life
    requires LifeOk(l)
  {
    if |l.dec.out| > c.goal then l
    else
      var r := Feed(l.dec, l.held, c.src, c.goal, c.fin);
      Life(r.dec, r.held, l.symbols + FeedSymbols(l.dec, l.held, c.src, c.goal, c.fin))
  }

  lemma CallKeeps(l: Life, c: Call)
    requires LifeOk(l)
    ensures LifeOk(Called(l, c))
  {
    hide Feed, FeedSymbols, Known;
    if |l.dec.out| <= c.goal {
      FeedKeeps(l.dec, l.held, c.src, c.goal, c.fin);
      FeedState(l.dec, l.held, c.src, c.goal, c.fin, l.symbols);
    }
  }

  ghost function AfterCalls(p: Props, calls: seq<Call>): (l: Life)
    requires PropsOk(p)
    ensures LifeOk(l)
  {
    if calls == [] then Life(Blank(p), [], [])
    else
      CallKeeps(AfterCalls(p, calls[..|calls| - 1]), calls[|calls| - 1]);
      Called(AfterCalls(p, calls[..|calls| - 1]), calls[|calls| - 1])
  }

  /**
   Over any calls of a decoder, whatever the input, the limits and the pieces: its state says exactly which kinds the
   last symbols had (a literal was last exactly in the states below seven), it remembers the four distances used last,
   and its output with what it owes is the text that its symbols stand for.
   */
  lemma StatesOverCalls(p: Props, calls: seq<Call>)
    requires PropsOk(p)
    ensures var l := AfterCalls(p, calls); l.dec.phase.Finished? ==> l.dec.out == Expanded(l.symbols)
    ensures var l := AfterCalls(p, calls);
            l.dec.phase.Running? ==>
              Stands(l.dec.state, l.symbols) && Remembers(l.dec, l.symbols)
              && FullOutput(l.dec) == Expanded(l.symbols) && l.dec.out <= Expanded(l.symbols)
              && (l.dec.state < NUM_LIT_STATES <==> l.symbols == [] || l.symbols[|l.symbols| - 1].Literal?)
  {
    var l := AfterCalls(p, calls);
    LifeKnown(l);
    hide AfterCalls, Expanded, Recent, Remembers, FullOutput, Stands, DecOk, Known;
    if l.dec.phase.Running? { LastWasLiteral(l.symbols, l.dec.state); }
  }

  lemma LastWasLiteral(h: seq<Symbol>, s: nat)
    requires Stands(s, h)
    ensures s < NUM_LIT_STATES <==> h == [] || h[|h| - 1].Literal?
  {
    LiteralStates(h, s);
  }

  lemma LifeKnown(l: Life)
    requires LifeOk(l)
    ensures l.dec.phase.Finished? ==> l.dec.out == Expanded(l.symbols)
    ensures l.dec.phase.Running? ==>
              Stands(l.dec.state, l.symbols) && Remembers(l.dec, l.symbols)
              && FullOutput(l.dec) == Expanded(l.symbols) && l.dec.out <= Expanded(l.symbols)
  {
    hide Expanded, Recent, Stands, Copy;
  }
}
