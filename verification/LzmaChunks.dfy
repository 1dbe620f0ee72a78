/** Feeding the decoder in pieces: any split of the input gives what one call with all of it gives. */
module LzmaChunks {
  import opened Bits
  import opened LzmaCoder
  import opened LzmaWalk
  import opened LzmaLookahead
  import opened LzmaStream

  function Later(o: Outcome, k: int): Outcome
    requires o.taken + k >= 0
  {
    o.(taken := o.taken + k)
  }

  lemma SymbolInWindow(d: Dec, a: seq<byte>, i: nat, b: seq<byte>, j: nat)
    requires DecOk(d) && d.phase.Running? && i <= |a| && Windows(a, i, b, j)
    ensures var w := SymbolAt(d, a, i); w.Hit? ==> w.rc.pos >= i && SymbolAt(d, b, j) == Shifted(w, i, j)
  {
    CtxFits(d);
    WholeInWindow(CtxOf(d), Coder(d.range, d.code, i), d.probs, a, i, b, j, true);
  }

  lemma SymbolOnPrefix(d: Dec, a: seq<byte>, b: seq<byte>, pos: nat)
    requires DecOk(d) && d.phase.Running? && a <= b && pos <= |b|
    ensures var w := SymbolAt(d, b, pos); w.Hit? && w.rc.pos <= |a| ==> SymbolAt(d, a, pos) == w
  {
    CtxFits(d);
    WholeOnPrefix(CtxOf(d), Coder(d.range, d.code, pos), d.probs, a, b, true);
  }

  lemma TurnIgnoresRest(d: Dec, a: seq<byte>, b: seq<byte>, pos: nat, goal: nat, fin: Finish)
    requires Live(d, goal) && pos <= |a| && !TakeTurn(d, a, pos, goal, fin).Starved?
    ensures TakeTurn(d, a + b, pos, goal, fin) == TakeTurn(d, a, pos, goal, fin)
  {
    if d.phase.Running? {
      PayKeeps(d, goal);
      var e := Pay(d, goal);
      if !StopsAtLimit(e, goal, fin) {
        SymbolInWindow(e, a, pos, a + b, pos);
      }
    }
  }

  lemma LastTurnIgnoresRest(d: Dec, a: seq<byte>, b: seq<byte>, pos: nat, held: nat, goal: nat, fin: Finish)
    requires Live(d, goal) && pos <= |a| && held <= |a|
    requires !TakeTurn(d, a, pos, goal, fin).Went? && !Drive(d, a, pos, held, goal, fin).status.NeedsMoreInput?
    ensures Drive(d, a + b, pos, held, goal, fin) == Drive(d, a, pos, held, goal, fin)
  {
    hide TakeTurn, DecOk;
    TurnKeeps(d, a, pos, goal, fin);
    TurnIgnoresRest(d, a, b, pos, goal, fin);
    var t := TakeTurn(d, a, pos, goal, fin);
    if t.Halted? && pos < held { assert (a + b)[pos..held] == a[pos..held]; }
    if t.Refused? { assert (a + b)[pos..t.end] == a[pos..t.end]; }
  }

  /** Input behind the stopping point of a call changes nothing. */
  lemma {:induction false} DriveIgnoresRest(d: Dec, a: seq<byte>, b: seq<byte>, pos: nat, held: nat, goal: nat,
                                            fin: Finish)
    requires Live(d, goal) && pos <= |a| && held <= |a|
    requires !Drive(d, a, pos, held, goal, fin).status.NeedsMoreInput?
    ensures Drive(d, a + b, pos, held, goal, fin) == Drive(d, a, pos, held, goal, fin)
    decreases Effort(d, goal)
  {
    hide TakeTurn, DecOk;
    TurnKeeps(d, a, pos, goal, fin);
    var t := TakeTurn(d, a, pos, goal, fin);
    if t.Went? {
      TurnIgnoresRest(d, a, b, pos, goal, fin);
      DriveIgnoresRest(t.dec, a, b, t.end, held, goal, fin);
    } else {
      LastTurnIgnoresRest(d, a, b, pos, held, goal, fin);
    }
  }

  function MovedTurn(t: Turn, i: nat, j: nat): Turn
    requires (t.Refused? || t.Failed? || t.Went?) ==> t.end >= i
  {
    match t
    case Refused(d, end) => Refused(d, end - i + j)
    case Failed(d, end) => Failed(d, end - i + j)
    case Went(d, end) => Went(d, end - i + j)
    case _ => t
  }

  lemma SameTailWindows(a: seq<byte>, i: nat, b: seq<byte>, j: nat)
    requires i <= |a| && j <= |b| && a[i..] == b[j..]
    ensures Windows(a, i, b, j) && Windows(b, j, a, i)
  {
    forall t | i <= t < |a| ensures a[t] == b[t - i + j] { assert a[i..][t - i] == b[j..][t - i]; }
    forall t | j <= t < |b| ensures b[t] == a[t - j + i] { assert a[i..][t - j] == b[j..][t - j]; }
  }

  lemma TurnMoves(d: Dec, a: seq<byte>, i: nat, b: seq<byte>, j: nat, goal: nat, fin: Finish)
    requires Live(d, goal) && i <= |a| && j <= |b| && a[i..] == b[j..]
    ensures var t := TakeTurn(d, a, i, goal, fin);
            ((t.Refused? || t.Failed? || t.Went?) ==> t.end >= i)
            && TakeTurn(d, b, j, goal, fin) == MovedTurn(t, i, j)
  {
    TurnKeeps(d, a, i, goal, fin);
    SameTailWindows(a, i, b, j);
    if d.phase.Running? {
      PayKeeps(d, goal);
      var e := Pay(d, goal);
      if !StopsAtLimit(e, goal, fin) {
        SymbolKeeps(e, a, i);
        SymbolKeeps(e, b, j);
        SymbolInWindow(e, a, i, b, j);
        SymbolInWindow(e, b, j, a, i);
        SymbolTurnMoves(e, SymbolAt(e, a, i), i, j, goal);
      }
    }
  }

  lemma SymbolTurnMoves(e: Dec, w: Res, i: nat, j: nat, goal: nat)
    requires RepsOk(e) && |e.out| <= goal && (w.Hit? ==> Legal(e, w.symbol) && w.rc.pos >= i)
    ensures SymbolTurn(e, Shifted(w, i, j), goal) == MovedTurn(SymbolTurn(e, w, goal), i, j)
  {
    if w.Hit? { assert Advanced(e, Shifted(w, i, j)) == Advanced(e, w); }
  }

  lemma SameTailDeeper(a: seq<byte>, i: nat, b: seq<byte>, j: nat, k: nat)
    requires i <= |a| && j <= |b| && a[i..] == b[j..] && k <= |a| - i
    ensures |a| - i == |b| - j && a[i + k..] == b[j + k..] && a[i..i + k] == b[j..j + k]
  {
    assert a[i..][k..] == a[i + k..] && b[j..][k..] == b[j + k..];
    assert a[i..][..k] == a[i..i + k] && b[j..][..k] == b[j..j + k];
  }

  /** Nothing held lies ahead in either buffer, or equally much in both. */
  predicate SameHeld(na: nat, i: nat, ha: nat, nb: nat, j: nat, hb: nat) {
    ha <= na && hb <= nb && ((ha <= i && hb <= j) || ha - i == hb - j)
  }

  lemma LastTurnMoves(d: Dec, a: seq<byte>, i: nat, ha: nat, b: seq<byte>, j: nat, hb: nat, goal: nat, fin: Finish)
    requires Live(d, goal) && i <= |a| && j <= |b| && a[i..] == b[j..] && SameHeld(|a|, i, ha, |b|, j, hb)
    requires !TakeTurn(d, a, i, goal, fin).Went?
    ensures Drive(d, b, j, hb, goal, fin).taken >= j
    ensures Drive(d, a, i, ha, goal, fin) == Later(Drive(d, b, j, hb, goal, fin), i - j)
  {
    hide TakeTurn, DecOk;
    TurnKeeps(d, a, i, goal, fin);
    TurnMoves(d, a, i, b, j, goal, fin);
    SameTailDeeper(a, i, b, j, 0);
    var t := TakeTurn(d, a, i, goal, fin);
    if t.Refused? { SameTailDeeper(a, i, b, j, t.end - i); }
    if t.Halted? && i < ha { SameTailDeeper(a, i, b, j, ha - i); }
  }

  /** The main loop depends on the bytes ahead of it, not on where they stand. */
  lemma {:induction false} DriveMoves(d: Dec, a: seq<byte>, i: nat, ha: nat, b: seq<byte>, j: nat, hb: nat,
                                      goal: nat, fin: Finish)
    requires Live(d, goal) && i <= |a| && j <= |b| && a[i..] == b[j..] && SameHeld(|a|, i, ha, |b|, j, hb)
    ensures Drive(d, b, j, hb, goal, fin).taken >= j
    ensures Drive(d, a, i, ha, goal, fin) == Later(Drive(d, b, j, hb, goal, fin), i - j)
    decreases Effort(d, goal)
  {
    hide TakeTurn;
    var t := TakeTurn(d, a, i, goal, fin);
    if t.Went? {
      TurnKeeps(d, a, i, goal, fin);
      TurnMoves(d, a, i, b, j, goal, fin);
      SameTailDeeper(a, i, b, j, t.end - i);
      TurnKeeps(d, b, j, goal, fin);
      DriveMoves(t.dec, a, t.end, ha, b, t.end - i + j, hb, goal, fin);
    } else {
      LastTurnMoves(d, a, i, ha, b, j, hb, goal, fin);
    }
  }

  /** The turn that starved on `a`, taken again with more input, does not end inside `a`. */
  lemma TurnAfterStarving(d: Dec, a: seq<byte>, b: seq<byte>, pos: nat, goal: nat, fin: Finish)
    requires Live(d, goal) && pos <= |a| && TakeTurn(d, a, pos, goal, fin).Starved?
    ensures var e, t := TakeTurn(d, a, pos, goal, fin).dec, TakeTurn(d, a + b, pos, goal, fin);
            Live(e, goal) && e.phase.Running? && !t.Halted? && (t.Refused? || t.Failed? || t.Went? ==> t.end > |a|)
            && TakeTurn(e, a + b, pos, goal, fin) == t
  {
    TurnKeeps(d, a, pos, goal, fin);
    PayKeeps(d, goal);
    var e := Pay(d, goal);
    PayKeeps(e, goal);
    SymbolKeeps(e, a, pos);
    SymbolOnPrefix(e, a, a + b, pos);
  }

  /** A call that asked for more input, followed by a call with more, is one call with all of it. */
  lemma {:induction false} DriveResumes(d: Dec, a: seq<byte>, b: seq<byte>, pos: nat, held: nat, goal: nat, fin: Finish)
    requires Live(d, goal) && pos <= |a| && held <= |a|
    requires Drive(d, a, pos, held, goal, fin).status.NeedsMoreInput?
    ensures var r := Drive(d, a, pos, held, goal, fin);
            r.taken == |a| && |r.held| <= |a| && r.held == a[|a| - |r.held|..] && Live(r.dec, goal)
            && r.dec.phase.Running?
            && Drive(d, a + b, pos, held, goal, fin)
               == Later(Drive(r.dec, r.held + b, 0, |r.held|, goal, fin), |a| - |r.held|)
    decreases Effort(d, goal)
  {
    hide TakeTurn;
    TurnKeeps(d, a, pos, goal, fin);
    var t := TakeTurn(d, a, pos, goal, fin);
    if t.Went? {
      TurnIgnoresRest(d, a, b, pos, goal, fin);
      DriveResumes(t.dec, a, b, t.end, held, goal, fin);
    } else {
      StarvedResumes(d, a, b, pos, held, goal, fin);
    }
  }

  lemma StarvedResumes(d: Dec, a: seq<byte>, b: seq<byte>, pos: nat, held: nat, goal: nat, fin: Finish)
    requires Live(d, goal) && pos <= |a| && held <= |a| && TakeTurn(d, a, pos, goal, fin).Starved?
    ensures var e := TakeTurn(d, a, pos, goal, fin).dec;
            Live(e, goal) && e.phase.Running?
            && Drive(d, a + b, pos, held, goal, fin) == Later(Drive(e, a[pos..] + b, 0, |a| - pos, goal, fin), pos)
  {
    hide DecOk, Effort, TakeTurn;
    var e, h := TakeTurn(d, a, pos, goal, fin).dec, a[pos..];
    TurnAfterStarving(d, a, b, pos, goal, fin);
    assert (a + b)[pos..] == h + b == (h + b)[0..];
    TurnMoves(e, a + b, pos, h + b, 0, goal, fin);
    var t := TakeTurn(d, a + b, pos, goal, fin);
    TurnKeeps(d, a + b, pos, goal, fin);
    if t.Refused? {
      SameTailDeeper(a + b, pos, h + b, 0, t.end - pos);
    } else if t.Went? {
      SameTailDeeper(a + b, pos, h + b, 0, t.end - pos);
      DriveMoves(t.dec, a + b, t.end, held, h + b, t.end - pos, |h|, goal, fin);
    }
  }

  lemma {:induction false} DriveKeeps(d: Dec, inp: seq<byte>, pos: nat, held: nat, goal: nat, fin: Finish)
    requires Live(d, goal) && pos <= |inp| && held <= |inp|
    ensures var r := Drive(d, inp, pos, held, goal, fin);
            DecOk(r.dec) && !r.dec.phase.Header? && d.out <= r.dec.out && |r.dec.out| <= goal && r.taken <= |inp|
            && !r.res.ErrorFail?
    decreases Effort(d, goal)
  {
    hide TakeTurn;
    TurnKeeps(d, inp, pos, goal, fin);
    var t := TakeTurn(d, inp, pos, goal, fin);
    if t.Went? { DriveKeeps(t.dec, inp, t.end, held, goal, fin); }
  }

  lemma StartedOk(p: Props, code: int)
    requires PropsOk(p) && 0 <= code < BAD_REP_CODE
    ensures DecOk(Started(p, code))
  {
  }

  /** The specification of a call never answers SZ_ERROR_FAIL, and never writes past the limit. */
  lemma FeedKeeps(d: Dec, held: seq<byte>, src: seq<byte>, goal: nat, fin: Finish)
    requires DecOk(d) && |d.out| <= goal && (d.phase.Header? ==> |held| <= RC_INIT_SIZE)
    ensures var r := Feed(d, held, src, goal, fin);
            DecOk(r.dec) && d.out <= r.dec.out && |r.dec.out| <= goal && r.taken <= |held| + |src|
            && (r.dec.phase.Header? ==> |r.held| <= RC_INIT_SIZE) && !r.res.ErrorFail?
  {
    hide Drive;
    var inp := held + src;
    if d.phase.Header? {
      if |inp| >= RC_INIT_SIZE && inp[0] == 0 && HeaderCode(inp) < BAD_REP_CODE {
        StartedOk(d.props, HeaderCode(inp));
        DriveKeeps(Started(d.props, HeaderCode(inp)), inp, RC_INIT_SIZE, RC_INIT_SIZE, goal, fin);
      }
    } else if !d.phase.Broken? {
      DriveKeeps(d, inp, 0, |held|, goal, fin);
    }
  }

  /** After NEEDS_MORE_INPUT nothing is lost: the next call goes on as if all the input had come at once. */
  lemma FeedResumes(d: Dec, held: seq<byte>, a: seq<byte>, b: seq<byte>, goal: nat, fin: Finish)
    requires DecOk(d) && |d.out| <= goal && (d.phase.Header? ==> |held| <= RC_INIT_SIZE)
    requires Feed(d, held, a, goal, fin).status.NeedsMoreInput?
    ensures var r := Feed(d, held, a, goal, fin);
            r.taken == |held| + |a| && |r.held| <= |held| + |a| && r.res.Ok?
            && DecOk(r.dec) && |r.dec.out| <= goal && (r.dec.phase.Header? ==> |r.held| <= RC_INIT_SIZE)
            && Feed(d, held, a + b, goal, fin)
               == Later(Feed(r.dec, r.held, b, goal, fin), |held| + |a| - |r.held|)
  {
    hide Drive;
    FeedKeeps(d, held, a, goal, fin);
    var inp := held + a;
    assert held + (a + b) == inp + b;
    if d.phase.Header? {
      if |inp| >= RC_INIT_SIZE {
        assert HeaderCode(inp + b) == HeaderCode(inp);
        StartedOk(d.props, HeaderCode(inp));
        DriveAnswers(Started(d.props, HeaderCode(inp)), inp, RC_INIT_SIZE, RC_INIT_SIZE, goal, fin);
        DriveResumes(Started(d.props, HeaderCode(inp)), inp, b, RC_INIT_SIZE, RC_INIT_SIZE, goal, fin);
      } else {
        assert inp[..|inp|] == inp;
      }
    } else {
      DriveAnswers(d, inp, 0, |held|, goal, fin);
      DriveResumes(d, inp, b, 0, |held|, goal, fin);
    }
  }

  lemma {:induction false} DriveAnswers(d: Dec, inp: seq<byte>, pos: nat, held: nat, goal: nat, fin: Finish)
    requires Live(d, goal) && pos <= |inp| && held <= |inp|
    ensures Drive(d, inp, pos, held, goal, fin).status.NeedsMoreInput? ==> Drive(d, inp, pos, held, goal, fin).res.Ok?
    decreases Effort(d, goal)
  {
    hide TakeTurn;
    TurnKeeps(d, inp, pos, goal, fin);
    var t := TakeTurn(d, inp, pos, goal, fin);
    if t.Went? { DriveAnswers(t.dec, inp, t.end, held, goal, fin); }
  }

  /** A stream whose first byte is not zero is refused before its five header bytes are complete. */
  predicate BadHeader(d: Dec, held: seq<byte>, src: seq<byte>) {
    d.phase.Header? && |held + src| > 0 && (held + src)[0] != 0
  }

  /** Any other answer is final: more input would not have changed it. */
  lemma FeedIgnoresRest(d: Dec, held: seq<byte>, a: seq<byte>, b: seq<byte>, goal: nat, fin: Finish)
    requires DecOk(d) && |d.out| <= goal && (d.phase.Header? ==> |held| <= RC_INIT_SIZE)
    requires !Feed(d, held, a, goal, fin).status.NeedsMoreInput? && !BadHeader(d, held, a)
    ensures Feed(d, held, a + b, goal, fin) == Feed(d, held, a, goal, fin)
  {
    hide Drive;
    var inp := held + a;
    assert held + (a + b) == inp + b;
    if d.phase.Header? {
      assert |inp| >= RC_INIT_SIZE;
      assert HeaderCode(inp + b) == HeaderCode(inp);
      assert (inp + b)[..RC_INIT_SIZE] == inp[..RC_INIT_SIZE];
      if HeaderCode(inp) < BAD_REP_CODE {
        StartedOk(d.props, HeaderCode(inp));
        DriveIgnoresRest(Started(d.props, HeaderCode(inp)), inp, b, RC_INIT_SIZE, RC_INIT_SIZE, goal, fin);
      }
    } else if !d.phase.Broken? {
      DriveIgnoresRest(d, inp, b, 0, |held|, goal, fin);
    }
  }

  function Joined(chunks: seq<seq<byte>>): seq<byte> {
    if chunks == [] then [] else chunks[0] + Joined(chunks[1..])
  }

  lemma FeedHolds(d: Dec, held: seq<byte>, a: seq<byte>, goal: nat, fin: Finish)
    requires DecOk(d) && |d.out| <= goal && (d.phase.Header? ==> |held| <= RC_INIT_SIZE)
    requires Feed(d, held, a, goal, fin).status.NeedsMoreInput?
    ensures var r := Feed(d, held, a, goal, fin);
            |r.held| <= |held| + |a|
            && DecOk(r.dec) && |r.dec.out| <= goal && (r.dec.phase.Header? ==> |r.held| <= RC_INIT_SIZE)
  {
    hide Feed;
    FeedResumes(d, held, a, [], goal, fin);
  }

  /** A caller that feeds one piece after the other until a call does not ask for more. */
  function FeedAll(d: Dec, held: seq<byte>, chunks: seq<seq<byte>>, goal: nat, fin: Finish): Outcome
    requires DecOk(d) && |d.out| <= goal && (d.phase.Header? ==> |held| <= RC_INIT_SIZE) && chunks != []
    decreases |chunks|
  {
    hide Feed;
    var r := Feed(d, held, chunks[0], goal, fin);
    if |chunks| == 1 || !r.status.NeedsMoreInput? then r
    else
      FeedHolds(d, held, chunks[0], goal, fin);
      Later(FeedAll(r.dec, r.held, chunks[1..], goal, fin), |held| + |chunks[0]| - |r.held|)
  }

  /** The bytes in hand at the first call that has any. */
  function FirstBite(held: seq<byte>, chunks: seq<seq<byte>>): nat
    requires chunks != []
  {
    if |chunks| == 1 || held + chunks[0] != [] then |held| + |chunks[0]| else FirstBite(held, chunks[1..])
  }

  /** Equal, except that a refused header may have been taken shorter. */
  predicate EqualUpToHeader(o: Outcome, p: Outcome, short: nat, long: nat) {
    o.dec == p.dec && o.res == p.res == ErrorData && o.status == p.status == NotSpecified
    && o.taken == Min(RC_INIT_SIZE, short) && p.taken == Min(RC_INIT_SIZE, long)
  }

  /**
   Chunk independence, for both finish modes: the output, the whole decoder state, the bytes held back, the answer
   and the bytes taken do not depend on how the input was split.
   */
  lemma {:induction false} ChunksAgree(d: Dec, held: seq<byte>, chunks: seq<seq<byte>>, goal: nat, fin: Finish)
    requires DecOk(d) && |d.out| <= goal && (d.phase.Header? ==> |held| <= RC_INIT_SIZE) && chunks != []
    requires !BadHeader(d, held, Joined(chunks))
    ensures FeedAll(d, held, chunks, goal, fin) == Feed(d, held, Joined(chunks), goal, fin)
    decreases |chunks|
  {
    hide Feed;
    var a, rest := chunks[0], chunks[1..];
    if |chunks| == 1 {
      assert Joined(chunks) == a + Joined([]) == a;
    } else {
      var r := Feed(d, held, a, goal, fin);
      assert held + Joined(chunks) == (held + a) + Joined(rest);
      if r.status.NeedsMoreInput? {
        FeedResumes(d, held, a, Joined(rest), goal, fin);
        StillGood(d, held, a, Joined(rest), goal, fin);
        ChunksAgree(r.dec, r.held, rest, goal, fin);
        FeedResumes(d, held, a, [], goal, fin);
      } else {
        FeedIgnoresRest(d, held, a, Joined(rest), goal, fin);
      }
    }
  }

  lemma StillGood(d: Dec, held: seq<byte>, a: seq<byte>, b: seq<byte>, goal: nat, fin: Finish)
    requires DecOk(d) && |d.out| <= goal && (d.phase.Header? ==> |held| <= RC_INIT_SIZE)
    requires !BadHeader(d, held, a + b) && Feed(d, held, a, goal, fin).status.NeedsMoreInput?
    ensures var r := Feed(d, held, a, goal, fin); !BadHeader(r.dec, r.held, b)
  {
    hide Drive;
    var inp := held + a;
    assert held + (a + b) == inp + b;
    if d.phase.Header? {
      if |inp| < RC_INIT_SIZE {
        assert inp[..|inp|] == inp;
      } else {
        StartedOk(d.props, HeaderCode(inp));
        DriveKeeps(Started(d.props, HeaderCode(inp)), inp, RC_INIT_SIZE, RC_INIT_SIZE, goal, fin);
      }
    } else if !d.phase.Broken? {
      DriveKeeps(d, inp, 0, |held|, goal, fin);
    }
  }

  /** With a bad header every split is refused alike; only the bytes taken depend on the first bite. */
  lemma {:induction false} BadHeaderChunks(d: Dec, held: seq<byte>, chunks: seq<seq<byte>>, goal: nat, fin: Finish)
    requires DecOk(d) && |d.out| <= goal && d.phase.Header? && |held| <= RC_INIT_SIZE && chunks != []
    requires BadHeader(d, held, Joined(chunks))
    ensures EqualUpToHeader(FeedAll(d, held, chunks, goal, fin), Feed(d, held, Joined(chunks), goal, fin),
                            FirstBite(held, chunks), |held| + |Joined(chunks)|)
    ensures FirstBite(held, chunks) <= |held| + |Joined(chunks)|
    decreases |chunks|
  {
    hide DecOk, HeaderCode, Drive;
    var a, rest := chunks[0], chunks[1..];
    if |chunks| == 1 {
      assert Joined(chunks) == a + Joined([]) == a;
    } else if held + a != [] {
      assert (held + a)[0] == (held + Joined(chunks))[0];
    } else {
      assert held == [] && a == [];
      assert Joined(chunks) == Joined(rest);
      assert Feed(d, held, a, goal, fin) == Outcome(d, 0, [], Ok, NeedsMoreInput);
      BadHeaderChunks(d, [], rest, goal, fin);
    }
  }

  /** Exactly when a split call and a whole call agree in everything. */
  lemma ChunksAgreeExactly(d: Dec, held: seq<byte>, chunks: seq<seq<byte>>, goal: nat, fin: Finish)
    requires DecOk(d) && |d.out| <= goal && (d.phase.Header? ==> |held| <= RC_INIT_SIZE) && chunks != []
    ensures FeedAll(d, held, chunks, goal, fin) == Feed(d, held, Joined(chunks), goal, fin)
            <==> !BadHeader(d, held, Joined(chunks))
                 || FirstBite(held, chunks) >= RC_INIT_SIZE
                 || FirstBite(held, chunks) == |held| + |Joined(chunks)|
  {
    if BadHeader(d, held, Joined(chunks)) {
      BadHeaderChunks(d, held, chunks, goal, fin);
      BadHeaderHeld(d, held, chunks, goal, fin);
    } else {
      ChunksAgree(d, held, chunks, goal, fin);
    }
  }

  lemma {:induction false} BadHeaderHeld(d: Dec, held: seq<byte>, chunks: seq<seq<byte>>, goal: nat, fin: Finish)
    requires DecOk(d) && |d.out| <= goal && d.phase.Header? && |held| <= RC_INIT_SIZE && chunks != []
    requires BadHeader(d, held, Joined(chunks))
    ensures FeedAll(d, held, chunks, goal, fin).taken == Feed(d, held, Joined(chunks), goal, fin).taken ==>
              FeedAll(d, held, chunks, goal, fin).held == Feed(d, held, Joined(chunks), goal, fin).held
    decreases |chunks|
  {
    hide Drive;
    var a, rest := chunks[0], chunks[1..];
    if |chunks| == 1 {
      assert Joined(chunks) == a + Joined([]) == a;
    } else if held + a != [] {
      assert held + Joined(chunks) == (held + a) + Joined(rest);
    } else {
      assert held == [] && a == [];
      assert Joined(chunks) == Joined(rest);
      assert Feed(d, held, a, goal, fin) == Outcome(d, 0, [], Ok, NeedsMoreInput);
      BadHeaderHeld(d, [], rest, goal, fin);
    }
  }

  /** An input that shows it: two bytes, the first not zero, in one piece or in two. */
  lemma SplitShows(p: Props, goal: nat, fin: Finish)
    requires PropsOk(p)
    ensures FeedAll(Blank(p), [], [[1], [0]], goal, fin) != Feed(Blank(p), [], Joined([[1], [0]]), goal, fin)
  {
    hide Feed, FeedAll;
    var chunks: seq<seq<byte>> := [[1], [0]];
    assert chunks[1..] == [[0]] && chunks[1..][1..] == [];
    assert Joined(chunks[1..]) == [0] + Joined([]) == [0];
    assert Joined(chunks) == [1] + [0] == [1, 0];
    assert [] + Joined(chunks) == [1, 0];
    assert [] + chunks[0] == [1];
    ChunksAgreeExactly(Blank(p), [], chunks, goal, fin);
  }
}
