/** What the answer of a call means, and what the finish mode changes (LzmaDec.h, ELzmaFinishMode and ELzmaStatus). */
module LzmaAnswers {
  import opened Bits
  import opened LzmaStream
  import opened LzmaChunks

  /** The state and the limit behind each answer of a call that had `all` bytes at hand. */
  predicate Meant(r: Outcome, goal: nat, fin: Finish, all: nat) {
    var full := |r.dec.out| == goal;
    match r.status
    case FinishedWithMark => r.res.Ok? && r.dec.phase.Finished? && r.dec.code == 0
    case MaybeFinishedWithoutMark =>
      r.res.Ok? && r.dec.phase.Running? && full && r.dec.owed == 0 && r.dec.code == 0
    case NeedsMoreInput =>
      r.res.Ok? && r.taken == all
      && (r.dec.phase.Header?
          || (r.dec.phase.Running? && r.dec.owed == 0 && (full ==> fin.FinishEnd? && r.dec.code != 0)))
    case NotFinished =>
      r.dec.phase.Running? && full && (r.dec.owed != 0 || r.dec.code != 0)
      && r.res == if fin.FinishAny? then Ok else ErrorData
    case NotSpecified => r.res.ErrorData?
  }

  predicate TurnMeant(t: Turn, goal: nat, fin: Finish) {
    match t
    case Halted(e, res, status) => !status.NeedsMoreInput? && Meant(Outcome(e, 0, [], res, status), goal, fin, 0)
    case Starved(e) => e.phase.Running? && e.owed == 0 && (|e.out| == goal ==> fin.FinishEnd? && e.code != 0)
    case Refused(e, _) => e.phase.Running? && |e.out| == goal && fin.FinishEnd? && e.code != 0
    case _ => true
  }

  lemma TurnMeans(d: Dec, inp: seq<byte>, pos: nat, goal: nat, fin: Finish)
    requires Live(d, goal) && pos <= |inp|
    ensures TurnMeant(TakeTurn(d, inp, pos, goal, fin), goal, fin)
  {
    hide Stepped;
    if d.phase.Running? {
      PayKeeps(d, goal);
      SymbolKeeps(Pay(d, goal), inp, pos);
    }
    hide SymbolAt, DecOk, Pay;
  }

  lemma LastTurnMeans(d: Dec, inp: seq<byte>, pos: nat, held: nat, goal: nat, fin: Finish)
    requires Live(d, goal) && pos <= |inp| && held <= |inp| && !TakeTurn(d, inp, pos, goal, fin).Went?
    ensures Meant(Drive(d, inp, pos, held, goal, fin), goal, fin, |inp|)
  {
    hide TakeTurn, DecOk, Effort, RepsOk;
    TurnKeeps(d, inp, pos, goal, fin);
    TurnMeans(d, inp, pos, goal, fin);
  }

  lemma {:induction false} DriveMeans(d: Dec, inp: seq<byte>, pos: nat, held: nat, goal: nat, fin: Finish)
    requires Live(d, goal) && pos <= |inp| && held <= |inp|
    ensures Meant(Drive(d, inp, pos, held, goal, fin), goal, fin, |inp|)
    decreases Effort(d, goal)
  {
    hide TakeTurn, Meant;
    TurnKeeps(d, inp, pos, goal, fin);
    var t := TakeTurn(d, inp, pos, goal, fin);
    if t.Went? {
      DriveMeans(t.dec, inp, t.end, held, goal, fin);
    } else {
      LastTurnMeans(d, inp, pos, held, goal, fin);
    }
  }

  /** Every answer of every call means what it says. */
  lemma AnswersMean(d: Dec, held: seq<byte>, src: seq<byte>, goal: nat, fin: Finish)
    requires DecOk(d) && |d.out| <= goal && (d.phase.Header? ==> |held| <= RC_INIT_SIZE)
    ensures Meant(Feed(d, held, src, goal, fin), goal, fin, |held + src|)
  {
    hide Drive;
    var inp := held + src;
    if d.phase.Header? {
      if |inp| >= RC_INIT_SIZE && inp[0] == 0 && HeaderCode(inp) < BAD_REP_CODE {
        StartedOk(d.props, HeaderCode(inp));
        DriveMeans(Started(d.props, HeaderCode(inp)), inp, RC_INIT_SIZE, RC_INIT_SIZE, goal, fin);
      }
    } else if !d.phase.Broken? {
      DriveMeans(d, inp, 0, |held|, goal, fin);
    }
  }

  /** The finish mode changes a turn only when there is no room and the stream has not ended. */
  lemma TurnModes(d: Dec, inp: seq<byte>, pos: nat, goal: nat)
    requires Live(d, goal) && pos <= |inp|
    ensures var t := TakeTurn(d, inp, pos, goal, FinishAny);
            TakeTurn(d, inp, pos, goal, FinishEnd) == t || (t.Halted? && t.res.Ok? && t.status.NotFinished?)
  {
    hide SymbolAt, Pay;
    if d.phase.Running? { PayKeeps(d, goal); }
  }

  lemma {:induction false} DriveModes(d: Dec, inp: seq<byte>, pos: nat, held: nat, goal: nat)
    requires Live(d, goal) && pos <= |inp| && held <= |inp|
    ensures var r := Drive(d, inp, pos, held, goal, FinishAny);
            Drive(d, inp, pos, held, goal, FinishEnd) == r || r.status.NotFinished?
    decreases Effort(d, goal)
  {
    hide TakeTurn;
    TurnKeeps(d, inp, pos, goal, FinishAny);
    TurnModes(d, inp, pos, goal);
    var t := TakeTurn(d, inp, pos, goal, FinishAny);
    if t.Went? { DriveModes(t.dec, inp, t.end, held, goal); }
  }

  /**
   The finish mode has a meaning only at the limit: LZMA_FINISH_END answers differently from LZMA_FINISH_ANY exactly
   when the latter says that the stream is not finished, and that it says only when there is no room left.
   */
  lemma ModesDifferAtLimit(d: Dec, held: seq<byte>, src: seq<byte>, goal: nat)
    requires DecOk(d) && |d.out| <= goal && (d.phase.Header? ==> |held| <= RC_INIT_SIZE)
    ensures var r := Feed(d, held, src, goal, FinishAny);
            (Feed(d, held, src, goal, FinishEnd) == r <==> !r.status.NotFinished?)
            && (r.status.NotFinished? ==> |r.dec.out| == goal)
  {
    hide Drive;
    AnswersMean(d, held, src, goal, FinishAny);
    AnswersMean(d, held, src, goal, FinishEnd);
    var inp := held + src;
    if d.phase.Header? {
      if |inp| >= RC_INIT_SIZE && inp[0] == 0 && HeaderCode(inp) < BAD_REP_CODE {
        StartedOk(d.props, HeaderCode(inp));
        DriveModes(Started(d.props, HeaderCode(inp)), inp, RC_INIT_SIZE, RC_INIT_SIZE, goal);
      }
    } else if !d.phase.Broken? {
      DriveModes(d, inp, 0, |held|, goal);
    }
  }
}
