/** Stopping at a nearer output limit and going on later is the same as having had the farther limit at once. */
module LzmaLimits {
  import opened Bits
  import opened LzmaStream
  import opened LzmaChunks
  import opened LzmaBound
  import opened LzmaLookahead

  /** Where the bytes a call held back begin: the position its next turn starts from. */
  function Resume(o: Outcome): int { o.taken - |o.held| }

  /** The call that stopped with outcome `r` under a nearer limit, taken up again under `goal`. */
  ghost predicate Continues(d: Dec, r: Outcome, inp: seq<byte>, pos: nat, held: nat, goal: nat, fin: Finish)
    requires Live(d, goal) && pos <= |inp| && held <= |inp|
  {
    if r.res.Ok? && !r.status.NeedsMoreInput? then
      Live(r.dec, goal) && 0 <= Resume(r) <= |inp| && r == Stop(r.dec, inp, Resume(r), held, Ok, r.status)
      && Drive(d, inp, pos, held, goal, fin) == Drive(r.dec, inp, Resume(r), held, goal, fin)
    else Drive(d, inp, pos, held, goal, fin) == r
  }

  lemma StopResumes(e: Dec, inp: seq<byte>, pos: nat, held: nat, res: SRes, status: Status)
    requires pos <= |inp| && held <= |inp|
    ensures var r := Stop(e, inp, pos, held, res, status);
            Resume(r) == pos && r == Stop(e, inp, Resume(r), held, res, status)
  {
  }

  lemma PayTwice(d: Dec, near: nat, goal: nat)
    requires DecOk(d) && d.phase.Running? && |d.out| <= near <= goal
    ensures Live(Pay(d, near), goal) && Pay(d, near).phase.Running? && RepsOk(Pay(d, near))
            && (Pay(d, near).owed > 0 ==> Pay(d, near).out != []) && Pay(Pay(d, near), goal) == Pay(d, goal)
    ensures |Pay(d, near).out| < near ==> Pay(d, near) == Pay(d, goal) && Pay(d, near).owed == 0
  {
    PayKeeps(d, near);
    PayKeeps(d, goal);
    if d.owed > 0 { PaySplit(d, d.owed, near, goal); }
  }

  lemma DriveEnds(d: Dec, inp: seq<byte>, pos: nat, held: nat, goal: nat, fin: Finish)
    requires Live(d, goal) && pos <= |inp| && held <= |inp|
    ensures var t, r := TakeTurn(d, inp, pos, goal, fin), Drive(d, inp, pos, held, goal, fin);
            match t
            case Halted(e, res, status) => r == Stop(e, inp, pos, held, res, status)
            case Starved(e) => r == Outcome(e, |inp|, inp[pos..], Ok, NeedsMoreInput)
            case Refused(e, end) =>
              pos <= end <= |inp| && r == Outcome(e, end, inp[pos..end], ErrorData, NotFinished)
            case Failed(f, end) => r == Outcome(f, end, [], ErrorData, NotSpecified)
            case Went(_, _) => true
  {
    TurnKeeps(d, inp, pos, goal, fin);
    hide TakeTurn;
  }

  lemma StoppedTurnContinues(e: Dec, inp: seq<byte>, pos: nat, held: nat, near: nat, goal: nat, fin: Finish)
    requires Live(e, near) && e.phase.Running? && near <= goal && pos <= |inp| && held <= |inp|
    requires Pay(e, near) == e && StopsAtLimit(e, near, FinishAny)
    ensures Continues(e, Drive(e, inp, pos, held, near, FinishAny), inp, pos, held, goal, fin)
  {
    hide Pay, Drive;
    DriveEnds(e, inp, pos, held, near, FinishAny);
    var t := LimitTurn(e, FinishAny);
    assert TakeTurn(e, inp, pos, near, FinishAny) == t;
    hide TakeTurn;
    StopResumes(e, inp, pos, held, t.res, t.status);
  }

  lemma LastSymbolContinues(e: Dec, inp: seq<byte>, pos: nat, held: nat, near: nat, goal: nat, fin: Finish)
    requires Live(e, near) && e.phase.Running? && near <= goal && pos <= |inp| && held <= |inp| && RepsOk(e)
    requires Pay(e, near) == e == Pay(e, goal) && |e.out| < near && e.owed == 0
    requires !TakeTurn(e, inp, pos, near, FinishAny).Went?
    ensures Continues(e, Drive(e, inp, pos, held, near, FinishAny), inp, pos, held, goal, fin)
  {
    hide Pay, Drive, SymbolAt, Stepped;
    SymbolKeeps(e, inp, pos);
    var w := SymbolAt(e, inp, pos);
    DriveEnds(e, inp, pos, held, near, FinishAny);
    DriveEnds(e, inp, pos, held, goal, fin);
    assert TakeTurn(e, inp, pos, near, FinishAny) == SymbolTurn(e, w, near);
    assert TakeTurn(e, inp, pos, goal, fin) == SymbolTurn(e, w, goal);
    hide TakeTurn;
    if w.Hit? { NearStep(e, w, near, goal); }
  }

  /** A turn that the nearer limit ends can be taken up again. */
  lemma LastTurnContinues(d: Dec, inp: seq<byte>, pos: nat, held: nat, near: nat, goal: nat, fin: Finish)
    requires Live(d, near) && d.phase.Running? && near <= goal && pos <= |inp| && held <= |inp|
    requires !TakeTurn(d, inp, pos, near, FinishAny).Went?
    ensures Continues(d, Drive(d, inp, pos, held, near, FinishAny), inp, pos, held, goal, fin)
  {
    hide Pay, Drive, Apply, SymbolAt;
    PayTwice(d, near, goal);
    PayKeeps(d, near);
    var e := Pay(d, near);
    SamePayDrives(d, e, inp, pos, held, near, FinishAny);
    SamePayDrives(d, e, inp, pos, held, goal, fin);
    if |e.out| < near {
      LastSymbolContinues(e, inp, pos, held, near, goal, fin);
    } else {
      StoppedTurnContinues(e, inp, pos, held, near, goal, fin);
    }
  }

  /** A turn that leads on under the nearer limit leads on to the same under the farther one. */
  lemma TurnContinues(d: Dec, inp: seq<byte>, pos: nat, held: nat, near: nat, goal: nat, fin: Finish)
    requires Live(d, near) && d.phase.Running? && near <= goal && pos <= |inp| && held <= |inp|
    requires TakeTurn(d, inp, pos, near, FinishAny).Went?
    ensures var t := TakeTurn(d, inp, pos, near, FinishAny);
            Live(t.dec, near) && t.end <= |inp| && Effort(t.dec, near) < Effort(d, near)
            && Drive(d, inp, pos, held, goal, fin) == Drive(t.dec, inp, t.end, held, goal, fin)
  {
    hide Pay;
    TurnKeeps(d, inp, pos, near, FinishAny);
    PayTwice(d, near, goal);
    PayKeeps(d, near);
    var e := Pay(d, near);
    SymbolKeeps(e, inp, pos);
    var w := SymbolAt(e, inp, pos);
    hide SymbolAt;
    NearStep(e, w, near, goal);
    SymbolTurnKeeps(e, w, goal);
    var f, g := Stepped(e, w, near), Stepped(e, w, goal);
    assert TakeTurn(d, inp, pos, goal, fin) == SymbolTurn(e, w, goal);
    if f.phase.Running? { SamePayDrives(f, g, inp, w.rc.pos, held, goal, fin); }
  }

  /** The main loop does not care in how many steps the output limit was moved to where it is. */
  lemma {:induction false} LimitsAgree(d: Dec, inp: seq<byte>, pos: nat, held: nat, near: nat, goal: nat, fin: Finish)
    requires Live(d, near) && near <= goal && pos <= |inp| && held <= |inp|
    ensures Continues(d, Drive(d, inp, pos, held, near, FinishAny), inp, pos, held, goal, fin)
    decreases Effort(d, near)
  {
    if d.phase.Finished? {
      hide SymbolAt;
      var t := TakeTurn(d, inp, pos, near, FinishAny);
      StopResumes(d, inp, pos, held, t.res, t.status);
    } else {
      hide TakeTurn, Continues;
      var t := TakeTurn(d, inp, pos, near, FinishAny);
      if t.Went? {
        TurnContinues(d, inp, pos, held, near, goal, fin);
        LimitsAgree(t.dec, inp, t.end, held, near, goal, fin);
        SameContinuation(d, t.dec, Drive(t.dec, inp, t.end, held, near, FinishAny), inp, pos, t.end, held, near, goal,
                         fin);
      } else {
        LastTurnContinues(d, inp, pos, held, near, goal, fin);
      }
    }
  }

  lemma SameContinuation(d: Dec, f: Dec, r: Outcome, inp: seq<byte>, pos: nat, end: nat, held: nat, near: nat,
                         goal: nat, fin: Finish)
    requires Live(d, near) && near <= goal && Live(f, near) && pos <= |inp| && end <= |inp| && held <= |inp|
    requires Drive(d, inp, pos, held, goal, fin) == Drive(f, inp, end, held, goal, fin)
    requires Continues(f, r, inp, end, held, goal, fin)
    ensures Continues(d, r, inp, pos, held, goal, fin)
  {
    hide Drive;
  }

  ghost predicate GoesOn(d: Dec, held: seq<byte>, src: seq<byte>, r: Outcome, goal: nat, fin: Finish)
    requires DecOk(d) && |d.out| <= goal && (d.phase.Header? ==> |held| <= RC_INIT_SIZE)
  {
    if r.res.Ok? then
      DecOk(r.dec) && |r.dec.out| <= goal && (r.dec.phase.Header? ==> |r.held| <= RC_INIT_SIZE)
      && |r.held| <= r.taken <= |held + src|
      && Feed(d, held, src, goal, fin)
         == Later(Feed(r.dec, r.held, (held + src)[r.taken..], goal, fin), r.taken - |r.held|)
    else Feed(d, held, src, goal, fin) == r
  }

  /** One call up to a nearer limit, then one with what is left up to the farther one, is one call. */
  lemma FeedLimits(d: Dec, held: seq<byte>, src: seq<byte>, near: nat, goal: nat, fin: Finish)
    requires DecOk(d) && |d.out| <= near <= goal && (d.phase.Header? ==> |held| <= RC_INIT_SIZE)
    ensures GoesOn(d, held, src, Feed(d, held, src, near, FinishAny), goal, fin)
  {
    hide Drive;
    var inp := held + src;
    if d.phase.Header? && |inp| >= RC_INIT_SIZE && inp[0] == 0 && HeaderCode(inp) < BAD_REP_CODE {
      HeaderGoesOn(d, held, src, near, goal, fin);
    } else if d.phase.Header? {
      RefusedHeaderGoesOn(d, held, src, near, goal, fin);
    } else if !d.phase.Broken? {
      FeedLimitsRunning(d, held, src, near, goal, fin);
    }
  }

  lemma RefusedHeaderGoesOn(d: Dec, held: seq<byte>, src: seq<byte>, near: nat, goal: nat, fin: Finish)
    requires DecOk(d) && |d.out| <= near <= goal && d.phase.Header? && |held| <= RC_INIT_SIZE
    requires var inp := held + src; !(|inp| >= RC_INIT_SIZE && inp[0] == 0 && HeaderCode(inp) < BAD_REP_CODE)
    ensures GoesOn(d, held, src, Feed(d, held, src, near, FinishAny), goal, fin)
  {
    hide Drive, HeaderCode;
    var inp := held + src;
    if |inp| < RC_INIT_SIZE {
      assert inp[..|inp|] == inp;
      assert inp + inp[|inp|..] == inp;
    }
  }

  lemma FeedLimitsRunning(d: Dec, held: seq<byte>, src: seq<byte>, near: nat, goal: nat, fin: Finish)
    requires DecOk(d) && |d.out| <= near <= goal && (d.phase.Running? || d.phase.Finished?)
    ensures GoesOn(d, held, src, Feed(d, held, src, near, FinishAny), goal, fin)
  {
    hide Drive, HeaderCode;
    var inp := held + src;
    DriveOn(d, inp, 0, |held|, near, goal, fin);
    var r := Drive(d, inp, 0, |held|, near, FinishAny);
    assert Feed(d, held, src, near, FinishAny) == r;
    assert Feed(d, held, src, goal, fin) == Drive(d, inp, 0, |held|, goal, fin);
    if r.res.Ok? { FeedIsDrive(r.dec, r.held, inp[r.taken..], goal, fin); }
  }

  lemma FeedIsDrive(d: Dec, held: seq<byte>, src: seq<byte>, goal: nat, fin: Finish)
    requires Live(d, goal)
    ensures Feed(d, held, src, goal, fin) == Drive(d, held + src, 0, |held|, goal, fin)
  {
    hide Drive;
  }

  lemma HeaderGoesOn(d: Dec, held: seq<byte>, src: seq<byte>, near: nat, goal: nat, fin: Finish)
    requires DecOk(d) && |d.out| <= near <= goal && d.phase.Header? && |held| <= RC_INIT_SIZE
    requires var inp := held + src; |inp| >= RC_INIT_SIZE && inp[0] == 0 && HeaderCode(inp) < BAD_REP_CODE
    ensures GoesOn(d, held, src, Feed(d, held, src, near, FinishAny), goal, fin)
  {
    hide Drive, HeaderCode;
    var inp := held + src;
    StartedOk(d.props, HeaderCode(inp));
    var e := Started(d.props, HeaderCode(inp));
    DriveOn(e, inp, RC_INIT_SIZE, RC_INIT_SIZE, near, goal, fin);
    var r := Drive(e, inp, RC_INIT_SIZE, RC_INIT_SIZE, near, FinishAny);
    if r.res.Ok? { FeedIsDrive(r.dec, r.held, inp[r.taken..], goal, fin); }
  }

  lemma DriveOn(d: Dec, inp: seq<byte>, pos: nat, held: nat, near: nat, goal: nat, fin: Finish)
    requires Live(d, near) && near <= goal && pos <= |inp| && held <= |inp|
    ensures var r := Drive(d, inp, pos, held, near, FinishAny);
            if r.res.Ok? then
              Live(r.dec, goal) && |r.held| <= r.taken <= |inp|
              && Drive(d, inp, pos, held, goal, fin)
                 == Later(Drive(r.dec, r.held + inp[r.taken..], 0, |r.held|, goal, fin), r.taken - |r.held|)
            else Drive(d, inp, pos, held, goal, fin) == r
  {
    hide Drive;
    LimitsAgree(d, inp, pos, held, near, goal, fin);
    var r := Drive(d, inp, pos, held, near, FinishAny);
    if r.status.NeedsMoreInput? {
      DriveAnswers(d, inp, pos, held, near, FinishAny);
      DriveAnswers(d, inp, pos, held, goal, fin);
      assert inp + [] == inp;
      DriveResumes(d, inp, [], pos, held, goal, fin);
      assert inp[r.taken..] == [];
    } else if r.res.Ok? {
      var rest := r.held + inp[r.taken..];
      assert inp[Resume(r)..] == rest == rest[0..];
      DriveMoves(r.dec, inp, Resume(r), held, rest, 0, |r.held|, goal, fin);
    }
  }

  lemma StarvedDrive(d: Dec, inp: seq<byte>, pos: nat, held: nat, goal: nat, fin: Finish)
    requires Live(d, goal) && d.phase.Running? && d.owed == 0 && pos <= |inp| && held <= |inp|
    requires !StopsAtLimit(d, goal, fin) && SymbolAt(d, inp, pos).Eof?
    ensures |inp| < pos + REQUIRED_INPUT_MAX
    ensures Drive(d, inp, pos, held, goal, fin) == Outcome(d, |inp|, inp[pos..], Ok, NeedsMoreInput)
  {
    SymbolKeeps(d, inp, pos);
    hide SymbolAt;
    assert TakeTurn(d, inp, pos, goal, fin) == Starved(d);
  }

  lemma HaltedDrive(d: Dec, inp: seq<byte>, held: nat, goal: nat, fin: Finish)
    requires Live(d, goal) && held <= |inp| && (d.phase.Running? ==> Pay(d, goal) == d && StopsAtLimit(d, goal, fin))
    ensures Drive(d, inp, 0, held, goal, fin)
            == var t := (if d.phase.Running? then LimitTurn(d, fin) else TakeTurn(d, inp, 0, goal, fin));
               Outcome(d, held, inp[0..held], t.res, t.status)
  {
    hide SymbolAt;
    assert inp[0..0] == [];
  }

  lemma RefusedDrive(d: Dec, inp: seq<byte>, pos: nat, held: nat, goal: nat, fin: Finish)
    requires Live(d, goal) && d.phase.Running? && d.owed == 0 && pos <= |inp| && held <= |inp|
    requires !StopsAtLimit(d, goal, fin) && SymbolAt(d, inp, pos).Hit? && |d.out| == goal
    requires !SymbolAt(d, inp, pos).symbol.Match?
    ensures var end := SymbolAt(d, inp, pos).rc.pos;
            pos <= end <= |inp| && end - pos <= REQUIRED_INPUT_MAX
            && Drive(d, inp, pos, held, goal, fin) == Outcome(d, end, inp[pos..end], ErrorData, NotFinished)
  {
    SymbolKeeps(d, inp, pos);
    hide SymbolAt;
    assert TakeTurn(d, inp, pos, goal, fin) == Refused(d, SymbolAt(d, inp, pos).rc.pos);
  }

  /** Bytes that do not make a symbol where they stand do not make one anywhere. */
  lemma EndsInside(d: Dec, inp: seq<byte>, pos: nat)
    requires DecOk(d) && d.phase.Running? && pos <= |inp| && SymbolAt(d, inp, pos).Eof?
    ensures Sound(d) && SymbolAt(d, inp[pos..], 0).Eof?
  {
    hide SymbolAt;
    SameTailWindows(inp[pos..], 0, inp, pos);
    SymbolInWindow(d, inp[pos..], 0, inp, pos);
  }

  lemma ExactlyOne(d: Dec, inp: seq<byte>, pos: nat)
    requires DecOk(d) && d.phase.Running? && pos <= |inp| && SymbolAt(d, inp, pos).Hit?
    ensures var end := SymbolAt(d, inp, pos).rc.pos;
            pos <= end <= |inp| && SymbolAt(d, inp[pos..end], 0) == Shifted(SymbolAt(d, inp, pos), pos, 0)
  {
    SymbolKeeps(d, inp, pos);
    hide SymbolAt;
    var end := SymbolAt(d, inp, pos).rc.pos;
    var cut := inp[..end];
    SymbolOnPrefix(d, cut, inp, pos);
    assert cut[pos..] == inp[pos..end] == inp[pos..end][0..];
    SameTailWindows(cut, pos, inp[pos..end], 0);
    SymbolInWindow(d, cut, pos, inp[pos..end], 0);
  }

  /** Why a call without an error stops short of its limit: the input ran out, or the end marker was seen. */
  ghost predicate StopsShort(r: Outcome, inp: seq<byte>) {
    if r.status.NeedsMoreInput? then
      DecOk(r.dec) && r.dec.phase.Running? && r.dec.owed == 0 && r.taken == |inp| && |r.held| <= |inp|
      && r.held == inp[|inp| - |r.held|..] && SymbolAt(r.dec, inp, |inp| - |r.held|).Eof?
    else
      DecOk(r.dec) && r.dec.phase.Finished? && r.dec.code == 0 && r.status == FinishedWithMark
  }

  lemma LastTurnStopsShort(d: Dec, inp: seq<byte>, pos: nat, held: nat, goal: nat, fin: Finish)
    requires Live(d, goal) && pos <= |inp| && held <= |inp| && !TakeTurn(d, inp, pos, goal, fin).Went?
    ensures var r := Drive(d, inp, pos, held, goal, fin); r.res.Ok? && |r.dec.out| < goal ==> StopsShort(r, inp)
  {
    TurnKeeps(d, inp, pos, goal, fin);
    if d.phase.Running? {
      PayKeeps(d, goal);
      SymbolKeeps(Pay(d, goal), inp, pos);
    }
    hide SymbolAt, DecOk, Pay;
  }

  lemma {:induction false} DriveStopsShort(d: Dec, inp: seq<byte>, pos: nat, held: nat, goal: nat, fin: Finish)
    requires Live(d, goal) && pos <= |inp| && held <= |inp|
    ensures var r := Drive(d, inp, pos, held, goal, fin); r.res.Ok? && |r.dec.out| < goal ==> StopsShort(r, inp)
    decreases Effort(d, goal)
  {
    hide TakeTurn, StopsShort;
    TurnKeeps(d, inp, pos, goal, fin);
    var t := TakeTurn(d, inp, pos, goal, fin);
    if t.Went? {
      DriveStopsShort(t.dec, inp, t.end, held, goal, fin);
    } else {
      LastTurnStopsShort(d, inp, pos, held, goal, fin);
    }
  }

  /** Asking again after such a stop gives the same answer, under any limit. */
  lemma StopsAgain(r: Outcome, inp: seq<byte>, goal: nat, fin: Finish)
    requires StopsShort(r, inp) && r.res.Ok? && |r.dec.out| <= goal && r.taken <= |inp|
    requires r.status.NeedsMoreInput? ==> |r.dec.out| < goal
    ensures Feed(r.dec, r.held, inp[r.taken..], goal, fin) == Outcome(r.dec, |r.held|, r.held, Ok, r.status)
  {
    hide SymbolAt, TakeTurn;
    FeedIsDrive(r.dec, r.held, inp[r.taken..], goal, fin);
    var all := r.held + inp[r.taken..];
    if r.status.NeedsMoreInput? {
      EndsInside(r.dec, inp, |inp| - |r.held|);
      assert all == r.held == all[0..];
      StarvedDrive(r.dec, all, 0, |r.held|, goal, fin);
    } else {
      FinishedTurn(r.dec, all, goal, fin);
      HaltedDrive(r.dec, all, |r.held|, goal, fin);
      assert all[0..|r.held|] == r.held;
    }
  }

  lemma FinishedTurn(d: Dec, inp: seq<byte>, goal: nat, fin: Finish)
    requires Live(d, goal) && d.phase.Finished? && d.code == 0
    ensures TakeTurn(d, inp, 0, goal, fin) == Halted(d, Ok, FinishedWithMark)
  {
  }

  /** A call that ended well short of its limit has nothing left to do: the same call again changes nothing. */
  lemma FeedAgain(d: Dec, held: seq<byte>, src: seq<byte>, near: nat, fin: Finish, goal: nat, fin': Finish)
    requires DecOk(d) && |d.out| <= near <= goal && (d.phase.Header? ==> |held| <= RC_INIT_SIZE)
    requires var r := Feed(d, held, src, near, fin); r.res.Ok? && |r.dec.out| < near
    ensures var r := Feed(d, held, src, near, fin);
            DecOk(r.dec) && (r.dec.phase.Header? ==> |r.held| <= RC_INIT_SIZE) && |r.held| <= r.taken <= |held + src|
            && Feed(r.dec, r.held, (held + src)[r.taken..], goal, fin') ==
                 Outcome(r.dec, |r.held|, r.held, Ok, r.status)
  {
    hide Drive, HeaderCode;
    FeedKeeps(d, held, src, near, fin);
    var inp := held + src;
    var r := Feed(d, held, src, near, fin);
    if d.phase.Header? && |inp| < RC_INIT_SIZE {
      assert inp[..|inp|] == inp;
      assert inp + inp[|inp|..] == inp;
    } else {
      FeedStopsShort(d, held, src, near, fin);
      StopsAgain(r, inp, goal, fin');
    }
  }

  lemma FeedStopsShort(d: Dec, held: seq<byte>, src: seq<byte>, goal: nat, fin: Finish)
    requires DecOk(d) && |d.out| <= goal && (d.phase.Header? ==> |held| <= RC_INIT_SIZE <= |held + src|)
    requires var r := Feed(d, held, src, goal, fin); r.res.Ok? && |r.dec.out| < goal
    ensures StopsShort(Feed(d, held, src, goal, fin), held + src)
    ensures var r := Feed(d, held, src, goal, fin); |r.held| <= r.taken
  {
    hide Drive, HeaderCode, StopsShort;
    var inp := held + src;
    if d.phase.Header? {
      StartedOk(d.props, HeaderCode(inp));
      DriveStopsShort(Started(d.props, HeaderCode(inp)), inp, RC_INIT_SIZE, RC_INIT_SIZE, goal, fin);
      DriveHolds(Started(d.props, HeaderCode(inp)), inp, RC_INIT_SIZE, RC_INIT_SIZE, goal, fin);
    } else {
      DriveStopsShort(d, inp, 0, |held|, goal, fin);
      DriveHolds(d, inp, 0, |held|, goal, fin);
    }
  }

  /** The held bytes are among those taken. */
  lemma {:induction false} DriveHolds(d: Dec, inp: seq<byte>, pos: nat, held: nat, goal: nat, fin: Finish)
    requires Live(d, goal) && pos <= |inp| && held <= |inp|
    ensures var r := Drive(d, inp, pos, held, goal, fin); |r.held| <= r.taken <= |inp|
    decreases Effort(d, goal)
  {
    hide TakeTurn;
    TurnKeeps(d, inp, pos, goal, fin);
    var t := TakeTurn(d, inp, pos, goal, fin);
    if t.Went? { DriveHolds(t.dec, inp, t.end, held, goal, fin); }
  }

  /** One call of a caller that has less room than it was asked for, or exactly enough. */
  predicate PieceOf(near: nat, cur: Finish, goal: nat, fin: Finish) {
    (near == goal && cur == fin) || (near < goal && cur == FinishAny)
  }

  /** What such a call means for the whole: it was everything, or the rest can be asked for. */
  lemma PieceAgrees(d: Dec, held: seq<byte>, src: seq<byte>, near: nat, cur: Finish, goal: nat, fin: Finish)
    requires DecOk(d) && |d.out| <= near <= goal && (d.phase.Header? ==> |held| <= RC_INIT_SIZE)
    requires PieceOf(near, cur, goal, fin)
    ensures var r := Feed(d, held, src, near, cur);
            DecOk(r.dec) && |r.dec.out| <= near && (r.dec.phase.Header? ==> |r.held| <= RC_INIT_SIZE)
            && (!r.res.Ok? || near == goal || |r.dec.out| < near ==> Feed(d, held, src, goal, fin) == r)
            && (r.res.Ok? && |r.dec.out| < goal ==> GoesOn(d, held, src, r, goal, fin))
  {
    hide Feed;
    FeedKeeps(d, held, src, near, cur);
    var r := Feed(d, held, src, near, cur);
    if near < goal { FeedLimits(d, held, src, near, goal, fin); }
    if r.res.Ok? && |r.dec.out| < near { FeedAgain(d, held, src, near, cur, goal, fin); }
  }

  lemma {:induction false} MarkStops(d: Dec, inp: seq<byte>, pos: nat, held: nat, goal: nat, fin: Finish)
    requires Live(d, goal) && pos <= |inp| && held <= |inp|
    ensures var r := Drive(d, inp, pos, held, goal, fin);
            r.status.FinishedWithMark? ==> r.res.Ok? && StopsShort(r, inp) && |r.held| <= r.taken <= |inp|
    decreases Effort(d, goal)
  {
    hide SymbolAt, Pay;
    TurnKeeps(d, inp, pos, goal, fin);
    var t := TakeTurn(d, inp, pos, goal, fin);
    if t.Went? { MarkStops(t.dec, inp, t.end, held, goal, fin); }
  }

  /** A call that found the end marker would have found it under any farther limit. */
  lemma FeedMark(d: Dec, src: seq<byte>, near: nat, goal: nat, fin: Finish)
    requires DecOk(d) && |d.out| <= near <= goal && d.phase.Header?
    requires Feed(d, [], src, near, FinishAny).status.FinishedWithMark?
    ensures Feed(d, [], src, goal, fin) == Feed(d, [], src, near, FinishAny)
  {
    hide Drive, HeaderCode, StopsShort;
    var inp := [] + src;
    StartedOk(d.props, HeaderCode(inp));
    MarkStops(Started(d.props, HeaderCode(inp)), inp, RC_INIT_SIZE, RC_INIT_SIZE, near, FinishAny);
    FeedKeeps(d, [], src, near, FinishAny);
    FeedLimits(d, [], src, near, goal, fin);
    StopsAgain(Feed(d, [], src, near, FinishAny), inp, goal, fin);
  }
}
