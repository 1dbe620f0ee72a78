/** Scheduler events read line by line from a pipe that delivers them in arbitrary pieces (kernel_tracefs.rs). */
module Tracefs {
  import opened Bits
  import opened Tokens

  const READ_SIZE := 8192
  const MAX_TAIL_SIZE := 0x1_0000
  const COMM_SIZE := 16

  datatype EventKind = Exec | Exit
  datatype KernelEvent = KernelEvent(kind: EventKind, pid: int, comm: seq<byte>, filename: Option<seq<byte>>)

  // ---- one line ----

  const EXEC_MARK: seq<byte> :=
    [115, 99, 104, 101, 100, 95, 112, 114, 111, 99, 101, 115, 115, 95, 101, 120, 101, 99, 58]
  const EXIT_MARK: seq<byte> :=
    [115, 99, 104, 101, 100, 95, 112, 114, 111, 99, 101, 115, 115, 95, 101, 120, 105, 116, 58]
  const PID_KEY: seq<byte> := [112, 105, 100]
  const COMM_KEY: seq<byte> := [99, 111, 109, 109]
  const FILENAME_KEY: seq<byte> := [102, 105, 108, 101, 110, 97, 109, 101]

  /** What follows the first occurrence of `mark`. */
  function AfterMark(s: seq<byte>, mark: seq<byte>): (r: Option<seq<byte>>)
    ensures r.Some? ==> |r.value| + |mark| <= |s| && s[|s| - |r.value| - |mark|..|s| - |r.value|] == mark
                        && s[|s| - |r.value|..] == r.value
    decreases |s|
  {
    if mark <= s then Some(s[|mark|..])
    else if s == [] then None
    else AfterMark(s[1..], mark)
  }

  /** The value of the first token `key=value`. */
  function FieldIn(tokens: seq<seq<byte>>, key: seq<byte>): Option<seq<byte>>
    decreases |tokens|
  {
    if tokens == [] then None
    else match SplitOnce(tokens[0], EQUALS)
      case Some((name, value)) => if name == key then Some(value) else FieldIn(tokens[1..], key)
      case None => FieldIn(tokens[1..], key)
  }

  function Field(fields: seq<byte>, key: seq<byte>): Option<seq<byte>> { FieldIn(SplitWhitespace(fields), key) }

  function TrimStart(s: seq<byte>): seq<byte>
    decreases |s|
  {
    if s != [] && IsSpace(s[0]) then TrimStart(s[1..]) else s
  }

  /** The position of the last `c`, or -1. */
  function LastIndexOf(s: seq<byte>, c: byte): (k: int)
    ensures -1 <= k < |s| && (k >= 0 ==> s[k] == c) && forall i :: k < i < |s| ==> s[i] != c
  {
    if s == [] then -1 else if s[|s| - 1] == c then |s| - 1 else LastIndexOf(s[..|s| - 1], c)
  }

  function PrefixComm(line: seq<byte>): Option<seq<byte>> {
    match SplitOnce(TrimStart(line), SPACE)
    case None => None
    case Some((prefix, _)) =>
      var k := LastIndexOf(prefix, MINUS);
      if k <= 0 then None else Some(prefix[..k])
  }

  /** The command name as a zero-padded block of 16 bytes. */
  function CommBlock(name: Option<seq<byte>>): (r: seq<byte>)
    ensures |r| == COMM_SIZE
  {
    var n := if name.None? then [] else if |name.value| < COMM_SIZE then name.value else name.value[..COMM_SIZE];
    n + seq(COMM_SIZE - |n|, _ => 0)
  }

  /** The block shows as much of the name as there is room for, and zeros behind it. */
  predicate ShowsName(block: seq<byte>, name: seq<byte>) {
    |block| == COMM_SIZE && forall i :: 0 <= i < COMM_SIZE ==> block[i] == if i < |name| then name[i] else 0
  }

  function ParseFields(line: seq<byte>, kind: EventKind, fields: seq<byte>): Option<KernelEvent> {
    match Field(fields, PID_KEY)
    case None => None
    case Some(text) =>
      match ParseI32(text)
      case None => None
      case Some(pid) =>
        var comm := if Field(fields, COMM_KEY).Some? then Field(fields, COMM_KEY) else PrefixComm(line);
        Some(KernelEvent(kind, pid, CommBlock(comm), Field(fields, FILENAME_KEY)))
  }

  /** parse_line: an exec mark anywhere counts before an exit mark. */
  function ParseLine(line: seq<byte>): Option<KernelEvent> {
    if AfterMark(line, EXEC_MARK).Some? then ParseFields(line, Exec, AfterMark(line, EXEC_MARK).value)
    else if AfterMark(line, EXIT_MARK).Some? then ParseFields(line, Exit, AfterMark(line, EXIT_MARK).value)
    else None
  }

  // ---- a stream of lines ----

  /** The lines that have ended, without their newlines. */
  function Complete(s: seq<byte>): seq<seq<byte>>
    decreases |s|
  {
    var k := IndexOf(s, NEWLINE);
    if k == |s| then [] else [s[..k]] + Complete(s[k + 1..])
  }

  /** The line that has not ended yet. */
  function Rest(s: seq<byte>): (r: seq<byte>)
    ensures |r| <= |s| && forall i :: 0 <= i < |r| ==> r[i] != NEWLINE
    decreases |s|
  {
    var k := IndexOf(s, NEWLINE);
    if k == |s| then s else Rest(s[k + 1..])
  }

  function EventsOf(lines: seq<seq<byte>>): seq<KernelEvent>
    decreases |lines|
  {
    if lines == [] then []
    else EventsOf(lines[..|lines| - 1])
         + (if ParseLine(lines[|lines| - 1]).Some? then [ParseLine(lines[|lines| - 1]).value] else [])
  }

  lemma {:induction false} EventsJoin(a: seq<seq<byte>>, b: seq<seq<byte>>)
    ensures EventsOf(a + b) == EventsOf(a) + EventsOf(b)
    decreases |b|
  {
    hide ParseLine;
    if b == [] {
      assert a + b == a;
    } else {
      EventsJoin(a, b[..|b| - 1]);
      assert (a + b)[..|a + b| - 1] == a + b[..|b| - 1];
    }
  }

  lemma {:induction false} IndexOfLater(a: seq<byte>, b: seq<byte>, c: byte)
    ensures IndexOf(a + b, c) == if IndexOf(a, c) < |a| then IndexOf(a, c) else |a| + IndexOf(b, c)
  {
    if a == [] {
      assert a + b == b;
    } else {
      assert (a + b)[1..] == a[1..] + b;
      IndexOfLater(a[1..], b, c);
    }
  }

  /** One line taken off the front, or nothing to take off. */
  lemma Unfold(s: seq<byte>, k: nat)
    requires k == IndexOf(s, NEWLINE)
    ensures if k == |s| then Complete(s) == [] && Rest(s) == s
            else Complete(s) == [s[..k]] + Complete(s[k + 1..]) && Rest(s) == Rest(s[k + 1..])
  {
  }

  /** Where a stream is cut makes no difference, as long as the unfinished line is carried over. */
  lemma {:induction false} CutAnywhere(a: seq<byte>, b: seq<byte>)
    ensures Complete(a + b) == Complete(a) + Complete(Rest(a) + b)
    ensures Rest(a + b) == Rest(Rest(a) + b)
    decreases |a|
  {
    hide IndexOf, Complete, Rest;
    var k := IndexOf(a, NEWLINE);
    IndexOfLater(a, b, NEWLINE);
    Unfold(a, k);
    if k == |a| {
    } else {
      assert (a + b)[..k] == a[..k];
      assert (a + b)[k + 1..] == a[k + 1..] + b;
      Unfold(a + b, k);
      CutAnywhere(a[k + 1..], b);
    }
  }

  /** The events and the tail after one more piece: emit_lines. */
  function Emitted(tail: seq<byte>): seq<KernelEvent> { EventsOf(Complete(tail)) }

  function Kept(tail: seq<byte>): seq<byte> { if |Rest(tail)| > MAX_TAIL_SIZE then [] else Rest(tail) }

  datatype ReadResult = Data(bytes: seq<byte>) | WouldBlock | Interrupted | Failed

  class TracefsTracker {
    var tail: seq<byte>
    var reportedError: bool

    constructor ()
      ensures tail == []
    {
      tail, reportedError := [], false;
    }

    /** emit_lines */
    method EmitLines(events: seq<KernelEvent>) returns (events': seq<KernelEvent>)
      modifies `tail
      ensures events' == events + Emitted(old(tail)) && tail == Kept(old(tail))
    {
      hide ParseLine, IndexOf, Complete, Rest, EventsOf;
      events' := events;
      var lineStart := 0;
      var index := 0;
      ghost var lines: seq<seq<byte>> := [];
      EmptyTail();
      assert tail[..0] == [] && tail[0..] == tail;
      while index < |tail|
        invariant 0 <= lineStart <= index <= |tail| && tail == old(tail)
        invariant events' == events + EventsOf(lines) && Complete(tail[..index]) == lines
        invariant Rest(tail[..index]) == tail[lineStart..index]
      {
        var byte := tail[index];
        ghost var before := tail[..index];
        assert tail[..index + 1] == before + [byte];
        CutAnywhere(before, [byte]);
        OneMoreByte(tail[lineStart..index], byte);
        assert tail[lineStart..index] + [byte] == tail[lineStart..index + 1];
        if byte == NEWLINE {
          var line := tail[lineStart..index];
          EventsJoin(lines, [line]);
          OneLineEvents(line);
          var event := ParseLine(line);
          if event.Some? { events' := events' + [event.value]; }
          lines := lines + [line];
          lineStart := index + 1;
        }
        index := index + 1;
      }
      assert tail[..index] == tail;
      tail := tail[lineStart..];
      if |tail| > MAX_TAIL_SIZE { tail := []; }
    }

    /** drain: reads until there is nothing more for now; an interrupted read is tried again. */
    method Drain(results: seq<ReadResult>, events: seq<KernelEvent>) returns (events': seq<KernelEvent>)
      modifies this
      ensures (events', tail) == AfterPieces(old(tail), events, Pieces(results))
    {
      hide ParseLine, Complete, Rest;
      events' := events;
      var i := 0;
      while i < |results|
        invariant i <= |results|
        invariant AfterPieces(tail, events', Pieces(results[i..])) == AfterPieces(old(tail), events, Pieces(results))
      {
        assert results[i..][1..] == results[i + 1..];
        match results[i] {
          case Data(bytes) =>
            if bytes == [] { return; }
            tail := tail + bytes;
            events' := EmitLines(events');
            assert Pieces(results[i..]) == [bytes] + Pieces(results[i + 1..]);
            assert ([bytes] + Pieces(results[i + 1..]))[1..] == Pieces(results[i + 1..]);
          case Interrupted =>
          case WouldBlock => return;
          case Failed =>
            if !reportedError { reportedError := true; }
            return;
        }
        i := i + 1;
      }
    }
  }

  lemma EmptyTail()
    ensures Complete([]) == [] && Rest([]) == [] && EventsOf([]) == []
  {
  }

  lemma NoIndex(line: seq<byte>, c: byte)
    requires forall i :: 0 <= i < |line| ==> line[i] != c
    ensures IndexOf(line, c) == |line|
  {
  }

  lemma OneMoreByte(line: seq<byte>, c: byte)
    requires forall i :: 0 <= i < |line| ==> line[i] != NEWLINE
    ensures Complete(line + [c]) == if c == NEWLINE then [line] else []
    ensures Rest(line + [c]) == if c == NEWLINE then [] else line + [c]
  {
    hide IndexOf, Complete, Rest;
    var s := line + [c];
    NoIndex(line, NEWLINE);
    IndexOfLater(line, [c], NEWLINE);
    IndexOfOne(c);
    Unfold(s, IndexOf(s, NEWLINE));
    if c == NEWLINE {
      assert s[..|line|] == line && s[|line| + 1..] == [];
      EmptyTail();
    }
  }

  lemma IndexOfOne(c: byte)
    ensures IndexOf([c], NEWLINE) == if c == NEWLINE then 0 else 1
  {
  }

  lemma OneLineEvents(line: seq<byte>)
    ensures EventsOf([line]) == if ParseLine(line).Some? then [ParseLine(line).value] else []
  {
    hide ParseLine;
    assert [line][..0] == [];
  }

  /** What the reads of one drain deliver, up to the end of what is there. */
  function Pieces(results: seq<ReadResult>): seq<seq<byte>>
    decreases |results|
  {
    if results == [] then []
    else match results[0]
      case Data(bytes) => if bytes == [] then [] else [bytes] + Pieces(results[1..])
      case Interrupted => Pieces(results[1..])
      case WouldBlock => []
      case Failed => []
  }

  function AfterPieces(tail: seq<byte>, events: seq<KernelEvent>, pieces: seq<seq<byte>>): (seq<KernelEvent>, seq<byte>)
    decreases |pieces|
  {
    if pieces == [] then (events, tail)
    else AfterPieces(Kept(tail + pieces[0]), events + Emitted(tail + pieces[0]), pieces[1..])
  }

  function Joined(pieces: seq<seq<byte>>): seq<byte>
    decreases |pieces|
  {
    if pieces == [] then [] else Joined(pieces[..|pieces| - 1]) + pieces[|pieces| - 1]
  }

  lemma {:induction false} AfterOneMore(tail: seq<byte>, events: seq<KernelEvent>, pieces: seq<seq<byte>>)
    requires pieces != []
    ensures var (e, t) := AfterPieces(tail, events, pieces[..|pieces| - 1]);
            var last := pieces[|pieces| - 1];
            AfterPieces(tail, events, pieces) == (e + Emitted(t + last), Kept(t + last))
    decreases |pieces|
  {
    hide Emitted, Kept;
    if |pieces| == 1 {
    } else {
      assert pieces[1..][..|pieces| - 2] == pieces[..|pieces| - 1][1..];
      AfterOneMore(Kept(tail + pieces[0]), events + Emitted(tail + pieces[0]), pieces[1..]);
    }
  }

  /** Pieces that leave no unfinished line longer than the tracker keeps. */
  predicate NeverTooLong(pieces: seq<seq<byte>>) {
    forall n :: 0 <= n <= |pieces| ==> |Rest(Joined(pieces[..n]))| <= MAX_TAIL_SIZE
  }

  /** The tracker has seen the stream so far as it is. */
  predicate SeenWhole(pieces: seq<seq<byte>>, n: nat)
    requires n <= |pieces|
  {
    AfterPieces([], [], pieces[..n]) == (Emitted(Joined(pieces[..n])), Rest(Joined(pieces[..n])))
  }

  lemma {:induction false} WholeWhileShort(pieces: seq<seq<byte>>, n: nat)
    requires n <= |pieces| && forall k :: 0 <= k <= n ==> |Rest(Joined(pieces[..k]))| <= MAX_TAIL_SIZE
    ensures SeenWhole(pieces, n)
    decreases n
  {
    hide ParseLine, Rest, Complete;
    EmptyTail();
    if n == 0 {
      assert pieces[..0] == [];
    } else {
      WholeWhileShort(pieces, n - 1);
      var front, last := pieces[..n][..n - 1], pieces[n - 1];
      assert front == pieces[..n - 1];
      AfterOneMore([], [], pieces[..n]);
      CutAnywhere(Joined(front), last);
      EventsJoin(Complete(Joined(front)), Complete(Rest(Joined(front)) + last));
    }
  }

  /**
   However the pipe cuts the stream, the tracker reports exactly the events of its complete lines and keeps exactly
   the unfinished one, at every moment, exactly when no unfinished line ever grows longer than 64 KiB.
   */
  lemma PiecesMakeNoDifference(pieces: seq<seq<byte>>)
    ensures (forall n :: 0 <= n <= |pieces| ==> SeenWhole(pieces, n)) <==> NeverTooLong(pieces)
  {
    hide ParseLine, Rest, Complete;
    if NeverTooLong(pieces) {
      forall n | 0 <= n <= |pieces| ensures SeenWhole(pieces, n) { WholeWhileShort(pieces, n); }
    } else {
      var n :| 0 <= n <= |pieces| && |Rest(Joined(pieces[..n]))| > MAX_TAIL_SIZE;
      EmptyTail();
      assert pieces[..0] == [];
      assert n > 0;
      AfterOneMore([], [], pieces[..n]);
      assert |AfterPieces([], [], pieces[..n]).1| <= MAX_TAIL_SIZE;
      assert !SeenWhole(pieces, n);
    }
  }

  lemma {:induction false} JoinedShorter(pieces: seq<seq<byte>>, k: nat)
    requires k <= |pieces|
    ensures |Joined(pieces[..k])| <= |Joined(pieces)|
  {
    if k == |pieces| {
      assert pieces[..k] == pieces;
    } else {
      JoinedShorter(pieces[..|pieces| - 1], k);
      assert pieces[..|pieces| - 1][..k] == pieces[..k];
    }
  }

  lemma NoLine(s: seq<byte>)
    requires forall i :: 0 <= i < |s| ==> s[i] != NEWLINE
    ensures Complete(s) == [] && Rest(s) == s
  {
    NoIndex(s, NEWLINE);
    Unfold(s, |s|);
  }

  /** A line that is too long, however it is read: with one byte more than is kept, nothing is. */
  lemma {:induction false} LongLineIsLost(pieces: seq<seq<byte>>)
    requires |Joined(pieces)| == MAX_TAIL_SIZE + 1
    requires forall i :: 0 <= i < |Joined(pieces)| ==> Joined(pieces)[i] != NEWLINE
    ensures Complete(Joined(pieces)) == [] && Rest(Joined(pieces)) == Joined(pieces)
    ensures AfterPieces([], [], pieces).1 == [] && !NeverTooLong(pieces) && !SeenWhole(pieces, |pieces|)
    decreases |pieces|
  {
    hide ParseLine, IndexOf, Complete, Rest;
    var front, last := pieces[..|pieces| - 1], pieces[|pieces| - 1];
    assert pieces[..|pieces|] == pieces;
    NoLine(Joined(pieces));
    AfterOneMore([], [], pieces);
    if |Joined(front)| == MAX_TAIL_SIZE + 1 {
      assert last == [] && Joined(front) == Joined(pieces);
      LongLineIsLost(front);
      EmptyTail();
    } else {
      forall k | 0 <= k <= |front| ensures |Rest(Joined(pieces[..k]))| <= MAX_TAIL_SIZE {
        JoinedShorter(front, k);
        assert front[..k] == pieces[..k];
      }
      WholeWhileShort(pieces, |front|);
      assert Joined(pieces) == Joined(front) + last;
      assert Joined(front) == Joined(pieces)[..|Joined(front)|];
      NoLine(Joined(front));
    }
  }

  /** n bytes of a line. */
  function Letters(n: nat): seq<byte> { seq(n, _ => 'a' as byte) }

  /** Such a line as eight full reads and one byte more. */
  function LongLine(): seq<seq<byte>> { seq(8, _ => Letters(READ_SIZE)) + [Letters(1)] }

  lemma {:induction false} FullReads(n: nat)
    requires n <= 8
    ensures Joined(LongLine()[..n]) == Letters(n * READ_SIZE)
  {
    if n == 0 {
    } else {
      FullReads(n - 1);
      assert LongLine()[..n][..n - 1] == LongLine()[..n - 1];
    }
  }

  lemma NineReadsLoseALine()
    ensures Rest(Joined(LongLine())) == Letters(MAX_TAIL_SIZE + 1)
    ensures AfterPieces([], [], LongLine()).1 == [] && !NeverTooLong(LongLine())
  {
    hide ParseLine, Rest, Complete;
    FullReads(8);
    LongLineIsLost(LongLine());
  }

  /** Lines of at most 64 KiB, ended or not. */
  predicate ShortLines(s: seq<byte>) {
    (forall i :: 0 <= i < |Complete(s)| ==> |Complete(s)[i]| <= MAX_TAIL_SIZE) && |Rest(s)| <= MAX_TAIL_SIZE
  }

  /** An unfinished line only grows until it ends. */
  lemma {:induction false} RestGrows(t: seq<byte>, b: seq<byte>)
    requires forall i :: 0 <= i < |t| ==> t[i] != NEWLINE
    ensures if Complete(t + b) == [] then |t| <= |Rest(t + b)| else |t| <= |Complete(t + b)[0]|
  {
    NoIndex(t, NEWLINE);
    IndexOfLater(t, b, NEWLINE);
    hide IndexOf;
  }

  lemma ShortLinesOfFront(a: seq<byte>, b: seq<byte>)
    requires ShortLines(a + b)
    ensures |Rest(a)| <= MAX_TAIL_SIZE
  {
    hide Rest, Complete;
    CutAnywhere(a, b);
    RestHasNoNewline(a);
    RestGrows(Rest(a), b);
    var c, d := Complete(a), Complete(Rest(a) + b);
    if d != [] { assert Complete(a + b)[|c|] == d[0]; }
  }

  lemma RestHasNoNewline(a: seq<byte>)
    ensures forall i :: 0 <= i < |Rest(a)| ==> Rest(a)[i] != NEWLINE
  {
  }

  lemma {:induction false} JoinedFront(pieces: seq<seq<byte>>, n: nat)
    requires n <= |pieces|
    ensures Joined(pieces[..n]) <= Joined(pieces)
    decreases |pieces| - n
  {
    if n == |pieces| {
      assert pieces[..n] == pieces;
    } else {
      JoinedFront(pieces, n + 1);
      assert pieces[..n + 1][..n] == pieces[..n];
    }
  }

  /** Lines of at most 64 KiB come out whole from any split of the stream. */
  lemma ShortLinesComeOut(pieces: seq<seq<byte>>)
    requires ShortLines(Joined(pieces))
    ensures AfterPieces([], [], pieces) == (Emitted(Joined(pieces)), Rest(Joined(pieces)))
  {
    hide Rest, Complete, ParseLine;
    forall n | 0 <= n <= |pieces| ensures |Rest(Joined(pieces[..n]))| <= MAX_TAIL_SIZE {
      JoinedFront(pieces, n);
      var a := Joined(pieces[..n]);
      assert Joined(pieces) == a + Joined(pieces)[|a|..];
      ShortLinesOfFront(a, Joined(pieces)[|a|..]);
    }
    WholeWhileShort(pieces, |pieces|);
    assert pieces[..|pieces|] == pieces;
  }

  // ---- what the parser finds in the lines the kernel prints ----

  /** The mark stands behind `prefix` and nowhere before. */
  ghost predicate FirstBehind(prefix: seq<byte>, mark: seq<byte>, rest: seq<byte>) {
    forall i :: 0 <= i < |prefix| ==> !(mark <= (prefix + mark + rest)[i..])
  }

  lemma {:induction false} AfterMarkFirst(prefix: seq<byte>, mark: seq<byte>, rest: seq<byte>)
    requires FirstBehind(prefix, mark, rest)
    ensures AfterMark(prefix + mark + rest, mark) == Some(rest)
    decreases |prefix|
  {
    var s := prefix + mark + rest;
    if prefix == [] {
      assert s == mark + rest;
      assert s[|mark|..] == rest;
    } else {
      assert s[0..] == s;
      assert s[1..] == prefix[1..] + mark + rest;
      forall i | 0 <= i < |prefix[1..]| ensures !(mark <= (prefix[1..] + mark + rest)[i..]) {
        assert s[1..][i..] == s[i + 1..];
      }
      AfterMarkFirst(prefix[1..], mark, rest);
    }
  }

  lemma {:induction false} NoMark(s: seq<byte>, mark: seq<byte>)
    requires forall i :: 0 <= i <= |s| ==> !(mark <= s[i..])
    ensures AfterMark(s, mark) == None
    decreases |s|
  {
    assert s[0..] == s;
    if s == [] {
    } else {
      forall i | 0 <= i <= |s[1..]| ensures !(mark <= s[1..][i..]) { assert s[1..][i..] == s[i + 1..]; }
      NoMark(s[1..], mark);
    }
  }

  function KeyValue(key: seq<byte>, value: seq<byte>): seq<byte> { key + [EQUALS] + value }

  /** " k=v l=w " and more. */
  function TwoFields(k: seq<byte>, v: seq<byte>, l: seq<byte>, w: seq<byte>, rest: seq<byte>): seq<byte> {
    [SPACE] + (KeyValue(k, v) + [SPACE] + (KeyValue(l, w) + [SPACE] + rest))
  }

  predicate IsKey(k: seq<byte>) { k != [] && Plain(k) && forall i :: 0 <= i < |k| ==> k[i] != EQUALS }

  lemma FirstField(token: seq<byte>, more: seq<seq<byte>>, key: seq<byte>)
    requires SplitOnce(token, EQUALS).Some?
    ensures var (name, value) := SplitOnce(token, EQUALS).value;
            FieldIn([token] + more, key) == if name == key then Some(value) else FieldIn(more, key)
  {
    assert ([token] + more)[1..] == more;
  }

  lemma AfterSpace(rest: seq<byte>)
    ensures SplitWhitespace([SPACE] + rest) == SplitWhitespace(rest)
  {
    assert ([SPACE] + rest)[1..] == rest;
  }

  lemma TokenOf(k: seq<byte>, v: seq<byte>, rest: seq<byte>)
    requires IsKey(k) && Plain(v)
    ensures SplitOnce(KeyValue(k, v), EQUALS) == Some((k, v))
    ensures SplitWhitespace(KeyValue(k, v) + [SPACE] + rest) == [KeyValue(k, v)] + SplitWhitespace(rest)
  {
    SplitAt(k, v);
    NextWord(KeyValue(k, v), rest);
  }

  lemma TwoTokens(k: seq<byte>, v: seq<byte>, l: seq<byte>, w: seq<byte>, rest: seq<byte>)
    requires IsKey(k) && IsKey(l) && Plain(v) && Plain(w)
    ensures SplitWhitespace(TwoFields(k, v, l, w, rest)) ==
            [KeyValue(k, v)] + ([KeyValue(l, w)] + SplitWhitespace(rest))
    ensures SplitOnce(KeyValue(k, v), EQUALS) == Some((k, v)) && SplitOnce(KeyValue(l, w), EQUALS) == Some((l, w))
  {
    hide SplitOnce, SplitWhitespace, KeyValue, IsKey, Plain;
    var behind := KeyValue(l, w) + [SPACE] + rest;
    AfterSpace(KeyValue(k, v) + [SPACE] + behind);
    TokenOf(k, v, behind);
    TokenOf(l, w, rest);
  }

  /** What is found under a key when two fields stand in front. */
  lemma FieldOfTwo(k: seq<byte>, v: seq<byte>, l: seq<byte>, w: seq<byte>, rest: seq<byte>, key: seq<byte>)
    requires IsKey(k) && IsKey(l) && Plain(v) && Plain(w)
    ensures Field(TwoFields(k, v, l, w, rest), key) ==
            if key == k then Some(v) else if key == l then Some(w) else Field(rest, key)
  {
    TwoTokens(k, v, l, w, rest);
    hide SplitOnce, FieldIn, TwoFields, KeyValue, SplitWhitespace, IsKey, Plain;
    FirstField(KeyValue(k, v), [KeyValue(l, w)] + SplitWhitespace(rest), key);
    FirstField(KeyValue(l, w), SplitWhitespace(rest), key);
  }

  // ---- the process in front of a line: blanks, name, minus, number ----

  lemma {:induction false} Trimmed(blanks: seq<byte>, s: seq<byte>)
    requires (forall i :: 0 <= i < |blanks| ==> IsSpace(blanks[i])) && s != [] && !IsSpace(s[0])
    ensures TrimStart(blanks + s) == s
    decreases |blanks|
  {
    if blanks == [] {
      assert blanks + s == s;
    } else {
      assert (blanks + s)[1..] == blanks[1..] + s;
      Trimmed(blanks[1..], s);
    }
  }

  /** The name may contain a minus, the number after the last one may not. */
  predicate IsTask(blanks: seq<byte>, name: seq<byte>, number: seq<byte>) {
    (forall i :: 0 <= i < |blanks| ==> IsSpace(blanks[i])) && name != [] && !IsSpace(name[0])
    && (forall i :: 0 <= i < |name| ==> name[i] != SPACE)
    && (forall i :: 0 <= i < |number| ==> number[i] != SPACE && number[i] != MINUS)
  }

  function Task(blanks: seq<byte>, name: seq<byte>, number: seq<byte>, more: seq<byte>): seq<byte> {
    blanks + (name + [MINUS] + number + [SPACE] + more)
  }

  lemma TaskName(blanks: seq<byte>, name: seq<byte>, number: seq<byte>, more: seq<byte>)
    requires IsTask(blanks, name, number)
    ensures PrefixComm(Task(blanks, name, number, more)) == Some(name)
  {
    var prefix := name + [MINUS] + number;
    var s := prefix + [SPACE] + more;
    Trimmed(blanks, s);
    IndexOfFirst(prefix, SPACE, more);
    assert s[..|prefix|] == prefix;
    assert SplitOnce(s, SPACE).Some? && SplitOnce(s, SPACE).value.0 == prefix;
    var k := LastIndexOf(prefix, MINUS);
    assert prefix[|name|] == MINUS;
    assert k == |name| && prefix[..k] == name;
  }

  lemma TaskJoins(blanks: seq<byte>, name: seq<byte>, number: seq<byte>, more: seq<byte>, fields: seq<byte>)
    ensures Task(blanks, name, number, more) + EXEC_MARK + fields ==
            Task(blanks, name, number, more + EXEC_MARK + fields)
  {
  }

  /** An exec line whose fields name no command gives the name of the process in front of it. */
  lemma ExecLineNames(blanks: seq<byte>, name: seq<byte>, number: seq<byte>, more: seq<byte>, file: seq<byte>, pid: int,
                      rest: seq<byte>)
    requires IsTask(blanks, name, number) && Plain(file) && -0x8000_0000 <= pid < 0x8000_0000
    requires var fields := TwoFields(FILENAME_KEY, file, PID_KEY, SignedDecimal(pid), rest);
             FirstBehind(Task(blanks, name, number, more), EXEC_MARK, fields) && Field(rest, COMM_KEY).None?
    ensures var fields := TwoFields(FILENAME_KEY, file, PID_KEY, SignedDecimal(pid), rest);
            var r := ParseLine(Task(blanks, name, number, more) + EXEC_MARK + fields);
            r.Some? && ShowsName(r.value.comm, name)
  {
    hide TwoFields, Field, SignedDecimal, AfterMark, FirstBehind, PrefixComm, Task, IsTask, ParseI32;
    var fields := TwoFields(FILENAME_KEY, file, PID_KEY, SignedDecimal(pid), rest);
    NumbersArePlain(pid);
    FieldOfTwo(FILENAME_KEY, file, PID_KEY, SignedDecimal(pid), rest, COMM_KEY);
    ExecLineParses(Task(blanks, name, number, more), file, pid, rest);
    TaskName(blanks, name, number, more + EXEC_MARK + fields);
    TaskJoins(blanks, name, number, more, fields);
    AfterMarkFirst(Task(blanks, name, number, more), EXEC_MARK, fields);
  }

  /** An exec line gives its process and its file. */
  lemma ExecLineParses(prefix: seq<byte>, file: seq<byte>, pid: int, rest: seq<byte>)
    requires Plain(file) && -0x8000_0000 <= pid < 0x8000_0000
    requires FirstBehind(prefix, EXEC_MARK, TwoFields(FILENAME_KEY, file, PID_KEY, SignedDecimal(pid), rest))
    ensures var r := ParseLine(prefix + EXEC_MARK + TwoFields(FILENAME_KEY, file, PID_KEY, SignedDecimal(pid), rest));
            r.Some? && r.value.kind == Exec && r.value.pid == pid && r.value.filename == Some(file)
  {
    hide TwoFields, Field, SignedDecimal, AfterMark, FirstBehind;
    NumbersArePlain(pid);
    I32Back(pid);
    FieldOfTwo(FILENAME_KEY, file, PID_KEY, SignedDecimal(pid), rest, FILENAME_KEY);
    FieldOfTwo(FILENAME_KEY, file, PID_KEY, SignedDecimal(pid), rest, PID_KEY);
    AfterMarkFirst(prefix, EXEC_MARK, TwoFields(FILENAME_KEY, file, PID_KEY, SignedDecimal(pid), rest));
  }

  /** An exit line gives its process and its command name. */
  lemma ExitLineParses(prefix: seq<byte>, comm: seq<byte>, pid: int, rest: seq<byte>)
    requires Plain(comm) && -0x8000_0000 <= pid < 0x8000_0000
    requires FirstBehind(prefix, EXIT_MARK, TwoFields(COMM_KEY, comm, PID_KEY, SignedDecimal(pid), rest))
    requires var line := prefix + EXIT_MARK + TwoFields(COMM_KEY, comm, PID_KEY, SignedDecimal(pid), rest);
             forall i :: 0 <= i <= |line| ==> !(EXEC_MARK <= line[i..])
    ensures var r := ParseLine(prefix + EXIT_MARK + TwoFields(COMM_KEY, comm, PID_KEY, SignedDecimal(pid), rest));
            r.Some? && r.value.kind == Exit && r.value.pid == pid && ShowsName(r.value.comm, comm)
  {
    hide TwoFields, Field, SignedDecimal, AfterMark, FirstBehind;
    NumbersArePlain(pid);
    I32Back(pid);
    FieldOfTwo(COMM_KEY, comm, PID_KEY, SignedDecimal(pid), rest, COMM_KEY);
    FieldOfTwo(COMM_KEY, comm, PID_KEY, SignedDecimal(pid), rest, PID_KEY);
    AfterMarkFirst(prefix, EXIT_MARK, TwoFields(COMM_KEY, comm, PID_KEY, SignedDecimal(pid), rest));
    NoMark(prefix + EXIT_MARK + TwoFields(COMM_KEY, comm, PID_KEY, SignedDecimal(pid), rest), EXEC_MARK);
  }
}
