/** The 64-slot ring of the kernel module (znn.c) and the reader that follows it by sequence number (kernel_kpm.rs). */
module KpmRing {
  import opened Bits
  import opened Text
  import opened Tokens
  import opened KpmFormat

  const RING_CAPACITY := 64
  const CHANNEL_MAX_LENGTH := 4096
  const MAX_PAYLOAD := 4096
  const MAX_ROUNDS := 4
  const EINVAL := 22
  const EPERM := 1
  const EFAULT := 14

  datatype Slot = Slot(n: u64, rec: ExecRecord)
  datatype Event = Event(pid: int, ppid: int)

  // ---- what is in the ring ----

  /** Records are numbered from 1; the ring still has the last 64 of them. */
  function Oldest(written: nat): nat { if written < RING_CAPACITY then 1 else written - RING_CAPACITY + 1 }

  /** The lines of the records a+1, ..., b. */
  function TextOf(h: seq<ExecRecord>, a: nat, b: nat): seq<byte>
    requires a <= b <= |h| < U64
    decreases b
  {
    if a == b then [] else TextOf(h, a, b - 1) + Line(b, h[b - 1])
  }

  /** Where a read that starts behind `since` begins: records that were overwritten are passed over. */
  function SkippedTo(h: seq<ExecRecord>, since: nat): nat {
    if since + 1 > Oldest(|h|) then since else Oldest(|h|) - 1
  }

  /** How far a read gets when `room` bytes are left in the buffer. */
  function Reaches(h: seq<ExecRecord>, from: nat, room: int): (r: nat)
    requires from <= |h| < U64
    ensures from <= r <= |h|
    decreases |h| - from
  {
    if from == |h| || |Line(from + 1, h[from])| > room then from
    else Reaches(h, from + 1, room - |Line(from + 1, h[from])|)
  }

  /** Record `k` is still in the ring and among the newest `requested`; 0 stands for all of them. */
  predicate Asked(requested: nat, written: nat, k: nat) {
    Oldest(written) <= k <= written && (requested == 0 || written - k < requested)
  }

  /** How many records are passed over when the newest `requested` are asked for. */
  function FirstOf(requested: nat, written: nat): (r: nat)
    ensures r <= written && forall k: nat :: Asked(requested, written, k) <==> r < k <= written
  {
    var available := written - Oldest(written) + 1;
    written - (if requested == 0 || requested > available then available else requested)
  }

  /** Where in the ring record `k` is kept. */
  function SlotOf(k: nat): nat
    requires k >= 1
  {
    (k - 1) % RING_CAPACITY
  }

  class Ring {
    const slots: array<Slot>
    var written: u64
    ghost var history: seq<ExecRecord>

    constructor ()
      ensures Valid() && history == [] && fresh(slots)
    {
      slots := new Slot[RING_CAPACITY](_ => Slot(0, ExecRecord(0, 0, 0)));
      written := 0;
      history := [];
    }

    ghost predicate Valid()
      reads this, slots
    {
      slots.Length == RING_CAPACITY && written == |history|
      && forall k: nat :: Oldest(written) <= k <= written ==> slots[SlotOf(k)] == Slot(k, history[k - 1])
    }

    /** znn_note_exec, as one step. */
    method NoteExec(pid: i32, tgid: i32, ppid: i32)
      requires Valid() && written + 1 < U64
      modifies `written, `history, slots
      ensures Valid() && history == old(history) + [ExecRecord(pid, tgid, ppid)]
    {
      written := written + 1;
      slots[(written - 1) % RING_CAPACITY] := Slot(written, ExecRecord(pid, tgid, ppid));
      history := history + [ExecRecord(pid, tgid, ppid)];
      var slot := (written - 1) % RING_CAPACITY;
      forall k: nat | Oldest(written) <= k <= written
        ensures slots[SlotOf(k)] == Slot(k, history[k - 1])
      {
        if k < written { assert SlotOf(k) != slot; }
      }
    }

    /** The text of one record in a buffer of its own. */
    method FormatSlot(n: u64, rec: ExecRecord) returns (line: seq<byte>)
      ensures line == Line(n, rec) && 0 < |line| < LINE_CAPACITY
    {
      var buffer := new byte[LINE_CAPACITY];
      var length := FormatExecRecord(buffer, LINE_CAPACITY, n, rec);
      LineFits(n, rec);
      line := buffer[..length];
    }

    lemma InRing(n: nat)
      requires Valid() && Oldest(written) <= n <= written
      ensures slots[(n - 1) % RING_CAPACITY] == Slot(n, history[n - 1])
    {
      assert slots[SlotOf(n)] == Slot(n, history[n - 1]);
    }

    /** The text of record `n`, which is still in the ring. */
    method FormatRecord(n: u64) returns (line: seq<byte>)
      requires Valid() && Oldest(written) <= n <= written
      ensures line == Line(n, history[n - 1])
    {
      InRing(n);
      var record := slots[(n - 1) % RING_CAPACITY];
      line := FormatSlot(n, record.rec);
    }

    /**
     znn_channel_write_records: the lines of the records behind `since` that are still there, oldest first, as many as
     fit. `copies` copies to the reader go through; None stands for EFAULT, the answer when one more was needed.
     */
    method WriteRecords(bufferLength: nat, since: u64, copies: nat) returns (text: Option<seq<byte>>)
      requires Valid()
      ensures since >= written ==> text == Some([])
      ensures since < written ==>
                var from := SkippedTo(history, since);
                from <= |history|
                && var to := Reaches(history, from, bufferLength);
                   text == (if to - from <= copies then Some(TextOf(history, from, to)) else None)
                   && |TextOf(history, from, to)| <= bufferLength
    {
      hide TextOf, Line, Reaches, SlotOf;
      if since >= written { return Some([]); }
      var available := if written < RING_CAPACITY then written else RING_CAPACITY;
      var oldest := written - available + 1;
      var first := if since + 1 > oldest then since + 1 else oldest;
      var count := written - first + 1;
      var out: seq<byte> := [];
      var i: nat := 0;
      ghost var from := first - 1;
      assert from == SkippedTo(history, since) && from + count == |history| && Oldest(written) <= first;
      hide SkippedTo, Oldest, Valid;
      NoText(history, from);
      ReachesFits(history, from, bufferLength);
      while i < count
        invariant i <= count && i <= copies && out == TextOf(history, from, from + i) && |out| <= bufferLength
        invariant Reaches(history, from, bufferLength) == Reaches(history, from + i, bufferLength - |out|)
      {
        var n: u64 := first + i;
        var line := FormatRecord(n);
        ReachesOne(history, from + i, bufferLength - |out|);
        if |out| + |line| > bufferLength { break; }
        if i >= copies { return None; }
        MoreText(history, from, n);
        out := out + line;
        i := i + 1;
      }
      ReachesEnd(history, bufferLength - |out|);
      text := Some(out);
    }

    /** znn_channel_before: the checks of the prctl channel, and what it answers behind them. */
    method Channel(bufferLength: nat, since: u64, root: bool, copies: nat) returns (ret: int, text: seq<byte>)
      requires Valid()
      ensures bufferLength < 1 || bufferLength > CHANNEL_MAX_LENGTH ==> ret == -EINVAL && text == []
      ensures 1 <= bufferLength <= CHANNEL_MAX_LENGTH && !root ==> ret == -EPERM && text == []
      ensures 1 <= bufferLength <= CHANNEL_MAX_LENGTH && root && since >= written ==> ret == 0 && text == []
      ensures 1 <= bufferLength <= CHANNEL_MAX_LENGTH && root && since < written ==>
                var from := SkippedTo(history, since);
                from <= |history|
                && var to := Reaches(history, from, bufferLength);
                   (if to - from <= copies then ret == |text| <= bufferLength && text == TextOf(history, from, to)
                    else ret == -EFAULT && text == [])
    {
      hide TextOf, Reaches;
      if bufferLength < 1 || bufferLength > CHANNEL_MAX_LENGTH { return -EINVAL, []; }
      if !root { return -EPERM, []; }
      var records := WriteRecords(bufferLength, since, copies);
      if records.None? { return -EFAULT, []; }
      return |records.value|, records.value;
    }

    /** The text of what stands in the place of record `n`, with the number it stands there under. */
    method FormatStored(n: nat) returns (line: seq<byte>)
      requires Valid() && Oldest(written) <= n <= written
      ensures line == Line(n, history[n - 1])
    {
      InRing(n);
      var record := slots[(n - 1) % RING_CAPACITY];
      line := FormatSlot(record.n, record.rec);
    }

    /**
     The loop of znn_control: the lines of the newest `requested` records (0 stands for all that are there), as many
     as fit and as copies to the reader go through.
     */
    method Newest(requested: nat, outlen: nat, copies: nat) returns (text: seq<byte>)
      requires Valid()
      ensures text == TextOf(history, FirstOf(requested, written), Printed(history, requested, outlen, copies))
      ensures |text| <= outlen
    {
      hide TextOf, Line, Reaches, SlotOf;
      var available := if written < RING_CAPACITY then written else RING_CAPACITY;
      var count := if requested == 0 || requested > available then available else requested;
      var first := written - count;
      assert first == FirstOf(requested, written) && first + count == |history| && Oldest(written) <= first + 1;
      hide FirstOf, Oldest, Valid;
      NoText(history, first);
      text := [];
      var i: nat := 0;
      while i < count
        invariant i <= count && i <= copies && text == TextOf(history, first, first + i) && |text| <= outlen
        invariant Reaches(history, first, outlen) == Reaches(history, first + i, outlen - |text|)
      {
        var line := FormatStored(first + i + 1);
        ReachesOne(history, first + i, outlen - |text|);
        if |text| + |line| > outlen { return; }
        if i >= copies { return; }
        MoreText(history, first, first + i + 1);
        text := text + line;
        i := i + 1;
      }
      ReachesEnd(history, outlen - |text|);
    }

    /** znn_control: -1 for a command it does not know, else the newest records' lines. */
    method Control(args: Option<seq<byte>>, outlen: int, copies: nat) returns (ret: int, text: seq<byte>)
      requires Valid()
      ensures outlen <= 0 || args.None? || ReadCommand(args.value).None? ==> ret == -1 && text == []
      ensures outlen > 0 && args.Some? && ReadCommand(args.value).Some? ==>
                var requested := ReadCommand(args.value).value;
                ret == |text| <= outlen
                && text == TextOf(history, FirstOf(requested, written), Printed(history, requested, outlen, copies))
    {
      hide TextOf, ReadCommand, Reaches;
      if outlen <= 0 { return -1, []; }
      var requested := ParseReadCommand(args);
      if requested.None? { return -1, []; }
      text := Newest(requested.value, outlen, copies);
      ret := |text|;
    }
  }

  /** The last record znn_control prints when `copies` copies to the reader go through. */
  function Printed(h: seq<ExecRecord>, requested: nat, outlen: nat, copies: nat): (r: nat)
    requires |h| < U64
    ensures FirstOf(requested, |h|) <= r <= |h|
  {
    var first := FirstOf(requested, |h|);
    var to := Reaches(h, first, outlen);
    if to - first <= copies then to else first + copies
  }

  lemma ReachesOne(h: seq<ExecRecord>, from: nat, room: int)
    requires from < |h| < U64
    ensures var line := Line(from + 1, h[from]);
            Reaches(h, from, room) == if |line| > room then from else Reaches(h, from + 1, room - |line|)
  {
  }

  /** What is reached fits. */
  lemma {:induction false} ReachesFits(h: seq<ExecRecord>, from: nat, room: nat)
    requires from <= |h| < U64
    ensures |TextOf(h, from, Reaches(h, from, room))| <= room
    ensures Reaches(h, from, room) < |h| ==>
              |TextOf(h, from, Reaches(h, from, room) + 1)| > room
    decreases |h| - from
  {
    hide Line, TextOf;
    NoText(h, from);
    if from < |h| { FirstText(h, from); }
    if from == |h| || |Line(from + 1, h[from])| > room {
    } else {
      var to := Reaches(h, from, room);
      ReachesFits(h, from + 1, room - |Line(from + 1, h[from])|);
      FrontText(h, from, to);
      if to < |h| { FrontText(h, from, to + 1); }
    }
  }

  lemma FirstText(h: seq<ExecRecord>, from: nat)
    requires from < |h| < U64
    ensures TextOf(h, from, from + 1) == Line(from + 1, h[from])
  {
    hide Line;
    assert TextOf(h, from, from) == [];
  }

  lemma ReachesEnd(h: seq<ExecRecord>, room: int)
    requires |h| < U64
    ensures Reaches(h, |h|, room) == |h|
  {
  }

  lemma NoText(h: seq<ExecRecord>, a: nat)
    requires a <= |h| < U64
    ensures TextOf(h, a, a) == []
  {
  }

  lemma MoreText(h: seq<ExecRecord>, a: nat, b: nat)
    requires a < b <= |h| < U64
    ensures TextOf(h, a, b) == TextOf(h, a, b - 1) + Line(b, h[b - 1])
  {
  }

  // ---- the control command ----

  const READ_WORD: seq<byte> := [114, 101, 97, 100]

  predicate IsBlank(c: byte) { c == 32 || c == 9 }

  function Blanks(s: seq<byte>): (k: nat)
    ensures k <= |s| && (k < |s| ==> !IsBlank(s[k])) && forall i :: 0 <= i < k ==> IsBlank(s[i])
  {
    if s == [] || !IsBlank(s[0]) then 0 else 1 + Blanks(s[1..])
  }

  function Digits(s: seq<byte>): (k: nat)
    ensures k <= |s| && (k < |s| ==> !IsDigit(s[k])) && forall i :: 0 <= i < k ==> IsDigit(s[i])
  {
    if s == [] || !IsDigit(s[0]) then 0 else 1 + Digits(s[1..])
  }

  /** A word ends at a blank or at the end of the string. */
  predicate Ended(s: seq<byte>) { s == [] || IsBlank(s[0]) }

  /** The number behind the command; numbers above the ring's size count as that size. */
  function NumberAt(v: seq<byte>): Option<nat> {
    var d := v[..Digits(v)];
    if !Ended(v[Digits(v)..]) then None
    else Some(if Value(d) < 0 || Value(d) > RING_CAPACITY then RING_CAPACITY else Value(d))
  }

  function CommandAt(t: seq<byte>): Option<nat> {
    if !(READ_WORD <= t) || !Ended(t[4..]) then None else NumberAt(t[4..][Blanks(t[4..])..])
  }

  /** "read", perhaps with a number behind it. */
  function ReadCommand(s: seq<byte>): Option<nat> { CommandAt(s[Blanks(s)..]) }

  /** znn_parse_read_command on a string whose end reads as a zero. */
  method ParseReadCommand(args: Option<seq<byte>>) returns (count: Option<nat>)
    ensures count == if args.None? then None else ReadCommand(args.value)
  {
    hide Value, Blanks, Digits;
    if args == None { return None; }
    var s := SkipBlanks(args.value);
    if |s| < 4 || s[0] != 114 || s[1] != 101 || s[2] != 97 || s[3] != 100 { return None; }
    assert s[..4] == READ_WORD;
    s := s[4..];
    if s != [] && !IsBlank(s[0]) { return None; }
    s := SkipBlanks(s);
    var value, digits := ReadNumber(s);
    s := s[digits..];
    if s != [] && !IsBlank(s[0]) { return None; }
    count := Some(if digits > 0 then value else 0);
    ValueOfNothing();
  }

  lemma ValueOfNothing()
    ensures Value([]) == 0
  {
  }

  /** The digits, with the number kept at the ring's size once it is larger. */
  method ReadNumber(v: seq<byte>) returns (value: nat, digits: nat)
    ensures digits == Digits(v) && Saturated(v[..digits], value)
  {
    value, digits := 0, 0;
    assert v[..0] == [];
    while digits < |v| && IsDigit(v[digits])
      invariant digits <= Digits(v) && Saturated(v[..digits], value)
    {
      DigitsBelow(v, digits);
      assert v[..digits + 1][..digits] == v[..digits];
      value := value * 10 + (v[digits] as int - 48);
      if value > RING_CAPACITY { value := RING_CAPACITY; }
      digits := digits + 1;
    }
    DigitsEnd(v, digits);
  }

  lemma DigitsBelow(v: seq<byte>, k: nat)
    requires k <= Digits(v) && k < |v| && IsDigit(v[k])
    ensures k < Digits(v)
  {
  }

  predicate Saturated(d: seq<byte>, value: nat) {
    AllDigits(d) && Value(d) >= 0 && value == if Value(d) > RING_CAPACITY then RING_CAPACITY else Value(d)
  }

  lemma DigitsEnd(v: seq<byte>, k: nat)
    requires k <= Digits(v) && (k == |v| || !IsDigit(v[k]))
    ensures k == Digits(v)
  {
  }

  lemma {:induction false} BlanksBefore(k: nat, s: seq<byte>)
    requires s == [] || !IsBlank(s[0])
    ensures Blanks(Spaces(k) + s) == k && (Spaces(k) + s)[k..] == s
  {
    if k == 0 {
      assert Spaces(0) + s == s;
    } else {
      assert (Spaces(k) + s)[1..] == Spaces(k - 1) + s;
      BlanksBefore(k - 1, s);
    }
  }

  function Spaces(k: nat): (r: seq<byte>)
    ensures |r| == k
  {
    if k == 0 then [] else [SPACE] + Spaces(k - 1)
  }

  lemma {:induction false} AllOfThemDigits(d: seq<byte>)
    requires AllDigits(d)
    ensures Digits(d) == |d|
  {
    if d == [] {
    } else {
      AllOfThemDigits(d[1..]);
    }
  }

  lemma ReadAll(before: nat)
    ensures ReadCommand(Spaces(before) + READ_WORD) == Some(0)
  {
    BlanksBefore(before, READ_WORD);
    hide Blanks, Spaces, Digits, Value;
    assert READ_WORD[4..] == [];
    NoBlanks();
    ValueOfNothing();
  }

  lemma NoBlanks()
    ensures Blanks([]) == 0 && Digits([]) == 0
  {
  }

  lemma NumberOf(d: seq<byte>)
    requires AllDigits(d)
    ensures NumberAt(d) == Some(if Value(d) < 0 || Value(d) > RING_CAPACITY then RING_CAPACITY else Value(d))
  {
    AllOfThemDigits(d);
    assert d[..|d|] == d && d[|d|..] == [];
  }

  lemma ReadSome(before: nat, between: nat, d: seq<byte>)
    requires between > 0 && d != [] && AllDigits(d)
    ensures ReadCommand(Spaces(before) + (READ_WORD + (Spaces(between) + d)))
            == Some(if Value(d) < 0 || Value(d) > RING_CAPACITY then RING_CAPACITY else Value(d))
  {
    var rest := Spaces(between) + d;
    assert Spaces(between)[0] == SPACE;
    hide Blanks, Spaces, Digits, Value, NumberAt;
    var t := READ_WORD + rest;
    BlanksBefore(before, t);
    BlanksBefore(between, d);
    assert t[4..] == rest;
    NumberOf(d);
  }

  /** "read" alone asks for everything, "read N" for N records but never for more than the ring has. */
  lemma ReadCommandOf(before: nat, between: nat, n: nat)
    ensures ReadCommand(Spaces(before) + READ_WORD) == Some(0)
    ensures between > 0 ==>
              ReadCommand(Spaces(before) + (READ_WORD + (Spaces(between) + Decimal(n))))
              == Some(if n > RING_CAPACITY then RING_CAPACITY else n)
  {
    hide ReadCommand;
    ReadAll(before);
    ValueOfDecimal(n);
    if between > 0 { ReadSome(before, between, Decimal(n)); }
  }

  method SkipBlanks(s: seq<byte>) returns (r: seq<byte>)
    ensures r == s[Blanks(s)..]
  {
    r := s;
    ghost var k := 0;
    while r != [] && IsBlank(r[0])
      invariant k <= Blanks(s) && r == s[k..]
      decreases |r|
    {
      r := r[1..];
      k := k + 1;
    }
  }

  // ---- the reader ----

  /** The events of the records a+1, ..., b: those without a process are counted but not reported. */
  function Events(h: seq<ExecRecord>, a: nat, b: nat): seq<Event>
    requires a <= b <= |h|
    decreases b
  {
    if a == b then []
    else Events(h, a, b - 1) + (if h[b - 1].pid > 0 then [Event(h[b - 1].pid, h[b - 1].ppid)] else [])
  }

  lemma NoEvents(h: seq<ExecRecord>, a: nat)
    requires a <= |h|
    ensures Events(h, a, a) == []
  {
  }

  lemma MoreEvents(h: seq<ExecRecord>, a: nat, b: nat)
    requires a < b <= |h|
    ensures Events(h, a, b)
            == Events(h, a, b - 1) + (if h[b - 1].pid > 0 then [Event(h[b - 1].pid, h[b - 1].ppid)] else [])
  {
  }

  lemma {:induction false} FrontText(h: seq<ExecRecord>, a: nat, b: nat)
    requires a < b <= |h| < U64
    ensures TextOf(h, a, b) == Line(a + 1, h[a]) + TextOf(h, a + 1, b)
    decreases b
  {
    hide Line, TextOf;
    MoreText(h, a, b);
    if a + 1 == b {
      NoText(h, a);
      NoText(h, b);
    } else {
      FrontText(h, a, b - 1);
      MoreText(h, a + 1, b);
    }
  }

  /** The lines of the text are the records, one each. */
  lemma {:induction false} LinesOfText(h: seq<ExecRecord>, a: nat, b: nat)
    requires a <= b <= |h| < U64
    ensures |Lines(TextOf(h, a, b))| == b - a
    ensures forall i :: 0 <= i < b - a ==> Lines(TextOf(h, a, b))[i] == Body(a + 1 + i, h[a + i])
    decreases b - a
  {
    hide Body, Lines;
    if a == b {
      LinesOfNothing();
    } else {
      var body := Body(a + 1, h[a]);
      FrontText(h, a, b);
      LinesOfText(h, a + 1, b);
      BodyIsOneLine(a + 1, h[a]);
      NextLine(body, TextOf(h, a + 1, b));
      assert Lines(TextOf(h, a, b)) == [body] + Lines(TextOf(h, a + 1, b));
    }
  }

  lemma LinesOfNothing()
    ensures Lines([]) == []
  {
  }

  lemma RoomForOne(h: seq<ExecRecord>, from: nat)
    requires from < |h| < U64
    ensures Reaches(h, from, MAX_PAYLOAD) > from
  {
    LineFits(from + 1, h[from]);
  }

  // ---- every interleaving of execs and reads ----

  /** `parsed` are the sequence numbers the reader has seen, `lost` those it has passed over. */
  datatype World = World(history: seq<ExecRecord>, since: nat, parsed: seq<nat>, pushed: seq<Event>, lost: set<nat>)
  datatype Move = Note(rec: ExecRecord) | Read | Fault

  predicate Between(a: nat, k: nat, b: nat) { a < k <= b }

  function Passed(a: nat, b: nat): set<nat> { set k: nat | a < k <= b && Between(a, k, b) }

  function UpFrom(a: nat, b: nat): seq<nat>
    requires a <= b
    decreases b
  {
    if a == b then [] else UpFrom(a, b - 1) + [b]
  }

  function Apply(w: World, m: Move): World
    requires |w.history| + 1 < U64
  {
    match m
    case Note(rec) => w.(history := w.history + [rec])
    case Fault => w
    case Read =>
      if w.since >= |w.history| then w
      else
        var from := SkippedTo(w.history, w.since);
        var to := Reaches(w.history, from, MAX_PAYLOAD);
        World(w.history, to, w.parsed + UpFrom(from, to), w.pushed + Events(w.history, from, to),
              w.lost + Passed(w.since, from))
  }

  function Run(w: World, moves: seq<Move>): World
    requires |w.history| + |moves| + 1 < U64
    decreases |moves|, 0
  {
    if moves == [] then w
    else
      var r := Run(w, moves[..|moves| - 1]);
      RunGrows(w, moves[..|moves| - 1]);
      Apply(r, moves[|moves| - 1])
  }

  lemma {:induction false} RunGrows(w: World, moves: seq<Move>)
    requires |w.history| + |moves| + 1 < U64
    ensures |Run(w, moves).history| <= |w.history| + |moves|
    decreases |moves|, 1
  {
    if moves == [] {
    } else {
      RunGrows(w, moves[..|moves| - 1]);
    }
  }

  /** Numbers of records that have been noted. */
  predicate Noted(h: seq<ExecRecord>, parsed: seq<nat>) {
    forall i :: 0 <= i < |parsed| ==> 1 <= parsed[i] <= |h|
  }

  /** The events of the parsed numbers, in order. */
  function Reported(h: seq<ExecRecord>, parsed: seq<nat>): seq<Event>
    requires Noted(h, parsed)
    decreases |parsed|
  {
    if parsed == [] then []
    else
      var r := h[parsed[|parsed| - 1] - 1];
      Reported(h, parsed[..|parsed| - 1]) + (if r.pid > 0 then [Event(r.pid, r.ppid)] else [])
  }

  /**
   What the reader has reported is true, in order and without repetition; every number up to the cursor was either
   parsed or lost, never both; and what was lost had been overwritten by 64 newer records.
   */
  ghost predicate Faithful(w: World) {
    w.since <= |w.history|
    && (forall i :: 0 <= i < |w.parsed| ==> 1 <= w.parsed[i] <= w.since)
    && (forall i, j :: 0 <= i < j < |w.parsed| ==> w.parsed[i] < w.parsed[j])
    && w.pushed == Reported(w.history, w.parsed)
    && (forall k :: k in w.lost ==> 1 <= k <= w.since && k !in w.parsed && k + RING_CAPACITY <= |w.history|)
    && (forall k :: 1 <= k <= w.since ==> k in w.parsed || k in w.lost)
  }

  lemma {:induction false} UpFromIs(a: nat, b: nat)
    requires a <= b
    ensures |UpFrom(a, b)| == b - a && forall i :: 0 <= i < b - a ==> UpFrom(a, b)[i] == a + 1 + i
    decreases b
  {
    if a == b {
    } else {
      UpFromIs(a, b - 1);
    }
  }

  lemma OneReported(h: seq<ExecRecord>, parsed: seq<nat>, n: nat)
    requires Noted(h, parsed) && 1 <= n <= |h|
    ensures Noted(h, parsed + [n])
    ensures Reported(h, parsed + [n]) ==
            Reported(h, parsed) + (if h[n - 1].pid > 0 then [Event(h[n - 1].pid, h[n - 1].ppid)] else [])
  {
    assert (parsed + [n])[..|parsed|] == parsed;
  }

  lemma {:induction false} ReportedMore(h: seq<ExecRecord>, parsed: seq<nat>, a: nat, b: nat)
    requires a <= b <= |h| && Noted(h, parsed)
    ensures Noted(h, parsed + UpFrom(a, b))
    ensures Reported(h, parsed + UpFrom(a, b)) == Reported(h, parsed) + Events(h, a, b)
    decreases b
  {
    hide Noted, Reported;
    if a < b {
      ReportedMore(h, parsed, a, b - 1);
      OneReported(h, parsed + UpFrom(a, b - 1), b);
      assert parsed + UpFrom(a, b) == parsed + UpFrom(a, b - 1) + [b];
    } else {
      assert parsed + UpFrom(a, b) == parsed;
    }
  }

  lemma {:induction false} ReportedStays(h: seq<ExecRecord>, rec: ExecRecord, parsed: seq<nat>)
    requires Noted(h, parsed)
    ensures Reported(h + [rec], parsed) == Reported(h, parsed)
    decreases |parsed|
  {
    if parsed == [] {
    } else {
      ReportedStays(h, rec, parsed[..|parsed| - 1]);
    }
  }

  lemma ParsedGrows(parsed: seq<nat>, since: nat, from: nat, to: nat)
    requires since <= from <= to
    requires forall i :: 0 <= i < |parsed| ==> 1 <= parsed[i] <= since
    requires forall i, j :: 0 <= i < j < |parsed| ==> parsed[i] < parsed[j]
    ensures var q := parsed + UpFrom(from, to);
            (forall i :: 0 <= i < |q| ==> 1 <= q[i] <= to) && (forall i, j :: 0 <= i < j < |q| ==> q[i] < q[j])
            && (forall k :: k in parsed ==> k in q) && (forall k: nat :: from < k <= to ==> k in q)
            && (forall k :: since < k <= from ==> k !in q) && (forall k :: k <= since && k !in parsed ==> k !in q)
  {
    UpFromIs(from, to);
    var q := parsed + UpFrom(from, to);
    forall k: nat | from < k <= to ensures k in q { assert q[|parsed| + (k - from - 1)] == k; }
    forall k | k in q && k <= from ensures k in parsed && k <= since {
      var i :| 0 <= i < |q| && q[i] == k;
      assert i < |parsed|;
    }
  }

  lemma ReadKeeps(w: World)
    requires Faithful(w) && |w.history| + 1 < U64 && w.since < |w.history|
    ensures Faithful(Apply(w, Read))
  {
    hide Reaches, UpFrom, Reported, Events;
    var from := SkippedTo(w.history, w.since);
    var to := Reaches(w.history, from, MAX_PAYLOAD);
    ReportedMore(w.history, w.parsed, from, to);
    ParsedGrows(w.parsed, w.since, from, to);
    var v := Apply(w, Read);
    assert forall k :: k in v.lost ==> k in w.lost || Between(w.since, k, from);
    forall k | 1 <= k <= v.since ensures k in v.parsed || k in v.lost {
      if w.since < k <= from { assert Between(w.since, k, from); }
    }
  }

  /** Every step keeps the reader faithful. */
  lemma ApplyKeeps(w: World, m: Move)
    requires Faithful(w) && |w.history| + 1 < U64
    ensures Faithful(Apply(w, m))
  {
    match m
    case Note(rec) => ReportedStays(w.history, rec, w.parsed);
    case Fault =>
    case Read => if w.since < |w.history| { ReadKeeps(w); }
  }

  /** Delivery: over any interleaving of exec notes, reads and failed reads. */
  lemma {:induction false} DeliveryIsFaithful(w: World, moves: seq<Move>)
    requires Faithful(w) && |w.history| + |moves| + 1 < U64
    ensures Faithful(Run(w, moves))
    decreases |moves|
  {
    if moves == [] {
    } else {
      DeliveryIsFaithful(w, moves[..|moves| - 1]);
      RunGrows(w, moves[..|moves| - 1]);
      ApplyKeeps(Run(w, moves[..|moves| - 1]), moves[|moves| - 1]);
    }
  }

  /** Nothing noted, nothing read: a fresh module and a fresh tracker. */
  const START := World([], 0, [], [], {})

  lemma StartIsFaithful()
    ensures Faithful(START)
  {
  }

  /** Delivery over every run from the start. */
  lemma DeliveryFromStart(moves: seq<Move>)
    requires |moves| + 1 < U64
    ensures Faithful(Run(START, moves))
  {
    StartIsFaithful();
    DeliveryIsFaithful(START, moves);
  }

  /**
   When the reader comes to a record it parses it, exactly unless 64 newer ones have been noted by then; and a read
   that finds anything new gets ahead.
   */
  lemma LostExactlyWhenOverwritten(w: World, k: nat)
    requires Faithful(w) && |w.history| + 1 < U64 && w.since < k <= Apply(w, Read).since
    ensures k in Apply(w, Read).lost <==> k + RING_CAPACITY <= |w.history|
    ensures k in Apply(w, Read).parsed <==> k + RING_CAPACITY > |w.history|
  {
    hide Reaches;
    ApplyKeeps(w, Read);
    assert k !in w.parsed;
  }

  lemma ReadGetsAhead(w: World)
    requires Faithful(w) && |w.history| + 1 < U64 && w.since < |w.history|
    ensures w.since < Apply(w, Read).since <= |w.history|
  {
    RoomForOne(w.history, SkippedTo(w.history, w.since));
  }

  class KpmTracker {
    var since: u64
    const bufferLength: nat := MAX_PAYLOAD

    constructor ()
      ensures since == 0
    {
      since := 0;
    }

    /** The lines of one read: the events they report and the highest number among them. */
    method TakeLines(text: seq<byte>, events: seq<Event>, ghost h: seq<ExecRecord>, ghost a: nat, ghost b: nat)
        returns (last: nat, events': seq<Event>)
      requires a <= b <= |h| < U64 && text == TextOf(h, a, b) && since <= a
      ensures events' == events + Events(h, a, b) && last == if a < b then b else since
    {
      hide Lines, TextOf, Body, ParsedLine, Events;
      NoEvents(h, a);
      LinesOfText(h, a, b);
      var lines := Lines(text);
      last, events' := since, events;
      var i := 0;
      while i < |lines|
        invariant i <= |lines| && events' == events + Events(h, a, a + i) && last == (if i > 0 then a + i else since)
      {
        LineRoundTrip(a + 1 + i, h[a + i]);
        MoreEvents(h, a, a + i + 1);
        var record := ParseLine(lines[i]);
        if record.Some? {
          if record.value.n > last { last := record.value.n; }
          if record.value.pid > 0 { events' := events' + [Event(record.value.pid, record.value.ppid)]; }
        }
        i := i + 1;
      }
    }

    /** One round of drain, of whose reads `copies` copies to the reader go through; `more` says whether to go on. */
    method Round(ring: Ring, events: seq<Event>, copies: nat, ghost w: World) returns (more: bool, events': seq<Event>)
      requires At(ring, events, w) && |ring.history| + 1 < U64
      modifies this
      ensures At(ring, events', if ReadFails(w, copies) then w else Apply(w, Read))
      ensures more == GoesOn(w, copies)
    {
      hide TextOf, Reaches, Events, Line;
      events' := events;
      var ret, text := ring.Channel(bufferLength, since, true, copies);
      if ret < 0 { return false, events; }
      if ret == 0 {
        if since < ring.written {
          ghost var from := SkippedTo(ring.history, since);
          RoomForOne(ring.history, from);
          SomeText(ring.history, from, Reaches(ring.history, from, bufferLength));
          assert false;
        }
        return false, events;
      }
      ghost var from := SkippedTo(ring.history, since);
      RoomForOne(ring.history, from);
      since, events' := TakeLines(text, events, ring.history, from, Reaches(ring.history, from, bufferLength));
      more := |text| >= bufferLength;
    }

    lemma SomeText(h: seq<ExecRecord>, a: nat, b: nat)
      requires a < b <= |h| < U64
      ensures |TextOf(h, a, b)| > 0
    {
      LineFits(b, h[b - 1]);
    }

    /** The tracker and the ring stand for `w`. */
    ghost predicate At(ring: Ring, events: seq<Event>, w: World)
      reads this, ring, ring.slots
    {
      ring.Valid() && w.history == ring.history && w.since == since <= |ring.history| && w.pushed == events
    }

    /** KpmTracker::drain: `turns` says which execs precede each of its reads and how many copies go through. */
    method Drain(ring: Ring, events: seq<Event>, turns: seq<Turn>, ghost w: World) returns (events': seq<Event>)
      requires At(ring, events, w) && |turns| == MAX_ROUNDS && |w.history| + Total(turns) + 1 < U64
      modifies this, ring`written, ring`history, ring.slots
      ensures At(ring, events', Drained(w, turns))
    {
      hide Apply, ReadFails, GoesOn, Drained;
      events' := events;
      ghost var v := w;
      var round := 0;
      while round < MAX_ROUNDS
        invariant 0 <= round <= MAX_ROUNDS && At(ring, events', v) && |v.history| + Total(turns[round..]) + 1 < U64
        invariant Drained(v, turns[round..]) == Drained(w, turns)
      {
        assert turns[round..][1..] == turns[round + 1..];
        TurnTaken(v, turns[round..]);
        NoteAll(ring, events', turns[round].execs, v);
        v := Noting(v, turns[round].execs);
        var more;
        more, events' := Round(ring, events', turns[round].copies, v);
        v := if ReadFails(v, turns[round].copies) then v else Apply(v, Read);
        if !more { return; }
        round := round + 1;
      }
      NoTurns(v, turns[round..]);
    }

    /** Other processes execute programs. */
    method NoteAll(ring: Ring, ghost events: seq<Event>, execs: seq<ExecRecord>, ghost w: World)
      requires At(ring, events, w) && |w.history| + |execs| + 1 < U64
      modifies ring`written, ring`history, ring.slots
      ensures At(ring, events, Noting(w, execs))
    {
      assert w.history + execs[..0] == w.history;
      for i := 0 to |execs|
        invariant At(ring, events, w.(history := w.history + execs[..i]))
      {
        ring.NoteExec(execs[i].pid, execs[i].tgid, execs[i].ppid);
        assert w.history + execs[..i + 1] == (w.history + execs[..i]) + [execs[i]];
      }
      assert execs[..|execs|] == execs;
    }
  }

  lemma RunNothing(w: World)
    requires |w.history| + 1 < U64
    ensures Run(w, []) == w
  {
  }

  lemma RunMore(w: World, moves: seq<Move>, m: Move)
    requires |w.history| + |moves| + 2 < U64
    ensures |Run(w, moves).history| + 1 < U64 && Run(w, moves + [m]) == Apply(Run(w, moves), m)
  {
    RunGrows(w, moves);
    assert (moves + [m])[..|moves|] == moves;
  }

  // ---- what a drain comes to ----

  /** What happens around one read of a drain: the execs before it, and how many copies to the reader go through. */
  datatype Turn = Turn(execs: seq<ExecRecord>, copies: nat)

  function Total(turns: seq<Turn>): nat
    decreases |turns|
  {
    if turns == [] then 0 else |turns[0].execs| + Total(turns[1..])
  }

  function Noting(w: World, execs: seq<ExecRecord>): World { w.(history := w.history + execs) }

  /** A copy is needed that does not go through. */
  predicate ReadFails(w: World, copies: nat)
    requires |w.history| + 1 < U64
  {
    w.since < |w.history|
    && var from := SkippedTo(w.history, w.since);
       Reaches(w.history, from, MAX_PAYLOAD) - from > copies
  }

  /** The read brought a full buffer. */
  predicate GoesOn(w: World, copies: nat)
    requires |w.history| + 1 < U64
  {
    w.since < |w.history| && !ReadFails(w, copies)
    && var from := SkippedTo(w.history, w.since);
       |TextOf(w.history, from, Reaches(w.history, from, MAX_PAYLOAD))| >= MAX_PAYLOAD
  }

  function Drained(w: World, turns: seq<Turn>): World
    requires |w.history| + Total(turns) + 1 < U64
    decreases |turns|
  {
    if turns == [] then w
    else
      var u := Noting(w, turns[0].execs);
      var v := if ReadFails(u, turns[0].copies) then u else Apply(u, Read);
      if GoesOn(u, turns[0].copies) then Drained(v, turns[1..]) else v
  }

  lemma TurnTaken(w: World, turns: seq<Turn>)
    requires turns != [] && |w.history| + Total(turns) + 1 < U64
    ensures var u := Noting(w, turns[0].execs);
            |u.history| + Total(turns[1..]) + 1 < U64
            && var v := if ReadFails(u, turns[0].copies) then u else Apply(u, Read);
               v.history == u.history
               && Drained(w, turns) == if GoesOn(u, turns[0].copies) then Drained(v, turns[1..]) else v
  {
    hide ReadFails, GoesOn, Reaches;
  }

  lemma NoTurns(w: World, turns: seq<Turn>)
    requires turns == [] && |w.history| + 1 < U64
    ensures Drained(w, turns) == w
  {
  }

  /** A drain as an interleaving of notes, reads and failed reads. */
  function DrainMoves(w: World, turns: seq<Turn>): seq<Move>
    requires |w.history| + Total(turns) + 1 < U64
    decreases |turns|
  {
    if turns == [] then []
    else
      var u := Noting(w, turns[0].execs);
      var read := [if ReadFails(u, turns[0].copies) then Fault else Read];
      Notes(turns[0].execs) + read + if GoesOn(u, turns[0].copies) then DrainMoves(Apply(u, Read), turns[1..]) else []
  }

  function Notes(execs: seq<ExecRecord>): seq<Move> {
    seq(|execs|, i requires 0 <= i < |execs| => Note(execs[i]))
  }

  lemma {:induction false} RunJoin(w: World, a: seq<Move>, b: seq<Move>)
    requires |w.history| + |a| + |b| + 1 < U64
    ensures |Run(w, a).history| <= |w.history| + |a| && Run(w, a + b) == Run(Run(w, a), b)
    decreases |b|
  {
    hide Apply;
    RunGrows(w, a);
    if b == [] {
      assert a + b == a;
    } else {
      var front, last := b[..|b| - 1], b[|b| - 1];
      RunJoin(w, a, front);
      assert a + b == (a + front) + [last];
      assert (a + b)[..|a + b| - 1] == a + front;
    }
  }

  lemma {:induction false} RunNotes(w: World, execs: seq<ExecRecord>)
    requires |w.history| + |execs| + 1 < U64
    ensures Run(w, Notes(execs)) == Noting(w, execs)
    decreases |execs|
  {
    if execs == [] {
      assert w.history + execs == w.history;
    } else {
      var front, last := execs[..|execs| - 1], execs[|execs| - 1];
      RunNotes(w, front);
      assert Notes(execs)[..|execs| - 1] == Notes(front);
      assert w.history + execs == (w.history + front) + [last];
    }
  }

  lemma {:induction false} MovesBound(w: World, turns: seq<Turn>)
    requires |w.history| + Total(turns) + 1 < U64
    ensures |DrainMoves(w, turns)| <= Total(turns) + |turns|
    decreases |turns|
  {
    hide ReadFails, GoesOn, Reaches;
    if turns == [] {
    } else {
      var u := Noting(w, turns[0].execs);
      TurnTaken(w, turns);
      if GoesOn(u, turns[0].copies) { MovesBound(Apply(u, Read), turns[1..]); }
    }
  }

  /** A drain is one of the interleavings, so everything proved of those holds of it. */
  lemma {:induction false} DrainIsARun(w: World, turns: seq<Turn>)
    requires |w.history| + Total(turns) + |turns| + 1 < U64
    ensures |DrainMoves(w, turns)| <= Total(turns) + |turns|
    ensures Drained(w, turns) == Run(w, DrainMoves(w, turns))
    decreases |turns|
  {
    hide ReadFails, GoesOn, Apply, Run;
    MovesBound(w, turns);
    if turns == [] {
      RunNothing(w);
    } else {
      var u := Noting(w, turns[0].execs);
      TurnTaken(w, turns);
      var notes, move := Notes(turns[0].execs), if ReadFails(u, turns[0].copies) then Fault else Read;
      RunNotes(w, turns[0].execs);
      RunMore(w, notes, move);
      FaultApplies(u);
      if GoesOn(u, turns[0].copies) {
        var v := Apply(u, Read);
        NoFaultGoingOn(u, turns[0].copies);
        DrainIsARun(v, turns[1..]);
        RunJoin(w, notes + [move], DrainMoves(v, turns[1..]));
      } else {
        assert notes + [move] + [] == notes + [move];
      }
    }
  }

  lemma FaultApplies(w: World)
    requires |w.history| + 1 < U64
    ensures Apply(w, Fault) == w
  {
  }

  lemma NoFaultGoingOn(w: World, copies: nat)
    requires |w.history| + 1 < U64 && GoesOn(w, copies)
    ensures !ReadFails(w, copies)
  {
  }

  lemma DrainIsFaithful(w: World, turns: seq<Turn>)
    requires Faithful(w) && |w.history| + Total(turns) + |turns| + 1 < U64
    ensures Faithful(Drained(w, turns))
  {
    hide Faithful, Drained, Run, DrainMoves;
    DrainIsARun(w, turns);
    DeliveryIsFaithful(w, DrainMoves(w, turns));
  }

  // ---- what a drain leaves behind ----

  /** Every copy that can be needed goes through. */
  predicate NoFault(turns: seq<Turn>) { forall i :: 0 <= i < |turns| ==> turns[i].copies >= RING_CAPACITY }

  /** The next record is still to be read because a buffer that begins behind `from` had no room for it. */
  predicate Crowded(w: World, from: nat)
    requires |w.history| + 1 < U64
  {
    Oldest(|w.history|) <= from + 1 && from < w.since < |w.history|
    && |TextOf(w.history, from, w.since + 1)| > MAX_PAYLOAD
  }

  lemma ReadTakesWhatFits(w: World, copies: nat)
    requires w.since <= |w.history| && |w.history| + 1 < U64 && copies >= RING_CAPACITY
    ensures !ReadFails(w, copies)
    ensures var v, from := Apply(w, Read), SkippedTo(w.history, w.since);
            v.since == |v.history| || Crowded(v, from)
    ensures w.since < |w.history| ==> w.since < Apply(w, Read).since <= |w.history|
  {
    hide TextOf, Reaches;
    if w.since < |w.history| {
      var from := SkippedTo(w.history, w.since);
      RoomForOne(w.history, from);
      ReachesFits(w.history, from, MAX_PAYLOAD);
    }
  }

  /** A drain without a failed copy leaves a record unread only when a buffer had no room for it. */
  lemma {:induction false} DrainTakesWhatFits(w: World, turns: seq<Turn>) returns (from: nat)
    requires w.since <= |w.history| && |w.history| + Total(turns) + 1 < U64 && turns != [] && NoFault(turns)
    ensures var v := Drained(w, turns);
            |w.history| <= |v.history| <= |w.history| + Total(turns)
            && (v.since == |v.history| || Crowded(v, from))
    decreases |turns|
  {
    hide ReadFails, GoesOn, Apply, Crowded, Drained;
    TurnTaken(w, turns);
    var u := Noting(w, turns[0].execs);
    ReadTakesWhatFits(u, turns[0].copies);
    from := SkippedTo(u.history, u.since);
    var v := Apply(u, Read);
    if GoesOn(u, turns[0].copies) {
      CursorStays(u);
      if |turns| == 1 {
        NoTurns(v, turns[1..]);
      } else {
        from := DrainTakesWhatFits(v, turns[1..]);
      }
    }
  }

  lemma CursorStays(w: World)
    requires w.since <= |w.history| && |w.history| + 1 < U64
    ensures Apply(w, Read).since <= |w.history|
  {
    hide Reaches;
  }

  /** Numbers below this have at most nine digits. */
  const BILLION := 10_0000_0000

  /** 64 lines fit into the buffer as long as their numbers have at most nine digits. */
  lemma {:induction false} TextFits(h: seq<ExecRecord>, a: nat, b: nat)
    requires a <= b <= |h| < BILLION
    ensures |TextOf(h, a, b)| <= 64 * (b - a)
    decreases b
  {
    hide Line;
    if a == b {
    } else {
      TextFits(h, a, b - 1);
      LineWidth(b, h[b - 1], 9);
      NineDigits();
    }
  }

  lemma NeverCrowded(w: World, from: nat)
    requires |w.history| < BILLION
    ensures !Crowded(w, from)
  {
    hide TextOf;
    if from < w.since < |w.history| { TextFits(w.history, from, w.since + 1); }
  }

  /**
   While fewer than a billion execs have been noted, a drain without a failed copy catches up: it ends with the number
   noted at its last read, and has reported everything that was still in the ring when it began.
   */
  lemma DrainCatchesUp(w: World, turns: seq<Turn>)
    requires w.since <= |w.history| && |w.history| + Total(turns) < BILLION && turns != [] && NoFault(turns)
    ensures var h, v := w.history + turns[0].execs, Drained(w, turns);
            v.since == |v.history| && h <= v.history
            && (w.since < |h| ==> w.pushed + Events(h, SkippedTo(h, w.since), |h|) <= v.pushed)
    ensures var v := Drained(w, turns); w.since == |w.history + turns[0].execs| ==> v == Noting(w, turns[0].execs)
  {
    hide Drained, TextOf, Events, UpFrom, Reaches;
    var from := DrainTakesWhatFits(w, turns);
    NeverCrowded(Drained(w, turns), from);
    TurnTaken(w, turns);
    var u := Noting(w, turns[0].execs);
    ReadTakesWhatFits(u, turns[0].copies);
    var v := Apply(u, Read);
    NeverCrowded(v, SkippedTo(u.history, u.since));
    if GoesOn(u, turns[0].copies) { DrainGrows(v, turns[1..]); }
  }

  lemma {:induction false} DrainGrows(w: World, turns: seq<Turn>)
    requires |w.history| + Total(turns) + 1 < U64
    ensures w.history <= Drained(w, turns).history && w.pushed <= Drained(w, turns).pushed
    decreases |turns|
  {
    hide ReadFails, GoesOn, Reaches, Events, UpFrom, Drained;
    if turns == [] {
      NoTurns(w, turns);
    } else {
      TurnTaken(w, turns);
      var u := Noting(w, turns[0].execs);
      if GoesOn(u, turns[0].copies) {
        DrainGrows(if ReadFails(u, turns[0].copies) then u else Apply(u, Read), turns[1..]);
      }
    }
  }

  /** A drain whose first read fails has changed nothing. */
  lemma FailedDrain(w: World, turns: seq<Turn>)
    requires |w.history| + Total(turns) + 1 < U64 && turns != []
    requires ReadFails(Noting(w, turns[0].execs), turns[0].copies)
    ensures Drained(w, turns) == Noting(w, turns[0].execs)
  {
    hide Drained;
    TurnTaken(w, turns);
  }

  // ---- a drain that leaves a record behind ----

  const LEAST: i32 := -0x8000_0000

  /** As many records as give the last 64 of them numbers of ten digits, all with the longest fields there are. */
  function LongRecords(): seq<ExecRecord> { seq(BILLION + 63, _ => ExecRecord(LEAST, LEAST, LEAST)) }

  lemma {:induction false} LongText(a: nat, b: nat)
    requires BILLION - 1 <= a <= b <= BILLION + 63
    ensures |TextOf(LongRecords(), a, b)| == 65 * (b - a)
    decreases b
  {
    hide Line;
    if a == b {
    } else {
      LongText(a, b - 1);
      LongLine(b);
    }
  }

  lemma LongReach()
    ensures |LongRecords()| == BILLION + 63
    ensures Reaches(LongRecords(), BILLION - 1, MAX_PAYLOAD) == BILLION + 62
    ensures |TextOf(LongRecords(), BILLION - 1, BILLION + 62)| == 4095
  {
    LongCount();
    hide TextOf, Reaches, LongRecords;
    var to := Reaches(LongRecords(), BILLION - 1, MAX_PAYLOAD);
    ReachesFits(LongRecords(), BILLION - 1, MAX_PAYLOAD);
    LongText(BILLION - 1, to);
    if to < BILLION + 63 { LongText(BILLION - 1, to + 1); }
  }

  lemma ReadOfLong(w: World)
    requires w.history == LongRecords() && w.since == 0
    ensures |w.history| == BILLION + 63 && !ReadFails(w, RING_CAPACITY) && !GoesOn(w, RING_CAPACITY)
    ensures Apply(w, Read).since == BILLION + 62
  {
    LongReach();
    hide TextOf, Reaches, LongRecords, Events, UpFrom, Passed;
  }

  /** Every copy goes through and nothing new is noted, and yet the last of the 64 records stays unread. */
  lemma OneStaysUnread(w: World, turns: seq<Turn>)
    requires w.history == LongRecords() && w.since == 0
    requires |turns| == MAX_ROUNDS && forall i :: 0 <= i < |turns| ==> turns[i] == Turn([], RING_CAPACITY)
    ensures Total(turns) == 0 && Drained(w, turns).since == BILLION + 62 == |w.history| - 1
  {
    NothingNoted(turns);
    ReadOfLong(w);
    hide Drained, ReadFails, GoesOn, Apply, LongRecords, Total;
    TurnTaken(w, turns);
    assert Noting(w, []) == w;
  }

  lemma LongCount()
    ensures |LongRecords()| == BILLION + 63
  {
  }

  lemma {:induction false} NothingNoted(turns: seq<Turn>)
    requires forall i :: 0 <= i < |turns| ==> turns[i].execs == []
    ensures Total(turns) == 0
    decreases |turns|
  {
    if turns == [] {
    } else {
      NothingNoted(turns[1..]);
    }
  }

  lemma LongLine(n: nat)
    requires BILLION <= n < BILLION + 64
    ensures |Line(n, ExecRecord(LEAST, LEAST, LEAST))| == 65
  {
    LineOfLeast(n);
    TenDigits(n);
  }

  lemma NineDigits()
    ensures Power10(9) == BILLION && Power10(10) == 10 * BILLION
  {
    assert Power10(3) == 1000 && Power10(6) == 100_0000;
  }

  lemma TenDigits(n: nat)
    requires BILLION <= n < BILLION + 64
    ensures |Decimal(n)| == 10
  {
    NineDigits();
    DecimalLength(n, 10);
    DecimalLengthAtLeast(n, 10);
  }
}
