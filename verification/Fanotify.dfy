/** Exec records read from a descriptor in arbitrary pieces (sys/fanotify.rs, kernel_fanotify.rs). */
module Fanotify {
  import opened Bits

  const METADATA_SIZE := 24
  const MASK_OFFSET := 8
  const FD_OFFSET := 16
  const PID_OFFSET := 20
  const MAX_PENDING := 0x1_0000

  datatype Record = Record(pid: int, fd: int, mask: nat)
  datatype Event = Event(pid: int, filename: Option<seq<byte>>)

  function ReadU32(s: seq<byte>, offset: nat): (v: nat)
    requires offset + 4 <= |s|
    ensures v < U32
  {
    Powers();
    FromLe(s[offset..offset + 4])
  }

  function ReadI32(s: seq<byte>, offset: nat): int
    requires offset + 4 <= |s|
  {
    var v := ReadU32(s, offset);
    if v >= 0x8000_0000 then v - U32 else v
  }

  function ReadU64(s: seq<byte>, offset: nat): nat
    requires offset + 8 <= |s|
  {
    FromLe(s[offset..offset + 8])
  }

  /** A whole record stands at the front: its own length field says where it ends. */
  predicate HasRecord(s: seq<byte>) {
    |s| >= METADATA_SIZE && METADATA_SIZE <= ReadU32(s, 0) <= |s|
  }

  function RecordAt(s: seq<byte>): Record
    requires |s| >= METADATA_SIZE
  {
    Record(ReadI32(s, PID_OFFSET), ReadI32(s, FD_OFFSET), ReadU64(s, MASK_OFFSET))
  }

  /** All whole records from the front on. */
  function Records(s: seq<byte>): seq<Record>
    decreases |s|
  {
    if HasRecord(s) then [RecordAt(s)] + Records(s[ReadU32(s, 0)..]) else []
  }

  /** How many bytes they take. */
  function Consumed(s: seq<byte>): (r: nat)
    ensures r <= |s|
    decreases |s|
  {
    if HasRecord(s) then ReadU32(s, 0) + Consumed(s[ReadU32(s, 0)..]) else 0
  }

  function Rest(s: seq<byte>): seq<byte> { s[Consumed(s)..] }

  /** The iterator over a buffer. */
  class Events {
    var remaining: seq<byte>
    var consumed: nat

    constructor (buffer: seq<byte>)
      ensures remaining == buffer && consumed == 0
    {
      remaining, consumed := buffer, 0;
    }

    /** Events::next */
    method Next() returns (record: Option<Record>)
      modifies this
      ensures record.Some? <==> HasRecord(old(remaining))
      ensures record.None? ==> remaining == old(remaining) && consumed == old(consumed)
      ensures record.Some? ==>
                var n := ReadU32(old(remaining), 0);
                record.value == RecordAt(old(remaining)) && remaining == old(remaining)[n..]
                && consumed == old(consumed) + n
    {
      if |remaining| < METADATA_SIZE { return None; }
      var length := ReadU32(remaining, 0);
      if length < METADATA_SIZE || length > |remaining| { return None; }
      record := Some(RecordAt(remaining));
      remaining := remaining[length..];
      consumed := consumed + length;
    }
  }

  /** The processes reported and the descriptors closed for some records. */
  function Pids(rs: seq<Record>): seq<int>
    decreases |rs|
  {
    if rs == [] then []
    else Pids(rs[..|rs| - 1]) + (if rs[|rs| - 1].pid > 0 then [rs[|rs| - 1].pid] else [])
  }

  function Closes(rs: seq<Record>): seq<int>
    decreases |rs|
  {
    if rs == [] then []
    else Closes(rs[..|rs| - 1]) + (if rs[|rs| - 1].fd >= 0 then [rs[|rs| - 1].fd] else [])
  }

  function PidsOf(events: seq<Event>): seq<int> { seq(|events|, i requires 0 <= i < |events| => events[i].pid) }

  /** Whether the link of a descriptor can be read is not up to the tracker. */
  method ReadLink(fd: int) returns (path: Option<seq<byte>>) {
    path := *;
  }

  lemma OneMore(done: seq<Record>, r: Record)
    ensures Pids(done + [r]) == Pids(done) + (if r.pid > 0 then [r.pid] else [])
    ensures Closes(done + [r]) == Closes(done) + (if r.fd >= 0 then [r.fd] else [])
  {
    assert (done + [r])[..|done|] == done;
  }

  lemma OneMoreEvent(events: seq<Event>, e: Event)
    ensures PidsOf(events + [e]) == PidsOf(events) + [e.pid]
  {
  }

  /** emit_records: every whole record once, every descriptor that came with one closed once. */
  method EmitRecords(pending: seq<byte>, events: seq<Event>, closed: seq<int>)
      returns (consumed: nat, events': seq<Event>, closed': seq<int>)
    ensures consumed == Consumed(pending)
    ensures PidsOf(events') == PidsOf(events) + Pids(Records(pending)) && closed' == closed + Closes(Records(pending))
  {
    hide RecordAt, ReadU32, HasRecord, Records, Consumed, Pids, Closes, PidsOf;
    var records := new Events(pending);
    events', closed' := events, closed;
    ghost var done: seq<Record> := [];
    NoRecords();
    var record := Some(Record(0, 0, 0));
    while record.Some?
      invariant Records(pending) == done + (if record.Some? then Records(records.remaining) else [])
      invariant Consumed(pending) == records.consumed + (if record.Some? then Consumed(records.remaining) else 0)
      invariant PidsOf(events') == PidsOf(events) + Pids(done) && closed' == closed + Closes(done)
      decreases if record.Some? then 1 + |records.remaining| else 0
    {
      Front(records.remaining);
      record := records.Next();
      if record.Some? {
        var r := record.value;
        OneMore(done, r);
        if r.pid > 0 {
          var filename := ReadLink(r.fd);
          OneMoreEvent(events', Event(r.pid, filename));
          events' := events' + [Event(r.pid, filename)];
        }
        if r.fd >= 0 { closed' := closed' + [r.fd]; }
        done := done + [r];
      }
    }
    assert done + [] == done;
    consumed := records.consumed;
  }

  lemma NoRecords()
    ensures Pids([]) == [] && Closes([]) == []
  {
  }

  lemma Front(s: seq<byte>)
    ensures HasRecord(s) ==>
              METADATA_SIZE <= ReadU32(s, 0) <= |s| && Records(s) == [RecordAt(s)] + Records(s[ReadU32(s, 0)..])
                             && Consumed(s) == ReadU32(s, 0) + Consumed(s[ReadU32(s, 0)..])
    ensures !HasRecord(s) ==> Records(s) == [] && Consumed(s) == 0
  {
  }

  lemma SameFront(a: seq<byte>, b: seq<byte>)
    requires |a| >= METADATA_SIZE
    ensures ReadU32(a + b, 0) == ReadU32(a, 0) && RecordAt(a + b) == RecordAt(a)
  {
    assert (a + b)[0..4] == a[0..4] && (a + b)[PID_OFFSET..PID_OFFSET + 4] == a[PID_OFFSET..PID_OFFSET + 4];
    assert (a + b)[FD_OFFSET..FD_OFFSET + 4] == a[FD_OFFSET..FD_OFFSET + 4];
    assert (a + b)[MASK_OFFSET..MASK_OFFSET + 8] == a[MASK_OFFSET..MASK_OFFSET + 8];
  }

  lemma DropFront(a: seq<byte>, b: seq<byte>, n: nat)
    requires n <= |a|
    ensures (a + b)[n..] == a[n..] + b
  {
  }

  lemma RestStep(a: seq<byte>)
    ensures HasRecord(a) ==> METADATA_SIZE <= ReadU32(a, 0) <= |a| && Rest(a) == Rest(a[ReadU32(a, 0)..])
    ensures !HasRecord(a) ==> Rest(a) == a
  {
    hide RecordAt, ReadU32;
    Front(a);
  }

  /** Where a stream is cut makes no difference, as long as the bytes not consumed are carried over. */
  lemma {:induction false} CutAnywhere(a: seq<byte>, b: seq<byte>)
    ensures Records(a + b) == Records(a) + Records(Rest(a) + b)
    ensures Consumed(a + b) == Consumed(a) + Consumed(Rest(a) + b)
    ensures Rest(a + b) == Rest(Rest(a) + b)
    decreases |a|
  {
    hide RecordAt, ReadU32, Records, Consumed, Rest;
    Front(a);
    RestStep(a);
    if HasRecord(a) {
      var n := ReadU32(a, 0);
      SameFront(a, b);
      SameHead(a, b);
      DropFront(a, b, n);
      CutAnywhere(a[n..], b);
      Front(a + b);
      RestStep(a + b);
    } else {
      assert [] + Records(a + b) == Records(a + b);
    }
  }

  lemma SameHead(a: seq<byte>, b: seq<byte>)
    requires HasRecord(a)
    ensures HasRecord(a + b)
  {
    hide RecordAt;
    SameFront(a, b);
  }

  datatype ReadResult = Data(bytes: seq<byte>) | Nothing | Failed

  /** What the reads of one drain deliver, up to the end of what is there. */
  function Delivered(results: seq<ReadResult>): seq<byte>
    decreases |results|
  {
    if results == [] || !results[0].Data? || results[0].bytes == [] then []
    else results[0].bytes + Delivered(results[1..])
  }

  lemma {:induction false} RestHasNoRecord(s: seq<byte>)
    ensures !HasRecord(Rest(s)) && Records(Rest(s)) == [] && Consumed(Rest(s)) == 0
    decreases |s|
  {
    hide RecordAt, ReadU32;
    Front(s);
    if HasRecord(s) {
      var n := ReadU32(s, 0);
      RestHasNoRecord(s[n..]);
      assert Rest(s) == Rest(s[n..]);
    } else {
      assert Rest(s) == s;
    }
  }

  lemma {:induction false} PidsJoin(a: seq<Record>, b: seq<Record>)
    ensures Pids(a + b) == Pids(a) + Pids(b) && Closes(a + b) == Closes(a) + Closes(b)
    decreases |b|
  {
    if b == [] {
      assert a + b == a;
    } else {
      hide Pids, Closes;
      var front, last := b[..|b| - 1], b[|b| - 1];
      PidsJoin(a, front);
      OneMore(front, last);
      OneMore(a + front, last);
      assert b == front + [last] && a + b == a + front + [last];
    }
  }

  /** What is kept between two drains. */
  function Kept(all: seq<byte>): seq<byte> { if |Rest(all)| > MAX_PENDING then [] else Rest(all) }

  class FanotifyTracker {
    var pending: seq<byte>
    var reportedError: bool

    /** The descriptors closed so far. */
    var closed: seq<int>

    predicate Valid()
      reads `pending
    {
      !HasRecord(pending)
    }

    constructor ()
      ensures Valid() && pending == [] && closed == []
    {
      pending, reportedError, closed := [], false, [];
    }

    /** One read: what it brought is appended, and the whole records are taken off the front. */
    method Take(bytes: seq<byte>, events: seq<Event>, ghost seen: seq<byte>) returns (events': seq<Event>)
      requires pending == Rest(seen)
      modifies `pending, `closed
      ensures pending == Rest(seen + bytes)
      ensures PidsOf(events') == PidsOf(events) + Pids(Records(Rest(seen) + bytes))
      ensures closed == old(closed) + Closes(Records(Rest(seen) + bytes))
    {
      hide Records, Consumed, PidsOf, Pids, Closes;
      CutAnywhere(seen, bytes);
      pending := pending + bytes;
      var consumed;
      consumed, events', closed := EmitRecords(pending, events, closed);
      pending := pending[consumed..];
    }

    /** drain: whatever the pieces of the reads, it does what one read of everything would do. */
    method Drain(results: seq<ReadResult>, events: seq<Event>) returns (events': seq<Event>)
      requires Valid()
      modifies this
      ensures Valid()
      ensures var all := old(pending) + Delivered(results);
              PidsOf(events') == PidsOf(events) + Pids(Records(all)) && closed == old(closed) + Closes(Records(all))
              && pending == Kept(all)
    {
      hide Records, Consumed, PidsOf, Pids, Closes, HasRecord, RecordAt, ReadU32, Delivered, Rest;
      events' := events;
      ghost var seen := pending;
      var i := 0;
      NothingYet(pending);
      assert results[0..] == results;
      while i < |results|
        invariant i <= |results|
        invariant seen + Delivered(results[i..]) == old(pending) + Delivered(results)
        invariant pending == Rest(seen) && PidsOf(events') == PidsOf(events) + Pids(Records(seen))
        invariant closed == old(closed) + Closes(Records(seen))
      {
        DeliveredStep(results, i);
        if !results[i].Data? || results[i].bytes == [] {
          if results[i].Failed? && !reportedError { reportedError := true; }
          break;
        }
        var bytes := results[i].bytes;
        CutAnywhere(seen, bytes);
        PidsJoin(Records(seen), Records(Rest(seen) + bytes));
        events' := Take(bytes, events', seen);
        seen := seen + bytes;
        i := i + 1;
      }
      DeliveredStep(results, i);
      assert seen == old(pending) + Delivered(results);
      RestHasNoRecord(seen);
      if |pending| > MAX_PENDING {
        pending := [];
        TooShort();
      }
    }
  }

  lemma DeliveredStep(results: seq<ReadResult>, i: nat)
    requires i <= |results|
    ensures i == |results| || !results[i].Data? || results[i].bytes == [] ==> Delivered(results[i..]) == []
    ensures i < |results| && results[i].Data? && results[i].bytes != [] ==>
              Delivered(results[i..]) == results[i].bytes + Delivered(results[i + 1..])
  {
    if i < |results| { assert results[i..][1..] == results[i + 1..]; }
  }

  lemma TooShort()
    ensures !HasRecord([])
  {
  }

  lemma NothingYet(s: seq<byte>)
    requires !HasRecord(s)
    ensures Rest(s) == s && Records(s) == [] && Pids([]) == [] && Closes([]) == []
  {
  }

  // ---- whole runs ----

  /** The records seen and the bytes kept after one drain for every part of the stream. */
  function AfterDrains(parts: seq<seq<byte>>): (seq<Record>, seq<byte>)
    decreases |parts|
  {
    if parts == [] then ([], [])
    else
      var (rs, kept) := AfterDrains(parts[..|parts| - 1]);
      (rs + Records(kept + parts[|parts| - 1]), Kept(kept + parts[|parts| - 1]))
  }

  function Joined(parts: seq<seq<byte>>): seq<byte>
    decreases |parts|
  {
    if parts == [] then [] else Joined(parts[..|parts| - 1]) + parts[|parts| - 1]
  }

  predicate SeenWhole(parts: seq<seq<byte>>, n: nat)
    requires n <= |parts|
  {
    AfterDrains(parts[..n]) == (Records(Joined(parts[..n])), Rest(Joined(parts[..n])))
  }

  predicate NeverTooLong(parts: seq<seq<byte>>) {
    forall n :: 0 <= n <= |parts| ==> |Rest(Joined(parts[..n]))| <= MAX_PENDING
  }

  lemma {:induction false} WholeWhileShort(parts: seq<seq<byte>>, n: nat)
    requires n <= |parts| && forall k :: 0 <= k <= n ==> |Rest(Joined(parts[..k]))| <= MAX_PENDING
    ensures SeenWhole(parts, n)
    decreases n
  {
    hide Records, Rest, HasRecord;
    NothingOfNothing();
    if n == 0 {
      assert parts[..0] == [];
    } else {
      WholeWhileShort(parts, n - 1);
      assert parts[..n][..n - 1] == parts[..n - 1];
      CutAnywhere(Joined(parts[..n - 1]), parts[n - 1]);
    }
  }

  lemma NothingOfNothing()
    ensures Records([]) == [] && Rest([]) == []
  {
  }

  /**
   However the reads cut the stream, well-formed or not, every whole record is seen once and in order and exactly the
   bytes behind them are kept, at every moment, exactly when never more than 64 KiB are left behind by a drain.
   */
  lemma PartsMakeNoDifference(parts: seq<seq<byte>>)
    ensures (forall n :: 0 <= n <= |parts| ==> SeenWhole(parts, n)) <==> NeverTooLong(parts)
  {
    hide Records, Rest, HasRecord;
    NothingOfNothing();
    assert parts[..0] == [];
    if NeverTooLong(parts) {
      forall n | 0 <= n <= |parts| ensures SeenWhole(parts, n) { WholeWhileShort(parts, n); }
    } else {
      var n :| 0 <= n <= |parts| && |Rest(Joined(parts[..n]))| > MAX_PENDING;
      assert n > 0;
      assert |AfterDrains(parts[..n]).1| <= MAX_PENDING;
      assert !SeenWhole(parts, n);
    }
  }

  // ---- well-formed streams ----

  /** What the kernel writes: the length field of every record is its length. */
  predicate WellFormed(rec: seq<byte>) { |rec| >= METADATA_SIZE && ReadU32(rec, 0) == |rec| }

  predicate AllWellFormed(recs: seq<seq<byte>>) {
    forall i :: 0 <= i < |recs| ==> WellFormed(recs[i])
  }

  function Heads(recs: seq<seq<byte>>): seq<Record>
    requires AllWellFormed(recs)
  {
    seq(|recs|, i requires 0 <= i < |recs| && WellFormed(recs[i]) => RecordAt(recs[i]))
  }

  /** A stream of well-formed records is walked record by record, to its end. */
  lemma {:induction false} WellFormedStream(recs: seq<seq<byte>>)
    requires AllWellFormed(recs)
    ensures Records(Joined(recs)) == Heads(recs) && Consumed(Joined(recs)) == |Joined(recs)|
    decreases |recs|
  {
    hide RecordAt, ReadU32, Records, Consumed, HasRecord, WellFormed, Rest, Heads;
    if recs == [] {
      EmptyStream();
    } else {
      var front, last := recs[..|recs| - 1], recs[|recs| - 1];
      WellFormedStream(front);
      CutAnywhere(Joined(front), last);
      NoRest(Joined(front));
      assert [] + last == last;
      OneRecord(last);
      HeadsMore(recs);
    }
  }

  lemma NoRest(s: seq<byte>)
    requires Consumed(s) == |s|
    ensures Rest(s) == []
  {
    hide Consumed;
  }

  lemma HeadsMore(recs: seq<seq<byte>>)
    requires AllWellFormed(recs) && recs != []
    ensures AllWellFormed(recs[..|recs| - 1]) && WellFormed(recs[|recs| - 1])
    ensures Heads(recs) == Heads(recs[..|recs| - 1]) + [RecordAt(recs[|recs| - 1])]
  {
    hide RecordAt, ReadU32;
  }

  lemma EmptyStream()
    ensures Records([]) == [] && Consumed([]) == 0 && Joined([]) == [] && Heads([]) == []
  {
  }

  lemma OneRecord(rec: seq<byte>)
    requires WellFormed(rec)
    ensures Records(rec) == [RecordAt(rec)] && Consumed(rec) == |rec|
  {
    WholeRecord(rec);
    hide *;
    assert rec[|rec|..] == [];
    EmptyStream();
    Front(rec);
    assert [RecordAt(rec)] + [] == [RecordAt(rec)];
  }

  lemma WholeRecord(rec: seq<byte>)
    requires WellFormed(rec)
    ensures HasRecord(rec) && ReadU32(rec, 0) == |rec|
  {
  }

  /** A stream that stops inside a record leaves less than that record behind. */
  lemma LeftBehind(recs: seq<seq<byte>>, rec: seq<byte>, k: nat)
    requires AllWellFormed(recs) && WellFormed(rec) && k < |rec|
    ensures Rest(Joined(recs) + rec[..k]) == rec[..k] && Records(Joined(recs) + rec[..k]) == Heads(recs)
  {
    hide RecordAt, Records;
    WellFormedStream(recs);
    CutAnywhere(Joined(recs), rec[..k]);
    assert Rest(Joined(recs)) + rec[..k] == rec[..k];
    if k >= METADATA_SIZE { assert rec[..k][0..4] == rec[0..4]; }
    assert !HasRecord(rec[..k]);
    NothingYet(rec[..k]);
  }

  /** A stream of records of at most 64 KiB each, the last of them perhaps unfinished. */
  predicate SmallRecords(recs: seq<seq<byte>>, last: seq<byte>) {
    AllWellFormed(recs) && (forall i :: 0 <= i < |recs| ==> |recs[i]| <= MAX_PENDING) && |last| <= MAX_PENDING
    && !HasRecord(last)
  }

  lemma StreamWithRest(recs: seq<seq<byte>>, last: seq<byte>)
    requires AllWellFormed(recs) && !HasRecord(last)
    ensures Rest(Joined(recs) + last) == last && Records(Joined(recs) + last) == Heads(recs)
  {
    hide RecordAt, Records, Heads;
    WellFormedStream(recs);
    CutAnywhere(Joined(recs), last);
    assert Rest(Joined(recs)) + last == last;
    NothingYet(last);
    assert Heads(recs) + [] == Heads(recs);
  }

  /** A beginning of a record is no record. */
  lemma UnfinishedRecord(rec: seq<byte>, k: nat)
    requires WellFormed(rec) && k < |rec|
    ensures !HasRecord(rec[..k])
  {
    if k >= METADATA_SIZE { assert rec[..k][0..4] == rec[0..4]; }
  }

  /** Neither is a beginning of bytes that are none. */
  lemma UnfinishedRest(last: seq<byte>, k: nat)
    requires !HasRecord(last) && k <= |last|
    ensures !HasRecord(last[..k])
  {
    if k >= METADATA_SIZE { assert last[..k][0..4] == last[0..4]; }
  }

  /** Wherever such a stream is cut, less than one record is left over in front of the cut. */
  lemma {:induction false} CutInsideRecord(recs: seq<seq<byte>>, last: seq<byte>, k: nat)
    requires SmallRecords(recs, last) && k <= |Joined(recs) + last|
    ensures |Rest((Joined(recs) + last)[..k])| <= MAX_PENDING
    decreases |recs|
  {
    hide Rest, Records, HasRecord, WellFormed;
    var s, n := Joined(recs) + last, |Joined(recs)|;
    if k >= n {
      assert s[..k] == Joined(recs) + last[..k - n];
      UnfinishedRest(last, k - n);
      StreamWithRest(recs, last[..k - n]);
    } else {
      CutBeforeLast(recs, k);
      assert s[..k] == Joined(recs)[..k];
    }
  }

  lemma {:induction false} CutBeforeLast(recs: seq<seq<byte>>, k: nat)
    requires AllWellFormed(recs) && (forall i :: 0 <= i < |recs| ==> |recs[i]| <= MAX_PENDING) && k < |Joined(recs)|
    ensures |Rest(Joined(recs)[..k])| <= MAX_PENDING
    decreases |recs|
  {
    hide Rest, Records, HasRecord, WellFormed;
    var front, rec := recs[..|recs| - 1], recs[|recs| - 1];
    var n := |Joined(front)|;
    if k < n {
      CutBeforeLast(front, k);
      assert Joined(recs)[..k] == Joined(front)[..k];
    } else {
      assert Joined(recs)[..k] == Joined(front) + rec[..k - n];
      UnfinishedRecord(rec, k - n);
      StreamWithRest(front, rec[..k - n]);
    }
  }

  lemma {:induction false} JoinedFront(parts: seq<seq<byte>>, n: nat)
    requires n <= |parts|
    ensures Joined(parts[..n]) <= Joined(parts)
    decreases |parts| - n
  {
    if n == |parts| {
      assert parts[..n] == parts;
    } else {
      JoinedFront(parts, n + 1);
      assert parts[..n + 1][..n] == parts[..n];
    }
  }

  /**
   Records of at most 64 KiB come out whole, once and in order from any split of the stream, and of an unfinished one
   behind them exactly the part that is there is kept.
   */
  lemma SmallRecordsComeOut(recs: seq<seq<byte>>, last: seq<byte>, parts: seq<seq<byte>>)
    requires SmallRecords(recs, last) && Joined(parts) == Joined(recs) + last
    ensures AfterDrains(parts) == (Heads(recs), last)
  {
    hide Rest, Records, HasRecord, Joined, Heads, AfterDrains;
    forall n | 0 <= n <= |parts| ensures |Rest(Joined(parts[..n]))| <= MAX_PENDING {
      JoinedFront(parts, n);
      var k := |Joined(parts[..n])|;
      assert Joined(parts[..n]) == Joined(parts)[..k];
      CutInsideRecord(recs, last, k);
    }
    WholeWhileShort(parts, |parts|);
    assert parts[..|parts|] == parts;
    StreamWithRest(recs, last);
  }

  lemma TooLongIsLost(piece: seq<byte>)
    requires |piece| == MAX_PENDING + 1 && ReadU32(piece, 0) > |piece|
    ensures AfterDrains([piece]) == ([], []) && Rest(Joined([piece])) == piece
    ensures !NeverTooLong([piece]) && !SeenWhole([piece], 1)
  {
    hide Records, Consumed;
    var parts := [piece];
    assert parts[..1] == parts && parts[..0] == [];
    assert Joined(parts) == Joined([]) + piece == piece;
    NothingYet(piece);
    assert [] + piece == piece;
    assert AfterDrains(parts[..0]) == ([], []);
    assert Kept([] + piece) == [] && Records([] + piece) == [];
    assert [] + Records([] + piece) == [];
    assert AfterDrains(parts) == ([] + Records([] + parts[0]), Kept([] + parts[0]));
    assert |Rest(Joined(parts[..1]))| > MAX_PENDING;
  }

  /** The first 64 KiB and one byte of a record of 128 KiB. */
  function LongPiece(): (r: seq<byte>)
    ensures |r| == MAX_PENDING + 1
  {
    LeBytes(2 * MAX_PENDING, 4) + seq(MAX_PENDING - 3, _ => 0)
  }

  /** A drain that brings them sees nothing and keeps nothing, although all of them would be needed. */
  lemma LongRecordIsLost()
    ensures AfterDrains([LongPiece()]) == ([], []) && Rest(Joined([LongPiece()])) == LongPiece()
    ensures !NeverTooLong([LongPiece()]) && !SeenWhole([LongPiece()], 1)
  {
    hide LeBytes, FromLe, AfterDrains, Rest;
    assert LongPiece()[0..4] == LeBytes(2 * MAX_PENDING, 4);
    LeBack(2 * MAX_PENDING, 4);
    Powers();
    assert ReadU32(LongPiece(), 0) == 2 * MAX_PENDING;
    TooLongIsLost(LongPiece());
  }

  // ---- one record ----

  function Unsigned(v: int): nat
    requires -0x8000_0000 <= v < 0x8000_0000
  {
    if v < 0 then v + U32 else v
  }

  /** A record as the kernel lays it out: length, four bytes of version and header length, mask, descriptor, process. */
  function RecordBytes(length: nat, header: seq<byte>, mask: nat, fd: int, pid: int, extra: seq<byte>): seq<byte>
    requires -0x8000_0000 <= fd < 0x8000_0000 && -0x8000_0000 <= pid < 0x8000_0000
  {
    LeBytes(length, 4) + header + LeBytes(mask, 8) + LeBytes(Unsigned(fd), 4) + LeBytes(Unsigned(pid), 4) + extra
  }

  /** The field readers find in it what was put there. */
  lemma FieldsBack(length: nat, header: seq<byte>, mask: nat, fd: int, pid: int, extra: seq<byte>)
    requires |header| == 4 && length == METADATA_SIZE + |extra| < U32 && mask < 0x1_0000_0000_0000_0000
    requires -0x8000_0000 <= fd < 0x8000_0000 && -0x8000_0000 <= pid < 0x8000_0000
    ensures var s := RecordBytes(length, header, mask, fd, pid, extra);
            WellFormed(s) && RecordAt(s) == Record(pid, fd, mask)
  {
    hide LeBytes, FromLe;
    var s := RecordBytes(length, header, mask, fd, pid, extra);
    assert s[0..4] == LeBytes(length, 4) && s[8..16] == LeBytes(mask, 8);
    assert s[16..20] == LeBytes(Unsigned(fd), 4) && s[20..24] == LeBytes(Unsigned(pid), 4);
    LeBack(length, 4);
    LeBack(mask, 8);
    LeBack(Unsigned(fd), 4);
    LeBack(Unsigned(pid), 4);
    Powers();
  }
}
