/** One record of the kernel module as a line of text (znn_format.h), and the injector's parser (kernel_kpm.rs). */
module KpmFormat {
  import opened Bits
  import opened Text
  import opened Tokens

  const LINE_CAPACITY := 80
  const U64 := 0x1_0000_0000_0000_0000

  type i32 = x: int | -0x8000_0000 <= x < 0x8000_0000
  type u64 = x: int | 0 <= x < 0x1_0000_0000_0000_0000

  datatype ExecRecord = ExecRecord(pid: i32, tgid: i32, ppid: i32)

  const SEQ_KEY: seq<byte> := [115, 101, 113]
  const PID_KEY: seq<byte> := [112, 105, 100]
  const TGID_KEY: seq<byte> := [116, 103, 105, 100]
  const PPID_KEY: seq<byte> := [112, 112, 105, 100]

  function Field(key: seq<byte>, v: int): seq<byte> { key + [EQUALS] + SignedDecimal(v) }

  /** The line without its newline. */
  function Body(n: u64, r: ExecRecord): seq<byte> {
    Field(SEQ_KEY, n) + [SPACE]
    + (Field(PID_KEY, r.pid) + [SPACE] + (Field(TGID_KEY, r.tgid) + [SPACE] + Field(PPID_KEY, r.ppid)))
  }

  function Line(n: u64, r: ExecRecord): seq<byte> { Body(n, r) + [NEWLINE] }

  // ---- the printer ----

  /** The buffer shows as much of `text` as its capacity allows. */
  predicate Shows(buffer: array<byte>, length: nat, capacity: nat, text: seq<byte>)
    reads buffer
  {
    capacity <= buffer.Length && length == (if |text| <= capacity then |text| else capacity)
    && buffer[..length] == text[..length]
  }

  /** znn_append_text: `text` has no zero byte. */
  method AppendText(buffer: array<byte>, length: nat, capacity: nat, text: seq<byte>, ghost before: seq<byte>)
      returns (n: nat)
    requires Shows(buffer, length, capacity, before)
    modifies buffer
    ensures Shows(buffer, n, capacity, before + text)
    ensures forall i :: capacity <= i < buffer.Length ==> buffer[i] == old(buffer[i])
  {
    n := length;
    var i := 0;
    while i < |text| && n < capacity
      invariant i <= |text| && Shows(buffer, n, capacity, before + text[..i])
      invariant forall j :: capacity <= j < buffer.Length ==> buffer[j] == old(buffer[j])
    {
      ghost var shown := before + text[..i];
      assert before + text[..i + 1] == shown + [text[i]];
      buffer[n] := text[i];
      n := n + 1;
      i := i + 1;
    }
    ghost var all := before + text;
    assert text == text[..i] + text[i..];
    assert all == (before + text[..i]) + text[i..];
  }

  lemma U64Length(value: u64)
    ensures |Decimal(value)| <= 20
  {
    U64Digits();
    DecimalLength(value, 20);
  }

  lemma OneDigitMore(text: seq<byte>, rest: nat, count: nat)
    requires count < |text| && text[..|text| - count] == Decimal(rest)
    ensures text[|text| - 1 - count] == ZERO + rest % 10
    ensures rest / 10 == 0 ==> count + 1 == |text|
    ensures rest / 10 != 0 ==> count + 1 < |text| && text[..|text| - (count + 1)] == Decimal(rest / 10)
  {
    hide Decimal;
    DecimalSplit(rest);
    var front := text[..|text| - count];
    assert front[|front| - 1] == text[|text| - 1 - count];
    assert text[..|text| - (count + 1)] == front[..|front| - 1];
  }

  /** The digits of a number, last one first, as the first loop of znn_append_u64 collects them. */
  method CollectDigits(value: u64) returns (digits: array<byte>, count: nat)
    ensures fresh(digits) && digits.Length == 20 && count == |Decimal(value)| <= 20
    ensures forall k :: 0 <= k < count ==> digits[k] == Decimal(value)[count - 1 - k]
  {
    hide Decimal;
    U64Length(value);
    ghost var text := Decimal(value);
    digits := new byte[20];
    assert text[..|text|] == text;
    var rest := value;
    digits[0] := ZERO + rest % 10;
    count := 1;
    OneDigitMore(text, rest, 0);
    rest := rest / 10;
    while rest != 0 && count < 20
      invariant 1 <= count <= |text| && 0 <= rest
      invariant rest == 0 ==> count == |text|
      invariant rest != 0 ==> |text| > count && text[..|text| - count] == Decimal(rest)
      invariant forall k :: 0 <= k < count ==> digits[k] == text[|text| - 1 - k]
    {
      OneDigitMore(text, rest, count);
      digits[count] := ZERO + rest % 10;
      count := count + 1;
      rest := rest / 10;
    }
  }

  lemma DecimalSplit(n: nat)
    ensures Decimal(n)[|Decimal(n)| - 1] == ZERO + n % 10
    ensures n >= 10 ==> Decimal(n) == Decimal(n / 10) + [ZERO + n % 10]
    ensures n < 10 ==> |Decimal(n)| == 1 && n / 10 == 0
  {
  }

  lemma Parts(before: seq<byte>, text: seq<byte>, i: nat)
    requires i <= |text|
    ensures before + text == (before + text[..i]) + text[i..]
    ensures i < |text| ==> before + text[..i + 1] == (before + text[..i]) + [text[i]]
  {
  }

  /** znn_append_u64 */
  method AppendU64(buffer: array<byte>, length: nat, capacity: nat, value: u64, ghost before: seq<byte>)
      returns (n: nat)
    requires Shows(buffer, length, capacity, before)
    modifies buffer
    ensures Shows(buffer, n, capacity, before + Decimal(value))
    ensures forall i :: capacity <= i < buffer.Length ==> buffer[i] == old(buffer[i])
  {
    hide Decimal;
    var digits, count := CollectDigits(value);
    n := length;
    ghost var text := Decimal(value);
    while count > 0 && n < capacity
      invariant 0 <= count <= |text| && Shows(buffer, n, capacity, before + text[..|text| - count])
      invariant forall k :: 0 <= k < count ==> digits[k] == text[|text| - 1 - k]
      invariant forall j :: capacity <= j < buffer.Length ==> buffer[j] == old(buffer[j])
    {
      Parts(before, text, |text| - count);
      count := count - 1;
      buffer[n] := digits[count];
      n := n + 1;
    }
    ghost var i := |text| - count;
    Parts(before, text, i);
  }

  /** znn_append_i32, also for the least number, whose absolute value has no 32-bit form. */
  method AppendI32(buffer: array<byte>, length: nat, capacity: nat, value: i32, ghost before: seq<byte>)
      returns (n: nat)
    requires Shows(buffer, length, capacity, before)
    modifies buffer
    ensures Shows(buffer, n, capacity, before + SignedDecimal(value))
    ensures forall i :: capacity <= i < buffer.Length ==> buffer[i] == old(buffer[i])
  {
    if value < 0 {
      n := AppendText(buffer, length, capacity, [MINUS], before);
      var magnitude: int := -(value as int);
      n := AppendU64(buffer, n, capacity, magnitude, before + [MINUS]);
      assert before + [MINUS] + Decimal(magnitude) == before + SignedDecimal(value);
    } else {
      n := AppendU64(buffer, length, capacity, value, before);
    }
  }

  /** One " key=value" of a line. */
  method AppendField(buffer: array<byte>, length: nat, capacity: nat, key: seq<byte>, value: i32,
                     ghost before: seq<byte>)
      returns (n: nat)
    requires Shows(buffer, length, capacity, before)
    modifies buffer
    ensures Shows(buffer, n, capacity, before + [SPACE] + Field(key, value))
    ensures forall i :: capacity <= i < buffer.Length ==> buffer[i] == old(buffer[i])
  {
    n := AppendText(buffer, length, capacity, [SPACE] + key + [EQUALS], before);
    n := AppendI32(buffer, n, capacity, value, before + ([SPACE] + key + [EQUALS]));
    assert before + ([SPACE] + key + [EQUALS]) + SignedDecimal(value) == before + [SPACE] + Field(key, value);
  }

  /** znn_format_exec_record */
  method FormatExecRecord(buffer: array<byte>, capacity: nat, n: u64, r: ExecRecord) returns (length: nat)
    requires capacity <= buffer.Length
    modifies buffer
    ensures Shows(buffer, length, capacity, Line(n, r))
    ensures forall i :: capacity <= i < buffer.Length ==> buffer[i] == old(buffer[i])
  {
    hide SignedDecimal, Decimal;
    length := AppendText(buffer, 0, capacity, SEQ_KEY + [EQUALS], []);
    length := AppendU64(buffer, length, capacity, n, [] + (SEQ_KEY + [EQUALS]));
    ghost var text := Field(SEQ_KEY, n);
    NumberIsPlainDecimal(n);
    assert [] + (SEQ_KEY + [EQUALS]) + Decimal(n) == text;
    length := AppendField(buffer, length, capacity, PID_KEY, r.pid, text);
    text := text + [SPACE] + Field(PID_KEY, r.pid);
    length := AppendField(buffer, length, capacity, TGID_KEY, r.tgid, text);
    text := text + [SPACE] + Field(TGID_KEY, r.tgid);
    length := AppendField(buffer, length, capacity, PPID_KEY, r.ppid, text);
    text := text + [SPACE] + Field(PPID_KEY, r.ppid);
    length := AppendText(buffer, length, capacity, [NEWLINE], text);
    assert text + [NEWLINE] == Line(n, r);
  }

  lemma NumberIsPlainDecimal(n: nat)
    ensures SignedDecimal(n) == Decimal(n)
  {
  }

  lemma FieldLength(key: seq<byte>, v: i32)
    ensures |Field(key, v)| <= |key| + 12
  {
    U64Digits();
    var w: int := v;
    if w < 0 { DecimalLength(-w, 10); } else { DecimalLength(w, 10); }
  }

  /** How wide a line is: a fixed part and its number. */
  lemma LineWidth(n: u64, r: ExecRecord, k: nat)
    requires k > 0 && n < Power10(k)
    ensures 0 < |Line(n, r)| <= 55 + k
  {
    hide SignedDecimal, Decimal;
    DecimalLength(n, k);
    NumberIsPlainDecimal(n);
    FieldLength(PID_KEY, r.pid);
    FieldLength(TGID_KEY, r.tgid);
    FieldLength(PPID_KEY, r.ppid);
  }

  /** No line is longer than 75 bytes, so the 80-byte buffer never cuts one. */
  lemma LineFits(n: u64, r: ExecRecord)
    ensures 0 < |Line(n, r)| <= 75 < LINE_CAPACITY
  {
    hide Line;
    U64Digits();
    LineWidth(n, r, 20);
  }

  /** The widest fields there are. */
  lemma LineOfLeast(n: u64)
    ensures var least := ExecRecord(-0x8000_0000, -0x8000_0000, -0x8000_0000);
            |Line(n, least)| == 55 + |Decimal(n)|
  {
    NumberIsPlainDecimal(n);
    LeastLength();
    hide SignedDecimal, Decimal;
  }

  lemma LeastLength()
    ensures |SignedDecimal(-0x8000_0000)| == 11
  {
    hide Decimal;
    assert Power10(3) == 1000 && Power10(6) == 100_0000 && Power10(9) == 10_0000_0000;
    U64Digits();
    DecimalLength(0x8000_0000, 10);
    DecimalLengthAtLeast(0x8000_0000, 10);
  }

  // ---- the parser ----

  datatype Parsed = Parsed(n: nat, pid: int, ppid: int)

  /** The three values a line may set, the last of each key counting. */
  datatype Found = Found(n: Option<nat>, pid: Option<int>, ppid: Option<int>)

  function TakeToken(f: Found, token: seq<byte>): Found {
    match SplitOnce(token, EQUALS)
    case None => f
    case Some((key, value)) =>
      if key == SEQ_KEY then f.(n := ParseU64(value))
      else if key == PID_KEY then f.(pid := ParseI32(value))
      else if key == PPID_KEY then f.(ppid := ParseI32(value))
      else f
  }

  function TakeTokens(f: Found, tokens: seq<seq<byte>>): Found
    decreases |tokens|
  {
    if tokens == [] then f else TakeTokens(TakeToken(f, tokens[0]), tokens[1..])
  }

  function ParsedLine(line: seq<byte>): Option<Parsed> {
    match TakeTokens(Found(None, None, None), SplitWhitespace(line))
    case Found(Some(n), Some(pid), Some(ppid)) => Some(Parsed(n, pid, ppid))
    case _ => None
  }

  /** parse_line */
  method ParseLine(line: seq<byte>) returns (r: Option<Parsed>)
    ensures r == ParsedLine(line)
  {
    var n: Option<nat>, pid: Option<int>, ppid: Option<int> := None, None, None;
    var tokens := SplitWhitespace(line);
    var i := 0;
    while i < |tokens|
      invariant i <= |tokens|
      invariant TakeTokens(Found(n, pid, ppid), tokens[i..]) == TakeTokens(Found(None, None, None), tokens)
    {
      assert tokens[i..][1..] == tokens[i + 1..];
      var split := SplitOnce(tokens[i], EQUALS);
      if split.Some? {
        var (key, value) := split.value;
        if key == SEQ_KEY {
          n := ParseU64(value);
        } else if key == PID_KEY {
          pid := ParseI32(value);
        } else if key == PPID_KEY {
          ppid := ParseI32(value);
        }
      }
      i := i + 1;
    }
    if n == None || pid == None || ppid == None { return None; }
    return Some(Parsed(n.value, pid.value, ppid.value));
  }

  lemma FieldIsWord(key: seq<byte>, v: int)
    requires key != [] && Plain(key) && forall i :: 0 <= i < |key| ==> key[i] != EQUALS
    ensures Field(key, v) != [] && Plain(Field(key, v))
            && SplitOnce(Field(key, v), EQUALS) == Some((key, SignedDecimal(v)))
  {
    NumbersArePlain(v);
    SplitAt(key, SignedDecimal(v));
  }

  lemma FourWords(a: seq<byte>, b: seq<byte>, c: seq<byte>, d: seq<byte>)
    requires a != [] && b != [] && c != [] && d != [] && Plain(a) && Plain(b) && Plain(c) && Plain(d)
    ensures SplitWhitespace(a + [SPACE] + (b + [SPACE] + (c + [SPACE] + d))) == [a, b, c, d]
  {
    hide SplitWhitespace, Plain;
    NextWord(a, b + [SPACE] + (c + [SPACE] + d));
    NextWord(b, c + [SPACE] + d);
    NextWord(c, d);
    LastWord(d);
  }

  lemma WordsOfBody(n: u64, r: ExecRecord)
    ensures SplitWhitespace(Body(n, r)) ==
              [Field(SEQ_KEY, n), Field(PID_KEY, r.pid), Field(TGID_KEY, r.tgid), Field(PPID_KEY, r.ppid)]
  {
    hide Field, SplitWhitespace, SplitOnce;
    FieldIsWord(SEQ_KEY, n);
    FieldIsWord(PID_KEY, r.pid);
    FieldIsWord(TGID_KEY, r.tgid);
    FieldIsWord(PPID_KEY, r.ppid);
    FourWords(Field(SEQ_KEY, n), Field(PID_KEY, r.pid), Field(TGID_KEY, r.tgid), Field(PPID_KEY, r.ppid));
  }

  /** The parser finds in a line exactly what the printer put there, for every number of its type. */
  lemma LineRoundTrip(n: u64, r: ExecRecord)
    ensures ParsedLine(Body(n, r)) == Some(Parsed(n, r.pid, r.ppid))
  {
    hide Field, SignedDecimal, Decimal, ParseU64, ParseI32;
    var a, b, c, d := Field(SEQ_KEY, n), Field(PID_KEY, r.pid), Field(TGID_KEY, r.tgid), Field(PPID_KEY, r.ppid);
    WordsOfBody(n, r);
    FieldIsWord(SEQ_KEY, n);
    FieldIsWord(PID_KEY, r.pid);
    FieldIsWord(TGID_KEY, r.tgid);
    FieldIsWord(PPID_KEY, r.ppid);
    NumberIsPlainDecimal(n);
    U64Back(n);
    I32Back(r.pid);
    I32Back(r.ppid);
    var f := Found(None, None, None);
    var f1 := TakeToken(f, a);
    var f2 := TakeToken(f1, b);
    var f3 := TakeToken(f2, c);
    var f4 := TakeToken(f3, d);
    FourTokens(f, a, b, c, d);
    assert f4 == Found(Some(n), Some(r.pid), Some(r.ppid));
  }

  lemma FourTokens(f: Found, a: seq<byte>, b: seq<byte>, c: seq<byte>, d: seq<byte>)
    ensures TakeTokens(f, [a, b, c, d]) == TakeToken(TakeToken(TakeToken(TakeToken(f, a), b), c), d)
  {
    hide TakeToken;
    var f1, f2, f3 := TakeToken(f, a), TakeToken(TakeToken(f, a), b), TakeToken(TakeToken(TakeToken(f, a), b), c);
    assert [a, b, c, d][1..] == [b, c, d] && [b, c, d][1..] == [c, d] && [c, d][1..] == [d] && [d][1..] == [];
    assert TakeTokens(f, [a, b, c, d]) == TakeTokens(f1, [b, c, d]);
    assert TakeTokens(f1, [b, c, d]) == TakeTokens(f2, [c, d]);
    assert TakeTokens(f2, [c, d]) == TakeTokens(f3, [d]);
  }

  predicate OneLine(s: seq<byte>) { forall i :: 0 <= i < |s| ==> s[i] != NEWLINE && s[i] != 13 }

  lemma OneLineJoin(a: seq<byte>, b: seq<byte>)
    requires OneLine(a) && OneLine(b)
    ensures OneLine(a + [SPACE] + b)
  {
  }

  /** A line has no newline or carriage return inside. */
  lemma BodyIsOneLine(n: u64, r: ExecRecord)
    ensures Body(n, r) != [] && OneLine(Body(n, r))
  {
    hide Field, OneLine, SplitOnce;
    var a, b, c, d := Field(SEQ_KEY, n), Field(PID_KEY, r.pid), Field(TGID_KEY, r.tgid), Field(PPID_KEY, r.ppid);
    FieldIsOneLine(SEQ_KEY, n);
    FieldIsOneLine(PID_KEY, r.pid);
    FieldIsOneLine(TGID_KEY, r.tgid);
    FieldIsOneLine(PPID_KEY, r.ppid);
    OneLineJoin(c, d);
    OneLineJoin(b, c + [SPACE] + d);
    OneLineJoin(a, b + [SPACE] + (c + [SPACE] + d));
  }

  lemma FieldIsOneLine(key: seq<byte>, v: int)
    requires key != [] && Plain(key) && forall i :: 0 <= i < |key| ==> key[i] != EQUALS
    ensures OneLine(Field(key, v))
  {
    FieldIsWord(key, v);
  }
}
