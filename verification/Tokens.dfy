/** The string operations of the text protocols, on ASCII bytes: lines, words, key=value, numbers. */
module Tokens {
  import opened Bits
  import opened Text

  const NEWLINE: byte := 10
  const SPACE: byte := 32
  const EQUALS: byte := 61
  const MINUS: byte := 45
  const PLUS: byte := 43

  predicate IsSpace(c: byte) { 9 <= c <= 13 || c == 32 }

  /** The position of the first `c`, or the length. */
  function IndexOf(s: seq<byte>, c: byte): (k: nat)
    ensures k <= |s| && (k < |s| ==> s[k] == c) && forall i :: 0 <= i < k ==> s[i] != c
  {
    if s == [] || s[0] == c then 0 else 1 + IndexOf(s[1..], c)
  }

  /** The length of the word `s` begins with. */
  function WordEnd(s: seq<byte>): (k: nat)
    ensures k <= |s| && (k < |s| ==> IsSpace(s[k])) && forall i :: 0 <= i < k ==> !IsSpace(s[i])
  {
    if s == [] || IsSpace(s[0]) then 0 else 1 + WordEnd(s[1..])
  }

  function SplitWhitespace(s: seq<byte>): seq<seq<byte>>
    decreases |s|
  {
    if s == [] then []
    else if IsSpace(s[0]) then SplitWhitespace(s[1..])
    else [s[..WordEnd(s)]] + SplitWhitespace(s[WordEnd(s)..])
  }

  /** split_once on a byte. */
  function SplitOnce(s: seq<byte>, c: byte): Option<(seq<byte>, seq<byte>)> {
    var k := IndexOf(s, c);
    if k == |s| then None else Some((s[..k], s[k + 1..]))
  }

  function StripCarriageReturn(s: seq<byte>): seq<byte> {
    if s != [] && s[|s| - 1] == 13 then s[..|s| - 1] else s
  }

  /** str::lines */
  function Lines(s: seq<byte>): seq<seq<byte>>
    decreases |s|
  {
    if s == [] then []
    else
      var k := IndexOf(s, NEWLINE);
      if k == |s| then [s] else [StripCarriageReturn(s[..k])] + Lines(s[k + 1..])
  }

  predicate AllDigits(s: seq<byte>) { forall i :: 0 <= i < |s| ==> IsDigit(s[i]) }

  /** parse::<u64>: an optional plus sign, then at least one digit. */
  function ParseU64(s: seq<byte>): Option<nat> {
    var d := if s != [] && s[0] == PLUS then s[1..] else s;
    if d == [] || !AllDigits(d) then None
    else if 0 <= Value(d) < 0x1_0000_0000_0000_0000 then Some(Value(d))
    else None
  }

  /** parse::<i32> */
  function ParseI32(s: seq<byte>): (r: Option<int>)
    ensures r.Some? ==> -0x8000_0000 <= r.value < 0x8000_0000
  {
    var negative := s != [] && s[0] == MINUS;
    var d := if s != [] && (s[0] == PLUS || s[0] == MINUS) then s[1..] else s;
    if d == [] || !AllDigits(d) then None
    else
      var v := if negative then -Value(d) else Value(d);
      if -0x8000_0000 <= v < 0x8000_0000 then Some(v) else None
  }

  // ---- what a printer's output looks like to these ----

  predicate Plain(word: seq<byte>) { forall i :: 0 <= i < |word| ==> !IsSpace(word[i]) }

  lemma {:induction false} WordEndOf(word: seq<byte>, rest: seq<byte>)
    requires Plain(word) && (rest == [] || IsSpace(rest[0]))
    ensures WordEnd(word + rest) == |word|
  {
    if word == [] {
      assert word + rest == rest;
    } else {
      assert (word + rest)[1..] == word[1..] + rest;
      WordEndOf(word[1..], rest);
    }
  }

  /** A word and a space in front of a text. */
  lemma NextWord(word: seq<byte>, rest: seq<byte>)
    requires word != [] && Plain(word)
    ensures SplitWhitespace(word + [SPACE] + rest) == [word] + SplitWhitespace(rest)
  {
    var s := word + [SPACE] + rest;
    assert s == word + ([SPACE] + rest);
    WordEndOf(word, [SPACE] + rest);
    assert s[..|word|] == word;
    assert s[|word|..] == [SPACE] + rest;
    assert ([SPACE] + rest)[1..] == rest;
  }

  lemma LastWord(word: seq<byte>)
    requires word != [] && Plain(word)
    ensures SplitWhitespace(word) == [word]
  {
    assert word + [] == word;
    WordEndOf(word, []);
    assert word[..|word|] == word && word[|word|..] == [];
  }

  lemma {:induction false} IndexOfFirst(a: seq<byte>, c: byte, b: seq<byte>)
    requires forall i :: 0 <= i < |a| ==> a[i] != c
    ensures IndexOf(a + [c] + b, c) == |a|
  {
    if a == [] {
      assert a + [c] + b == [c] + b;
    } else {
      assert (a + [c] + b)[1..] == a[1..] + [c] + b;
      IndexOfFirst(a[1..], c, b);
    }
  }

  lemma SplitAt(key: seq<byte>, value: seq<byte>)
    requires forall i :: 0 <= i < |key| ==> key[i] != EQUALS
    ensures SplitOnce(key + [EQUALS] + value, EQUALS) == Some((key, value))
  {
    IndexOfFirst(key, EQUALS, value);
    var s := key + [EQUALS] + value;
    assert s[..|key|] == key && s[|key| + 1..] == value;
  }

  /** A line and its newline in front of a text. */
  lemma NextLine(line: seq<byte>, rest: seq<byte>)
    requires forall i :: 0 <= i < |line| ==> line[i] != NEWLINE
    requires line == [] || line[|line| - 1] != 13
    ensures Lines(line + [NEWLINE] + rest) == [line] + Lines(rest)
  {
    IndexOfFirst(line, NEWLINE, rest);
    var s := line + [NEWLINE] + rest;
    assert s[..|line|] == line && s[|line| + 1..] == rest;
  }

  lemma U64Back(n: nat)
    requires n < 0x1_0000_0000_0000_0000
    ensures ParseU64(Decimal(n)) == Some(n)
  {
    ValueOfDecimal(n);
  }

  function SignedDecimal(v: int): seq<byte> {
    if v < 0 then [MINUS] + Decimal(-v) else Decimal(v)
  }

  lemma I32Back(v: int)
    requires -0x8000_0000 <= v < 0x8000_0000
    ensures ParseI32(SignedDecimal(v)) == Some(v)
  {
    if v < 0 {
      ValueOfDecimal(-v);
      assert ([MINUS] + Decimal(-v))[1..] == Decimal(-v);
    } else {
      ValueOfDecimal(v);
    }
  }

  lemma NumbersArePlain(v: int)
    ensures Plain(SignedDecimal(v)) && SignedDecimal(v) != []
    ensures forall i :: 0 <= i < |SignedDecimal(v)| ==> SignedDecimal(v)[i] != EQUALS
  {
  }
}
