/** The LZMA decoder object (CLzmaDec) and the functions of LzmaDec.c that work on it. */
module LzmaDecoder {
  import opened Bits
  import opened LzmaLayout
  import opened LzmaCoder
  import opened LzmaWalk
  import opened LzmaLookahead
  import opened LzmaBound
  import opened LzmaStream
  import opened LzmaRange
  import opened LzmaDummy
  import opened LzmaChunks
  import opened LzmaLimits

  const ERROR_DATA := 512
  const ERROR_FAIL := 511

  datatype Dummy = DummyInputEof | DummyLit | DummyMatch | DummyRep

  function ClassOf(s: Symbol): Dummy {
    match s
    case Literal(_) => DummyLit
    case Match(_, _) => DummyMatch
    case _ => DummyRep
  }

  /** The buffer position `i` bytes behind `pos` in a circular buffer. */
  function BackIndex(pos: nat, size: nat, i: nat): int {
    pos - i + (if pos < i then size else 0)
  }

  /** The place one further on is a given distance behind the next position. */
  lemma BackStep(pos: nat, size: nat, i: nat)
    requires 1 <= i <= size && pos < size
    ensures var k := BackIndex(pos, size, i);
            0 <= k < size && (pos + 1 < size ==> BackIndex(pos + 1, size, i) == if k + 1 == size then 0 else k + 1)
  {
  }

  ghost predicate Counting(processed: nat, check: nat, total: nat, dicSize: nat) {
    processed == total % U32 && (check == 0 ==> total <= dicSize) && (check != 0 ==> check == dicSize <= total)
  }

  lemma CountOn(processed: nat, check: nat, total: nat, dicSize: nat, n: nat)
    requires Counting(processed, check, total, dicSize) && 0 < dicSize < U32
    ensures check == 0 && total + n <= dicSize ==> Counting((processed + n) % U32, check, total + n, dicSize)
    ensures check != 0 ==> Counting((processed + n) % U32, check, total + n, dicSize)
    ensures check == 0 && total < dicSize ==> ((dicSize - processed) % U32 <= n <==> total + n >= dicSize)
    ensures total + n >= dicSize ==> Counting((processed + n) % U32, dicSize, total + n, dicSize)
  {
    assert (total % U32 + n) % U32 == (total + n) % U32;
  }

  /** pos & ((1 << pb) - 1), whatever the wrap-around of the 32-bit counter. */
  lemma PosMask(total: nat, bits: nat)
    requires bits <= 8
    ensures And(total % U32, Pow2(bits) - 1) == total % Pow2(bits)
  {
    AndMask(total % U32, 0, bits);
    Pow2Of32(bits);
    ModOfMod(total, Pow2(bits), Pow2(32 - bits));
    assert (total % U32) % 1 == 0;
  }

  lemma Pow2Of32(bits: nat)
    requires bits <= 32
    ensures Pow2(bits) * Pow2(32 - bits) == U32
  {
    hide Pow2;
    Pow2Add(bits, 32 - bits);
    Pow2Values(4);
    Pow2Add(4, 4);
    Pow2Add(8, 8);
    Pow2Add(16, 16);
  }

  /** The lpMask index of the decoder is the literal coder of the specification. */
  lemma LitMask(p: Props, out: seq<byte>)
    requires PropsOk(p) && out != []
    ensures Pow2(8 + p.lp) >= Pow2(8 - p.lc)
    ensures 3 * (And(((|out| % U32) * 256 + PrevByte(out)) % U32, Pow2(8 + p.lp) - Pow2(8 - p.lc)) * Pow2(p.lc))
            == LIT_SIZE * LitState(p, out)
  {
    hide And, Pow2;
    var prev, l, q := PrevByte(out), Pow2(8 - p.lc), Pow2(p.lc);
    var z := (|out| % U32) * 256 + prev;
    AndMask(z % U32, 8 - p.lc, 8 + p.lp);
    LowBitsOf(z, 8 + p.lp);
    LowBitsOf(z, 8 - p.lc);
    LitHigh(|out|, prev, p.lp);
    LitProduct(p.lc);
    LitLow(|out| % U32, prev, l, q);
    var low := |out| % Pow2(p.lp);
    LitCombine(low, prev, l, q);
    assert z % l == prev % l;
    assert (z % U32) % Pow2(8 + p.lp) == low * 256 + prev;
    SameProduct(And(z % U32, Pow2(8 + p.lp) - l), low * 256 + prev - prev % l, q, LIT_SIZE * LitState(p, out));
  }

  lemma SameProduct(v: nat, u: int, q: nat, r: int)
    requires v == u && 3 * (u * q) == r
    ensures 3 * (v * q) == r
  {
  }

  lemma LowBitsOf(z: nat, bits: nat)
    requires bits <= 32
    ensures (z % U32) % Pow2(bits) == z % Pow2(bits)
  {
    Pow2Of32(bits);
    ModOfMod(z, Pow2(bits), Pow2(32 - bits));
  }

  lemma LitProduct(lc: nat)
    requires lc <= 8
    ensures Pow2(lc) * Pow2(8 - lc) == 256
  {
    Pow2Add(lc, 8 - lc);
    Pow2Of8();
  }

  lemma LitHigh(total: nat, prev: nat, lp: nat)
    requires lp <= 4 && prev < 256
    ensures ((total % U32) * 256 + prev) % Pow2(8 + lp) == (total % Pow2(lp)) * 256 + prev
  {
    hide Pow2;
    var t := Pow2(lp);
    LowBitsOf(total, lp);
    Pow2Add(8, lp);
    Pow2Of8();
    var w := total % U32;
    var q, r := w / t, w % t;
    assert w == t * q + r && r == total % t;
    ScaleMod(w, t, q, r, prev);
  }

  lemma ScaleMod(w: nat, t: nat, q: nat, r: nat, prev: nat)
    requires w == t * q + r && r < t && prev < 256
    ensures (w * 256 + prev) % (256 * t) == r * 256 + prev
  {
    assert (t * q) * 256 == (256 * t) * q;
    MulKeepsOrder(r, t - 1, 256);
    ModUnique(w * 256 + prev, 256 * t, q, r * 256 + prev);
  }

  lemma LitLow(w: nat, prev: nat, l: nat, q: nat)
    requires l > 0 && q * l == 256 && prev < 256
    ensures (w * 256 + prev) % l == prev % l
  {
    assert prev == l * (prev / l) + prev % l;
    assert w * 256 == l * (w * q) by { assert w * (q * l) == l * (w * q); }
    assert w * 256 + prev == l * (w * q + prev / l) + prev % l by {
      assert l * (w * q + prev / l) == l * (w * q) + l * (prev / l);
    }
    ModUnique(w * 256 + prev, l, w * q + prev / l, prev % l);
  }

  lemma LitCombine(a: nat, prev: nat, l: nat, q: nat)
    requires l > 0 && q * l == 256 && prev < 256
    ensures 3 * ((a * 256 + prev - prev % l) * q) == LIT_SIZE * (a * q + prev / l)
  {
    var b := prev / l;
    assert prev - prev % l == l * b;
    assert (l * b) * q == 256 * b by { assert (l * b) * q == (q * l) * b; }
    assert (a * 256) * q == 256 * (a * q);
    assert (a * 256 + l * b) * q == (a * 256) * q + (l * b) * q;
  }

  lemma LitStateIs(p: Props, out: seq<byte>, low: nat, prev: byte)
    requires PropsOk(p) && low == |out| % Pow2(p.lp) && prev == PrevByte(out)
    ensures LitState(p, out) == low * Pow2(p.lc) + prev / Pow2(8 - p.lc)
  {
    hide Pow2;
  }

  lemma LitStateOfNothing(p: Props)
    requires PropsOk(p)
    ensures LitState(p, []) == 0
  {
  }

  class LzmaDec {
    const props: Props
    const rc: RangeDecoder
    const dic: array<byte>
    const tempBuf: array<byte>
    var dicPos: nat
    var processedPos: nat
    var checkDicSize: nat
    var reps: seq<nat>
    var state: nat
    var remainLen: nat
    var tempBufSize: nat

    /** Everything written since the stream began; the dictionary keeps only the end of it. */
    ghost var out: seq<byte>

    /** LzmaDec_AllocateProbs and LzmaDec_Init on a dictionary buffer of the caller. */
    constructor (p: Props, buffer: array<byte>)
      requires PropsOk(p)
      ensures Valid() && props == p && dic == buffer && dicPos == 0 && Model() == Blank(p) && Held() == []
      ensures fresh(rc) && fresh(rc.probs) && fresh(tempBuf)
    {
      props := p;
      rc := new RangeDecoder(NumProbs(p.lc, p.lp));
      dic := buffer;
      tempBuf := new byte[REQUIRED_INPUT_MAX];
      dicPos, processedPos, checkDicSize, reps, state, tempBufSize := 0, 0, 0, [], 0, 0;
      remainLen := MATCH_SPEC_LEN_START + 2;
      out := [];
      new;
    }

    /** LzmaDec_Init: back to the start of a stream, with the same properties and buffers. */
    method Init()
      requires Valid()
      modifies `dicPos, `processedPos, `checkDicSize, `tempBufSize, `remainLen, `out
      ensures Valid() && Model() == Blank(props) && Held() == [] && dicPos == 0
    {
      dicPos := 0;
      tempBufSize := 0;
      processedPos := 0;
      checkDicSize := 0;
      remainLen := MATCH_SPEC_LEN_START + 2;
      out := [];
    }

    ghost predicate Apart() {
      (rc.probs as object) != dic && dic != tempBuf && (rc.probs as object) != tempBuf
      && tempBuf.Length == REQUIRED_INPUT_MAX
    }

    /** The decoder between two symbols, on values. */
    ghost function View(): Dec
      reads `out, `reps, `state, rc`range, rc`code, rc.probs
    {
      Dec(props, Running, out, rc.probs[..], rc.range, rc.code, reps, state, 0)
    }

    /** The circular buffer holds the last bytes of the output, or all of it when it has never wrapped. */
    ghost predicate Dictionary()
      reads `dicPos, `out, dic
    {
      dicPos <= dic.Length && (props.dicSize <= dic.Length || |out| == dicPos)
      && forall i {:trigger BackIndex(dicPos, dic.Length, i)} ::
           1 <= i <= Min(|out|, dic.Length) ==> dic[BackIndex(dicPos, dic.Length, i)] == out[|out| - i]
    }

    /** processedPos counts modulo 2^32; checkDicSize says whether a whole dictionary has been written. */
    ghost predicate Counters()
      reads `processedPos, `checkDicSize, `out
    {
      Counting(processedPos, checkDicSize, |out|, props.dicSize)
    }

    ghost predicate Mid()
      reads this, rc`range, rc`code, rc.probs, dic
    {
      Apart() && Sound(View()) && Dictionary() && Counters() && (out == [] ==> state == 0 && reps == [1, 1, 1, 1])
    }

    method Put(b: byte)
      requires Apart() && Dictionary() && dicPos < dic.Length
      modifies this`dicPos, this`out, dic
      ensures Dictionary() && dicPos == old(dicPos) + 1 && out == old(out) + [b]
      ensures forall i :: 0 <= i < dic.Length && i != old(dicPos) ==> dic[i] == old(dic[i])
      ensures dicPos <= dic.Length
    {
      dic[dicPos] := b;
      dicPos := dicPos + 1;
      out := out + [b];
      forall i | 1 <= i <= Min(|out|, dic.Length)
        ensures dic[BackIndex(dicPos, dic.Length, i)] == out[|out| - i]
      {
        if i > 1 { assert BackIndex(dicPos, dic.Length, i) == BackIndex(old(dicPos), dic.Length, i - 1); }
      }
    }

    /** dic[dicPos - dist + (dicPos < dist ? dicBufSize : 0)] */
    function ByteBack(dist: nat): (b: byte)
      requires Dictionary() && 1 <= dist <= Min(|out|, dic.Length)
      reads `dicPos, `out, dic
      ensures b == out[|out| - dist]
    {
      dic[BackIndex(dicPos, dic.Length, dist)]
    }

    /** What the copy loops need to know of the buffer. */
    lemma BackByte(dist: nat)
      requires Dictionary() && 1 <= dist <= Min(|out|, dic.Length)
      ensures 0 <= BackIndex(dicPos, dic.Length, dist) < dic.Length
      ensures dic[BackIndex(dicPos, dic.Length, dist)] == out[|out| - dist]
    {
    }

    /** In reach is in the buffer. */
    lemma ReachInBuffer()
      requires Dictionary()
      ensures Min(|out|, props.dicSize) <= Min(|out|, dic.Length)
    {
    }

    /** The copy loop of LZMA_DECODE_REAL: straight when the source does not wrap, byte by byte otherwise. */
    method CopyMatch(curLen: nat)
      requires Apart() && Dictionary() && dicPos + curLen <= dic.Length && curLen > 0
      requires |reps| == 4 && 1 <= reps[0] <= Min(|out|, dic.Length)
      modifies this`dicPos, this`out, dic
      ensures Dictionary() && dicPos == old(dicPos) + curLen && out == Copy(old(out), reps[0], curLen)
      ensures forall i :: 0 <= i < dic.Length && !(old(dicPos) <= i < dicPos) ==> dic[i] == old(dic[i])
    {
      hide Dictionary;
      var rep0 := reps[0];
      var pos := dicPos - rep0 + (if dicPos < rep0 then dic.Length else 0);
      BackByte(rep0);
      if curLen <= dic.Length - pos {
        CopyStraight(curLen, pos);
      } else {
        CopyWrapping(curLen, pos);
      }
    }

    method CopyStraight(curLen: nat, pos: nat)
      requires Apart() && Dictionary() && dicPos + curLen <= dic.Length && curLen <= dic.Length - pos
      requires |reps| == 4 && 1 <= reps[0] <= Min(|out|, dic.Length) && pos == BackIndex(dicPos, dic.Length, reps[0])
      modifies this`dicPos, this`out, dic
      ensures Dictionary() && dicPos == old(dicPos) + curLen && out == Copy(old(out), reps[0], curLen)
      ensures forall i :: 0 <= i < dic.Length && !(old(dicPos) <= i < dicPos) ==> dic[i] == old(dic[i])
    {
      hide Dictionary, Copy;
      var n := curLen;
      var src := pos - dicPos;
      while n > 0
        invariant 0 <= n <= curLen && dicPos == old(dicPos) + (curLen - n)
        invariant Dictionary() && reps[0] <= |out|
        invariant Copy(out, reps[0], n) == Copy(old(out), reps[0], curLen)
        invariant forall i :: 0 <= i < dic.Length && !(old(dicPos) <= i < dicPos) ==> dic[i] == old(dic[i])
      {
        BackByte(reps[0]);
        CopyOne(out, reps[0], n);
        Put(dic[dicPos + src]);
        n := n - 1;
      }
      CopyNothing(out, reps[0]);
    }

    method CopyWrapping(curLen: nat, start: nat)
      requires Apart() && Dictionary() && dicPos + curLen <= dic.Length && curLen > 0
      requires |reps| == 4 && 1 <= reps[0] <= Min(|out|, dic.Length) && start == BackIndex(dicPos, dic.Length, reps[0])
      modifies this`dicPos, this`out, dic
      ensures Dictionary() && dicPos == old(dicPos) + curLen && out == Copy(old(out), reps[0], curLen)
      ensures forall i :: 0 <= i < dic.Length && !(old(dicPos) <= i < dicPos) ==> dic[i] == old(dic[i])
    {
      hide Dictionary, Copy, BackIndex;
      var n, pos := curLen, start;
      while n > 0
        invariant 0 <= n <= curLen && dicPos == old(dicPos) + (curLen - n)
        invariant Dictionary() && reps[0] <= |out|
        invariant n > 0 ==> pos == BackIndex(dicPos, dic.Length, reps[0])
        invariant Copy(out, reps[0], n) == Copy(old(out), reps[0], curLen)
        invariant forall i :: 0 <= i < dic.Length && !(old(dicPos) <= i < dicPos) ==> dic[i] == old(dic[i])
      {
        BackByte(reps[0]);
        BackStep(dicPos, dic.Length, reps[0]);
        CopyOne(out, reps[0], n);
        Put(dic[pos]);
        pos := pos + 1;
        if pos == dic.Length { pos := 0; }
        n := n - 1;
      }
      CopyNothing(out, reps[0]);
    }

    /** LzmaDec_WriteRem */
    method WriteRem(limit: nat)
      requires Mid() && dicPos <= limit <= dic.Length && (remainLen > 0 ==> out != [])
      requires checkDicSize == 0 ==> |out| < props.dicSize
      modifies `dicPos, `out, `checkDicSize, `processedPos, `remainLen, dic
      ensures Dictionary() && Counters() && (checkDicSize == 0 ==> |out| < props.dicSize)
      ensures var n := Min(old(remainLen), limit - old(dicPos));
              dicPos == old(dicPos) + n && remainLen == old(remainLen) - n
              && out == if n == 0 then old(out) else Copy(old(out), reps[0], n)
      ensures forall i :: 0 <= i < dic.Length && !(old(dicPos) <= i < dicPos) ==> dic[i] == old(dic[i])
    {
      hide Dictionary, Sound, Copy, Counting;
      var len := remainLen;
      if len == 0 { return; }
      var rem := limit - dicPos;
      if rem < len {
        len := rem;
        if len == 0 { return; }
      }
      RepInBuffer();
      CountOn(processedPos, checkDicSize, |out|, props.dicSize, len);
      CheckIsZeroOrSize();
      if checkDicSize == 0 && (props.dicSize - processedPos) % U32 <= len { checkDicSize := props.dicSize; }
      processedPos := (processedPos + len) % U32;
      remainLen := remainLen - len;
      CopyOwed(len);
    }

    lemma RepInBuffer()
      requires Mid() && out != []
      ensures |reps| == 4 && 1 <= reps[0] <= Min(|out|, dic.Length) && 0 < props.dicSize < U32
    {
      ReachInBuffer();
    }

    lemma CheckIsZeroOrSize()
      requires Counters()
      ensures checkDicSize == 0 || checkDicSize == props.dicSize <= |out|
    {
    }

    method CopyOwed(len: nat)
      requires Apart() && Dictionary() && dicPos + len <= dic.Length
      requires |reps| == 4 && 1 <= reps[0] <= Min(|out|, dic.Length)
      modifies this`dicPos, this`out, dic
      ensures Dictionary() && dicPos == old(dicPos) + len && out == Copy(old(out), reps[0], len)
      ensures forall i :: 0 <= i < dic.Length && !(old(dicPos) <= i < dicPos) ==> dic[i] == old(dic[i])
    {
      hide Dictionary;
      var n := len;
      while n > 0
        invariant 0 <= n <= len && dicPos == old(dicPos) + (len - n)
        invariant Dictionary() && reps[0] <= |out|
        invariant Copy(out, reps[0], n) == Copy(old(out), reps[0], len)
        invariant forall i :: 0 <= i < dic.Length && !(old(dicPos) <= i < dicPos) ==> dic[i] == old(dic[i])
      {
        Put(ByteBack(reps[0]));
        n := n - 1;
      }
    }

    // ---- one symbol of LZMA_DECODE_REAL ----

    /** Where the literal coder of the next literal starts. */
    method LiteralCoder() returns (prob: nat)
      requires Mid()
      ensures prob == LITERAL + LIT_SIZE * LitState(props, out)
    {
      hide Dictionary, Sound, Pow2, And;
      prob := LITERAL;
      SoundProps();
      WrittenFlag();
      if processedPos != 0 || checkDicSize != 0 {
        var lpMask := Pow2(8 + props.lp) - Pow2(8 - props.lc);
        RepInBuffer();
        BackByte(1);
        LitMask(props, out);
        var prev := dic[(if dicPos == 0 then dic.Length else dicPos) - 1];
        var masked: nat := And((processedPos * 256 + prev) % U32, lpMask);
        prob := prob + 3 * (masked * Pow2(props.lc));
      } else {
        LitStateOfNothing(props);
      }
    }

    lemma SoundProps()
      requires Mid()
      ensures PropsOk(props) && |reps| == 4 && state < NUM_STATES
    {
    }

    lemma WrittenFlag()
      requires Counters() && PropsOk(props)
      ensures out == [] <==> processedPos == 0 && checkDicSize == 0
      ensures processedPos == |out| % U32
    {
    }

    /** The bits of a literal, plain or following the byte at the last distance, and the state after it. */
    method DecodeLiteralBits(ghost x: Ctx, inp: seq<byte>, prob: nat) returns (symbol: byte)
      requires Apart() && Dictionary() && state == x.state && prob == LITERAL + LIT_SIZE * x.litState
      requires |reps| == 4
      requires state >= NUM_LIT_STATES ==>
                 1 <= reps[0] <= Min(|out|, dic.Length) && x.matchByte == out[|out| - reps[0]]
      requires rc.At(x, Next(x, AskIsMatch, 0), inp)
      modifies `state, rc, rc.probs
      ensures state == StateAfterLiteral(old(state))
      ensures old(rc.Rest(x, Next(x, AskIsMatch, 0), inp)) == Hit(Literal(symbol), rc.Coder(), rc.probs[..])
    {
      hide Dictionary, Walk, Fits, CoderOk, ProbsOk;
      var i;
      if state < NUM_LIT_STATES {
        state := state - (if state < 4 then state else 3);
        i := rc.DecodeTree(x, LitTree, inp, prob, 0x100);
      } else {
        var matchByte := ByteBack(reps[0]);
        state := state - (if state < 10 then 3 else 6);
        i := rc.DecodeMatchedLiteral(x, inp, prob, matchByte);
      }
      symbol := i - 0x100;
      rc.AtDone(x, Literal(symbol), inp);
    }

    method DecodeLiteral(ghost x: Ctx, inp: seq<byte>, ghost goal: nat)
      requires Mid() && x == CtxOf(View()) && dicPos < dic.Length && |out| < goal
      requires checkDicSize == 0 ==> |out| < props.dicSize
      requires rc.At(x, Next(x, AskIsMatch, 0), inp)
      modifies this`dicPos, this`out, this`state, this`processedPos, rc, rc.probs, dic
      ensures Landed(old(View()), old(rc.Rest(x, Next(x, AskIsMatch, 0), inp)), goal)
      ensures Dictionary() && Counters() && dicPos == old(dicPos) + 1 && |out| == old(|out|) + 1
      ensures forall i :: 0 <= i < dic.Length && i != old(dicPos) ==> dic[i] == old(dic[i])
    {
      hide Dictionary, Sound, Pow2, Counting, LitState, Landed, RangeDecoder.At, RangeDecoder.Rest;
      ghost var d := View();
      var prob := LiteralCoder();
      SoundProps();
      CtxFields();
      CountOn(processedPos, checkDicSize, |out|, props.dicSize, 1);
      CheckIsZeroOrSize();
      if state >= NUM_LIT_STATES { FollowedByte(); }
      processedPos := (processedPos + 1) % U32;
      var symbol := DecodeLiteralBits(x, inp, prob);
      Put(symbol);
      LandLiteral(d, Hit(Literal(symbol), rc.Coder(), rc.probs[..]), goal);
    }

    lemma LandLiteral(d: Dec, w: Res, goal: nat)
      requires w.Hit? && w.symbol.Literal? && w.rc == rc.Coder() && w.probs == rc.probs[..]
      requires d.phase.Running? && d.owed == 0 && RepsOk(d) && |d.out| <= goal
      requires View() == d.(out := d.out + [w.symbol.value], state := StateAfterLiteral(d.state), probs := w.probs,
                            range := w.rc.range, code := w.rc.code)
      ensures Landed(d, w, goal)
    {
    }

    lemma CtxFields()
      requires Mid()
      ensures Sound(View()) && RepsOk(View())
      ensures var x := CtxOf(View());
              x.state == state && x.posState == |out| % Pow2(props.pb) && x.litState == LitState(props, out)
    {
    }

    lemma FollowedByte()
      requires Mid() && state >= NUM_LIT_STATES
      ensures Sound(View()) && out != [] && 1 <= reps[0] <= Min(|out|, dic.Length)
      ensures CtxOf(View()).matchByte == out[|out| - reps[0]]
    {
      ReachInBuffer();
    }

    /** The decoder has done to `d` what the walk result `w` says. */
    ghost predicate Landed(d: Dec, w: Res, goal: nat)
      reads this, rc, rc.probs
    {
      w.Hit? && RepsOk(d) && Legal(d, w.symbol) && |d.out| <= goal
      && rc.Coder() == w.rc && View() == Stepped(d, w, goal).(phase := Running, owed := 0)
    }

    /** The repeated-match bits: a short repeat, or which distance is moved to the front. */
    method DecodeRepHead(ghost x: Ctx, inp: seq<byte>, posState: nat) returns (short: bool, ghost which: nat)
      requires |reps| == 4 && posState == 16 * x.posState && state == x.state && rc.At(x, AskRepG0, inp)
      modifies `reps, rc, rc.probs
      ensures short ==> rc.At(x, Done(ShortRep), inp) && reps == old(reps)
      ensures short ==> rc.Rest(x, Done(ShortRep), inp) == old(rc.Rest(x, AskRepG0, inp))
      ensures !short ==> which < 4 && rc.At(x, AskLenChoice(Again(which)), inp) && reps == MoveToFront(old(reps), which)
      ensures !short ==> rc.Rest(x, AskLenChoice(Again(which)), inp) == old(rc.Rest(x, AskRepG0, inp))
    {
      hide Walk, Next, CellOf, Index, NodeOk, Fits, CoderOk, ProbsOk, RangeDecoder.At, RangeDecoder.Rest;
      HeadSteps(x, 0);
      HeadSteps(x, 1);
      short, which := false, 0;
      var b := rc.DecodeBit(x, AskRepG0, inp, IS_REP_G0 + state);
      if b == 0 {
        b := rc.DecodeBit(x, AskRep0Long, inp, IS_REP0_LONG + posState + state);
        if b == 0 { return true, 0; }
        return;
      }
      var distance;
      var rep0, rep1, rep2, rep3 := reps[0], reps[1], reps[2], reps[3];
      b := rc.DecodeBit(x, AskRepG1, inp, IS_REP_G1 + state);
      if b == 0 {
        distance, which := rep1, 1;
      } else {
        b := rc.DecodeBit(x, AskRepG2, inp, IS_REP_G2 + state);
        if b == 0 {
          distance, which := rep2, 2;
        } else {
          distance, which := rep3, 3;
          rep3 := rep2;
        }
        rep2 := rep1;
      }
      rep1 := rep0;
      rep0 := distance;
      reps := [rep0, rep1, rep2, rep3];
    }

    /** Writes a match as far as the limit allows; `brk` is the source's break when there is no room at all. */
    method WriteMatch(len0: nat, limit: nat, ghost d: Dec, ghost goal: nat) returns (len: nat, brk: bool)
      requires Apart() && Dictionary() && Counters() && dicPos <= limit <= dic.Length && len0 < 272
      requires |reps| == 4 && 1 <= reps[0] <= Min(|out|, dic.Length) && 0 < props.dicSize < U32
      requires goal == |out| + (limit - dicPos) && (checkDicSize == 0 ==> goal <= props.dicSize)
      requires d.out == out && d.reps == reps
      modifies `dicPos, `out, `processedPos, dic
      ensures Dictionary() && Counters() && old(dicPos) <= dicPos <= limit && |out| - dicPos == old(|out| - dicPos)
      ensures out == CopyUnder(d, len0 + MATCH_MIN_LEN, goal).out
              && len == CopyUnder(d, len0 + MATCH_MIN_LEN, goal).owed
      ensures brk ==> |out| == goal
      ensures forall i :: 0 <= i < dic.Length && !(old(dicPos) <= i < dicPos) ==> dic[i] == old(dic[i])
    {
      hide Dictionary, Counting;
      len, brk := len0 + MATCH_MIN_LEN, false;
      var rem := limit - dicPos;
      if rem == 0 { return len, true; }
      var curLen := if rem < len then rem else len;
      CountOn(processedPos, checkDicSize, |out|, props.dicSize, curLen);
      processedPos := (processedPos + curLen) % U32;
      len := len - curLen;
      CopyMatch(curLen);
    }

    /** What `len` and a break mean after a symbol that led to `f`. */
    ghost predicate Verdict(f: Dec, len: nat, brk: bool, goal: nat) {
      match f.phase
      case Running => len == f.owed && (brk ==> |f.out| == goal)
      case Finished => len == MATCH_SPEC_LEN_START && brk
      case Broken => len >= ERROR_DATA && brk
      case Header => false
    }

    /** A repeated byte. */
    method RepeatByte()
      requires Apart() && Dictionary() && Counters() && dicPos < dic.Length
      requires |reps| == 4 && 1 <= reps[0] <= Min(|out|, dic.Length) && 0 < props.dicSize < U32
      requires checkDicSize == 0 ==> |out| < props.dicSize
      modifies `dicPos, `out, `processedPos, `state, dic
      ensures Dictionary() && Counters() && dicPos == old(dicPos) + 1 && out == Copy(old(out), reps[0], 1)
      ensures state == StateAfterShortRep(old(state))
      ensures forall i :: 0 <= i < dic.Length && i != old(dicPos) ==> dic[i] == old(dic[i])
    {
      hide Dictionary, Counting;
      CountOn(processedPos, checkDicSize, |out|, props.dicSize, 1);
      CheckIsZeroOrSize();
      assert Copy(out, reps[0], 1) == Copy(out + [out[|out| - reps[0]]], reps[0], 0);
      Put(ByteBack(reps[0]));
      processedPos := (processedPos + 1) % U32;
      state := if state < NUM_LIT_STATES then 9 else 11;
    }

    /** The distance check: only what has been written, and no more than a dictionary of it, can be repeated. */
    lemma ReachNow()
      requires Counters() && 0 < props.dicSize < U32
      ensures (if checkDicSize == 0 then processedPos else checkDicSize) == Min(|out|, props.dicSize)
    {
    }

    /** A repeated match needs output, and then every remembered distance points into the buffer. */
    lemma LegalReps(d: Dec, s: Symbol)
      requires RepsOk(d) && Legal(d, s) && (s.ShortRep? || s.RepMatch?)
      requires Dictionary() && out == d.out && props == d.props
      ensures out != [] && forall i :: 0 <= i < 4 ==> 1 <= d.reps[i] <= Min(|out|, dic.Length)
    {
    }

    /** The decoder's fields are `e`'s. */
    ghost predicate Shows(e: Dec, w: Res)
      reads this, rc, rc.probs
    {
      w.Hit? && rc.Coder() == w.rc && rc.probs[..] == w.probs && props == e.props && out == e.out && reps == e.reps
      && state == e.state
    }

    lemma LandShortRep(d: Dec, w: Res, goal: nat)
      requires d.phase.Running? && d.owed == 0 && RepsOk(d) && d.out != [] && |d.out| <= goal
      requires w.Hit? && w.symbol == ShortRep
      requires Shows(d.(out := Copy(d.out, d.reps[0], 1), state := StateAfterShortRep(d.state)), w)
      ensures Landed(d, w, goal) && Verdict(Stepped(d, w, goal), 0, false, goal)
    {
    }

    lemma LandEnd(d: Dec, w: Res, goal: nat)
      requires d.phase.Running? && d.owed == 0 && RepsOk(d) && |d.out| <= goal && Shows(d, w)
      requires w.symbol.Match? && w.symbol.dist == END_MARKER_DISTANCE && w.symbol.len < 272
      ensures Landed(d, w, goal) && Verdict(Stepped(d, w, goal), MATCH_SPEC_LEN_START, true, goal)
    {
    }

    lemma LandError(d: Dec, w: Res, goal: nat)
      requires d.phase.Running? && d.owed == 0 && RepsOk(d) && |d.out| <= goal
      requires w.Hit? && w.symbol.Match? && SymbolOk(w.symbol) && w.symbol.dist != END_MARKER_DISTANCE
      requires w.symbol.dist >= Reach(d)
      requires Shows(d.(reps := [w.symbol.dist + 1] + d.reps[..3], state := StateAfterMatch(d.state)), w)
      ensures Landed(d, w, goal)
      ensures Verdict(Stepped(d, w, goal), w.symbol.len + ERROR_DATA + MATCH_MIN_LEN, true, goal)
    {
    }

    lemma LandMatch(d: Dec, w: Res, len: nat, brk: bool, goal: nat)
      requires d.phase.Running? && d.owed == 0 && RepsOk(d) && |d.out| <= goal
      requires w.Hit? && w.symbol.Match? && SymbolOk(w.symbol) && w.symbol.dist < Reach(d)
      requires w.symbol.dist != END_MARKER_DISTANCE
      requires var e := d.(reps := [w.symbol.dist + 1] + d.reps[..3], state := StateAfterMatch(d.state));
               var f := CopyUnder(e, w.symbol.len + MATCH_MIN_LEN, goal);
               Shows(f, w) && len == f.owed && (brk ==> |out| == goal)
      ensures Landed(d, w, goal) && Verdict(Stepped(d, w, goal), len, brk, goal)
    {
    }

    lemma LandRep(d: Dec, w: Res, len: nat, brk: bool, goal: nat)
      requires d.phase.Running? && d.owed == 0 && RepsOk(d) && d.out != [] && |d.out| <= goal
      requires w.Hit? && w.symbol.RepMatch? && SymbolOk(w.symbol)
      requires var e := d.(reps := MoveToFront(d.reps, w.symbol.which), state := StateAfterRep(d.state));
               var f := CopyUnder(e, w.symbol.len + MATCH_MIN_LEN, goal);
               Shows(f, w) && len == f.owed && (brk ==> |out| == goal)
      ensures Landed(d, w, goal) && Verdict(Stepped(d, w, goal), len, brk, goal)
    {
    }

    /** The decoder before its dictionary moved: `d`'s output, with other distances and state. */
    ghost predicate Unwritten(d: Dec)
      reads this, dic
    {
      Apart() && Dictionary() && Counters() && PropsOk(props) && RepsOk(d) && d.phase.Running? && d.owed == 0
      && props == d.props && out == d.out && |reps| == 4
    }

    /** A simple match once its length is known: `state` still carries the mark kNumStates. */
    method DecodeFar(ghost x: Ctx, inp: seq<byte>, len0: nat, limit: nat, ghost d: Dec, ghost goal: nat)
        returns (len: nat, brk: bool)
      requires Unwritten(d) && reps == d.reps && state == d.state + NUM_STATES && len0 < 272
      requires dicPos <= limit <= dic.Length && goal == |out| + (limit - dicPos)
      requires checkDicSize == 0 ==> goal <= props.dicSize
      requires rc.At(x, AskSlot(len0, 1), inp)
      modifies `dicPos, `out, `state, `reps, `processedPos, rc, rc.probs, dic
      ensures Landed(d, old(rc.Rest(x, AskSlot(len0, 1), inp)), goal)
      ensures Verdict(Stepped(d, old(rc.Rest(x, AskSlot(len0, 1), inp)), goal), len, brk, goal)
      ensures Dictionary() && Counters() && old(dicPos) <= dicPos <= limit && |out| - dicPos == old(|out| - dicPos)
      ensures forall i :: 0 <= i < dic.Length && !(old(dicPos) <= i < dicPos) ==> dic[i] == old(dic[i])
    {
      hide Dictionary, Pow2, Counting, Landed, RangeDecoder.At, RangeDecoder.Rest, Stepped, Verdict, NodeOk, CoderOk,
           ProbsOk, Walk, Copy, Index, CellOf;
      len, brk := len0, true;
      var distance := rc.DecodeDistance(x, inp, len);
      rc.AtDone(x, Match(len, distance), inp);
      ghost var w := Hit(Match(len, distance), rc.Coder(), rc.probs[..]);
      if distance == END_MARKER_DISTANCE {
        state := state - NUM_STATES;
        LandEnd(d, w, goal);
        return MATCH_SPEC_LEN_START, true;
      }
      reps := [distance + 1, reps[0], reps[1], reps[2]];
      state := if state < NUM_STATES + NUM_LIT_STATES then 7 else 10;
      ReachNow();
      if distance >= (if checkDicSize == 0 then processedPos else checkDicSize) {
        LandError(d, w, goal);
        return len + ERROR_DATA + MATCH_MIN_LEN, true;
      }
      ReachInBuffer();
      len, brk := WriteMatch(len, limit, d.(reps := reps, state := state), goal);
      LandMatch(d, w, len, brk, goal);
    }

    /** A repeated match once its length is known. */
    method FinishRep(ghost w: Res, len0: nat, limit: nat, ghost d: Dec, ghost goal: nat) returns (len: nat, brk: bool)
      requires Unwritten(d) && state == StateAfterRep(d.state) && len0 < 272 && w.Hit? && w.symbol.RepMatch?
      requires Legal(d, w.symbol) && w.symbol.len == len0 && reps == MoveToFront(d.reps, w.symbol.which)
      requires dicPos <= limit <= dic.Length && goal == |out| + (limit - dicPos)
      requires checkDicSize == 0 ==> goal <= props.dicSize
      requires rc.Coder() == w.rc && rc.probs[..] == w.probs
      modifies `dicPos, `out, `processedPos, dic
      ensures Landed(d, w, goal) && Verdict(Stepped(d, w, goal), len, brk, goal)
      ensures Dictionary() && Counters() && old(dicPos) <= dicPos <= limit && |out| - dicPos == old(|out| - dicPos)
      ensures forall i :: 0 <= i < dic.Length && !(old(dicPos) <= i < dicPos) ==> dic[i] == old(dic[i])
    {
      hide Dictionary, Counting, Landed, Stepped, Verdict;
      LegalReps(d, w.symbol);
      len, brk := WriteMatch(len0, limit, d.(reps := reps, state := state), goal);
      LandRep(d, w, len, brk, goal);
    }

    /** One byte is repeated. */
    method FinishShortRep(ghost w: Res, ghost d: Dec, ghost goal: nat)
      requires Unwritten(d) && state == d.state && reps == d.reps && w.Hit? && w.symbol == ShortRep
               && Legal(d, ShortRep)
      requires dicPos < dic.Length && |out| < goal && (checkDicSize == 0 ==> goal <= props.dicSize)
      requires rc.Coder() == w.rc && rc.probs[..] == w.probs
      modifies `dicPos, `out, `processedPos, `state, dic
      ensures Landed(d, w, goal) && Verdict(Stepped(d, w, goal), 0, false, goal)
      ensures Dictionary() && Counters() && dicPos == old(dicPos) + 1 && |out| - dicPos == old(|out| - dicPos)
      ensures forall i :: 0 <= i < dic.Length && i != old(dicPos) ==> dic[i] == old(dic[i])
    {
      hide Dictionary, Counting, Landed, Stepped, Verdict;
      LegalReps(d, ShortRep);
      RepeatByte();
      LandShortRep(d, w, goal);
    }

    /** A match of more than one byte: its length, the distance of a simple one, and the bytes. */
    method DecodeLong(ghost x: Ctx, ghost u: LenUse, inp: seq<byte>, coder: nat, posState: nat, limit: nat,
                      ghost d: Dec, ghost goal: nat)
        returns (len: nat, brk: bool)
      requires Unwritten(d) && d.state < NUM_STATES && UseOk(u) && coder == LenBase(u.Again?)
               && posState == 16 * x.posState
      requires state == if u.Again? then StateAfterRep(d.state) else d.state + NUM_STATES
      requires reps == if u.Again? then MoveToFront(d.reps, u.which) else d.reps
      requires dicPos <= limit <= dic.Length && goal == |out| + (limit - dicPos)
      requires checkDicSize == 0 ==> goal <= props.dicSize
      requires rc.At(x, AskLenChoice(u), inp) && Legal(d, rc.Rest(x, AskLenChoice(u), inp).symbol)
      modifies `dicPos, `out, `state, `reps, `processedPos, rc, rc.probs, dic
      ensures Landed(d, old(rc.Rest(x, AskLenChoice(u), inp)), goal)
      ensures Verdict(Stepped(d, old(rc.Rest(x, AskLenChoice(u), inp)), goal), len, brk, goal)
      ensures Dictionary() && Counters() && old(dicPos) <= dicPos <= limit && |out| - dicPos == old(|out| - dicPos)
      ensures forall i :: 0 <= i < dic.Length && !(old(dicPos) <= i < dicPos) ==> dic[i] == old(dic[i])
    {
      hide Dictionary, Pow2, Counting, Landed, RangeDecoder.At, RangeDecoder.Rest, Stepped, Verdict, Legal, Copy,
           CopyUnder, CoderOk, ProbsOk, Walk, Next, CellOf, Index, NodeOk;
      len := rc.DecodeLen(x, u, inp, coder, posState);
      if state >= NUM_STATES {
        len, brk := DecodeFar(x, inp, len, limit, d, goal);
      } else {
        rc.AtDone(x, RepMatch(u.which, len), inp);
        len, brk := FinishRep(Hit(RepMatch(u.which, len), rc.Coder(), rc.probs[..]), len, limit, d, goal);
      }
    }

    /** Everything after the IsMatch bit said "match". */
    method DecodeMatch(ghost x: Ctx, inp: seq<byte>, posState: nat, limit: nat, ghost goal: nat)
        returns (len: nat, brk: bool)
      requires Mid() && x == CtxOf(View()) && posState == 16 * x.posState
      requires dicPos <= limit <= dic.Length && goal == |out| + (limit - dicPos)
      requires checkDicSize == 0 ==> goal <= props.dicSize
      requires rc.At(x, AskIsRep, inp) && Legal(View(), rc.Rest(x, AskIsRep, inp).symbol)
      requires dicPos == limit ==> rc.Rest(x, AskIsRep, inp).symbol.Match?
      modifies `dicPos, `out, `state, `reps, `processedPos, rc, rc.probs, dic
      ensures Landed(old(View()), old(rc.Rest(x, AskIsRep, inp)), goal)
      ensures Verdict(Stepped(old(View()), old(rc.Rest(x, AskIsRep, inp)), goal), len, brk, goal)
      ensures Dictionary() && Counters() && old(dicPos) <= dicPos <= limit && |out| - dicPos == old(|out| - dicPos)
      ensures forall i :: 0 <= i < dic.Length && !(old(dicPos) <= i < dicPos) ==> dic[i] == old(dic[i])
    {
      hide Dictionary, Sound, Pow2, Counting, LitState, Landed, RangeDecoder.At, RangeDecoder.Rest, Stepped, Verdict,
           Legal, Copy, CopyUnder, CoderOk, ProbsOk, Walk, Next, CellOf, Index, NodeOk;
      ghost var d := View();
      SoundProps();
      CtxFields();
      HeadSteps(x, 0);
      HeadSteps(x, 1);
      ghost var u;
      var coder;
      var b := rc.DecodeBit(x, AskIsRep, inp, IS_REP + state);
      if b == 0 {
        state := state + NUM_STATES;
        u, coder := Fresh, LEN_CODER;
      } else {
        var short;
        ghost var which;
        short, which := DecodeRepHead(x, inp, posState);
        if short {
          rc.AtDone(x, ShortRep, inp);
          FinishShortRep(Hit(ShortRep, rc.Coder(), rc.probs[..]), d, goal);
          return 0, false;
        }
        state := if state < NUM_LIT_STATES then 8 else 11;
        u, coder := Again(which), REP_LEN_CODER;
      }
      len, brk := DecodeLong(x, u, inp, coder, posState, limit, d, goal);
    }

    /** A bit was read and nothing else happened. */
    lemma MidAgain(d: Dec, x: Ctx, n: Node, inp: seq<byte>)
      requires Apart() && Dictionary() && Counters() && Sound(d) && (out == [] ==> state == 0 && reps == [1, 1, 1, 1])
      requires View() == d.(probs := View().probs, range := View().range, code := View().code)
      requires |rc.probs[..]| == |d.probs| && rc.At(x, n, inp)
      ensures Mid() && CtxOf(View()) == CtxOf(d)
    {
      SameStep(d, View(), Eof, 0);
    }

    /** One turn of the loop in LZMA_DECODE_REAL. The coder may still owe the normalization of the turn before. */
    method DecodeOne(inp: seq<byte>, limit: nat, ghost goal: nat) returns (len: nat, brk: bool)
      requires Mid() && dicPos <= limit <= dic.Length && goal == |out| + (limit - dicPos)
      requires checkDicSize == 0 ==> goal <= props.dicSize
      requires var x := CtxOf(View());
               rc.At(x, AskIsMatch, inp) && Legal(View(), rc.Rest(x, AskIsMatch, inp).symbol)
               && (dicPos == limit ==> rc.Rest(x, AskIsMatch, inp).symbol.Match?)
      modifies `dicPos, `out, `state, `reps, `processedPos, rc, rc.probs, dic
      ensures var w := old(rc.Rest(CtxOf(View()), AskIsMatch, inp));
              Landed(old(View()), w, goal) && Verdict(Stepped(old(View()), w, goal), len, brk, goal)
      ensures Dictionary() && Counters() && old(dicPos) <= dicPos <= limit && |out| - dicPos == old(|out| - dicPos)
      ensures forall i :: 0 <= i < dic.Length && !(old(dicPos) <= i < dicPos) ==> dic[i] == old(dic[i])
    {
      hide Dictionary, Sound, Pow2, And, Counting, LitState, Landed, RangeDecoder.At, RangeDecoder.Rest, Stepped,
           Verdict, Legal, Copy, CtxOf;
      ghost var d := View();
      SoundProps();
      CtxFields();
      WrittenFlag();
      ghost var x := CtxOf(d);
      rc.AtFacts(x, AskIsMatch, inp);
      ghost var w := rc.Rest(x, AskIsMatch, inp);
      PosMask(|out|, props.pb);
      var posState: nat := And(processedPos, Pow2(props.pb) - 1) * 16;
      var b := rc.DecodeBit(x, AskIsMatch, inp, IS_MATCH + posState + state);
      MidAgain(d, x, Next(x, AskIsMatch, b), inp);
      ghost var e := View();
      SoundView();
      SameStep(d, e, w, goal);
      if b == 0 {
        rc.LiteralRest(x, Next(x, AskIsMatch, 0), inp);
        DecodeLiteral(x, inp, goal);
        LiteralVerdict(d, w, goal);
        LandedAgain(d, e, w, goal);
        return 0, false;
      }
      len, brk := DecodeMatch(x, inp, posState, limit, goal);
      LandedAgain(d, e, w, goal);
    }

    lemma SoundView()
      requires Mid()
      ensures Sound(View())
    {
    }

    lemma LiteralVerdict(d: Dec, w: Res, goal: nat)
      requires d.phase.Running? && d.owed == 0 && RepsOk(d) && |d.out| <= goal && w.Hit? && w.symbol.Literal?
      ensures Legal(d, w.symbol) && Verdict(Stepped(d, w, goal), 0, false, goal)
    {
    }

    lemma LandedAgain(d: Dec, e: Dec, w: Res, goal: nat)
      requires Landed(e, w, goal) && RepsOk(d) && Legal(d, w.symbol) && |d.out| <= goal
      requires Stepped(e, w, goal) == Stepped(d, w, goal)
      ensures Landed(d, w, goal)
    {
    }

    // ---- LZMA_DECODE_REAL and LzmaDec_DecodeReal2 ----

    /** The limit seen from the output: how long the output is when `limit` is reached. */
    ghost function GoalOf(limit: nat): int
      reads `dicPos, `out
    {
      |out| - dicPos + limit
    }

    /** The loop has come to `cur`, of which only the normalization up to input position `pos` may be missing. */
    ghost predicate CameTo(cur: Dec, pos: nat, inp: seq<byte>)
      reads `out, `reps, `state, `dicPos, `processedPos, `checkDicSize, rc, rc.probs, dic
    {
      Apart() && Dictionary() && Counters() && DecOk(cur) && !cur.phase.Header?
      && CoderOk(rc.Coder()) && rc.buf <= pos <= |inp|
      && Pull(rc.Coder(), inp) == Some(Coder.Coder(cur.range, cur.code, pos))
      && View() == cur.(range := rc.range, code := rc.code, phase := Running, owed := 0)
      && (cur.phase.Running? || cur.owed == 0)
    }

    /** A symbol is there to be decoded, and may be decoded under the limit. */
    ghost predicate MayGo(cur: Dec, pos: nat, inp: seq<byte>, goal: nat, fin: Finish) {
      Live(cur, goal) && cur.phase.Running? && cur.owed == 0 && pos <= |inp| && !StopsAtLimit(cur, goal, fin)
      && SymbolAt(cur, inp, pos).Hit? && (|cur.out| == goal ==> SymbolAt(cur, inp, pos).symbol.Match?)
    }

    /** The call that started at `d` goes on from `cur`, or ends in a data error there. */
    ghost predicate Leads(d: Dec, start: nat, cur: Dec, pos: nat, inp: seq<byte>, held: nat, goal: nat, fin: Finish) {
      Live(d, goal) && start <= |inp| && held <= |inp| && pos <= |inp|
      && if cur.phase.Broken?
         then Drive(d, inp, start, held, goal, fin) == Outcome(cur, pos, [], ErrorData, NotSpecified)
         else Live(cur, goal) && Drive(d, inp, start, held, goal, fin) == Drive(cur, inp, pos, held, goal, fin)
    }

    lemma ReadyForOne(cur: Dec, pos: nat, inp: seq<byte>, near: nat)
      requires CameTo(cur, pos, inp) && cur.phase.Running? && cur.owed == 0
      requires SymbolAt(cur, inp, pos).Hit? && Legal(cur, SymbolAt(cur, inp, pos).symbol) && |cur.out| <= near
      ensures Mid() && Sound(cur) && View() == cur.(range := rc.range, code := rc.code)
      ensures var x, w := CtxOf(View()), SymbolAt(cur, inp, pos);
              rc.At(x, AskIsMatch, inp)
              && (var v := rc.Rest(x, AskIsMatch, inp);
                  w == v.(rc := w.rc) && Pull(v.rc, inp) == Some(w.rc) && CoderOk(v.rc) && v.rc.pos >= rc.buf
                  && Legal(View(), v.symbol))
    {
      LazySymbol(cur, View(), rc.Coder(), inp, pos);
      WalkKeeps(CtxOf(View()), AskIsMatch, rc.Coder(), rc.probs[..], inp, true);
    }

    lemma Arrived(cur: Dec, e: Dec, w: Res, v: Res, near: nat, inp: seq<byte>)
      requires Apart() && Dictionary() && Counters() && Landed(e, v, near)
      requires w.Hit? && w == v.(rc := w.rc) && Pull(v.rc, inp) == Some(w.rc) && CoderOk(v.rc) && w.rc.pos <= |inp|
      requires RepsOk(cur) && Legal(cur, w.symbol) && |cur.out| <= near
      requires DecOk(Stepped(cur, w, near)) && !Stepped(cur, w, near).phase.Header?
      requires Stepped(e, v, near) == Stepped(cur, w, near).(range := v.rc.range, code := v.rc.code)
      requires Stepped(cur, w, near).range == w.rc.range && Stepped(cur, w, near).code == w.rc.code
      requires Stepped(cur, w, near).phase.Running? || Stepped(cur, w, near).owed == 0
      ensures CameTo(Stepped(cur, w, near), w.rc.pos, inp) && rc.buf + 1 >= w.rc.pos
    {
    }

    /** The coder plays no part in what `len` and a break mean. */
    lemma VerdictOf(cur: Dec, e: Dec, w: Res, v: Res, near: nat)
      requires w.Hit? && v.Hit? && RepsOk(cur) && Legal(cur, w.symbol) && |cur.out| <= near
      requires RepsOk(e) && Legal(e, v.symbol) && |e.out| <= near
      requires Stepped(e, v, near) == Stepped(cur, w, near).(range := v.rc.range, code := v.rc.code)
      ensures forall len: nat, brk :: Verdict(Stepped(e, v, near), len, brk, near) ==>
                Verdict(Stepped(cur, w, near), len, brk, near)
    {
    }

    lemma SteppedCoder(d: Dec, w: Res, goal: nat)
      requires w.Hit? && RepsOk(d) && Legal(d, w.symbol) && |d.out| <= goal && d.phase.Running? && d.owed == 0
      ensures var f := Stepped(d, w, goal);
              f.range == w.rc.range && f.code == w.rc.code && !f.phase.Header? && (f.phase.Running? || f.owed == 0)
    {
    }

    /** `f` is what symbol `w` made of `d` under the limit `near`. */
    ghost predicate StepsTo(d: Dec, w: Res, f: Dec, near: int) {
      w.Hit? && RepsOk(d) && Legal(d, w.symbol) && |d.out| <= near && f == Stepped(d, w, near)
    }

    /** One turn of the loop, seen from the whole call. */
    method Turn(inp: seq<byte>, limit: nat, ghost cur: Dec, ghost pos: nat, ghost held: nat, ghost goal: nat,
                ghost fin: Finish)
        returns (len: nat, brk: bool, ghost cur': Dec, ghost pos': nat)
      requires CameTo(cur, pos, inp) && MayGo(cur, pos, inp, goal, fin) && held <= |inp|
      requires dicPos <= limit <= dic.Length && GoalOf(limit) <= goal && (dicPos == limit ==> GoalOf(limit) == goal)
      requires checkDicSize == 0 ==> GoalOf(limit) <= props.dicSize
      modifies `dicPos, `out, `state, `reps, `processedPos, rc, rc.probs, dic
      ensures CameTo(cur', pos', inp) && pos' == SymbolAt(cur, inp, pos).rc.pos && rc.buf + 1 >= pos'
      ensures StepsTo(cur, SymbolAt(cur, inp, pos), cur', old(GoalOf(limit)))
      ensures rc.buf >= old(rc.buf)
      ensures Leads(cur, pos, cur', pos', inp, held, goal, fin) && Verdict(cur', len, brk, old(GoalOf(limit)))
      ensures !cur'.phase.Broken? ==> Effort(cur', goal) < Effort(cur, goal)
      ensures cur'.phase.Running? && cur'.owed > 0 ==> dicPos == limit
      ensures old(dicPos) <= dicPos <= limit && GoalOf(limit) == old(GoalOf(limit))
      ensures forall i :: 0 <= i < dic.Length && !(old(dicPos) <= i < dicPos) ==> dic[i] == old(dic[i])
    {
      hide Dictionary, Counting, Stepped, SymbolAt, Drive, StopsAtLimit;
      ghost var near: nat := GoalOf(limit);
      ghost var w, e := SymbolAt(cur, inp, pos), View();
      TurnUnderNearLimit(cur, inp, pos, held, near, goal, fin);
      ReadyForOne(cur, pos, inp, near);
      ghost var v := rc.Rest(CtxOf(e), AskIsMatch, inp);
      LazyStep(cur, e, w, v, near);
      SteppedCoder(cur, w, near);
      VerdictOf(cur, e, w, v, near);
      len, brk := DecodeOne(inp, limit, near);
      cur', pos' := Stepped(cur, w, near), w.rc.pos;
      Arrived(cur, e, w, v, near, inp);
    }

    /** After a turn that left the limit and the input limit ahead, another symbol is there. */
    lemma MoreThere(cur: Dec, pos: nat, inp: seq<byte>, limit: nat, bufLimit: nat, goal: nat, fin: Finish)
      requires CameTo(cur, pos, inp) && Live(cur, goal) && cur.phase.Running? && rc.buf + 1 >= pos
      requires cur.owed == 0 && dicPos < limit && GoalOf(limit) <= goal
      requires rc.buf < bufLimit && bufLimit + REQUIRED_INPUT_MAX <= |inp|
      ensures MayGo(cur, pos, inp, goal, fin) && Effort(cur, goal) >= 0
    {
      SymbolKeeps(cur, inp, pos);
    }

    /** How `remainLen` encodes where the decoder is. */
    ghost predicate Encodes(cur: Dec, len: nat) {
      match cur.phase
      case Running => len == cur.owed
      case Finished => len == MATCH_SPEC_LEN_START
      case Broken => len >= ERROR_DATA
      case Header => false
    }

    /** LZMA_DECODE_REAL: decodes one symbol, then more while both limits are ahead. */
    method DecodeReal(inp: seq<byte>, limit: nat, bufLimit: nat, ghost held: nat, ghost goal: nat, ghost fin: Finish)
        returns (ok: bool, ghost cur: Dec)
      requires Settled(rc.Coder()) && CameTo(View(), rc.buf, inp) && MayGo(View(), rc.buf, inp, goal, fin)
               && held <= |inp|
      requires dicPos <= limit <= dic.Length && GoalOf(limit) <= goal && (dicPos == limit ==> GoalOf(limit) == goal)
      requires checkDicSize == 0 ==> GoalOf(limit) <= props.dicSize
      requires bufLimit <= rc.buf || bufLimit + REQUIRED_INPUT_MAX <= |inp|
      modifies `dicPos, `out, `state, `reps, `processedPos, `remainLen, rc, rc.probs, dic
      ensures CameTo(cur, rc.buf, inp) && Settled(rc.Coder())
      ensures Leads(old(View()), old(rc.buf), cur, rc.buf, inp, held, goal, fin)
      ensures Encodes(cur, remainLen) && ok == !cur.phase.Broken?
      ensures bufLimit <= old(rc.buf) ==> rc.buf == SymbolAt(old(View()), inp, old(rc.buf)).rc.pos
      ensures bufLimit <= old(rc.buf) ==>
                StepsTo(old(View()), SymbolAt(old(View()), inp, old(rc.buf)), cur, old(GoalOf(limit)))
      ensures ok ==> Effort(cur, goal) < Effort(old(View()), goal)
      ensures old(dicPos) <= dicPos <= limit && GoalOf(limit) == old(GoalOf(limit))
      ensures forall i :: 0 <= i < dic.Length && !(old(dicPos) <= i < dicPos) ==> dic[i] == old(dic[i])
    {
      ghost var d, start, first := View(), rc.buf, SymbolAt(View(), inp, rc.buf);
      hide Dictionary, Counting, Sound, MayGo, Drive, SymbolAt, DecOk, CameTo, Leads, Encodes, Live, Effort, StepsTo;
      cur := d;
      ghost var pos: nat := start;
      var len: nat := 0;
      var more := true;
      StartLoop(d, start, inp, held, goal, fin);
      while more
        invariant CameTo(cur, pos, inp) && Leads(d, start, cur, pos, inp, held, goal, fin) && start <= rc.buf
        invariant more ==> MayGo(cur, pos, inp, goal, fin) && Effort(cur, goal) >= 0
        invariant (more && cur == d && pos == start && rc.buf == start)
                  || (Encodes(cur, len) && (!cur.phase.Broken? ==> Effort(cur, goal) < Effort(d, goal)))
        invariant bufLimit <= start ==>
                    (more && cur == d && pos == start)
                    || (!more && pos == first.rc.pos && StepsTo(d, first, cur, old(GoalOf(limit))))
        invariant old(dicPos) <= dicPos <= limit && GoalOf(limit) == old(GoalOf(limit))
        invariant checkDicSize == old(checkDicSize) && (more && dicPos == limit ==> GoalOf(limit) == goal)
        invariant forall i :: 0 <= i < dic.Length && !(old(dicPos) <= i < dicPos) ==> dic[i] == old(dic[i])
        decreases if more then 1 + Effort(cur, goal) else 0
      {
        len, cur, pos, more := NextTurn(d, start, inp, limit, bufLimit, cur, pos, held, goal, fin);
      }
      ok := FinishReal(inp, len, cur, pos);
    }

    /** The last normalization of LZMA_DECODE_REAL, and what it leaves in remainLen. */
    method FinishReal(inp: seq<byte>, len: nat, ghost cur: Dec, ghost pos: nat) returns (ok: bool)
      requires CameTo(cur, pos, inp) && Encodes(cur, len)
      modifies `remainLen, rc
      ensures CameTo(cur, rc.buf, inp) && Settled(rc.Coder()) && rc.buf == pos
      ensures remainLen == len && ok == !cur.phase.Broken?
    {
      hide Dictionary, Counting, Sound, DecOk, CameTo, Encodes;
      FinishLoop(cur, pos, inp);
      rc.Normalize(inp);
      remainLen := len;
      ok := len < ERROR_DATA;
      EncodedError(cur, len);
      Normalized(cur, pos, inp);
    }

    lemma StartLoop(d: Dec, start: nat, inp: seq<byte>, held: nat, goal: nat, fin: Finish)
      requires MayGo(d, start, inp, goal, fin) && held <= |inp|
      ensures Leads(d, start, d, start, inp, held, goal, fin) && Effort(d, goal) >= 0
      ensures Sound(d) && SymbolAt(d, inp, start).Hit?
    {
    }

    lemma FinishLoop(cur: Dec, pos: nat, inp: seq<byte>)
      requires CameTo(cur, pos, inp)
      ensures CoderOk(rc.Coder()) && Pull(rc.Coder(), inp) == Some(Coder.Coder(cur.range, cur.code, pos))
      ensures Settled(Coder.Coder(cur.range, cur.code, pos)) && DecOk(cur) && !cur.phase.Header? && pos <= |inp|
      ensures View() == cur.(range := rc.range, code := rc.code, phase := Running, owed := 0)
      ensures cur.phase.Running? || cur.owed == 0
      ensures Apart() && Counters() && Dictionary()
    {
      PullSettles(rc.Coder(), inp);
    }

    lemma EncodedError(cur: Dec, len: nat)
      requires Encodes(cur, len) && DecOk(cur)
      ensures cur.phase.Broken? <==> len >= ERROR_DATA
    {
    }

    lemma StillEncodes(cur: Dec, len: nat)
      requires cur.phase.Broken? ==> len >= ERROR_DATA
      requires !cur.phase.Broken? ==> Encodes(cur, len)
      ensures Encodes(cur, len)
    {
    }

    /** The body of the loop with its condition. */
    method NextTurn(ghost d: Dec, ghost start: nat, inp: seq<byte>, limit: nat, bufLimit: nat, ghost cur: Dec,
                    ghost pos: nat, ghost held: nat, ghost goal: nat, ghost fin: Finish)
        returns (len: nat, ghost cur': Dec, ghost pos': nat, more: bool)
      requires CameTo(cur, pos, inp) && Leads(d, start, cur, pos, inp, held, goal, fin) && held <= |inp|
      requires MayGo(cur, pos, inp, goal, fin)
      requires dicPos <= limit <= dic.Length && GoalOf(limit) <= goal && (dicPos == limit ==> GoalOf(limit) == goal)
      requires checkDicSize == 0 ==> GoalOf(limit) <= props.dicSize
      requires start <= rc.buf && (bufLimit <= start || bufLimit + REQUIRED_INPUT_MAX <= |inp|)
      modifies `dicPos, `out, `state, `reps, `processedPos, rc, rc.probs, dic
      ensures CameTo(cur', pos', inp) && Leads(d, start, cur', pos', inp, held, goal, fin) && rc.buf >= old(rc.buf)
      ensures pos' == SymbolAt(cur, inp, pos).rc.pos && Encodes(cur', len)
      ensures StepsTo(cur, SymbolAt(cur, inp, pos), cur', old(GoalOf(limit)))
      ensures !cur'.phase.Broken? ==> Effort(cur', goal) < Effort(cur, goal)
      ensures more ==>
                MayGo(cur', pos', inp, goal, fin) && Effort(cur', goal) >= 0 && !cur'.phase.Broken? && dicPos < limit
                       && rc.buf < bufLimit
      ensures old(dicPos) <= dicPos <= limit && GoalOf(limit) == old(GoalOf(limit))
      ensures forall i :: 0 <= i < dic.Length && !(old(dicPos) <= i < dicPos) ==> dic[i] == old(dic[i])
    {
      hide Dictionary, Counting, Sound, MayGo, Drive, SymbolAt, DecOk, Effort, CameTo, StepsTo;
      var brk;
      len, brk, cur', pos' := Turn(inp, limit, cur, pos, held, goal, fin);
      LeadsOn(d, start, cur, pos, cur', pos', inp, held, goal, fin);
      more := !brk && dicPos < limit && rc.buf < bufLimit;
      if more { MoreThere(cur', pos', inp, limit, bufLimit, goal, fin); }
    }

    lemma LeadsOn(d: Dec, start: nat, e: Dec, at: nat, f: Dec, pos: nat, inp: seq<byte>, held: nat, goal: nat,
                  fin: Finish)
      requires Leads(d, start, e, at, inp, held, goal, fin) && !e.phase.Broken?
               && Leads(e, at, f, pos, inp, held, goal, fin)
      ensures Leads(d, start, f, pos, inp, held, goal, fin)
    {
      hide Drive;
    }

    lemma Normalized(cur: Dec, pos: nat, inp: seq<byte>)
      requires Apart() && Dictionary() && Counters() && DecOk(cur) && !cur.phase.Header? && pos <= |inp|
      requires rc.Coder() == Coder.Coder(cur.range, cur.code, pos) && Settled(rc.Coder())
      requires View() == cur.(range := rc.range, code := rc.code, phase := Running, owed := 0)
      requires cur.phase.Running? || cur.owed == 0
      ensures CameTo(cur, pos, inp)
    {
    }

    /** checkDicSize is set as soon as a whole dictionary has been written. */
    ghost predicate StrictCounters()
      reads `processedPos, `checkDicSize, `out
    {
      Counters() && (checkDicSize == 0 ==> |out| < props.dicSize)
    }

    /**
     LzmaDec_DecodeReal2: stops at the byte where the dictionary becomes full, so that the distance check is exact.
     */
    method DecodeReal2(inp: seq<byte>, limit: nat, bufLimit: nat, ghost held: nat, ghost goal: nat, ghost fin: Finish)
        returns (ok: bool, ghost cur: Dec, ghost nearGoal: nat)
      requires Settled(rc.Coder()) && CameTo(View(), rc.buf, inp) && MayGo(View(), rc.buf, inp, goal, fin)
               && held <= |inp|
      requires dicPos <= limit <= dic.Length && GoalOf(limit) == goal && StrictCounters()
      requires bufLimit <= rc.buf || bufLimit + REQUIRED_INPUT_MAX <= |inp|
      modifies `dicPos, `out, `state, `reps, `processedPos, `checkDicSize, `remainLen, rc, rc.probs, dic
      ensures CameTo(cur, rc.buf, inp) && Settled(rc.Coder())
      ensures Leads(old(View()), old(rc.buf), cur, rc.buf, inp, held, goal, fin)
      ensures Encodes(cur, remainLen) && ok == !cur.phase.Broken?
      ensures bufLimit <= old(rc.buf) ==> rc.buf == SymbolAt(old(View()), inp, old(rc.buf)).rc.pos
      ensures |old(out)| <= nearGoal <= goal && (|old(out)| == nearGoal ==> nearGoal == goal)
      ensures bufLimit <= old(rc.buf) ==>
                StepsTo(old(View()), SymbolAt(old(View()), inp, old(rc.buf)), cur, nearGoal)
      ensures ok ==> Effort(cur, goal) < Effort(old(View()), goal)
      ensures old(dicPos) <= dicPos <= limit && GoalOf(limit) == goal && StrictCounters()
      ensures forall i :: 0 <= i < dic.Length && !(old(dicPos) <= i < dicPos) ==> dic[i] == old(dic[i])
    {
      hide Dictionary, Sound, MayGo, Drive, SymbolAt, DecOk, Leads, Encodes, Live, Effort, StepsTo;
      CameProps(View(), rc.buf, inp);
      var near := limit;
      if checkDicSize == 0 {
        var rem := (props.dicSize - processedPos) % U32;
        if limit - dicPos > rem { near := dicPos + rem; }
      }
      nearGoal := GoalOf(near);
      ok, cur := DecodeReal(inp, near, bufLimit, held, goal, fin);
      if checkDicSize == 0 && processedPos >= props.dicSize { checkDicSize := props.dicSize; }
    }

    lemma CameProps(cur: Dec, pos: nat, inp: seq<byte>)
      requires CameTo(cur, pos, inp)
      ensures 0 < props.dicSize < U32 && dicPos <= dic.Length
    {
    }

    // ---- LzmaDec_TryDummy ----

    /** The literal coder as the look-ahead computes it. */
    method DummyLiteralCoder() returns (prob: nat)
      requires Mid()
      ensures prob == LITERAL + LIT_SIZE * LitState(props, out)
    {
      hide Dictionary, Sound, Pow2, And, Counting, LitState;
      prob := LITERAL;
      SoundProps();
      WrittenFlag();
      if checkDicSize != 0 || processedPos != 0 {
        RepInBuffer();
        BackByte(1);
        PosMask(|out|, props.lp);
        var prev := dic[(if dicPos == 0 then dic.Length else dicPos) - 1];
        var low: nat := And(processedPos, Pow2(props.lp) - 1);
        LitStateIs(props, out, low, prev);
        prob := prob + LIT_SIZE * (low * Pow2(props.lc) + prev / Pow2(8 - props.lc));
      } else {
        LitStateOfNothing(props);
      }
    }

    method LookLiteral(ghost x: Ctx, c: Coder, inp: seq<byte>) returns (eof: bool, ghost symbol: Symbol, r: Coder)
      requires Mid() && x == CtxOf(View()) && Here(x, Next(x, AskIsMatch, 0), rc.probs)
      ensures eof ==> Peek(x, Next(x, AskIsMatch, 0), c, rc.probs, inp).Eof?
      ensures !eof ==> symbol.Literal?
                       && Peek(x, Next(x, AskIsMatch, 0), c, rc.probs, inp) == Hit(symbol, r, rc.probs[..])
    {
      hide Dictionary, Sound, Pow2, Counting, LitState, Walk, Fits;
      var prob := DummyLiteralCoder();
      SoundProps();
      CtxFields();
      ghost var i;
      symbol := ShortRep;
      if state < NUM_LIT_STATES {
        eof, i, r := TreeCheck(x, LitTree, c, rc.probs, inp, prob, 0x100);
      } else {
        FollowedByte();
        var matchByte := ByteBack(reps[0]);
        eof, i, r := MatchedLiteralCheck(x, c, rc.probs, inp, prob, matchByte);
      }
      if !eof {
        symbol := Literal(i - 0x100);
        PeekDone(x, symbol, r, rc.probs, inp);
      }
    }

    method LookRepHead(ghost x: Ctx, c: Coder, inp: seq<byte>, posState: nat)
        returns (eof: bool, short: bool, ghost which: nat, r: Coder)
      requires posState == 16 * x.posState && state == x.state && Here(x, AskRepG0, rc.probs)
      ensures eof ==> Peek(x, AskRepG0, c, rc.probs, inp).Eof?
      ensures !eof && short ==> Here(x, Done(ShortRep), rc.probs)
                                && Peek(x, AskRepG0, c, rc.probs, inp) == Peek(x, Done(ShortRep), r, rc.probs, inp)
      ensures !eof && !short ==>
                which < 4 && Here(x, AskLenChoice(Again(which)), rc.probs)
                && Peek(x, AskRepG0, c, rc.probs, inp) == Peek(x, AskLenChoice(Again(which)), r, rc.probs, inp)
    {
      hide Walk, Next, CellOf, Index, NodeOk, Fits, Here, Peek;
      HeadSteps(x, 0);
      HeadSteps(x, 1);
      short, which := false, 0;
      var b;
      eof, b, r := BitCheck(x, AskRepG0, c, rc.probs, inp, IS_REP_G0 + state);
      if eof { return; }
      if b == 0 {
        eof, b, r := BitCheck(x, AskRep0Long, r, rc.probs, inp, IS_REP0_LONG + posState + state);
        short := b == 0;
      } else {
        eof, b, r := BitCheck(x, AskRepG1, r, rc.probs, inp, IS_REP_G1 + state);
        if eof { return; }
        which := 1;
        if b == 1 {
          eof, b, r := BitCheck(x, AskRepG2, r, rc.probs, inp, IS_REP_G2 + state);
          which := 2 + b as int;
        }
      }
    }

    method LookDistance(ghost x: Ctx, c: Coder, inp: seq<byte>, len: nat)
        returns (eof: bool, ghost distance: nat, r: Coder)
      requires len < 272 && Here(x, AskSlot(len, 1), rc.probs)
      ensures eof ==> Peek(x, AskSlot(len, 1), c, rc.probs, inp).Eof?
      ensures !eof ==> Peek(x, AskSlot(len, 1), c, rc.probs, inp) == Hit(Match(len, distance), r, rc.probs[..])
    {
      hide Walk, Fits, Next, CellOf, Index, NodeOk, Here, Peek;
      distance := 0;
      var lenState := if len < 3 then len else 3;
      var i;
      eof, i, r := TreeCheck(x, SlotTree(len), c, rc.probs, inp, POS_SLOT + 64 * lenState, 64);
      if eof { return; }
      var posSlot := i - 64;
      if posSlot < 4 {
        distance := posSlot;
      } else if posSlot < 14 {
        var bits := posSlot / 2 - 1;
        var base := (2 + posSlot % 2) * Pow2(bits);
        eof, distance, r := ReverseCheck(x, len, posSlot, r, rc.probs, inp, SPEC_POS + base, bits);
      } else {
        eof, distance, r := DirectBitsCheck(x, len, posSlot, r, rc.probs, inp, posSlot / 2 - 1 - 4);
        if eof { return; }
        eof, distance, r := AlignCheck(x, len, distance, r, rc.probs, inp);
      }
      if !eof { PeekDone(x, Match(len, distance), r, rc.probs, inp); }
    }

    method LookMatch(ghost x: Ctx, c: Coder, inp: seq<byte>, posState: nat)
        returns (eof: bool, res: Dummy, ghost symbol: Symbol, r: Coder)
      requires posState == 16 * x.posState && state == x.state && Here(x, AskIsRep, rc.probs)
      ensures eof ==> Peek(x, AskIsRep, c, rc.probs, inp).Eof?
      ensures !eof ==> Peek(x, AskIsRep, c, rc.probs, inp) == Hit(symbol, r, rc.probs[..]) && res == ClassOf(symbol)
    {
      hide Walk, Next, CellOf, Index, NodeOk, Fits, Here, Peek;
      HeadSteps(x, 0);
      HeadSteps(x, 1);
      var b, len;
      symbol, res := ShortRep, DummyMatch;
      eof, b, r := BitCheck(x, AskIsRep, c, rc.probs, inp, IS_REP + state);
      if eof { return; }
      if b == 0 {
        eof, len, r := LenCheck(x, Fresh, r, rc.probs, inp, LEN_CODER, posState);
        if eof { return; }
        ghost var distance;
        eof, distance, r := LookDistance(x, r, inp, len);
        symbol := Match(len, distance);
      } else {
        res := DummyRep;
        var short;
        ghost var which;
        eof, short, which, r := LookRepHead(x, r, inp, posState);
        if eof { return; }
        if short {
          PeekDone(x, ShortRep, r, rc.probs, inp);
          return;
        }
        eof, len, r := LenCheck(x, Again(which), r, rc.probs, inp, REP_LEN_CODER, posState);
        if eof { return; }
        symbol := RepMatch(which, len);
        PeekDone(x, symbol, r, rc.probs, inp);
      }
    }

    /** The walk that adapts nothing tells what the real decoder will find. */
    lemma LookIsReal(inp: seq<byte>, pos: nat)
      requires Mid()
      ensures Sound(View()) && Here(CtxOf(View()), AskIsMatch, rc.probs)
      ensures match Peek(CtxOf(View()), AskIsMatch, Coder.Coder(rc.range, rc.code, pos), rc.probs, inp)
              case Eof => SymbolAt(View(), inp, pos).Eof?
              case Hit(s, c, _) =>
                match Pull(c, inp)
                case None => SymbolAt(View(), inp, pos).Eof?
                case Some(c') => SymbolAt(View(), inp, pos).Hit? && SymbolAt(View(), inp, pos).symbol == s
                                 && SymbolAt(View(), inp, pos).rc == c'
    {
      CtxFits(View());
      LookaheadAgrees(CtxOf(View()), Coder.Coder(rc.range, rc.code, pos), rc.probs[..], inp);
    }

    /** LzmaDec_TryDummy: what the next symbol is and where it ends, without touching anything. */
    method TryDummy(inp: seq<byte>, pos: nat) returns (res: Dummy, bufOut: nat)
      requires Mid() && Settled(rc.Coder()) && pos <= |inp|
      ensures match SymbolAt(View(), inp, pos)
              case Eof => res == DummyInputEof
              case Hit(s, c, _) => res == ClassOf(s) && bufOut == c.pos
    {
      hide Dictionary, Sound, Pow2, And, Counting, LitState, Walk, Fits, CtxOf, Whole;
      SoundProps();
      CtxFields();
      WrittenFlag();
      ghost var x := CtxOf(View());
      var c := Coder.Coder(rc.range, rc.code, pos);
      LookIsReal(inp, pos);
      bufOut := pos;
      PosMask(|out|, props.pb);
      var posState: nat := And(processedPos, Pow2(props.pb) - 1) * 16;
      var eof, b;
      ghost var symbol;
      eof, b, c := BitCheck(x, AskIsMatch, c, rc.probs, inp, IS_MATCH + posState + state);
      if eof { return DummyInputEof, pos; }
      if b == 0 {
        eof, symbol, c := LookLiteral(x, c, inp);
        if eof { return DummyInputEof, pos; }
        res := DummyLit;
      } else {
        eof, res, symbol, c := LookMatch(x, c, inp, posState);
        if eof { return DummyInputEof, pos; }
      }
      ghost var end := c;
      eof, c := NormalizeCheck(c, inp);
      if eof { return DummyInputEof, pos; }
      bufOut := c.pos;
    }

    // ---- LzmaDec_DecodeToDic ----

    ghost function PhaseNow(): Phase
      reads `remainLen
    {
      if remainLen < MATCH_SPEC_LEN_START then Running
      else if remainLen == MATCH_SPEC_LEN_START then Finished
      else if remainLen <= MATCH_SPEC_LEN_START + 2 then Header
      else Broken
    }

    /** The decoder on values. Before the header is complete only the properties mean anything. */
    ghost function Model(): Dec
      reads `out, `reps, `state, `remainLen, rc`range, rc`code, rc.probs
    {
      var p := PhaseNow();
      if p.Header? then Blank(props)
      else View().(phase := p, owed := if p.Running? then remainLen else 0)
    }

    ghost function Held(): seq<byte>
      requires tempBufSize <= tempBuf.Length
      reads `tempBufSize, tempBuf
    {
      tempBuf[..tempBufSize]
    }

    /** Held bytes are the start of one symbol: not all of it, or exactly it. */
    ghost predicate HeldOk(h: seq<byte>)
      reads this, rc`range, rc`code, rc.probs
    {
      (PhaseNow().Header? ==> |h| <= RC_INIT_SIZE)
      && (PhaseNow().Running? && h != [] ==> remainLen == 0 && OneSymbolAtMost(View(), h))
    }

    /** The invariant of the object between calls. */
    ghost predicate Valid()
      reads this, rc`range, rc`code, rc.probs, dic, tempBuf
    {
      Apart() && Dictionary() && StrictCounters() && PropsOk(props) && rc.probs.Length == NumProbs(props.lc, props.lp)
      && DecOk(Model()) && (PhaseNow().Header? ==> remainLen == MATCH_SPEC_LEN_START + 2 && out == [])
      && (PhaseNow().Broken? ==> remainLen >= ERROR_DATA) && tempBufSize <= REQUIRED_INPUT_MAX && HeldOk(Held())
    }

    /** All the input a call may decode, seen from the decoder: what it holds, then what is left of the source. */
    ghost function Ahead(src: seq<byte>, at: nat): seq<byte>
      requires tempBufSize <= tempBuf.Length && at <= |src|
      reads `tempBufSize, tempBuf
    {
      Held() + src[at..]
    }

    /** The rest of the call that must come to `o`: `at` source bytes are taken so far, `before` were held at first. */
    ghost predicate Rolling(o: Outcome, before: nat, src: seq<byte>, at: nat, goal: nat, fin: Finish)
      reads this, rc`range, rc`code, rc.probs, dic, tempBuf
    {
      Valid() && at <= |src| && |Held()| <= before + at && Live(Model(), goal)
      && Later(Drive(Model(), Ahead(src, at), 0, |Held()|, goal, fin), before + at - |Held()|) == o
    }

    /** The call is over with outcome `o`. */
    ghost predicate Answered(o: Outcome, before: nat, at: nat, res: SRes, status: Status)
      reads this, rc`range, rc`code, rc.probs, dic, tempBuf
    {
      Valid() && Model() == o.dec && Held() == o.held && o.taken == before + at && o.res == res && o.status == status
    }

    /** Fills the carry-over buffer up to the five header bytes. */
    method FillHeader(src: seq<byte>) returns (at: nat)
      requires Apart() && tempBufSize <= RC_INIT_SIZE
      modifies `tempBufSize, tempBuf
      ensures tempBufSize == Min(RC_INIT_SIZE, old(tempBufSize) + |src|) && at == tempBufSize - old(tempBufSize)
      ensures at <= |src| && Held() == (old(Held()) + src)[..tempBufSize]
    {
      at := 0;
      while at < |src| && tempBufSize < RC_INIT_SIZE
        invariant at <= |src| && tempBufSize == old(tempBufSize) + at <= RC_INIT_SIZE
        invariant Held() == old(Held()) + src[..at]
      {
        tempBuf[tempBufSize] := src[at];
        tempBufSize := tempBufSize + 1;
        at := at + 1;
      }
      assert (old(Held()) + src)[..tempBufSize] == old(Held()) + src[..at];
    }

    method InitProbs()
      modifies rc.probs
      ensures rc.probs[..] == seq(rc.probs.Length, _ => INITIAL_PROB)
    {
      var i := 0;
      while i < rc.probs.Length
        invariant i <= rc.probs.Length && forall k :: 0 <= k < i ==> rc.probs[k] == INITIAL_PROB
      {
        rc.probs[i] := BIT_MODEL_TOTAL / 2;
        i := i + 1;
      }
    }

    lemma NowStarted(code: int)
      requires Apart() && Dictionary() && StrictCounters() && PropsOk(props)
               && rc.probs.Length == NumProbs(props.lc, props.lp)
      requires out == [] && remainLen == 0 && tempBufSize == 0 && reps == [1, 1, 1, 1] && state == 0
      requires 0 <= code < BAD_REP_CODE && rc.code == code && rc.range == 0xFFFF_FFFF
      requires rc.probs[..] == seq(rc.probs.Length, _ => INITIAL_PROB)
      ensures Valid() && Model() == Started(props, code)
    {
      hide Dictionary, StrictCounters, NumProbs, DecOk, PropsOk, OneSymbolAtMost;
      StartedOk(props, code);
      assert Model() == Started(props, code);
    }

    /** The coder, the probabilities and the distances at the start of a stream. */
    method StartStream()
      requires Valid() && PhaseNow().Header? && tempBufSize == RC_INIT_SIZE && HeaderCode(Held()) < BAD_REP_CODE
      modifies `tempBufSize, `remainLen, `reps, `state, rc, rc.probs
      ensures Valid() && tempBufSize == 0 && Model() == Started(props, old(HeaderCode(Held())))
    {
      hide Dictionary, Counting, NumProbs, HeldOk, DecOk;
      ghost var code := HeaderCode(Held());
      rc.code := tempBuf[1] as int * 0x100_0000 + tempBuf[2] as int * 0x1_0000 + tempBuf[3] as int * 0x100
                 + tempBuf[4] as int;
      rc.range := 0xFFFF_FFFF;
      tempBufSize := 0;
      InitProbs();
      reps := [1, 1, 1, 1];
      state := 0;
      remainLen := 0;
      NowStarted(code);
    }

    /** The first part of LzmaDec_DecodeToDic: five bytes of header, kept across calls. */
    method ReadHeader(src: seq<byte>, limit: nat, ghost goal: nat, ghost fin: Finish)
        returns (at: nat, more: bool, res: SRes, status: Status)
      requires Valid() && PhaseNow().Header? && dicPos <= limit && GoalOf(limit) == goal
      modifies `tempBufSize, `remainLen, `reps, `state, rc, rc.probs, tempBuf
      ensures var o, before := Feed(old(Model()), old(Held()), src, goal, fin), old(|Held()|);
              if more then Rolling(o, before, src, at, goal, fin) else Answered(o, before, at, res, status)
    {
      hide Drive, Dictionary, Counting;
      ghost var d, held := Model(), Held();
      more, res, status := false, Ok, NotSpecified;
      WrittenFlag();
      at := FillHeader(src);
      if tempBufSize != 0 && tempBuf[0] != 0 { return at, false, ErrorData, NotSpecified; }
      if tempBufSize < RC_INIT_SIZE { return at, false, Ok, NeedsMoreInput; }
      var code := tempBuf[1] as int * 0x100_0000 + tempBuf[2] as int * 0x1_0000 + tempBuf[3] as int * 0x100
                  + tempBuf[4] as int;
      if checkDicSize == 0 && processedPos == 0 && code >= BAD_REP_CODE { return at, false, ErrorData, NotSpecified; }
      StartStream();
      more := true;
      HeaderRolls(held, src, at, code, goal, fin);
    }

    lemma HeaderRolls(held: seq<byte>, src: seq<byte>, at: nat, code: int, goal: nat, fin: Finish)
      requires Valid() && tempBufSize == 0 && 0 <= code < BAD_REP_CODE && Model() == Started(props, code)
      requires |held| + at == RC_INIT_SIZE && at <= |src|
      ensures Live(Started(props, code), goal)
      ensures Rolling(Drive(Started(props, code), held + src, RC_INIT_SIZE, RC_INIT_SIZE, goal, fin), |held|, src, at,
                      goal, fin)
    {
      hide Drive, Dictionary, Counting;
      var inp := held + src;
      StartedOk(props, code);
      assert inp[RC_INIT_SIZE..] == src[at..] == Ahead(src, at)[0..];
      DriveMoves(Started(props, code), inp, RC_INIT_SIZE, RC_INIT_SIZE, Ahead(src, at), 0, 0, goal, fin);
    }

    /** A symbol is wanted: nothing is owed and the limit does not end the call. */
    ghost predicate Asking(limit: nat, goal: nat, fin: Finish)
      reads this, rc`range, rc`code, rc.probs, dic, tempBuf
    {
      Valid() && dicPos <= limit <= dic.Length && GoalOf(limit) == goal && remainLen == 0
      && !StopsAtLimit(View(), goal, fin)
    }

    lemma AskingFacts(limit: nat, goal: nat, fin: Finish)
      requires Asking(limit, goal, fin)
      ensures Mid() && Model() == View() && DecOk(View()) && Live(View(), goal) && Settled(rc.Coder())
      ensures View().phase.Running? && View().owed == 0 && View().out == out && !StopsAtLimit(View(), goal, fin)
      ensures |out| == goal <==> dicPos == limit
      ensures dicPos <= limit <= dic.Length && GoalOf(limit) == goal && remainLen == 0
      ensures rc.probs.Length == NumProbs(props.lc, props.lp)
      ensures tempBufSize <= REQUIRED_INPUT_MAX == tempBuf.Length && HeldOk(Held()) && StrictCounters()
    {
      hide Dictionary, Counting;
    }

    /** Keeps `n` bytes of the source for the next call. */
    method Hold(src: seq<byte>, at: nat, n: nat)
      requires n <= tempBuf.Length && at + n <= |src|
      modifies `tempBufSize, tempBuf
      ensures tempBufSize == n && Held() == src[at..at + n]
    {
      tempBufSize := n;
      var i := 0;
      while i < n
        invariant i <= n == tempBufSize && tempBuf[..i] == src[at..at + i]
      {
        tempBuf[i] := src[at + i];
        i := i + 1;
      }
    }

    /** With an empty carry-over buffer the rest of the call can be seen on the source itself. */
    lemma OnSource(o: Outcome, before: nat, src: seq<byte>, at: nat, goal: nat, fin: Finish)
      requires Rolling(o, before, src, at, goal, fin) && tempBufSize == 0
      ensures at <= |src| && Live(Model(), goal)
      ensures Drive(Model(), src, at, 0, goal, fin).taken >= at
      ensures o == Later(Drive(Model(), src, at, 0, goal, fin), before)
    {
      hide Drive, Valid;
      assert Ahead(src, at)[0..] == src[at..];
      DriveMoves(Model(), Ahead(src, at), 0, 0, src, at, 0, goal, fin);
    }

    lemma BackOnSource(d: Dec, before: nat, src: seq<byte>, at: nat, goal: nat, fin: Finish)
      requires Valid() && tempBufSize == 0 && at <= |src| && Live(d, goal) && Model() == d
      ensures Rolling(Later(Drive(d, src, at, 0, goal, fin), before), before, src, at, goal, fin)
    {
      hide Drive, Valid;
      assert Ahead(src, at)[0..] == src[at..];
      DriveMoves(d, src, at, 0, Ahead(src, at), 0, 0, goal, fin);
    }

    /** The source ends inside the symbol. */
    lemma SourceEnds(o: Outcome, before: nat, src: seq<byte>, at: nat, limit: nat, goal: nat, fin: Finish)
      requires Rolling(o, before, src, at, goal, fin) && tempBufSize == 0 && Asking(limit, goal, fin)
      requires at <= |src| && SymbolAt(View(), src, at).Eof?
      ensures |src| - at < REQUIRED_INPUT_MAX && OneSymbolAtMost(View(), src[at..])
      ensures o == Outcome(Model(), before + |src|, src[at..], Ok, NeedsMoreInput)
    {
      hide Valid;
      AskingFacts(limit, goal, fin);
      OnSource(o, before, src, at, goal, fin);
      StarvedDrive(View(), src, at, 0, goal, fin);
      EndsInside(View(), src, at);
    }

    /** The symbol is complete, but only the end marker would be allowed here. */
    lemma SourceRefused(o: Outcome, before: nat, src: seq<byte>, at: nat, limit: nat, goal: nat, fin: Finish)
      requires Rolling(o, before, src, at, goal, fin) && tempBufSize == 0 && Asking(limit, goal, fin) && dicPos == limit
      requires at <= |src| && SymbolAt(View(), src, at).Hit? && !SymbolAt(View(), src, at).symbol.Match?
      ensures var end := SymbolAt(View(), src, at).rc.pos;
              at <= end <= |src| && end - at <= REQUIRED_INPUT_MAX && OneSymbolAtMost(View(), src[at..end])
              && o == Outcome(Model(), before + end, src[at..end], ErrorData, NotFinished)
    {
      hide Valid;
      AskingFacts(limit, goal, fin);
      OnSource(o, before, src, at, goal, fin);
      RefusedDrive(View(), src, at, 0, goal, fin);
      ExactlyOne(View(), src, at);
    }

    lemma HeldAgain(h: seq<byte>, o: Outcome, before: nat, at: nat, limit: nat, goal: nat, fin: Finish)
      requires Apart() && Dictionary() && StrictCounters() && PropsOk(props)
               && rc.probs.Length == NumProbs(props.lc, props.lp)
      requires remainLen == 0 && DecOk(Model()) && OneSymbolAtMost(View(), h)
      requires tempBufSize == |h| <= REQUIRED_INPUT_MAX && Held() == h
      requires Model() == o.dec && h == o.held && o.taken == before + at
      ensures Answered(o, before, at, o.res, o.status)
    {
    }

    /** What a symbol decoded from the buffers leaves behind. */
    lemma AfterReal(cur: Dec, inp: seq<byte>)
      requires CameTo(cur, rc.buf, inp) && Settled(rc.Coder()) && Encodes(cur, remainLen) && StrictCounters()
      requires tempBufSize == 0 && rc.probs.Length == NumProbs(props.lc, props.lp)
      ensures Valid() && Model() == cur
    {
    }

    lemma BeforeReal(inp: seq<byte>, limit: nat, goal: nat, fin: Finish)
      requires Asking(limit, goal, fin) && rc.buf <= |inp| && SymbolAt(View(), inp, rc.buf).Hit?
      requires dicPos == limit ==> SymbolAt(View(), inp, rc.buf).symbol.Match?
      ensures CameTo(View(), rc.buf, inp) && MayGo(View(), rc.buf, inp, goal, fin)
    {
      hide Dictionary, Counting, SymbolAt, StopsAtLimit;
    }

    /** Ends the call with the bytes of an incomplete or refused symbol kept. */
    method HoldAndStop(src: seq<byte>, at: nat, n: nat, ghost o: Outcome, ghost before: nat, ghost limit: nat,
                       ghost goal: nat, ghost fin: Finish)
      requires Asking(limit, goal, fin) && n <= REQUIRED_INPUT_MAX && at + n <= |src|
      requires OneSymbolAtMost(View(), src[at..at + n]) && o.dec == Model() && o.held == src[at..at + n]
      requires o.taken == before + at + n
      modifies `tempBufSize, tempBuf
      ensures Answered(o, before, at + n, o.res, o.status)
    {
      hide Dictionary, Counting, OneSymbolAtMost, DecOk, Sound, StopsAtLimit;
      Hold(src, at, n);
      HeldAgain(src[at..at + n], o, before, at + n, limit, goal, fin);
    }

    lemma LedFromSource(d: Dec, cur: Dec, o: Outcome, before: nat, src: seq<byte>, at: nat, at': nat, goal: nat,
                        fin: Finish)
      requires Leads(d, at, cur, at', src, 0, goal, fin) && Drive(d, src, at, 0, goal, fin).taken >= 0
      requires o == Later(Drive(d, src, at, 0, goal, fin), before)
      requires Valid() && tempBufSize == 0 && Model() == cur
      ensures if cur.phase.Broken? then Answered(o, before, at', ErrorData, NotSpecified)
              else Rolling(o, before, src, at', goal, fin)
    {
      hide Drive, Valid;
      if !cur.phase.Broken? {
        BackOnSource(cur, before, src, at', goal, fin);
      }
    }

    /** Decodes from the source, one symbol when `bufLimit` says so, as long as the limits allow otherwise. */
    method RealFromSource(src: seq<byte>, at: nat, limit: nat, bufLimit: nat, ghost o: Outcome, ghost before: nat,
                          ghost goal: nat, ghost fin: Finish)
        returns (at': nat, more: bool)
      requires Rolling(o, before, src, at, goal, fin) && tempBufSize == 0 && Asking(limit, goal, fin) && at <= |src|
      requires SymbolAt(View(), src, at).Hit? && (dicPos == limit ==> SymbolAt(View(), src, at).symbol.Match?)
      requires bufLimit <= at || bufLimit + REQUIRED_INPUT_MAX <= |src|
      modifies this, rc, rc.probs, dic
      ensures if more then Rolling(o, before, src, at', goal, fin) && Effort(Model(), goal) < Effort(old(Model()), goal)
              else Answered(o, before, at', ErrorData, NotSpecified)
      ensures bufLimit <= at ==> at' == old(SymbolAt(View(), src, at)).rc.pos
      ensures at' <= |src|
      ensures old(dicPos) <= dicPos <= limit && GoalOf(limit) == goal
      ensures forall i :: 0 <= i < dic.Length && !(old(dicPos) <= i < dicPos) ==> dic[i] == old(dic[i])
    {
      hide Drive, Dictionary, Counting, Sound, SymbolAt, Valid, Rolling, Answered, DecOk, Live, Asking, CameTo, MayGo,
           Effort, StepsTo, Encodes, Counters, OneSymbolAtMost, Model, View;
      AskingFacts(limit, goal, fin);
      OnSource(o, before, src, at, goal, fin);
      ghost var d := View();
      rc.buf := at;
      BeforeReal(src, limit, goal, fin);
      ghost var cur, near;
      more, cur, near := DecodeReal2(src, limit, bufLimit, 0, goal, fin);
      at' := rc.buf;
      FinishLoop(cur, at', src);
      EncodedError(cur, remainLen);
      if !more { remainLen := ERROR_DATA; }
      StillEncodes(cur, remainLen);
      AfterReal(cur, src);
      LedFromSource(d, cur, o, before, src, at, at', goal, fin);
    }

    /** Twenty bytes always show the whole symbol. */
    lemma LookBound(src: seq<byte>, at: nat, limit: nat, goal: nat, fin: Finish)
      requires Asking(limit, goal, fin) && at <= |src|
      ensures Sound(View())
              && (SymbolAt(View(), src, at).Hit? ==> SymbolAt(View(), src, at).rc.pos <= at + REQUIRED_INPUT_MAX)
      ensures SymbolAt(View(), src, at).Eof? ==> |src| < at + REQUIRED_INPUT_MAX
      ensures SymbolAt(View(), src, at).Hit? ==> at <= SymbolAt(View(), src, at).rc.pos <= |src|
    {
      hide Dictionary, Counting, StopsAtLimit;
      SymbolKeeps(View(), src, at);
    }

    /** LzmaDec_DecodeToDic, one round with an empty carry-over buffer. */
    method FromSource(src: seq<byte>, at: nat, limit: nat, checkEnd: bool, ghost o: Outcome, ghost before: nat,
                      ghost goal: nat, ghost fin: Finish)
        returns (at': nat, more: bool, res: SRes, status: Status)
      requires Rolling(o, before, src, at, goal, fin) && tempBufSize == 0 && Asking(limit, goal, fin)
      requires at <= |src| && checkEnd == (dicPos == limit)
      modifies this, rc, rc.probs, dic, tempBuf
      ensures if more then Rolling(o, before, src, at', goal, fin) && Effort(Model(), goal) < Effort(old(Model()), goal)
              else Answered(o, before, at', res, status)
      ensures old(dicPos) <= dicPos <= limit && GoalOf(limit) == goal
      ensures forall i :: 0 <= i < dic.Length && !(old(dicPos) <= i < dicPos) ==> dic[i] == old(dic[i])
    {
      hide Drive, Dictionary, Counting, Sound, SymbolAt, Valid, Rolling, Answered, DecOk, Live, Asking, CameTo, MayGo,
           Effort, StepsTo, Encodes, Counters, OneSymbolAtMost, Model;
      AskingFacts(limit, goal, fin);
      LookBound(src, at, limit, goal, fin);
      var inSize := |src| - at;
      var bufLimit, dummyProcessed := at, -1;
      if inSize < REQUIRED_INPUT_MAX || checkEnd {
        var dummyRes, bufOut := TryDummy(src, at);
        if dummyRes == DummyInputEof {
          SourceEnds(o, before, src, at, limit, goal, fin);
          if inSize >= REQUIRED_INPUT_MAX { assert false; }
          assert src[at..] == src[at..at + inSize];
          HoldAndStop(src, at, inSize, o, before, limit, goal, fin);
          return |src|, false, Ok, NeedsMoreInput;
        }
        dummyProcessed := bufOut - at;
        if dummyProcessed > REQUIRED_INPUT_MAX { assert false; }
        if checkEnd && dummyRes != DummyMatch {
          SourceRefused(o, before, src, at, limit, goal, fin);
          HoldAndStop(src, at, dummyProcessed, o, before, limit, goal, fin);
          return bufOut, false, ErrorData, NotFinished;
        }
      } else {
        bufLimit := |src| - REQUIRED_INPUT_MAX;
      }
      at', more := RealFromSource(src, at, limit, bufLimit, o, before, goal, fin);
      res, status := ErrorData, NotSpecified;
      if dummyProcessed < 0 {
        if at' > |src| { assert false; }
      } else if dummyProcessed != at' - at {
        assert false;
      }
    }

    // ---- decoding from the carry-over buffer ----

    /** Tops up the carry-over buffer to twenty bytes. */
    method TopUp(src: seq<byte>, at: nat) returns (rem: nat, ahead: nat)
      requires tempBufSize <= tempBuf.Length == REQUIRED_INPUT_MAX && at <= |src|
      modifies tempBuf
      ensures tempBufSize <= rem == Min(REQUIRED_INPUT_MAX, tempBufSize + (|src| - at)) && ahead == rem - tempBufSize
      ensures Held() == old(Held()) && tempBuf[..rem] == Ahead(src, at)[..rem]
    {
      rem, ahead := tempBufSize, 0;
      while rem < REQUIRED_INPUT_MAX && at + ahead < |src|
        invariant tempBufSize <= rem == tempBufSize + ahead <= REQUIRED_INPUT_MAX && at + ahead <= |src|
        invariant tempBuf[..tempBufSize] == old(Held()) && tempBuf[tempBufSize..rem] == src[at..at + ahead]
      {
        tempBuf[rem] := src[at + ahead];
        rem, ahead := rem + 1, ahead + 1;
      }
      assert src[at..][..ahead] == src[at..at + ahead];
      assert tempBuf[..rem] == tempBuf[..tempBufSize] + tempBuf[tempBufSize..rem];
    }

    method TakeAhead(src: seq<byte>, at: nat, ghost limit: nat, ghost o: Outcome, ghost before: nat, ghost goal: nat,
                     ghost fin: Finish)
        returns (rem: nat, ahead: nat)
      requires Rolling(o, before, src, at, goal, fin) && Asking(limit, goal, fin) && at <= |src|
      requires tempBufSize <= tempBuf.Length == REQUIRED_INPUT_MAX
      modifies tempBuf
      ensures Rolling(o, before, src, at, goal, fin) && Asking(limit, goal, fin)
      ensures Held() == old(Held()) && Ahead(src, at) == old(Ahead(src, at))
      ensures tempBufSize <= rem == Min(REQUIRED_INPUT_MAX, |Ahead(src, at)|) && ahead == rem - tempBufSize
      ensures tempBuf[..rem] == Ahead(src, at)[..rem]
    {
      hide Drive, Dictionary, Counting, DecOk, StopsAtLimit, Live, OneSymbolAtMost, View;
      rem, ahead := TopUp(src, at);
    }

    lemma HeldIsOne(limit: nat, goal: nat, fin: Finish)
      requires Asking(limit, goal, fin) && tempBufSize > 0
      ensures OneSymbolAtMost(View(), Held()) && Sound(View())
    {
      hide Dictionary, Counting;
    }

    /** The held bytes are at most one symbol, so no symbol ends before them. */
    lemma NotBeforeHeld(d: Dec, h: seq<byte>, t: seq<byte>)
      requires DecOk(d) && d.phase.Running? && OneSymbolAtMost(d, h) && h <= t
      ensures SymbolAt(d, t, 0).Hit? ==> SymbolAt(d, t, 0).rc.pos >= |h|
    {
      hide SymbolAt;
      SymbolOnPrefix(d, h, t, 0);
    }

    /** The topped-up buffer shows the symbol that all the input ahead would show. */
    lemma TempShows(d: Dec, t: seq<byte>, a: seq<byte>)
      requires DecOk(d) && d.phase.Running? && t <= a && (|t| < REQUIRED_INPUT_MAX ==> t == a)
      ensures SymbolAt(d, a, 0) == SymbolAt(d, t, 0)
      ensures SymbolAt(d, a, 0).Eof? ==> t == a && |t| < REQUIRED_INPUT_MAX
      ensures SymbolAt(d, a, 0).Hit? ==>
                SymbolAt(d, a, 0).rc.pos <= |t| && SymbolAt(d, a, 0).rc.pos <= REQUIRED_INPUT_MAX
    {
      SymbolKeeps(d, a, 0);
      SymbolKeeps(d, t, 0);
      hide SymbolAt;
      SymbolInWindow(d, t, 0, a, 0);
      SymbolOnPrefix(d, t, a, 0);
    }

    /** The carry-over buffer with all the input still ends inside the symbol. */
    lemma TempEnds(o: Outcome, before: nat, src: seq<byte>, at: nat, limit: nat, goal: nat, fin: Finish)
      requires Rolling(o, before, src, at, goal, fin) && Asking(limit, goal, fin) && at <= |src|
      requires SymbolAt(View(), Ahead(src, at), 0).Eof?
      ensures OneSymbolAtMost(View(), Ahead(src, at)) && |Ahead(src, at)| < REQUIRED_INPUT_MAX
      ensures o == Outcome(Model(), before + |src|, Ahead(src, at), Ok, NeedsMoreInput)
    {
      hide Valid;
      AskingFacts(limit, goal, fin);
      StarvedDrive(View(), Ahead(src, at), 0, |Held()|, goal, fin);
      assert Ahead(src, at)[0..] == Ahead(src, at);
    }

    lemma TempRefused(o: Outcome, before: nat, src: seq<byte>, at: nat, limit: nat, goal: nat, fin: Finish)
      requires Rolling(o, before, src, at, goal, fin) && Asking(limit, goal, fin) && at <= |src| && dicPos == limit
      requires SymbolAt(View(), Ahead(src, at), 0).Hit? && !SymbolAt(View(), Ahead(src, at), 0).symbol.Match?
      ensures var end := SymbolAt(View(), Ahead(src, at), 0).rc.pos;
              end <= |Ahead(src, at)| && end <= REQUIRED_INPUT_MAX && OneSymbolAtMost(View(), Ahead(src, at)[..end])
              && tempBufSize <= before + at
              && o == Outcome(Model(), end + before + at - tempBufSize, Ahead(src, at)[..end], ErrorData, NotFinished)
    {
      hide Valid;
      AskingFacts(limit, goal, fin);
      RefusedDrive(View(), Ahead(src, at), 0, |Held()|, goal, fin);
      ExactlyOne(View(), Ahead(src, at), 0);
      var end := SymbolAt(View(), Ahead(src, at), 0).rc.pos;
      assert Ahead(src, at)[0..end] == Ahead(src, at)[..end];
    }

    /** Ends the call with the first `n` bytes of the topped-up buffer kept. */
    method KeepAndStop(n: nat, ghost o: Outcome, ghost before: nat, at: nat, ghost limit: nat, ghost goal: nat,
                       ghost fin: Finish)
      requires Asking(limit, goal, fin) && n <= REQUIRED_INPUT_MAX == tempBuf.Length
      requires OneSymbolAtMost(View(), tempBuf[..n]) && o.dec == Model() && o.held == tempBuf[..n]
      requires o.taken == before + at
      modifies `tempBufSize
      ensures Answered(o, before, at, o.res, o.status)
    {
      hide Dictionary, Counting, OneSymbolAtMost, DecOk, Sound, StopsAtLimit;
      tempBufSize := n;
      HeldAgain(tempBuf[..n], o, before, at, limit, goal, fin);
    }
    /** The rest of the call after a symbol was decoded from the carry-over buffer. */
    lemma LedFromTemp(d: Dec, cur: Dec, a: seq<byte>, held: nat, end: nat, o: Outcome, before: nat, src: seq<byte>,
                      at: nat, goal: nat, fin: Finish)
      requires Leads(d, 0, cur, end, a, held, goal, fin) && held <= end && at <= |src| && |a| == held + (|src| - at)
      requires a[held..] == src[at..] && held <= before + at
      requires o == Later(Drive(d, a, 0, held, goal, fin), before + at - held)
      requires Valid() && tempBufSize == 0 && Model() == cur
      ensures var at' := at + end - held;
              if cur.phase.Broken? then Answered(o, before, at', ErrorData, NotSpecified)
              else Rolling(o, before, src, at', goal, fin)
    {
      hide Drive, Valid;
      var at' := at + end - held;
      if !cur.phase.Broken? {
        assert a[end..] == a[held..][end - held..] == src[at..][end - held..] == src[at'..];
        assert Ahead(src, at')[0..] == src[at'..];
        DriveMoves(cur, a, end, held, Ahead(src, at'), 0, 0, goal, fin);
      }
    }

    lemma RollingFacts(o: Outcome, before: nat, src: seq<byte>, at: nat, goal: nat, fin: Finish)
      requires Rolling(o, before, src, at, goal, fin)
      ensures at <= |src| && |Held()| <= before + at && Live(Model(), goal)
      ensures o == Later(Drive(Model(), Ahead(src, at), 0, |Held()|, goal, fin), before + at - |Held()|)
      ensures Ahead(src, at)[|Held()|..] == src[at..] && |Ahead(src, at)| == |Held()| + (|src| - at)
    {
      hide Drive, Valid;
    }

    /** One symbol decoded under a nearer limit leads the whole call on. */
    lemma OneStepLeads(d: Dec, a: seq<byte>, held: nat, cur: Dec, near: nat, goal: nat, fin: Finish)
      requires Live(d, goal) && d.phase.Running? && d.owed == 0 && held <= |a| && !StopsAtLimit(d, goal, fin)
      requires |d.out| <= near <= goal && (|d.out| == near ==> near == goal)
      requires StepsTo(d, SymbolAt(d, a, 0), cur, near) && (|d.out| == goal ==> SymbolAt(d, a, 0).symbol.Match?)
      ensures Leads(d, 0, cur, SymbolAt(d, a, 0).rc.pos, a, held, goal, fin)
    {
      TurnUnderNearLimit(d, a, 0, held, near, goal, fin);
    }

    /** Decodes one symbol from the topped-up carry-over buffer. */
    method RealFromTemp(src: seq<byte>, at: nat, rem: nat, limit: nat, dummyProcessed: int, ghost o: Outcome,
                        ghost before: nat, ghost goal: nat, ghost fin: Finish)
        returns (at': nat, more: bool)
      requires Rolling(o, before, src, at, goal, fin) && Asking(limit, goal, fin) && at <= |src|
      requires rem == Min(REQUIRED_INPUT_MAX, |Ahead(src, at)|) && tempBuf.Length == REQUIRED_INPUT_MAX
      requires tempBuf[..rem] == Ahead(src, at)[..rem]
      requires var w := SymbolAt(View(), Ahead(src, at), 0);
               w.Hit? && (dicPos == limit ==> w.symbol.Match?) && tempBufSize <= w.rc.pos <= REQUIRED_INPUT_MAX
               && w == SymbolAt(View(), tempBuf[..rem], 0) && (dummyProcessed >= 0 ==> dummyProcessed == w.rc.pos)
      modifies this, rc, rc.probs, dic
      ensures if more then Rolling(o, before, src, at', goal, fin) && Effort(Model(), goal) < Effort(old(Model()), goal)
              else Answered(o, before, at', ErrorData, NotSpecified)
      ensures old(dicPos) <= dicPos <= limit && GoalOf(limit) == goal
      ensures forall i :: 0 <= i < dic.Length && !(old(dicPos) <= i < dicPos) ==> dic[i] == old(dic[i])
    {
      hide Drive, Dictionary, Counting, Sound, SymbolAt, Valid, Rolling, Answered, DecOk, Live, Asking, CameTo, MayGo,
           Effort, StepsTo, Encodes, Counters, OneSymbolAtMost, Model, View, Leads, StopsAtLimit, HeldOk, GoalOf;
      AskingFacts(limit, goal, fin);
      RollingFacts(o, before, src, at, goal, fin);
      ghost var d, a, t, held := View(), Ahead(src, at), tempBuf[..rem], tempBufSize;
      rc.buf := 0;
      BeforeReal(t, limit, goal, fin);
      ghost var cur, near;
      more, cur, near := DecodeReal2(tempBuf[..rem], limit, 0, 0, goal, fin);
      var processed := rc.buf;
      if dummyProcessed < 0 {
        if processed > REQUIRED_INPUT_MAX { assert false; }
        if processed < tempBufSize { assert false; }
      } else if dummyProcessed != processed {
        assert false;
      }
      at' := at + (processed - tempBufSize);
      tempBufSize := 0;
      FinishLoop(cur, processed, t);
      EncodedError(cur, remainLen);
      if !more { remainLen := ERROR_DATA; }
      StillEncodes(cur, remainLen);
      AfterReal(cur, t);
      OneStepLeads(d, a, held, cur, near, goal, fin);
      LedFromTemp(d, cur, a, held, processed, o, before, src, at, goal, fin);
    }

    /** LzmaDec_DecodeToDic, one round with bytes in the carry-over buffer. */
    method FromTemp(src: seq<byte>, at: nat, limit: nat, checkEnd: bool, ghost o: Outcome, ghost before: nat,
                    ghost goal: nat, ghost fin: Finish)
        returns (at': nat, more: bool, res: SRes, status: Status)
      requires Rolling(o, before, src, at, goal, fin) && tempBufSize > 0 && Asking(limit, goal, fin)
      requires at <= |src| && checkEnd == (dicPos == limit)
      modifies this, rc, rc.probs, dic, tempBuf
      ensures if more then Rolling(o, before, src, at', goal, fin) && Effort(Model(), goal) < Effort(old(Model()), goal)
              else Answered(o, before, at', res, status)
      ensures old(dicPos) <= dicPos <= limit && GoalOf(limit) == goal
      ensures forall i :: 0 <= i < dic.Length && !(old(dicPos) <= i < dicPos) ==> dic[i] == old(dic[i])
    {
      hide Drive, Dictionary, Counting, Sound, SymbolAt, Rolling, Valid, Answered, DecOk, Live, Asking, CameTo, MayGo,
           Effort, StepsTo, Encodes, Counters, OneSymbolAtMost, Model, View;
      AskingFacts(limit, goal, fin);
      RollingFacts(o, before, src, at, goal, fin);
      HeldIsOne(limit, goal, fin);
      ghost var d, a := View(), Ahead(src, at);
      var rem, ahead := TakeAhead(src, at, limit, o, before, goal, fin);
      var dummyProcessed := -1;
      TempShows(d, tempBuf[..rem], a);
      NotBeforeHeld(d, Held(), tempBuf[..rem]);
      if rem < REQUIRED_INPUT_MAX || checkEnd {
        var dummyRes, bufOut := TryDummy(tempBuf[..rem], 0);
        if dummyRes == DummyInputEof {
          if rem >= REQUIRED_INPUT_MAX { assert false; }
          TempEnds(o, before, src, at, limit, goal, fin);
          KeepAndStop(rem, o, before, at + ahead, limit, goal, fin);
          return at + ahead, false, Ok, NeedsMoreInput;
        }
        dummyProcessed := bufOut;
        if dummyProcessed < tempBufSize { assert false; }
        if checkEnd && dummyRes != DummyMatch {
          TempRefused(o, before, src, at, limit, goal, fin);
          assert tempBuf[..rem][..bufOut] == tempBuf[..bufOut] == a[..bufOut];
          at' := at + (dummyProcessed - tempBufSize);
          KeepAndStop(bufOut, o, before, at', limit, goal, fin);
          return at', false, ErrorData, NotFinished;
        }
      }
      at', more := RealFromTemp(src, at, rem, limit, dummyProcessed, o, before, goal, fin);
      res, status := ErrorData, NotSpecified;
    }

    // ---- the whole call ----

    lemma FinishedEnds(o: Outcome, before: nat, src: seq<byte>, at: nat, goal: nat, fin: Finish)
      requires Rolling(o, before, src, at, goal, fin) && PhaseNow().Finished?
      ensures Answered(o, before, at, if rc.code != 0 then ErrorData else Ok,
                       if rc.code != 0 then NotSpecified else FinishedWithMark)
    {
      hide Dictionary, Counting;
      RollingFacts(o, before, src, at, goal, fin);
      HaltedDrive(Model(), Ahead(src, at), |Held()|, goal, fin);
      assert Ahead(src, at)[0..|Held()|] == Held();
    }

    /** The dictionary limit ends the call. */
    lemma LimitEnds(o: Outcome, before: nat, src: seq<byte>, at: nat, limit: nat, goal: nat, fin: Finish)
      requires Rolling(o, before, src, at, goal, fin) && PhaseNow().Running? && Pay(Model(), goal) == Model()
      requires dicPos == limit && GoalOf(limit) == goal && StopsAtLimit(Model(), goal, fin)
      ensures var t := LimitTurn(Model(), fin); Answered(o, before, at, t.res, t.status)
    {
      hide Dictionary, Counting;
      RollingFacts(o, before, src, at, goal, fin);
      HaltedDrive(Model(), Ahead(src, at), |Held()|, goal, fin);
      assert Ahead(src, at)[0..|Held()|] == Held();
    }

    lemma RollingMid(o: Outcome, before: nat, src: seq<byte>, at: nat, goal: nat, fin: Finish)
      requires Rolling(o, before, src, at, goal, fin) && PhaseNow().Running?
      ensures Mid() && (remainLen > 0 ==> out != []) && StrictCounters() && Model() == View().(owed := remainLen)
      ensures PropsOk(props) && rc.probs.Length == NumProbs(props.lc, props.lp) && tempBufSize <= REQUIRED_INPUT_MAX
      ensures RepsOk(Model()) && 1 <= reps[0]
      ensures Held() != [] ==> remainLen == 0 && OneSymbolAtMost(View(), Held())
    {
      hide Dictionary, Counting;
    }

    /** Writing what is owed does not change what the call comes to. */
    lemma PayRolls(d: Dec, o: Outcome, before: nat, src: seq<byte>, at: nat, goal: nat, fin: Finish)
      requires Apart() && Dictionary() && StrictCounters() && PropsOk(props)
               && rc.probs.Length == NumProbs(props.lc, props.lp)
      requires tempBufSize <= REQUIRED_INPUT_MAX && at <= |src| && |Held()| <= before + at
      requires Live(d, goal) && d.phase.Running? && PhaseNow().Running?
      requires Held() != [] ==> d.owed == 0 && OneSymbolAtMost(d, Held())
      requires o == Later(Drive(d, Ahead(src, at), 0, |Held()|, goal, fin), before + at - |Held()|)
      requires RepsOk(d) && (d.owed > 0 ==> d.out != []) && Model() == Pay(d, goal)
      ensures Rolling(o, before, src, at, goal, fin) && Pay(Model(), goal) == Model()
      ensures Effort(Model(), goal) <= Effort(d, goal)
      ensures remainLen > 0 ==> |out| == goal
    {
      hide Dictionary, Counting, Drive, OneSymbolAtMost;
      PayKeeps(d, goal);
      SamePayDrives(d, Model(), Ahead(src, at), 0, |Held()|, goal, fin);
    }

    method PayOwed(src: seq<byte>, at: nat, limit: nat, ghost o: Outcome, ghost before: nat, ghost goal: nat,
                   ghost fin: Finish)
      requires Rolling(o, before, src, at, goal, fin) && PhaseNow().Running?
      requires dicPos <= limit <= dic.Length && GoalOf(limit) == goal
      modifies `dicPos, `out, `checkDicSize, `processedPos, `remainLen, dic
      ensures Rolling(o, before, src, at, goal, fin) && PhaseNow().Running? && Pay(Model(), goal) == Model()
      ensures Effort(Model(), goal) <= Effort(old(Model()), goal) && (remainLen > 0 ==> dicPos == limit)
      ensures old(dicPos) <= dicPos <= limit && GoalOf(limit) == goal
      ensures forall i :: 0 <= i < dic.Length && !(old(dicPos) <= i < dicPos) ==> dic[i] == old(dic[i])
    {
      hide Drive, Dictionary, Counting, Sound, Rolling, Valid, DecOk, Live, Effort, OneSymbolAtMost, Copy, Counters;
      RollingFacts(o, before, src, at, goal, fin);
      RollingMid(o, before, src, at, goal, fin);
      ghost var d := Model();
      WriteRem(limit);
      PaidModel(d, limit, goal);
      PayRolls(d, o, before, src, at, goal, fin);
    }

    lemma PaidModel(d: Dec, limit: nat, goal: nat)
      requires PhaseNow().Running? && d.phase.Running? && RepsOk(d) && (d.owed > 0 ==> d.out != []) && |d.out| <= goal
      requires var n := Min(d.owed, goal - |d.out|);
               remainLen == d.owed - n && 1 <= d.reps[0] && (d.out != [] ==> d.reps[0] <= |d.out|)
               && View() == d.(out := out, owed := 0) && (n == 0 ==> out == d.out)
               && (n > 0 ==> out == Copy(d.out, d.reps[0], n))
      ensures Model() == Pay(d, goal)
    {
    }

    /** Whether the limit ends the call, and how. */
    method AtLimit(fin: Finish) returns (stop: bool, res: SRes, status: Status)
      ensures var e, t := Model(), LimitTurn(Model(), fin);
              PhaseNow().Running? ==>
                stop == ((e.owed == 0 && e.code == 0) || fin.FinishAny? || e.owed != 0)
                && (stop ==> res == t.res && status == t.status)
    {
      if remainLen == 0 && rc.code == 0 { return true, Ok, MaybeFinishedWithoutMark; }
      if fin == FinishAny { return true, Ok, NotFinished; }
      if remainLen != 0 { return true, ErrorData, NotFinished; }
      return false, Ok, NotSpecified;
    }

    lemma NowAsking(limit: nat, goal: nat, fin: Finish)
      requires Valid() && PhaseNow().Running? && remainLen == 0 && dicPos <= limit <= dic.Length
               && GoalOf(limit) == goal
      requires !StopsAtLimit(Model(), goal, fin)
      ensures Asking(limit, goal, fin)
    {
      hide Dictionary, Counting;
    }

    /** One round of the main loop of LzmaDec_DecodeToDic. */
    method Round(src: seq<byte>, at: nat, limit: nat, fin: Finish, ghost o: Outcome, ghost before: nat, ghost goal: nat)
        returns (at': nat, more: bool, res: SRes, status: Status)
      requires Rolling(o, before, src, at, goal, fin) && at <= |src|
      requires dicPos <= limit <= dic.Length && GoalOf(limit) == goal
      modifies this, rc, rc.probs, dic, tempBuf
      ensures if more then Rolling(o, before, src, at', goal, fin) && Effort(Model(), goal) < Effort(old(Model()), goal)
              else Answered(o, before, at', res, status)
      ensures more ==> at' <= |src|
      ensures old(dicPos) <= dicPos <= limit && GoalOf(limit) == goal
      ensures forall i :: 0 <= i < dic.Length && !(old(dicPos) <= i < dicPos) ==> dic[i] == old(dic[i])
    {
      hide Drive, Dictionary, Counting, Sound, Rolling, Answered, Valid, DecOk, Live, Effort, Pay, SymbolAt, Asking,
           OneSymbolAtMost, Counters;
      RunningOrFinished(o, before, src, at, goal, fin);
      if remainLen == MATCH_SPEC_LEN_START {
        FinishedEnds(o, before, src, at, goal, fin);
        if rc.code != 0 { return at, false, ErrorData, NotSpecified; }
        return at, false, Ok, FinishedWithMark;
      }
      PayOwed(src, at, limit, o, before, goal, fin);
      RunningOrFinished(o, before, src, at, goal, fin);
      var checkEnd := false;
      if dicPos >= limit {
        var stop;
        stop, res, status := AtLimit(fin);
        if stop {
          LimitEnds(o, before, src, at, limit, goal, fin);
          return at, false, res, status;
        }
        checkEnd := true;
      }
      NowAsking(limit, goal, fin);
      if tempBufSize == 0 {
        at', more, res, status := FromSource(src, at, limit, checkEnd, o, before, goal, fin);
      } else {
        at', more, res, status := FromTemp(src, at, limit, checkEnd, o, before, goal, fin);
      }
      if more { RollingFacts(o, before, src, at', goal, fin); }
    }

    lemma RunningOrFinished(o: Outcome, before: nat, src: seq<byte>, at: nat, goal: nat, fin: Finish)
      requires Rolling(o, before, src, at, goal, fin)
      ensures Valid() && remainLen <= MATCH_SPEC_LEN_START && Effort(Model(), goal) >= 0 && at <= |src|
      ensures PhaseNow().Running? || PhaseNow().Finished?
      ensures |Model().out| <= goal && Model().out == out
    {
      hide Dictionary, Counting, Drive;
    }

    /** LzmaDec_DecodeToDic does what the specification of a call says, and nothing to the rest of the dictionary. */
    method DecodeToDic(limit: nat, src: seq<byte>, fin: Finish) returns (srcLen: nat, res: SRes, status: Status)
      requires Valid() && dicPos <= limit <= dic.Length
      modifies this, rc, rc.probs, dic, tempBuf
      ensures Valid() && old(dicPos) <= dicPos <= limit && GoalOf(limit) == old(GoalOf(limit)) && !res.ErrorFail?
      ensures DecOk(old(Model())) && old(|Model().out| <= GoalOf(limit))
              && (old(Model()).phase.Header? ==> old(|Held()|) <= RC_INIT_SIZE)
      ensures var o := Feed(old(Model()), old(Held()), src, old(GoalOf(limit)), fin);
              Model() == o.dec && Held() == o.held && old(|Held()|) + srcLen == o.taken && res == o.res
              && status == o.status
      ensures forall i :: 0 <= i < dic.Length && !(old(dicPos) <= i < dicPos) ==> dic[i] == old(dic[i])
    {
      hide Drive, Dictionary, Counting, Sound, Rolling, Answered, Valid, DecOk, Live, Effort, Pay, SymbolAt, Asking,
           OneSymbolAtMost, Feed, Counters;
      ValidFacts(limit);
      ghost var goal: nat := GoalOf(limit);
      ghost var before := |Held()|;
      ghost var o := Feed(Model(), Held(), src, goal, fin);
      FeedKeeps(Model(), Held(), src, goal, fin);
      srcLen, res, status := 0, Ok, NotSpecified;
      var more := true;
      if remainLen > MATCH_SPEC_LEN_START {
        if remainLen > MATCH_SPEC_LEN_START + 2 {
          BrokenAnswer(src, goal, fin);
          return 0, if remainLen == ERROR_FAIL then ErrorFail else ErrorData, NotSpecified;
        }
        srcLen, more, res, status := ReadHeader(src, limit, goal, fin);
      } else {
        NothingToRead(src, goal, fin);
      }
      while more
        invariant if more then Rolling(o, before, src, srcLen, goal, fin) else Answered(o, before, srcLen, res, status)
        invariant old(dicPos) <= dicPos <= limit && GoalOf(limit) == goal
        invariant forall i :: 0 <= i < dic.Length && !(old(dicPos) <= i < dicPos) ==> dic[i] == old(dic[i])
        decreases if more then 1 + Effort(Model(), goal) else 0
      {
        RunningOrFinished(o, before, src, srcLen, goal, fin);
        srcLen, more, res, status := Round(src, srcLen, limit, fin, o, before, goal);
        if more { RunningOrFinished(o, before, src, srcLen, goal, fin); }
      }
      CallOver(o, before, srcLen, res, status);
    }

    lemma CallOver(o: Outcome, before: nat, srcLen: nat, res: SRes, status: Status)
      requires Answered(o, before, srcLen, res, status)
      ensures Valid() && Model() == o.dec && Held() == o.held && o.taken == before + srcLen && o.res == res
              && o.status == status
    {
      hide Valid;
    }

    lemma ValidFacts(limit: nat)
      requires Valid() && dicPos <= limit
      ensures DecOk(Model()) && |Model().out| <= GoalOf(limit) && (Model().phase.Header? ==> |Held()| <= RC_INIT_SIZE)
      ensures tempBufSize <= tempBuf.Length && tempBufSize == |Held()|
      ensures MATCH_SPEC_LEN_START < remainLen <= MATCH_SPEC_LEN_START + 2 <==> PhaseNow().Header?
      ensures PhaseNow().Broken? ==> remainLen != ERROR_FAIL
      ensures dic != tempBuf && (rc.probs as object) != dic && (rc.probs as object) != tempBuf
    {
      hide Dictionary, Counting;
    }

    lemma BrokenAnswer(src: seq<byte>, goal: nat, fin: Finish)
      requires Valid() && remainLen > MATCH_SPEC_LEN_START + 2 && |out| <= goal
      ensures DecOk(Model()) && |Model().out| <= goal && !Model().phase.Header?
      ensures remainLen != ERROR_FAIL
      ensures var o := Feed(Model(), Held(), src, goal, fin);
              Model() == o.dec && Held() == o.held && o.taken == |Held()| && o.res == ErrorData
              && o.status == NotSpecified
    {
      hide Dictionary, Counting, Drive;
    }

    lemma NothingToRead(src: seq<byte>, goal: nat, fin: Finish)
      requires Valid() && remainLen <= MATCH_SPEC_LEN_START && |out| <= goal
      ensures DecOk(Model()) && |Model().out| <= goal && !Model().phase.Header?
      ensures Rolling(Feed(Model(), Held(), src, goal, fin), |Held()|, src, 0, goal, fin)
    {
      hide Dictionary, Counting, Drive;
      assert Held() + src == Ahead(src, 0);
    }

    // ---- LzmaDec_DecodeToBuf ----

    /** The read position wraps to the start of the buffer; the dictionary is the same bytes. */
    method WrapAround()
      requires Valid() && props.dicSize <= dic.Length
      modifies `dicPos
      ensures Valid() && Model() == old(Model()) && Held() == old(Held()) && out == old(out)
      ensures dicPos == (if old(dicPos) == dic.Length then 0 else old(dicPos)) && dicPos < dic.Length
    {
      hide Counting, DecOk, OneSymbolAtMost;
      if dicPos == dic.Length {
        dicPos := 0;
        forall i | 1 <= i <= Min(|out|, dic.Length)
          ensures dic[BackIndex(dicPos, dic.Length, i)] == out[|out| - i]
        {
          assert BackIndex(dicPos, dic.Length, i) == BackIndex(old(dicPos), dic.Length, i);
        }
      }
    }

    /** memcpy of what the call wrote to the dictionary. */
    method CopyOut(dest: array<byte>, at: nat, from: nat, n: nat)
      requires dest != dic && at + n <= dest.Length && from + n == dicPos && n <= |out| && Dictionary()
      modifies dest
      ensures dest[..] == old(dest[..])[..at] + out[|out| - n..] + old(dest[..])[at + n..]
    {
      ghost var before := dest[..];
      var i := 0;
      while i < n
        invariant i <= n && dicPos == from + n && out == old(out) && Dictionary()
        invariant forall j :: 0 <= j < dest.Length && !(at <= j < at + i) ==> dest[j] == before[j]
        invariant forall j :: at <= j < at + i ==> dest[j] == out[|out| - n + (j - at)]
      {
        BackByte(n - i);
        assert BackIndex(dicPos, dic.Length, n - i) == from + i;
        dest[at + i] := dic[from + i];
        i := i + 1;
      }
      Assembled(before, dest[..], out[|out| - n..], at);
    }

    /** The whole call comes to `o`; `at` source bytes are taken and `before` were held at first. */
    ghost predicate BufferRolls(o: Outcome, before: nat, src: seq<byte>, at: nat, goal: nat, fin: Finish)
      reads this, rc`range, rc`code, rc.probs, dic, tempBuf
    {
      Valid() && at <= |src| && |Held()| <= before + at && DecOk(Model()) && |Model().out| <= goal
      && (Model().phase.Header? ==> |Held()| <= RC_INIT_SIZE)
      && Later(Feed(Model(), Held(), src[at..], goal, fin), before + at - |Held()|) == o
    }

    lemma BufferFacts(o: Outcome, before: nat, src: seq<byte>, at: nat, goal: nat, fin: Finish)
      requires BufferRolls(o, before, src, at, goal, fin)
      ensures Valid() && at <= |src| && |Held()| <= before + at && DecOk(Model()) && |Model().out| <= goal
      ensures (Model().phase.Header? ==> |Held()| <= RC_INIT_SIZE) && Model().out == out
              && tempBufSize <= tempBuf.Length
      ensures Later(Feed(Model(), Held(), src[at..], goal, fin), before + at - |Held()|) == o
    {
      hide Feed, Dictionary, Counting;
    }

    /** After a piece `r` the call goes on, or is over, as the whole call does. */
    lemma PieceDone(d: Dec, held: seq<byte>, r: Outcome, o: Outcome, before: nat, src: seq<byte>, at: nat, n: nat,
                    near: nat, goal: nat, fin: Finish)
      requires DecOk(d) && |d.out| <= near <= goal && (d.phase.Header? ==> |held| <= RC_INIT_SIZE) && at <= |src|
      requires |held| <= before + at && o == Later(Feed(d, held, src[at..], goal, fin), before + at - |held|)
      requires Valid() && Model() == r.dec && Held() == r.held && |held| + n == r.taken
      requires !r.res.Ok? || near == goal || |r.dec.out| < near ==> Feed(d, held, src[at..], goal, fin) == r
      requires r.res.Ok? && |r.dec.out| < goal ==> GoesOn(d, held, src[at..], r, goal, fin)
      ensures !r.res.Ok? || near == goal || |r.dec.out| < near ==> Answered(o, before, at + n, r.res, r.status)
      ensures r.res.Ok? && |r.dec.out| < goal ==> BufferRolls(o, before, src, at + n, goal, fin)
    {
      hide Feed, Valid, DecOk;
      if r.res.Ok? && |r.dec.out| < goal {
        assert (held + src[at..])[r.taken..] == src[at + n..];
      }
    }

    lemma OutOfModel()
      requires Valid()
      ensures Model().out == out && dicPos <= dic.Length && PropsOk(props) && tempBufSize <= tempBuf.Length
      ensures dic != tempBuf && (rc.probs as object) != dic && (rc.probs as object) != tempBuf && Dictionary()
    {
      hide Counting, DecOk;
    }

    lemma StartBuffer(src: seq<byte>, goal: nat, fin: Finish)
      requires Valid() && |out| <= goal
      ensures DecOk(Model()) && |Model().out| <= goal && (Model().phase.Header? ==> |Held()| <= RC_INIT_SIZE)
      ensures BufferRolls(Feed(Model(), Held(), src, goal, fin), |Held()|, src, 0, goal, fin)
    {
      hide Feed, Dictionary, Counting;
      assert src[0..] == src;
    }

    /** One round of LzmaDec_DecodeToBuf: a call up to the end of the buffer or to the end of the request. */
    method Piece(dest: array<byte>, src: seq<byte>, fin: Finish, at: nat, destLen: nat, left: nat,
                 ghost o: Outcome, ghost before: nat, ghost goal: nat)
        returns (n: nat, written: nat, res: SRes, status: Status)
      requires BufferRolls(o, before, src, at, goal, fin) && goal == |out| + left && at <= |src|
      requires props.dicSize <= dic.Length && destLen + left <= dest.Length
      requires dest != dic && dest != tempBuf && (rc.probs as object) != dest
      modifies this, rc, rc.probs, dic, tempBuf, dest
      ensures old(out) <= out && |out| == old(|out|) + written && written <= left
      ensures dest[..] == old(dest[..])[..destLen] + out[old(|out|)..] + old(dest[..])[destLen + written..]
      ensures if res.Ok? && 0 < written < left then at + n <= |src| && BufferRolls(o, before, src, at + n, goal, fin)
              else Answered(o, before, at + n, res, status)
    {
      hide Feed, Valid, BufferRolls, DecOk, Dictionary, Answered, GoesOn, Model;
      BufferFacts(o, before, src, at, goal, fin);
      ghost var d, held := Model(), Held();
      WrapAround();
      OutOfModel();
      var from := dicPos;
      var limit, curFin := dicPos + left, fin;
      if left > dic.Length - dicPos { limit, curFin := dic.Length, FinishAny; }
      ghost var near: nat := GoalOf(limit);
      PieceAgrees(d, held, src[at..], near, curFin, goal, fin);
      ghost var r := Feed(d, held, src[at..], near, curFin);
      FeedKeeps(d, held, src[at..], near, curFin);
      n, res, status := DecodeToDic(limit, src[at..], curFin);
      OutOfModel();
      PieceDone(d, held, r, o, before, src, at, n, near, goal, fin);
      written := dicPos - from;
      ghost var dest0 := dest[..];
      CopyOut(dest, destLen, from, written);
      assert dest0[..destLen] == old(dest[..])[..destLen];
    }

    /** LzmaDec_DecodeToBuf: however often the dictionary wraps, it is one call with room for `outSize` bytes. */
    method DecodeToBuf(dest: array<byte>, outSize: nat, src: seq<byte>, fin: Finish)
        returns (destLen: nat, srcLen: nat, res: SRes, status: Status)
      requires Valid() && props.dicSize <= dic.Length && outSize <= dest.Length
      requires dest != dic && dest != tempBuf && (rc.probs as object) != dest
      modifies this, rc, rc.probs, dic, tempBuf, dest
      ensures DecOk(old(Model())) && old(Model().phase.Header? ==> |Held()| <= RC_INIT_SIZE)
              && old(Model().out) == old(out)
      ensures Valid() && !res.ErrorFail?
      ensures var o := Feed(old(Model()), old(Held()), src, old(|out|) + outSize, fin);
              Model() == o.dec && Held() == o.held && old(|Held()|) + srcLen == o.taken && res == o.res
              && status == o.status
      ensures old(out) <= out && destLen == |out| - old(|out|) <= outSize
      ensures dest[..] == out[old(|out|)..] + old(dest[..])[destLen..]
    {
      hide Feed, Valid, BufferRolls, DecOk, Dictionary, Answered, Model, Counting, Sound, Live, NumProbs;
      OutOfModel();
      ghost var goal, before := |out| + outSize, |Held()|;
      ValidFacts(dicPos);
      ghost var o := Feed(Model(), Held(), src, goal, fin);
      FeedKeeps(Model(), Held(), src, goal, fin);
      StartBuffer(src, goal, fin);
      destLen, srcLen, res, status := 0, 0, Ok, NotSpecified;
      var left := outSize;
      var more := true;
      assert dest[..] == out[|out|..] + dest[0..];
      while more
        invariant if more then BufferRolls(o, before, src, srcLen, goal, fin)
                  else Answered(o, before, srcLen, res, status)
        invariant old(out) <= out && destLen == |out| - old(|out|) && destLen + left == outSize && goal == |out| + left
        invariant dest[..] == out[old(|out|)..] + old(dest[..])[destLen..]
        decreases more, left
      {
        BufferFacts(o, before, src, srcLen, goal, fin);
        ghost var out0, dest0 := out, dest[..];
        var n, written;
        n, written, res, status := Piece(dest, src, fin, srcLen, destLen, left, o, before, goal);
        Glue(old(dest[..]), dest0, dest[..], old(|out|), out0, out, destLen, written);
        srcLen, destLen, left := srcLen + n, destLen + written, left - written;
        if res != Ok || written == 0 || left == 0 { more := false; }
      }
      CallOver(o, before, srcLen, res, status);
    }
  }

  /** The bytes are a proper beginning of a symbol, or exactly one symbol. */
  ghost predicate OneSymbolAtMost(d: Dec, h: seq<byte>) {
    Sound(d) && (SymbolAt(d, h, 0).Hit? ==> SymbolAt(d, h, 0).rc.pos == |h|)
  }

  lemma Assembled(before: seq<byte>, after: seq<byte>, mid: seq<byte>, at: nat)
    requires |before| == |after| && at + |mid| <= |before|
    requires forall j :: 0 <= j < |after| && !(at <= j < at + |mid|) ==> after[j] == before[j]
    requires forall j :: at <= j < at + |mid| ==> after[j] == mid[j - at]
    ensures after == before[..at] + mid + before[at + |mid|..]
  {
    var r := before[..at] + mid + before[at + |mid|..];
    assert |r| == |after|;
    forall j | 0 <= j < |after| ensures after[j] == r[j] {}
  }

  /** What was copied out before and what is copied out now stand one behind the other. */
  lemma Glue(orig: seq<byte>, before: seq<byte>, after: seq<byte>, start: nat, mid: seq<byte>, end: seq<byte>,
             at: nat, n: nat)
    requires start + at == |mid| && mid <= end && |end| == |mid| + n && at + n <= |orig| == |before|
    requires before == mid[start..] + orig[at..] && after == before[..at] + end[|mid|..] + before[at + n..]
    ensures after == end[start..] + orig[at + n..]
  {
    assert before[..at] == mid[start..];
    assert before[at + n..] == orig[at..][n..] == orig[at + n..];
    assert end[start..] == mid[start..] + end[|mid|..];
  }

  /** A dictionary that has never wrapped holds the output as it is. */
  lemma FlatDictionary(p: LzmaDec)
    requires p.Dictionary() && |p.out| == p.dicPos
    ensures p.dic[..p.dicPos] == p.out
  {
    forall i | 0 <= i < p.dicPos ensures p.dic[i] == p.out[i] {
      assert BackIndex(p.dicPos, p.dic.Length, p.dicPos - i) == i;
    }
  }

  /** LzmaDecode: a whole stream into one buffer, whose length is the output limit. */
  method LzmaDecode(dest: array<byte>, src: seq<byte>, propData: seq<byte>, fin: Finish)
      returns (destLen: nat, srcLen: nat, res: SRes, status: Status)
    modifies dest
    ensures !res.ErrorFail? && destLen <= dest.Length && dest[destLen..] == old(dest[destLen..])
    ensures |src| < RC_INIT_SIZE ==> res == ErrorInputEof && destLen == srcLen == 0 && status == NotSpecified
    ensures |src| >= RC_INIT_SIZE && ParseProps(propData).None? ==>
              res == ErrorUnsupported && destLen == srcLen == 0 && status == NotSpecified
    ensures |src| >= RC_INIT_SIZE && ParseProps(propData).Some? ==>
              var o := Feed(Blank(ParseProps(propData).value), [], src, dest.Length, fin);
              dest[..destLen] == o.dec.out && srcLen == o.taken && status == o.status
              && res == if o.res.Ok? && o.status.NeedsMoreInput? then ErrorInputEof else o.res
  {
    hide Feed, LzmaDec.Valid;
    destLen, srcLen, res, status := 0, 0, ErrorInputEof, NotSpecified;
    if |src| < RC_INIT_SIZE { return; }
    var props := ParseProps(propData);
    if props == None { return 0, 0, ErrorUnsupported, NotSpecified; }
    var p := new LzmaDec(props.value, dest);
    p.OutOfModel();
    srcLen, res, status := p.DecodeToDic(dest.Length, src, fin);
    p.OutOfModel();
    destLen := p.dicPos;
    FlatDictionary(p);
    if res == Ok && status == NeedsMoreInput { res := ErrorInputEof; }
  }

  /**
   What LzmaDecode wrote into a smaller buffer is the beginning of what it writes into a larger one, and a smaller
   buffer in which the end marker was found gives everything.
   */
  lemma LargerBuffer(p: Props, src: seq<byte>, small: nat, large: nat, fin: Finish)
    requires PropsOk(p) && small <= large
    ensures var r, s := Feed(Blank(p), [], src, small, FinishAny), Feed(Blank(p), [], src, large, fin);
            r.dec.out <= s.dec.out && (r.status.FinishedWithMark? ==> s == r)
  {
    hide Feed;
    FeedKeeps(Blank(p), [], src, small, FinishAny);
    if Feed(Blank(p), [], src, small, FinishAny).status.FinishedWithMark? {
      FeedMark(Blank(p), src, small, large, fin);
    }
    FeedLimits(Blank(p), [], src, small, large, fin);
    var r := Feed(Blank(p), [], src, small, FinishAny);
    if r.res.Ok? {
      FeedKeeps(r.dec, r.held, ([] + src)[r.taken..], large, fin);
    }
  }
}
