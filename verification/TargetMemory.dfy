/** A stopped target seen through ptrace: memory a word at a time, registers all at once (ptrace_ops.rs). */
module TargetMemory {
  import opened Bits
  import opened ArchRegs

  // ---- memory as bytes ----

  /** `i` bytes after address `a`; addresses wrap at the end of the address space of `n` bytes. */
  function After(a: nat, i: nat, n: nat): nat
    requires a < n && i <= n
  {
    if a + i < n then a + i else a + i - n
  }

  /** How far address `j` lies after address `a`. */
  function Distance(a: nat, j: nat, n: nat): nat
    requires a < n && j < n
  {
    if j >= a then j - a else j - a + n
  }

  function Load(m: seq<byte>, a: nat, k: nat): (r: seq<byte>)
    requires a < |m| && k <= |m|
    ensures |r| == k
  {
    seq(k, i requires 0 <= i < k => m[After(a, i, |m|)])
  }

  function Store(m: seq<byte>, a: nat, d: seq<byte>): (r: seq<byte>)
    requires a < |m| && |d| <= |m|
    ensures |r| == |m|
  {
    seq(|m|, j requires 0 <= j < |m| => if Distance(a, j, |m|) < |d| then d[Distance(a, j, |m|)] else m[j])
  }

  lemma LoadStore(m: seq<byte>, a: nat, d: seq<byte>)
    requires a < |m| && |d| <= |m|
    ensures Load(Store(m, a, d), a, |d|) == d
  {
  }

  /** Writing back what was read before undoes a write. */
  lemma StoreUndone(m: seq<byte>, a: nat, d: seq<byte>)
    requires a < |m| && |d| <= |m|
    ensures Store(Store(m, a, d), a, Load(m, a, |d|)) == m
  {
  }

  lemma StoreNothing(m: seq<byte>, a: nat)
    requires a < |m|
    ensures Store(m, a, []) == m
  {
  }

  lemma StoreInTwo(m: seq<byte>, a: nat, d: seq<byte>, e: seq<byte>)
    requires a < |m| && |d| + |e| <= |m|
    ensures Store(Store(m, a, d), After(a, |d|, |m|), e) == Store(m, a, d + e)
  {
    var l, r := Store(Store(m, a, d), After(a, |d|, |m|), e), Store(m, a, d + e);
    forall j | 0 <= j < |m| ensures l[j] == r[j] {}
  }

  /** A write just below a block leaves the block as it was. */
  lemma StoreBelow(m: seq<byte>, a: nat, d: seq<byte>, k: nat)
    requires a < |m| && |d| + k <= |m|
    ensures Load(Store(m, a, d), After(a, |d|, |m|), k) == Load(m, After(a, |d|, |m|), k)
  {
    var b := After(a, |d|, |m|);
    forall i | 0 <= i < k ensures Load(Store(m, a, d), b, k)[i] == Load(m, b, k)[i] {
      assert Distance(a, After(b, i, |m|), |m|) == |d| + i;
    }
  }

  lemma LoadInTwo(m: seq<byte>, a: nat, j: nat, k: nat)
    requires a < |m| && j + k <= |m|
    ensures Load(m, a, j + k) == Load(m, a, j) + Load(m, After(a, j, |m|), k)
  {
    var l, r := Load(m, a, j + k), Load(m, a, j) + Load(m, After(a, j, |m|), k);
    forall i | 0 <= i < j + k ensures l[i] == r[i] {}
  }

  const MAX_STRING := 512

  /** The register set read from the target. */
  function RegsOf(a: Arch, bytes: seq<byte>): (r: Regs)
    requires |bytes| == RegisterSize(a)
    ensures RegsOk(r) && r.arch == a && Bytes(r) == bytes
  {
    Regs(a, bytes + NewRegs(a).buffer[|bytes|..])
  }

  // ---- words ----

  predicate WordSize(w: nat) { w == 4 || w == 8 }

  function AlignDown(a: nat, w: nat): (r: nat)
    requires WordSize(w)
    ensures r <= a < r + w
  {
    a - a % w
  }

  lemma AlignedFits(a: nat, w: nat)
    requires WordSize(w) && a < Usize(w)
    ensures AlignDown(a, w) + w <= Usize(w)
  {
    if w == 8 {
      assert Usize(w) % 8 == 0;
    } else {
      assert Usize(w) % 4 == 0;
    }
  }

  /** A word read at an aligned address, changed in the middle and written back changes only the middle. */
  lemma PatchWord(m: seq<byte>, base: nat, within: nat, d: seq<byte>, w: nat)
    requires WordSize(w) && base + w <= |m| && within + |d| <= w && within < w
    ensures var word := m[base..base + w];
            m[..base] + (word[..within] + d + word[within + |d|..]) + m[base + w..] == Store(m, base + within, d)
  {
    var word := m[base..base + w];
    var patched := word[..within] + d + word[within + |d|..];
    var l, r := m[..base] + patched + m[base + w..], Store(m, base + within, d);
    assert |patched| == w;
    forall j | 0 <= j < |m| ensures l[j] == r[j] {
      if base <= j < base + w {
        assert l[j] == patched[j - base];
      }
    }
  }

  lemma LoadAligned(m: seq<byte>, base: nat, within: nat, take: nat, w: nat)
    requires base + w <= |m| && within + take <= w && within < w
    ensures m[base..base + w][within..within + take] == Load(m, base + within, take)
  {
    var l, r := m[base..base + w][within..within + take], Load(m, base + within, take);
    assert |l| == |r|;
    forall i | 0 <= i < take ensures l[i] == r[i] { assert l[i] == m[base + within + i]; }
  }

  lemma SameEnds(a: seq<byte>, b: seq<byte>, within: nat, d: seq<byte>)
    requires |a| == |b| && within + |d| <= |a| && (a == b || (within == 0 && |d| == |a|))
    ensures a[..within] + d + a[within + |d|..] == b[..within] + d + b[within + |d|..]
  {
  }

  /** The functions of the target's libraries that are called in it. */
  datatype Symbol = SyscallFunction | DlopenExtFunction | DlsymFunction | DlerrorFunction

  class Target {
    const w: nat
    const arch: Arch
    const symbols: Symbol -> nat
    var memory: seq<byte>
    var regs: seq<byte>

    /** How many of the things asked of the kernel have failed. */
    ghost var failures: nat

    predicate Valid()
      reads `memory, `regs
    {
      WordSize(w) && |memory| == Usize(w) && LayoutOf(arch).Some? && |regs| == RegisterSize(arch)
    }

    constructor (w: nat, arch: Arch, symbols: Symbol -> nat)
      requires WordSize(w) && LayoutOf(arch).Some?
      ensures Valid() && this.w == w && this.arch == arch && this.symbols == symbols
    {
      this.w := w;
      this.arch := arch;
      this.symbols := symbols;
      memory := seq(Usize(w), _ => 0);
      regs := seq(RegisterSize(arch), _ => 0);
      failures := 0;
    }

    /** An operation says that it succeeded exactly when nothing failed that it asked for. */
    twostate predicate Answers(ok: bool)
      reads `failures
    {
      old(failures) <= failures && (ok <==> failures == old(failures))
    }

    /** Something that depends on `good` is done exactly when it holds and nothing failed. */
    twostate predicate Judged(ok: bool, good: bool)
      reads `failures
    {
      old(failures) <= failures && (ok <==> good && failures == old(failures))
    }

    /** PTRACE_PEEKDATA, which may fail at any time. */
    method PeekData(aligned: nat) returns (word: Option<seq<byte>>)
      requires Valid() && aligned + w <= |memory|
      modifies `failures
      ensures Answers(word.Some?) && (word.Some? ==> word.value == memory[aligned..aligned + w])
    {
      var obeyed: bool := *;
      if !obeyed { failures := failures + 1; }
      word := if obeyed then Some(memory[aligned..aligned + w]) else None;
    }

    /** PTRACE_POKEDATA, which may fail at any time. */
    method PokeData(aligned: nat, word: seq<byte>) returns (ok: bool)
      requires Valid() && aligned + w <= |memory| && |word| == w
      modifies `memory, `failures
      ensures Valid() && Answers(ok)
      ensures memory == if ok then old(memory)[..aligned] + word + old(memory)[aligned + w..] else old(memory)
    {
      ok := *;
      if !ok { failures := failures + 1; }
      if ok { memory := memory[..aligned] + word + memory[aligned + w..]; }
    }

    /** read_memory: the addressed bytes, unless a word cannot be read. */
    method ReadMemory(address: nat, size: nat) returns (ok: bool, buffer: seq<byte>)
      requires Valid() && address < |memory| && size <= |memory|
      modifies `failures
      ensures Answers(ok) && (ok ==> buffer == Load(memory, address, size))
    {
      hide Load, LayoutOf, RegisterSize;
      buffer := [];
      var done := 0;
      while done < size
        invariant done <= size && buffer == Load(memory, address, done) && failures == old(failures)
      {
        var current := After(address, done, |memory|);
        AlignedFits(current, w);
        var aligned := AlignDown(current, w);
        var within := current - aligned;
        var word := PeekData(aligned);
        if word.None? { return false, buffer; }
        var take := if size - done < w - within then size - done else w - within;
        LoadInTwo(memory, address, done, take);
        LoadAligned(memory, aligned, within, take, w);
        buffer := buffer + word.value[within..within + take];
        done := done + take;
      }
      ok := true;
    }

    /** The part of a write that falls into one word: the word is read first unless it is replaced whole. */
    method WriteWord(current: nat, data: seq<byte>) returns (ok: bool)
      requires Valid() && current < |memory| && current % w + |data| <= w
      modifies `memory, `failures
      ensures Answers(ok)
      ensures Valid() && memory == if ok then Store(old(memory), current, data) else old(memory)
    {
      hide Store, LayoutOf, RegisterSize;
      AlignedFits(current, w);
      var aligned := AlignDown(current, w);
      var within := current - aligned;
      ghost var whole := memory[aligned..aligned + w];
      var word := seq(w, _ => 0);
      if within != 0 || |data| < w {
        var existing := PeekData(aligned);
        if existing.None? { return false; }
        word := existing.value;
      }
      var bytes := word[..within] + data + word[within + |data|..];
      assert word == whole || (within == 0 && |data| == w);
      SameEnds(word, whole, within, data);
      PatchWord(memory, aligned, within, data, w);
      ok := PokeData(aligned, bytes);
    }

    /**
     write_memory: it succeeds unless a word cannot be read or written, and then exactly the addressed bytes have
     changed; on failure a first part of them has, and none at all when they lie in one word.
     */
    method WriteMemory(address: nat, data: seq<byte>) returns (ok: bool, ghost written: nat)
      requires Valid() && address < |memory| && |data| <= |memory|
      modifies `memory, `failures
      ensures Answers(ok) && Valid() && written <= |data| && (ok ==> written == |data|)
      ensures memory == Store(old(memory), address, data[..written])
      ensures !ok && address % w + |data| <= w ==> written == 0
    {
      hide Store;
      var done := 0;
      StoreNothing(memory, address);
      assert data[..0] == [];
      while done < |data|
        invariant failures == old(failures)
        invariant Valid() && done <= |data| && memory == Store(old(memory), address, data[..done])
        invariant 0 < done < |data| ==> address % w + |data| > w
      {
        var current := After(address, done, |memory|);
        var within := current - AlignDown(current, w);
        var take := if |data| - done < w - within then |data| - done else w - within;
        var ok := WriteWord(current, data[done..done + take]);
        if !ok { return false, done; }
        StoreInTwo(old(memory), address, data[..done], data[done..done + take]);
        assert data[..done] + data[done..done + take] == data[..done + take];
        done := done + take;
      }
      assert data[..done] == data;
      return true, done;
    }

    // ---- registers and remote calls ----

    /** PTRACE_GETREGSET, which may fail at any time. */
    method ReadRegisters() returns (r: Option<Regs>)
      requires Valid()
      modifies `failures
      ensures Answers(r.Some?) && (r.Some? ==> r.value == RegsOf(arch, regs))
    {
      var obeyed: bool := *;
      if !obeyed {
        failures := failures + 1;
        return None;
      }
      var empty := NewRegs(arch);
      r := Some(empty.(buffer := regs + empty.buffer[|regs|..]));
    }

    /** read_c_string: the bytes up to a zero, an unreadable byte or the length limit. */
    method ReadCString(address: nat) returns (bytes: seq<byte>, ghost stopped: bool)
      requires Valid() && address < |memory|
      modifies `failures
      ensures Answers(!stopped)
      ensures |bytes| <= MAX_STRING && bytes == Load(memory, address, |bytes|)
      ensures forall i :: 0 <= i < |bytes| ==> bytes[i] != 0
      ensures |bytes| < MAX_STRING && !stopped ==> memory[After(address, |bytes|, |memory|)] == 0
    {
      bytes, stopped := [], false;
      while |bytes| < MAX_STRING
        invariant |bytes| <= MAX_STRING && bytes == Load(memory, address, |bytes|) && !stopped
        invariant failures == old(failures)
        invariant forall i :: 0 <= i < |bytes| ==> bytes[i] != 0
        decreases MAX_STRING - |bytes|
      {
        var ok, next := ReadMemory(After(address, |bytes|, |memory|), 1);
        if !ok { return bytes, true; }
        if next[0] == 0 { return bytes, false; }
        LoadInTwo(memory, address, |bytes|, 1);
        bytes := bytes + [next[0]];
      }
    }

    /** PTRACE_SETREGSET, which may fail at any time. */
    method WriteRegisters(r: Regs) returns (ok: bool)
      requires Valid() && RegsOk(r) && r.arch == arch
      modifies `regs, `failures
      ensures Answers(ok) && Valid() && regs == if ok then Bytes(r) else old(regs)
    {
      ok := *;
      if ok { regs := Bytes(r); } else { failures := failures + 1; }
    }

    /** Puts the arguments into the argument registers, as far as there are any. */
    method SetArguments(r: Regs, args: seq<nat>) returns (r': Regs, all: bool)
      requires Valid() && RegsOk(r) && r.arch == arch && ArgsOk(args, w)
      ensures RegsOk(r') && r'.arch == arch && Pc(r', w) == Pc(r, w) && Sp(r', w) == Sp(r, w)
      ensures ArgumentsHold(r', args, w) && (all <==> |args| <= |LayoutOf(arch).value.args|)
    {
      hide LayoutOf, Pc, Sp, Argument, Kept;
      r' := r;
      var i := 0;
      while i < |args|
        invariant i <= |args| && i <= |LayoutOf(arch).value.args| && RegsOk(r') && r'.arch == arch
        invariant Pc(r', w) == Pc(r, w) && Sp(r', w) == Sp(r, w)
        invariant forall j :: 0 <= j < i ==> Argument(r', j, w) == Kept(arch, args[j])
      {
        var next := SetArgument(r', i, args[i]);
        if next.None? { return r', false; }
        SetArgumentOnly(r', i, args[i], w);
        r' := next.value;
        i := i + 1;
      }
      all := true;
    }

    /** Every machine passes four arguments, except 32-bit x86, which passes all of them on the stack. */
    lemma FourArguments(a: Arch)
      ensures LayoutOf(a).Some? && a != X86 ==> |LayoutOf(a).value.args| >= 4
      ensures a == Unknown ==> LayoutOf(a).None?
    {
    }

    /**
     setup_call: registers, and on x86 the stack, as the target's calling convention wants them. The registers are not
     handed to the target yet.
     */
    method SetupCall(r: Regs, callee: nat, returnTo: nat, args: seq<nat>) returns (ok: bool, r': Regs)
      requires Valid() && RegsOk(r) && r.arch == arch && ArgsOk(args, w) && callee < Usize(w) && returnTo < Usize(w)
      requires 4 * |args| + 8 <= |memory| && |args| <= 4
      modifies `memory, `failures
      ensures Answers(ok) && Valid() && RegsOk(r') && r'.arch == arch
      ensures ok ==> CallReady(r', Sp(r, w), callee, returnTo, args, w)
      ensures ok ==> memory == Pushed(old(memory), arch, Sp(r, w), returnTo, args, w)
    {
      FourArguments(arch);
      hide LayoutOf, Pc, Sp, Argument, Link, Kept, SetPc, SetSp, SetLink;
      var all;
      if arch == X86_64 {
        r', all := SetArguments(r, args);
        if !all { assert false; }
        var stack := Before(Sp(r', w), w, |memory|);
        ghost var written;
        ok, written := WriteMemory(stack, LeBytes(returnTo, w));
        if !ok { return false, r'; }
        assert LeBytes(returnTo, w)[..written] == LeBytes(returnTo, w);
        SetSpKeeps(r', stack, args, w);
        r' := SetSp(r', stack);
        SetPcKeeps(r', callee, args, w);
        r' := SetPc(r', callee);
      } else if arch == X86 {
        ok, r' := PushCall(r, callee, returnTo, args);
      } else if arch == Unknown {
        assert false;
      } else {
        r', all := SetArguments(r, args);
        SetLinkKeeps(r', returnTo, args, w);
        r' := SetLink(r', returnTo);
        SetPcKeeps(r', callee, args, w);
        r' := SetPc(r', callee);
        ok := true;
      }
    }

    /** The cdecl call of 32-bit x86: arguments from the last to the first, then the return address. */
    method PushCall(r: Regs, callee: nat, returnTo: nat, args: seq<nat>) returns (ok: bool, r': Regs)
      requires Valid() && RegsOk(r) && r.arch == arch == X86 && ArgsOk(args, w) && callee < Usize(w)
               && returnTo < Usize(w)
      requires 4 * |args| + 8 <= |memory|
      modifies `memory, `failures
      ensures Answers(ok) && Valid() && RegsOk(r') && r'.arch == arch
      ensures ok ==> CallReady(r', Sp(r, w), callee, returnTo, args, w)
      ensures ok ==> memory == Pushed(old(memory), arch, Sp(r, w), returnTo, args, w)
    {
      hide LayoutOf, Pc, Sp, Argument, Link, Kept, SetPc, SetSp, Store, LeBytes;
      ghost var sp := Sp(r, w);
      var stack := Sp(r, w);
      var i := |args|;
      assert args[i..] == [];
      StoreNothing(memory, stack);
      while i > 0
        invariant failures == old(failures)
        invariant 0 <= i <= |args| && Valid() && stack < |memory| && stack == Before(sp, 4 * (|args| - i), |memory|)
        invariant memory == Store(old(memory), stack, Stacked(args[i..]))
      {
        i := i - 1;
        assert args[i..][1..] == args[i + 1..];
        AfterBefore(stack, 4, |memory|);
        stack := Before(stack, 4, |memory|);
        ok := PushWord(stack, args[i], old(memory), Stacked(args[i + 1..]));
        if !ok { return false, r; }
      }
      assert args[0..] == args;
      ghost var above := stack;
      stack := Before(stack, 4, |memory|);
      AfterBefore(above, 4, |memory|);
      ok := PushWord(stack, returnTo, old(memory), Stacked(args));
      if !ok { return false, r; }
      SetSpKeeps(r, stack, [], w);
      r' := SetSp(r, stack);
      SetPcKeeps(r', callee, [], w);
      r' := SetPc(r', callee);
      NoArgumentRegisters(r', args, w);
    }

    /** One 32-bit word below what has been pushed before. */
    method PushWord(stack: nat, value: nat, ghost m0: seq<byte>, ghost above: seq<byte>) returns (ok: bool)
      requires Valid() && stack < |memory| && |m0| == |memory| && |above| + 4 <= |memory|
      requires memory == Store(m0, After(stack, 4, |memory|), above)
      modifies `memory, `failures
      ensures Answers(ok) && Valid() && (ok ==> memory == Store(m0, stack, LeBytes(value, 4) + above))
    {
      hide LeBytes;
      ghost var written;
      StoreInFront(m0, stack, LeBytes(value, 4), above);
      ok, written := WriteMemory(stack, LeBytes(value, 4));
      if ok { assert LeBytes(value, 4)[..written] == LeBytes(value, 4); }
    }
  }

  predicate ArgsOk(args: seq<nat>, w: nat) {
    forall i :: 0 <= i < |args| ==> args[i] < Usize(w)
  }

  /** The address `k` bytes below `a`. */
  function Before(a: nat, k: nat, n: nat): nat
    requires a < n && k <= n
  {
    if a >= k then a - k else a - k + n
  }

  lemma AfterBefore(a: nat, k: nat, n: nat)
    requires a < n && k < n
    ensures Before(a, k, n) < n && After(Before(a, k, n), k, n) == a
  {
  }

  /** The bytes of stack arguments from the first one up. */
  function Stacked(args: seq<nat>): (r: seq<byte>)
    ensures |r| == 4 * |args|
  {
    if args == [] then [] else LeBytes(args[0], 4) + Stacked(args[1..])
  }

  /** The memory after the pushes of a remote call. */
  function Pushed(m: seq<byte>, a: Arch, sp: nat, returnTo: nat, args: seq<nat>, w: nat): (r: seq<byte>)
    requires WordSize(w) && sp < |m| && 4 * |args| + 8 <= |m|
    ensures |r| == |m|
  {
    if a == X86_64 then Store(m, Before(sp, w, |m|), LeBytes(returnTo, w))
    else if a == X86 then Store(m, Before(sp, 4 * |args| + 4, |m|), LeBytes(returnTo, 4) + Stacked(args))
    else m
  }

  function SpAfterPush(a: Arch, sp: nat, args: nat, w: nat): nat
    requires WordSize(w) && sp < Usize(w) && 4 * args + 8 <= Usize(w)
  {
    if a == X86_64 then Before(sp, w, Usize(w)) else if a == X86 then Before(sp, 4 * args + 4, Usize(w)) else sp
  }

  predicate ArgumentsHold(r: Regs, args: seq<nat>, w: nat)
    requires RegsOk(r)
  {
    LayoutOf(r.arch).Some?
    && forall j :: 0 <= j < |args| && j < |LayoutOf(r.arch).value.args| ==> Argument(r, j, w) == Kept(r.arch, args[j])
  }

  /** The target will enter `callee` and come back to `returnTo`. */
  predicate CallReady(r: Regs, sp: nat, callee: nat, returnTo: nat, args: seq<nat>, w: nat)
    requires RegsOk(r) && WordSize(w) && sp < Usize(w) && 4 * |args| + 8 <= Usize(w)
  {
    LayoutOf(r.arch).Some? && Pc(r, w) == Kept(r.arch, callee) && ArgumentsHold(r, args, w)
    && (if r.arch.X86? || r.arch.X86_64? then Sp(r, w) == Kept(r.arch, SpAfterPush(r.arch, sp, |args|, w))
        else Sp(r, w) == sp && Link(r, w) == Some(Kept(r.arch, returnTo)))
  }

  lemma SetPcKeeps(r: Regs, v: nat, args: seq<nat>, w: nat)
    requires RegsOk(r) && LayoutOf(r.arch).Some? && v < Usize(w)
    ensures var r' := SetPc(r, v);
            Pc(r', w) == Kept(r.arch, v) && Sp(r', w) == Sp(r, w) && Link(r', w) == Link(r, w)
            && (ArgumentsHold(r, args, w) ==> ArgumentsHold(r', args, w))
  {
    hide Pc, Sp, Link, Argument, Kept, SetPc, LayoutOf;
    SetPcOnly(r, v, w);
  }

  lemma SetSpKeeps(r: Regs, v: nat, args: seq<nat>, w: nat)
    requires RegsOk(r) && LayoutOf(r.arch).Some? && v < Usize(w)
    ensures var r' := SetSp(r, v);
            Sp(r', w) == Kept(r.arch, v) && Pc(r', w) == Pc(r, w) && Link(r', w) == Link(r, w)
            && (ArgumentsHold(r, args, w) ==> ArgumentsHold(r', args, w))
  {
    hide Pc, Sp, Link, Argument, Kept, SetSp, LayoutOf;
    SetSpOnly(r, v, w);
  }

  lemma SetLinkKeeps(r: Regs, v: nat, args: seq<nat>, w: nat)
    requires RegsOk(r) && LayoutOf(r.arch).Some? && !r.arch.X86? && !r.arch.X86_64? && v < Usize(w)
    ensures var r' := SetLink(r, v);
            Link(r', w) == Some(Kept(r.arch, v)) && Pc(r', w) == Pc(r, w) && Sp(r', w) == Sp(r, w)
            && (ArgumentsHold(r, args, w) ==> ArgumentsHold(r', args, w))
  {
    hide Pc, Sp, Link, Argument, Kept, SetLink;
    SetLinkOnly(r, v, w);
  }

  lemma NoArgumentRegisters(r: Regs, args: seq<nat>, w: nat)
    requires RegsOk(r) && r.arch == X86
    ensures ArgumentsHold(r, args, w)
  {
  }

  /** A write that begins at or behind the end of a block leaves the block as it was. */
  lemma StoreAbove(m: seq<byte>, a: nat, k: nat, j: nat, d: seq<byte>)
    requires a < |m| && k <= j && j + |d| <= |m|
    ensures Load(Store(m, After(a, j, |m|), d), a, k) == Load(m, a, k)
  {
    var b := After(a, j, |m|);
    forall i | 0 <= i < k ensures Load(Store(m, b, d), a, k)[i] == Load(m, a, k)[i] {
      assert Distance(b, After(a, i, |m|), |m|) >= |d|;
    }
  }

  /** The pushes of a call lie below the stack pointer. */
  lemma PushedBelow(m: seq<byte>, a: Arch, sp: nat, returnTo: nat, args: seq<nat>, w: nat, k: nat)
    requires WordSize(w) && sp < |m| && k + 4 * |args| + 8 <= |m| && 4 * |args| + 8 < |m|
    ensures Load(Pushed(m, a, sp, returnTo, args, w), sp, k) == Load(m, sp, k)
  {
    hide LeBytes, Stacked;
    if a == X86_64 {
      AfterBefore(sp, w, |m|);
      StoreBelow(m, Before(sp, w, |m|), LeBytes(returnTo, w), k);
    } else if a == X86 {
      AfterBefore(sp, 4 * |args| + 4, |m|);
      StoreBelow(m, Before(sp, 4 * |args| + 4, |m|), LeBytes(returnTo, 4) + Stacked(args), k);
    }
  }

  /** The target is about to run `callee` with these arguments, and to come back to `returnTo`. */
  predicate Enters(p: Target, callee: nat, returnTo: nat, args: seq<nat>)
    requires p.Valid() && 4 * |args| + 8 <= |p.memory|
    reads p`memory, p`regs
  {
    var r := RegsOf(p.arch, p.regs);
    Pc(r, p.w) == Kept(p.arch, callee) && ArgumentsHold(r, args, p.w)
    && (if p.arch == X86_64 then Load(p.memory, Sp(r, p.w), p.w) == LeBytes(returnTo, p.w)
        else if p.arch == X86 then Load(p.memory, Sp(r, p.w), 4 + 4 * |args|) == LeBytes(returnTo, 4) + Stacked(args)
        else Link(r, p.w) == Some(Kept(p.arch, returnTo)))
  }

  /** The registers handed to the target hold the same fields. */
  lemma SameFields(r: Regs, w: nat)
    requires RegsOk(r) && LayoutOf(r.arch).Some?
    ensures |Bytes(r)| == RegisterSize(r.arch)
    ensures var q := RegsOf(r.arch, Bytes(r));
            Sp(q, w) == Sp(r, w) && Pc(q, w) == Pc(r, w) && Link(q, w) == Link(r, w)
            && forall i :: 0 <= i < |LayoutOf(r.arch).value.args| ==> Argument(q, i, w) == Argument(r, i, w)
  {
    TablesApart(r.arch);
    var l, q := LayoutOf(r.arch).value, RegsOf(r.arch, Bytes(r));
    forall o: nat | o + l.word <= l.size ensures Read(q, o, w) == Read(r, o, w) {
      assert q.buffer[o..o + l.word] == r.buffer[o..o + l.word];
    }
  }

  lemma KeptWhole(a: Arch, v: nat, w: nat)
    requires LayoutOf(a).Some? && WordSize(w) && v < Usize(w) && (LayoutOf(a).value.word == 4 ==> v < Power256(4))
    ensures Kept(a, v) == v
  {
    Powers();
    TablesApart(a);
  }

  /** What setup_call prepared and write_registers handed over is the call that was asked for. */
  lemma CallEnters(p: Target, ready: Regs, m: seq<byte>, sp: nat, callee: nat, returnTo: nat, args: seq<nat>)
    requires p.Valid() && RegsOk(ready) && ready.arch == p.arch && p.regs == Bytes(ready) && sp < Usize(p.w) == |m|
    requires 4 * |args| + 8 <= |m| && CallReady(ready, sp, callee, returnTo, args, p.w)
    requires p.memory == Pushed(m, p.arch, sp, returnTo, args, p.w)
    requires p.arch == X86 ==> SpAfterPush(p.arch, sp, |args|, p.w) < Power256(4)
    ensures Enters(p, callee, returnTo, args)
  {
    hide Read, Store, Load, Kept, LeBytes, Stacked;
    SameFields(ready, p.w);
    if p.arch == X86_64 {
      LoadStore(m, Before(sp, p.w, |m|), LeBytes(returnTo, p.w));
      KeptWhole(p.arch, Before(sp, p.w, |m|), p.w);
    } else if p.arch == X86 {
      var stack := Before(sp, 4 * |args| + 4, |m|);
      LoadStore(m, stack, LeBytes(returnTo, 4) + Stacked(args));
      KeptWhole(p.arch, stack, p.w);
    }
  }

  /** A write just below an earlier one. */
  lemma StoreInFront(m: seq<byte>, a: nat, d: seq<byte>, e: seq<byte>)
    requires a < |m| && |d| + |e| <= |m| && |d| < |m|
    ensures Store(Store(m, After(a, |d|, |m|), e), a, d) == Store(m, a, d + e)
  {
    var l, r := Store(Store(m, After(a, |d|, |m|), e), a, d), Store(m, a, d + e);
    forall j | 0 <= j < |m| ensures l[j] == r[j] {}
  }
}
