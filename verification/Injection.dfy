/**
 Remote injection into a stopped target (trace.rs): a breakpoint at the entry, then remote calls that each come back
 to the breakpoint, then everything put back.
 */
module Injection {
  import opened Bits
  import opened Text
  import opened ArchRegs
  import opened TargetMemory
  import opened BootPlan

  const INSTRUCTION_CAPACITY := 8

  datatype State = Traced | Entry | Late | File | Dlopen | Dlsym | Init | Dlerror
  datatype FilePurpose = Loader | Module
  datatype Progress = Tracing | Finished

  /** What the daemon knows besides the target: the libraries for this executable and the configuration. */
  datatype Config = Config(libraries: seq<Library>, inlineHook: seq<byte>, pltHook: seq<byte>, debugdata: seq<byte>)
  datatype Library = Library(path: seq<byte>, companion: bool)

  predicate ConfigOk(d: Config) { |d.libraries| < U32 }

  function TrapReportsNextInstruction(a: Arch): bool { a.X86? || a.X86_64? }

  /** The thumb bit is not part of an address. */
  function ClearBit0(v: nat): nat { v - v % 2 }

  /** The registers a release writes back: those of the first trap, with the program counter on the entry. */
  function AtEntry(a: Arch, entry: nat, trap: seq<byte>): seq<byte>
    requires |trap| == RegisterSize(a)
  {
    if TrapReportsNextInstruction(a) then Bytes(SetPc(RegsOf(a, trap), entry)) else trap
  }

  /** The program counter the entry trap must show. */
  function ExpectedPc(a: Arch, entry: nat, w: nat): nat
    requires entry < Usize(w)
  {
    if TrapReportsNextInstruction(a) then After(entry, 1, Usize(w)) else entry
  }

  function SeenPc(a: Arch, regs: Regs, w: nat): nat
    requires RegsOk(regs)
  {
    if a == Arm32 then ClearBit0(Pc(regs, w)) else Pc(regs, w)
  }

  /** A trap at the breakpoint planted at `entry`, or for a late target the stop at which it is planted there. */
  predicate TrapAt(late: bool, a: Arch, entry: nat, trap: seq<byte>, w: nat)
    requires |trap| == RegisterSize(a) && entry < Usize(w)
  {
    SeenPc(a, RegsOf(a, trap), w) == if late then entry else ExpectedPc(a, entry, w)
  }

  /** What has to be in the registers when the injection is over. */
  function Resumed(late: bool, a: Arch, entry: nat, trap: seq<byte>): (r: seq<byte>)
    requires |trap| == RegisterSize(a)
    ensures |r| == RegisterSize(a)
  {
    if late then trap else AtEntry(a, entry, trap)
  }

  /** The resumed target stands on the entry (on ARM apart from the thumb bit), and no other register has changed. */
  lemma ResumedAtEntry(late: bool, a: Arch, entry: nat, trap: seq<byte>, w: nat)
    requires LayoutOf(a).Some? && WordSize(w) && |trap| == RegisterSize(a) && entry < Usize(w)
             && TrapAt(late, a, entry, trap, w)
    ensures var r, q := RegsOf(a, Resumed(late, a, entry, trap)), RegsOf(a, trap);
            SeenPc(a, r, w) == Kept(a, entry) && Sp(r, w) == Sp(q, w) && Link(r, w) == Link(q, w)
            && forall i :: 0 <= i < |LayoutOf(a).value.args| ==> Argument(r, i, w) == Argument(q, i, w)
  {
    hide Read, Write;
    var q := RegsOf(a, trap);
    if TrapReportsNextInstruction(a) && !late {
      SetPcOnly(q, entry, w);
      SameFields(SetPc(q, entry), w);
    } else {
      PcSmall(q, w);
      KeptWhole(a, entry, w);
    }
  }

  lemma PcSmall(r: Regs, w: nat)
    requires RegsOk(r) && LayoutOf(r.arch).Some?
    ensures LayoutOf(r.arch).value.word == 4 ==> Pc(r, w) < Power256(4)
  {
  }

  class Tracee {
    var state: State
    var arch: Arch
    var entry: nat
    var thumb: bool
    var originalInstruction: seq<byte>
    var breakpointSize: nat
    var saved: Regs
    var content: seq<byte>
    var initFunction: nat
    var modules: seq<PlanModule>
    var moduleIndex: nat
    var nonce: u32
    var filePurpose: FilePurpose
    var fileFd: i32
    var fileName: seq<byte>
    var moduleContent: seq<byte>

    /** Whether `saved` has been set, and the registers of the trap it was set at. */
    ghost var captured: bool
    ghost var trap: seq<byte>

    /** Whether the target was already running its own code when it was stopped. */
    ghost const late: bool

    constructor (state: State, arch: Arch)
      ensures this.state == state && this.arch == arch && breakpointSize == 0
              && |originalInstruction| == INSTRUCTION_CAPACITY
      ensures RegsOk(saved) && saved.arch == arch && modules == [] && moduleIndex == 0 && !captured && entry == 0
      ensures initFunction == 0 && late == state.Late?
    {
      this.state := state;
      this.arch := arch;
      entry, thumb, originalInstruction, breakpointSize := 0, false, seq(INSTRUCTION_CAPACITY, _ => 0), 0;
      saved := NewRegs(arch);
      content, initFunction, modules, moduleIndex, nonce := [], 0, [], 0, 0;
      filePurpose, fileFd, fileName, moduleContent := Loader, -1, [], [];
      captured, trap, late := false, [], state.Late?;
    }

    function ReturnAddress(): nat
      reads this
    {
      if arch == Arm32 && thumb then entry - entry % 2 + 1 else entry
    }
  }

  // ---- what holds between two traps ----

  predicate Fits(t: Tracee, p: Target)
    reads t`arch, t`entry, t`originalInstruction, t`breakpointSize, t`saved, p`memory, p`regs
  {
    p.Valid() && t.arch == p.arch && t.entry < Usize(p.w) && |t.originalInstruction| == INSTRUCTION_CAPACITY
    && t.breakpointSize <= INSTRUCTION_CAPACITY && RegsOk(t.saved) && t.saved.arch == t.arch
  }

  function Original(t: Tracee): seq<byte>
    requires t.breakpointSize <= |t.originalInstruction|
    reads t`originalInstruction, t`breakpointSize
  {
    t.originalInstruction[..t.breakpointSize]
  }

  /** The bytes under the breakpoint are the program's own. */
  predicate CodeRestored(t: Tracee, p: Target)
    requires Fits(t, p)
    reads t`arch, t`entry, t`originalInstruction, t`breakpointSize, t`saved, p`memory, p`regs
  {
    Load(p.memory, t.entry, t.breakpointSize) == Original(t)
  }

  /** `saved` is what the target has to resume with after its first trap, which was the expected one. */
  ghost predicate Captured(t: Tracee, p: Target)
    requires Fits(t, p)
    reads t`arch, t`entry, t`originalInstruction, t`breakpointSize, t`saved, t`captured, t`trap, p`memory, p`regs
  {
    t.captured && |t.trap| == RegisterSize(t.arch) && TrapAt(t.late, t.arch, t.entry, t.trap, p.w)
    && Bytes(t.saved) == Resumed(t.late, t.arch, t.entry, t.trap)
  }

  /** The target as it was before the injection, at the breakpoint and in its registers. */
  ghost predicate Transparent(t: Tracee, p: Target)
    requires Fits(t, p)
    reads t`arch, t`entry, t`originalInstruction, t`breakpointSize, t`saved, p`memory, p`regs
  {
    CodeRestored(t, p) && p.regs == Bytes(t.saved)
  }

  /** Descriptors are there for the modules handed over so far, and for no others. */
  predicate HandedOver(t: Tracee)
    reads t`modules, t`moduleIndex
  {
    t.moduleIndex <= |t.modules|
    && forall i :: 0 <= i < |t.modules| ==>
         t.modules[i].index == i && (if i < t.moduleIndex then t.modules[i].fd >= 0 else t.modules[i].fd == -1)
  }

  /** The modules of the tracee are the configured libraries, in order. */
  predicate SameLibraries(t: Tracee, d: Config)
    reads t`modules
  {
    |t.modules| == |d.libraries|
    && forall i :: 0 <= i < |d.libraries| ==>
         t.modules[i].path == d.libraries[i].path && t.modules[i].companion == d.libraries[i].companion
  }

  predicate ModulesKnown(t: Tracee)
    reads t`state, t`filePurpose
  {
    t.state.Init? || (t.state.File? && t.filePurpose.Module?)
  }

  /** The invariant between traps. */
  ghost predicate Inv(t: Tracee, p: Target, d: Config)
    reads t, p
  {
    ConfigOk(d) && Fits(t, p) && 0 < t.breakpointSize && !t.state.Traced?
    && (if t.state.Entry? then !t.late && !t.captured
        else if t.state.Late? then t.late && !t.captured
        else Captured(t, p))
    && (if ModulesKnown(t) then HandedOver(t) && SameLibraries(t, d) && t.initFunction != 0 else true)
    && (t.state.File? && t.filePurpose.Module? ==> t.moduleIndex < |t.modules|)
    && t.initFunction < Usize(p.w) && t.moduleIndex < U32
  }

  /** How many traps are left at most: one for every phase and one for every module. */
  function Left(t: Tracee, d: Config): int
    reads t`state, t`filePurpose, t`modules, t`moduleIndex
  {
    match t.state
    case Traced => |d.libraries| + 6
    case Entry => |d.libraries| + 5
    case Late => |d.libraries| + 5
    case File => if t.filePurpose.Loader? then |d.libraries| + 4 else |t.modules| - t.moduleIndex + 1
    case Dlopen => |d.libraries| + 3
    case Dlsym => |d.libraries| + 2
    case Init => 1
    case Dlerror => 1
  }

  // ---- arming and releasing ----

  /** set_entry_breakpoint. A failure in the middle can leave a first part of the breakpoint, never within one word. */
  method SetEntryBreakpoint(t: Tracee, p: Target, thumb: bool) returns (ok: bool)
    requires Fits(t, p)
    modifies t`originalInstruction, t`breakpointSize, p`memory, p`failures
    ensures Fits(t, p)
    ensures ok ==> 0 < t.breakpointSize == |Breakpoint(t.arch, thumb)|
    ensures ok ==> Original(t) == Load(old(p.memory), t.entry, t.breakpointSize)
    ensures ok ==> p.memory == Store(old(p.memory), t.entry, Breakpoint(t.arch, thumb))
    ensures !ok ==> exists k | 0 <= k <= |Breakpoint(t.arch, thumb)| ::
                      p.memory == Store(old(p.memory), t.entry, Breakpoint(t.arch, thumb)[..k])
    ensures !ok && t.entry % p.w + |Breakpoint(t.arch, thumb)| <= p.w ==> p.memory == old(p.memory)
    ensures p.Answers(ok)
  {
    hide Store, Load;
    var instruction := Breakpoint(t.arch, thumb);
    StoreNothing(p.memory, t.entry);
    assert instruction[..0] == [];
    if instruction == [] || |instruction| > INSTRUCTION_CAPACITY { assert false; }
    var size := |instruction|;
    var buffer;
    ok, buffer := p.ReadMemory(t.entry, size);
    if !ok { return; }
    t.originalInstruction := buffer + t.originalInstruction[size..];
    ghost var written;
    ok, written := p.WriteMemory(t.entry, instruction);
    if !ok { return; }
    assert instruction[..written] == instruction;
    t.breakpointSize := size;
  }

  /** restore_entry */
  method RestoreEntry(t: Tracee, p: Target) returns (ghost ok: bool)
    requires Fits(t, p)
    modifies p`memory, p`failures
    ensures Fits(t, p) && (ok ==> CodeRestored(t, p))
    ensures ok ==> p.memory == Store(old(p.memory), t.entry, Original(t))
    ensures p.Answers(ok)
  {
    hide Store, Load;
    ok := true;
    if t.breakpointSize != 0 {
      ghost var written;
      var done;
      ghost var m := p.memory;
      done, written := p.WriteMemory(t.entry, Original(t));
      ok := done;
      if done {
        assert Original(t)[..written] == Original(t);
        LoadStore(m, t.entry, Original(t));
      }
    } else {
      StoreNothing(p.memory, t.entry);
      assert Original(t) == [];
      assert Load(p.memory, t.entry, 0) == [];
    }
  }

  /** Arming and restoring, with nothing else writing the memory in between, is the identity. */
  lemma ArmedAndRestored(m: seq<byte>, entry: nat, breakpoint: seq<byte>, original: seq<byte>)
    requires entry < |m| && |breakpoint| <= |m| && original == Load(m, entry, |breakpoint|)
    ensures Store(Store(m, entry, breakpoint), entry, original) == m
  {
    StoreUndone(m, entry, breakpoint);
  }

  /** What unskip_entry_instruction makes of the target's registers. */
  function Unskipped(a: Arch, entry: nat, regs: seq<byte>, w: nat): seq<byte>
    requires |regs| == RegisterSize(a) && entry < Usize(w)
  {
    if TrapReportsNextInstruction(a) && Pc(RegsOf(a, regs), w) == After(entry, 1, Usize(w)) then
      Bytes(SetPc(RegsOf(a, regs), entry))
    else regs
  }

  /** unskip_entry_instruction */
  method UnskipEntryInstruction(t: Tracee, p: Target) returns (ghost ok: bool)
    requires Fits(t, p)
    modifies p`regs, p`failures
    ensures Fits(t, p) && (ok ==> p.regs == Unskipped(t.arch, t.entry, old(p.regs), p.w))
    ensures p.Answers(ok)
  {
    hide LayoutOf, Pc, SetPc;
    ok := true;
    if !TrapReportsNextInstruction(t.arch) { return; }
    var regs := p.ReadRegisters();
    if regs.None? { return false; }
    if Pc(regs.value, p.w) != After(t.entry, 1, Usize(p.w)) { return; }
    var done := p.WriteRegisters(SetPc(regs.value, t.entry));
    ok := done;
  }

  /** release_tracee: `restored` says whether the writes that put things back succeeded. */
  method ReleaseTracee(t: Tracee, p: Target) returns (ghost restored: bool)
    requires Fits(t, p)
    modifies p`memory, p`regs, p`failures
    ensures Fits(t, p) && (restored ==> CodeRestored(t, p))
    ensures restored ==>
              p.regs == if t.state.Entry? then Unskipped(t.arch, t.entry, old(p.regs), p.w) else Bytes(t.saved)
    ensures p.Answers(restored)
  {
    hide Unskipped, LayoutOf, Load;
    ghost var code := RestoreEntry(t, p);
    if t.state == Entry {
      ghost var unskipped := UnskipEntryInstruction(t, p);
      restored := code && unskipped;
    } else {
      var done := p.WriteRegisters(t.saved);
      restored := code && done;
    }
  }

  /** undo, and so abort and give_up: once the first trap's registers are saved, a release is transparent. */
  method Undo(t: Tracee, p: Target) returns (ghost restored: bool)
    requires Fits(t, p) && !t.state.Entry?
    modifies p`memory, p`regs, p`failures
    ensures Fits(t, p) && (restored ==> Transparent(t, p))
    ensures p.Answers(restored)
  {
    restored := ReleaseTracee(t, p);
  }

  // ---- the remote calls ----

  /** Looking a function up in the target's libraries may fail; where it is does not change. */
  method ResolveSymbol(p: Target, symbol: Symbol) returns (address: Option<nat>)
    requires p.Valid()
    modifies p`failures
    ensures address.Some? ==> 0 < address.value < Usize(p.w) && address.value == p.symbols(symbol)
    ensures p.Answers(address.Some?)
  {
    var found: bool := *;
    var a := p.symbols(symbol);
    if !(found && 0 < a < Usize(p.w)) { p.failures := p.failures + 1; }
    address := if found && 0 < a < Usize(p.w) then Some(a) else None;
  }

  /** The stack address for a block of `size` bytes: below the red zone and 16-byte aligned. */
  function StackFor(sp: nat, size: nat, n: nat): (r: nat)
    requires sp < n && size + 0x10 <= n
    ensures r < n
  {
    var a := Before(sp, size + 0x10, n);
    a - a % 16
  }

  /** The injector's addresses are the target's: only a 32-bit target under a 64-bit injector has fewer. */
  predicate SameWord(p: Target) { LayoutOf(p.arch).Some? && LayoutOf(p.arch).value.word >= p.w }

  /**
   The stack addresses of a call fit the target: always when its word is the injector's, and otherwise when there is
   room below the stack pointer for a block and the pushes.
   */
  predicate Roomy(p: Target, sp: nat, size: nat) { SameWord(p) || sp >= size + 0x40 }

  /** The pushes of a call stay inside the target's addresses. */
  predicate PushFits(p: Target, sp: nat) {
    p.arch == X86 ==> p.w == 4 || 0x20 <= sp < Power256(4)
  }

  lemma StackRoom(sp: nat, size: nat, n: nat)
    requires sp < n && sp >= size + 0x40 && size + 0x10 <= n
    ensures 0x20 <= StackFor(sp, size, n) && StackFor(sp, size, n) + size + 0x10 <= sp
  {
  }

  lemma StackForBound(sp: nat, size: nat, n: nat)
    requires sp < n && size + 0x10 <= n
    ensures StackFor(sp, size, n) < n
  {
  }

  lemma SpFits(p: Target, regs: Regs)
    requires p.Valid() && RegsOk(regs) && regs.arch == p.arch
    ensures LayoutOf(p.arch).value.word == 4 ==> Sp(regs, p.w) < Power256(4)
    ensures p.arch == X86 ==> LayoutOf(p.arch).value.word == 4
    ensures SameWord(p) && p.arch == X86 ==> p.w == 4
  {
  }

  /** A stack address for a block is one of the target's, and is kept whole by its registers. */
  lemma StackFits(p: Target, regs: Regs, size: nat)
    requires p.Valid() && RegsOk(regs) && regs.arch == p.arch && size + 0x10 <= |p.memory|
             && Roomy(p, Sp(regs, p.w), size)
    ensures var stack := StackFor(Sp(regs, p.w), size, |p.memory|);
            Sp(SetSp(regs, stack), p.w) == stack && Kept(p.arch, stack) == stack && PushFits(p, stack)
            && (p.arch == X86 ==> stack < Power256(4))
  {
    hide Read, Write, Sp;
    var sp := Sp(regs, p.w);
    var stack := StackFor(sp, size, |p.memory|);
    SpFits(p, regs);
    Powers();
    if !SameWord(p) { StackRoom(sp, size, |p.memory|); }
    KeptWhole(p.arch, stack, p.w);
    SetSpOnly(regs, stack, p.w);
  }

  /** setup_call followed by write_registers: the target is about to run the function, unless one of them failed. */
  method Call(t: Tracee, p: Target, regs: Regs, callee: nat, args: seq<nat>, ghost k: nat) returns (ok: bool)
    requires Fits(t, p) && RegsOk(regs) && regs.arch == p.arch && callee < Usize(p.w) && ArgsOk(args, p.w)
             && |args| <= 4
    requires k + 0x40 <= |p.memory|
    modifies p`memory, p`regs, p`failures
    ensures Fits(t, p)
    ensures ok && PushFits(p, Sp(regs, p.w)) ==> Enters(p, callee, ReturnTo(t, p), args)
    ensures ok ==> Load(p.memory, Sp(regs, p.w), k) == Load(old(p.memory), Sp(regs, p.w), k)
    ensures p.Answers(ok)
  {
    hide LayoutOf, Sp, SetSp, Pushed, CallReady, Load, Enters, ArgsOk;
    ghost var m := p.memory;
    var ready;
    ok, ready := p.SetupCall(regs, callee, ReturnTo(t, p), args);
    if !ok { return; }
    PushedBelow(m, p.arch, Sp(regs, p.w), ReturnTo(t, p), args, p.w, k);
    ok := p.WriteRegisters(ready);
    if ok && PushFits(p, Sp(regs, p.w)) {
      CallEnters(p, ready, m, Sp(regs, p.w), callee, ReturnTo(t, p), args);
    }
  }

  /** push_bytes */
  method PushBytes(p: Target, regs: Regs, bytes: seq<byte>) returns (address: Option<nat>, regs': Regs)
    requires p.Valid() && RegsOk(regs) && regs.arch == p.arch && |bytes| + 0x10 <= |p.memory|
    modifies p`memory, p`failures
    ensures p.Valid() && RegsOk(regs') && regs'.arch == regs.arch && (address.Some? ==> address.value < Usize(p.w))
    ensures address.Some? ==>
              address.value == StackFor(Sp(regs, p.w), |bytes|, |p.memory|) && regs' == SetSp(regs, address.value)
              && Load(p.memory, address.value, |bytes|) == bytes
    ensures p.Answers(address.Some?)
  {
    hide LayoutOf, Sp, SetSp, Store, Load, StackFor;
    var a := StackFor(Sp(regs, p.w), |bytes|, |p.memory|);
    StackForBound(Sp(regs, p.w), |bytes|, |p.memory|);
    ghost var m := p.memory;
    ghost var written;
    var ok;
    ok, written := p.WriteMemory(a, bytes);
    if !ok { return None, regs; }
    assert bytes[..written] == bytes;
    LoadStore(m, a, bytes);
    return Some(a), SetSp(regs, a);
  }

  const LOADER_NAME: seq<byte> := [122, 110, 110, 45, 108, 111, 97, 100, 101, 114]
  const MODULE_PREFIX: seq<byte> := [122, 110, 110, 45, 109, 111, 100, 117, 108, 101, 45]

  /** "znn-loader" or "znn-module-N", with the final zero. */
  function FileName(purpose: FilePurpose, index: nat): seq<byte> {
    (if purpose.Loader? then LOADER_NAME else MODULE_PREFIX + Decimal(index)) + [0]
  }

  lemma FileNameLength(purpose: FilePurpose, index: nat)
    requires index < U32
    ensures |FileName(purpose, index)| <= 22
  {
    U64Digits();
    DecimalLength(index, 10);
  }

  /** What every part of a step may rely on once the first trap's registers are saved. */
  ghost predicate Busy(t: Tracee, p: Target, d: Config)
    reads t, p
  {
    ConfigOk(d) && Fits(t, p) && 0 < t.breakpointSize && Captured(t, p) && t.initFunction < Usize(p.w)
    && t.moduleIndex < U32
  }

  /** arm_call: the state leaves Entry before the first register is written. */
  method ArmCall(t: Tracee, p: Target, regs: Regs, callee: nat, args: seq<nat>, ghost k: nat) returns (ok: bool)
    requires Fits(t, p) && RegsOk(regs) && regs.arch == p.arch && callee < Usize(p.w) && ArgsOk(args, p.w)
             && |args| <= 4
    requires k + 0x40 <= |p.memory|
    modifies t`state, p`memory, p`regs, p`failures
    ensures Fits(t, p) && (ok ==> t.state.File?)
    ensures t.state.File? || t.state == old(t.state)
    ensures !t.state.File? ==> p.regs == old(p.regs)
    ensures ok && PushFits(p, Sp(regs, p.w)) ==> Enters(p, callee, ReturnTo(t, p), args)
    ensures ok ==> Load(p.memory, Sp(regs, p.w), k) == Load(old(p.memory), Sp(regs, p.w), k)
    ensures p.Answers(ok)
  {
    hide LayoutOf, Sp, SetSp, Pushed, CallReady, Load, Enters, ArgsOk;
    ghost var m := p.memory;
    var ready, regs' := p.SetupCall(regs, callee, ReturnTo(t, p), args);
    if !ready { return false; }
    PushedBelow(m, p.arch, Sp(regs, p.w), ReturnTo(t, p), args, p.w, k);
    t.state := File;
    ok := p.WriteRegisters(regs');
    if ok && PushFits(p, Sp(regs, p.w)) {
      CallEnters(p, regs', m, Sp(regs, p.w), callee, ReturnTo(t, p), args);
    }
  }

  function ReturnTo(t: Tracee, p: Target): (r: nat)
    requires Fits(t, p)
    reads t, p`memory, p`regs
    ensures r < Usize(p.w)
  {
    t.ReturnAddress()
  }

  /** The target is about to create a memory file with the tracee's file name. */
  ghost predicate CreatesFile(t: Tracee, p: Target, name: nat)
    requires Fits(t, p) && |t.fileName| <= |p.memory| && 20 < |p.memory|
    reads t, p`memory, p`regs
  {
    name < |p.memory| && 0 <= MemfdCreateNumber(p.arch)
    && Enters(p, p.symbols(SyscallFunction), ReturnTo(t, p), [MemfdCreateNumber(p.arch), name, MFD_CLOEXEC])
    && Load(p.memory, name, |t.fileName|) == t.fileName
  }

  /** start_memfd */
  method StartMemfd(t: Tracee, p: Target, regs: Regs) returns (ok: bool)
    requires Fits(t, p) && RegsOk(regs) && regs.arch == p.arch && |t.fileName| + 0x40 <= |p.memory|
    modifies t`state, p`memory, p`regs, p`failures
    ensures Fits(t, p) && (ok ==> t.state.File?)
    ensures t.state.File? || t.state == old(t.state)
    ensures !t.state.File? ==> p.regs == old(p.regs)
    ensures ok && Roomy(p, Sp(regs, p.w), |t.fileName|) ==>
              CreatesFile(t, p, StackFor(Sp(regs, p.w), |t.fileName|, |p.memory|))
    ensures p.Answers(ok)
  {
    hide LayoutOf, Sp, SetSp, Load, Enters, StackFor, Roomy, MemfdCreateNumber;
    var syscall := ResolveSymbol(p, SyscallFunction);
    if syscall.None? { return false; }
    var name, regs' := PushBytes(p, regs, t.fileName);
    if name.None? { return false; }
    MemfdNumber(t.arch);
    if Roomy(p, Sp(regs, p.w), |t.fileName|) {
      StackFits(p, regs, |t.fileName|);
    }
    ok := ArmCall(t, p, regs', syscall.value, [MemfdCreateNumber(t.arch), name.value, MFD_CLOEXEC], |t.fileName|);
  }

  const MFD_CLOEXEC := 1

  lemma MemfdNumber(a: Arch)
    requires LayoutOf(a).Some?
    ensures 0 <= MemfdCreateNumber(a) < 1000
  {
  }

  /** Reading a file on the injector's side may fail. */
  method ReadFile(p: Target) returns (content: Option<seq<byte>>)
    modifies p`failures
    ensures p.Answers(content.Some?)
  {
    var readable: bool := *;
    var bytes: seq<byte> := *;
    if !readable { p.failures := p.failures + 1; }
    content := if readable then Some(bytes) else None;
  }

  /** start_file */
  method StartFile(t: Tracee, p: Target, purpose: FilePurpose, regs: Regs) returns (ok: bool)
    requires Fits(t, p) && RegsOk(regs) && regs.arch == p.arch && t.moduleIndex < U32
    modifies t`content, t`filePurpose, t`fileFd, t`fileName, t`state, p`memory, p`regs, p`failures
    ensures Fits(t, p) && (ok ==> t.state.File? && t.filePurpose == purpose)
    ensures ok ==> t.fileName == FileName(purpose, t.moduleIndex) && |t.fileName| <= 22 && t.fileFd == -1
    ensures ok && Roomy(p, Sp(regs, p.w), |t.fileName|) ==>
              CreatesFile(t, p, StackFor(Sp(regs, p.w), |t.fileName|, |p.memory|))
    ensures t.state.File? || t.state == old(t.state)
    ensures !t.state.File? ==> p.regs == old(p.regs)
    ensures p.Answers(ok)
  {
    if purpose == Loader && t.content == [] {
      var content := ReadFile(p);
      if content.None? { return false; }
      t.content := content.value;
    }
    t.filePurpose := purpose;
    t.fileFd := -1;
    t.fileName := FileName(purpose, t.moduleIndex);
    FileNameLength(purpose, t.moduleIndex);
    ok := StartMemfd(t, p, regs);
  }

  /** How a part of a step ends: put back, or in a later phase with the invariant. */
  ghost predicate Ends(t: Tracee, p: Target, d: Config, progress: Progress, restored: bool, left: int)
    reads t, p
  {
    Fits(t, p)
    && if progress.Finished? then restored ==> Transparent(t, p)
       else Inv(t, p, d) && t.captured && Left(t, d) < left && (!t.state.Dlerror? ==> Left(t, d) == left - 1)
  }

  // ---- the boot plan in the target ----

  function FirstArgument(p: Target): nat
    requires p.Valid()
    reads p`memory, p`regs
  {
    var r := RegsOf(p.arch, p.regs);
    if p.arch == X86 then FromLe(Load(p.memory, After(Sp(r, p.w), 4, |p.memory|), 4))
    else if |LayoutOf(p.arch).value.args| > 0 then Argument(r, 0, p.w) else 0
  }

  /** The call that was set up passes the address of the encoded plan. */
  ghost predicate PlanInTarget(p: Target, plan: Plan)
    requires p.Valid() && PlanOk(plan)
    reads p`memory, p`regs
  {
    FirstArgument(p) < |p.memory| && |Encoded(plan)| <= |p.memory|
    && Load(p.memory, FirstArgument(p), |Encoded(plan)|) == Encoded(plan)
  }

  /** The plan says what the daemon knows and what was handed over. */
  predicate PlanOf(t: Tracee, d: Config, plan: Plan)
    reads t`modules, t`nonce
  {
    PlanOk(plan) && Encodable(plan) && AllHandedOver(plan) && plan.modules == t.modules && plan.nonce == t.nonce
    && plan.inlineEngine == d.inlineHook && plan.pltEngine == d.pltHook && plan.debugdata == d.debugdata
  }

  /** From the address the loader is given, parsePlan reads exactly that plan, whatever else the memory holds. */
  lemma LoaderReadsPlan(p: Target, plan: Plan, k: nat)
    requires p.Valid() && PlanOk(plan) && Encodable(plan) && AllHandedOver(plan) && PlanInTarget(p, plan)
    requires |Encoded(plan)| <= k <= |p.memory|
    ensures var raw := Load(p.memory, FirstArgument(p), k); Mapped(raw) && Accepted(raw) && Decoded(raw) == plan
  {
    hide Encoded, FirstArgument, Mapped, Accepted, Decoded, LayoutOf;
    var a, n := FirstArgument(p), |Encoded(plan)|;
    LoadInTwo(p.memory, a, n, k - n);
    RoundTrip(plan, Load(p.memory, After(a, n, |p.memory|), k - n));
  }

  /** The first argument of the call the target is about to make. */
  lemma ArgumentIs(p: Target, callee: nat, returnTo: nat, stack: nat)
    requires p.Valid() && stack < Usize(p.w) && Kept(p.arch, stack) == stack && Enters(p, callee, returnTo, [stack])
    requires p.arch == X86 ==> stack < Power256(4)
    ensures FirstArgument(p) == stack
  {
    hide Read, Store, Pc, Link;
    if p.arch == X86 {
      var sp := Sp(RegsOf(p.arch, p.regs), p.w);
      assert Stacked([stack]) == LeBytes(stack, 4) + Stacked([stack][1..]) == LeBytes(stack, 4);
      LoadInTwo(p.memory, sp, 4, 4);
      assert Load(p.memory, sp, 8)[4..] == LeBytes(stack, 4);
      LeBack(stack, 4);
    }
  }

  /** finish_injection from the encoded plan on: writes it below the stack pointer and calls the loader with it. */
  method EnterLoader(t: Tracee, p: Target, regs: Regs, plan: Plan, bytes: seq<byte>) returns (ok: bool)
    requires Fits(t, p) && PlanOk(plan) && Encodable(plan) && bytes == Encoded(plan) && regs == RegsOf(p.arch, p.regs)
    requires t.initFunction < Usize(p.w) && |bytes| + 0x40 <= |p.memory|
    modifies p`memory, p`regs, p`failures
    ensures Fits(t, p)
    ensures ok && Roomy(p, Sp(regs, p.w), |bytes|) ==>
              PlanInTarget(p, plan) && Enters(p, t.initFunction, ReturnTo(t, p), [FirstArgument(p)])
    ensures p.Answers(ok)
  {
    hide LayoutOf, Encoded, Load, Sp, SetSp, Encodable, StackFor, Roomy, FirstArgument, Enters;
    var address, regs' := PushBytes(p, regs, bytes);
    if address.None? { return false; }
    var stack := address.value;
    if Roomy(p, Sp(regs, p.w), |bytes|) {
      StackFits(p, regs, |bytes|);
    }
    ok := Call(t, p, regs', t.initFunction, [stack], |bytes|);
    if ok && Roomy(p, Sp(regs, p.w), |bytes|) { ArgumentIs(p, t.initFunction, ReturnTo(t, p), stack); }
  }

  /** finish_injection: the registers it starts from, and the call. */
  method SendPlan(t: Tracee, p: Target, plan: Plan, bytes: seq<byte>) returns (ok: bool)
    requires Fits(t, p) && PlanOk(plan) && Encodable(plan) && bytes == Encoded(plan)
    requires t.initFunction < Usize(p.w) && |bytes| + 0x40 <= |p.memory|
    modifies p`memory, p`regs, p`failures
    ensures Fits(t, p)
    ensures ok && Roomy(p, Sp(RegsOf(p.arch, old(p.regs)), p.w), |bytes|) ==>
              PlanInTarget(p, plan) && Enters(p, t.initFunction, ReturnTo(t, p), [FirstArgument(p)])
    ensures p.Answers(ok)
  {
    hide LayoutOf, RegisterSize, Encoded, Load, Sp, PlanInTarget, Encodable, Roomy, Enters, FirstArgument;
    var regs := p.ReadRegisters();
    if regs.None? { return false; }
    ok := EnterLoader(t, p, regs.value, plan, bytes);
  }

  /** The plan of what was handed over, and its bytes if it fits on the wire. */
  method MakePlan(t: Tracee, d: Config) returns (plan: Plan, bytes: Option<seq<byte>>)
    requires ConfigOk(d) && HandedOver(t) && SameLibraries(t, d) && t.moduleIndex == |t.modules|
    ensures PlanOk(plan) && (bytes.Some? <==> Encodable(PlanFor(d)))
    ensures bytes.Some? ==> Encodable(plan) && bytes.value == Encoded(plan) && PlanOf(t, d, plan)
  {
    hide Encoded, Encodable, AllHandedOver, HandedOver, SameLibraries, PlanFor;
    var token := FreshToken();
    plan := Plan(t.modules, d.inlineHook, d.pltHook, d.debugdata, t.nonce, token);
    SameEncodable(t, d, plan);
    bytes := Encode(plan);
    AllHere(t, plan);
  }

  /** finish_injection */
  method FinishInjection(t: Tracee, p: Target, d: Config)
      returns (progress: Progress, ghost restored: bool, ghost handed: Option<Plan>)
    requires Busy(t, p, d) && HandedOver(t) && SameLibraries(t, d) && t.moduleIndex == |t.modules| && !t.state.Entry?
    requires t.initFunction != 0
    modifies t`state, p`memory, p`regs, p`failures
    ensures Ends(t, p, d, progress, restored, 2)
    ensures progress.Tracing? ==> t.state.Init? && handed.Some? && PlanOf(t, d, handed.value)
    ensures progress.Finished? ==> handed.None?
    ensures progress.Tracing? && Roomy(p, Sp(RegsOf(p.arch, old(p.regs)), p.w), |Encoded(handed.value)|) ==>
              PlanInTarget(p, handed.value) && Enters(p, t.initFunction, ReturnTo(t, p), [FirstArgument(p)])
    ensures p.Judged(progress.Tracing?, Encodable(PlanFor(d)))
  {
    hide LayoutOf, RegisterSize, Encoded, Load, Sp, PlanInTarget, Encodable, PlanOf, PlanFor, Roomy, Enters,
         FirstArgument, TrapAt, Resumed, CodeRestored;
    progress, restored, handed := Finished, false, None;
    var plan, bytes := MakePlan(t, d);
    if bytes.None? {
      restored := Undo(t, p);
      return;
    }
    PlanFits(plan, p);
    var ok := SendPlan(t, p, plan, bytes.value);
    if !ok {
      restored := Undo(t, p);
      return;
    }
    t.state := Init;
    progress, handed := Tracing, Some(plan);
  }

  method FreshToken() returns (token: seq<byte>)
    ensures |token| == 16
  {
    token := *;
    if |token| != 16 { token := seq(16, _ => 0); }
  }

  lemma PlanFits(plan: Plan, p: Target)
    requires PlanOk(plan) && Encodable(plan) && p.Valid()
    ensures |Encoded(plan)| + 0x40 <= |p.memory|
  {
  }

  /** The plan of these libraries, with no descriptor, nonce or token in it yet. */
  function PlanFor(d: Config): Plan
    requires ConfigOk(d)
  {
    Plan(ModulesOf(d), d.inlineHook, d.pltHook, d.debugdata, 0, seq(16, _ => 0))
  }

  /** Whether a plan fits on the wire is known before anything is done to the target. */
  lemma SameEncodable(t: Tracee, d: Config, plan: Plan)
    requires ConfigOk(d) && HandedOver(t) && SameLibraries(t, d) && plan.modules == t.modules
    requires plan.inlineEngine == d.inlineHook && plan.pltEngine == d.pltHook && plan.debugdata == d.debugdata
    ensures Encodable(plan) <==> Encodable(PlanFor(d))
  {
    SamePaths(t.modules, ModulesOf(d));
    forall i | 0 <= i < |t.modules| ensures plan.modules[i].index == PlanFor(d).modules[i].index {}
  }

  lemma {:induction false} SamePaths(a: seq<PlanModule>, b: seq<PlanModule>)
    requires |a| == |b| && forall i :: 0 <= i < |a| ==> a[i].path == b[i].path
    ensures Paths(a) == Paths(b)
  {
    if a == [] {
    } else {
      SamePaths(a[..|a| - 1], b[..|b| - 1]);
    }
  }

  /** The file that is being filled is the last module's. */
  predicate LastModule(t: Tracee)
    reads t`filePurpose, t`moduleIndex, t`modules
  {
    t.filePurpose.Module? && t.moduleIndex + 1 == |t.modules|
  }

  lemma AllHere(t: Tracee, plan: Plan)
    requires HandedOver(t) && t.moduleIndex == |t.modules| && plan.modules == t.modules
    ensures AllHandedOver(plan)
  {
  }

  /** What the loader finds when it is entered. */
  ghost predicate Delivered(t: Tracee, p: Target, d: Config, progress: Progress, handed: Option<Plan>, regs: seq<byte>)
    requires Fits(t, p) && |regs| == RegisterSize(p.arch)
    reads t, p
  {
    (handed.Some? <==> progress.Tracing? && t.state.Init?)
    && (handed.Some? ==>
          PlanOf(t, d, handed.value)
          && (Roomy(p, Sp(RegsOf(p.arch, regs), p.w), |Encoded(handed.value)|) ==>
                PlanInTarget(p, handed.value) && Enters(p, t.initFunction, ReturnTo(t, p), [FirstArgument(p)])))
  }

  /**
   The call that the target has been made to enter in a stage, from the registers it had at its trap. That the registers
   for dlerror may not get through is not looked at.
   */
  ghost predicate Called(t: Tracee, p: Target, regs: seq<byte>, failed: bool)
    requires Fits(t, p) && |regs| == RegisterSize(p.arch)
    reads t, p
  {
    var sp, v := Sp(RegsOf(p.arch, regs), p.w), ReturnValue(RegsOf(p.arch, regs), p.w);
    match t.state
    case File =>
      t.fileName == FileName(t.filePurpose, t.moduleIndex) && |t.fileName| <= 22
      && (Roomy(p, sp, |t.fileName|) ==> CreatesFile(t, p, StackFor(sp, |t.fileName|, |p.memory|)))
    case Dlopen =>
      Roomy(p, sp, DLOPEN_BLOCK) ==> OpensLibrary(t, p, AsI32(v), StackFor(sp, DLOPEN_BLOCK, |p.memory|))
    case Dlsym => Roomy(p, sp, |INIT_NAME|) ==> LooksUpInit(t, p, v, StackFor(sp, |INIT_NAME|, |p.memory|))
    case Dlerror =>
      Roomy(p, sp, 0) ==>
        (p.regs == regs && failed) || Enters(p, p.symbols(DlerrorFunction), ReturnTo(t, p), [])
    case _ => true
  }

  /** The file of the next module. */
  method StartModuleFile(t: Tracee, p: Target, d: Config, regs: Regs)
      returns (progress: Progress, ghost restored: bool)
    requires Busy(t, p, d) && HandedOver(t) && SameLibraries(t, d) && (t.state.Dlsym? || t.state.File?)
    requires t.moduleIndex < |t.modules| && RegsOk(regs) && regs.arch == p.arch
    requires t.initFunction != 0
    modifies t`content, t`filePurpose, t`fileFd, t`fileName, t`state, p`memory, p`regs, p`failures
    ensures Ends(t, p, d, progress, restored, |t.modules| - t.moduleIndex + 2)
    ensures progress.Tracing? ==>
              t.state.File? && t.filePurpose.Module? && t.fileName == FileName(Module, t.moduleIndex)
    ensures progress.Tracing? ==> |t.fileName| <= 22
    ensures var sp := Sp(regs, p.w);
            progress.Tracing? && Roomy(p, sp, |t.fileName|) ==>
                CreatesFile(t, p, StackFor(sp, |t.fileName|, |p.memory|))
    ensures p.Answers(progress.Tracing?)
  {
    hide LayoutOf, Load, Sp, Roomy, Read, CreatesFile, Enters, StackFor, FileName, TrapAt, Resumed, HandedOver,
         SameLibraries, CodeRestored;
    progress, restored := Finished, false;
    var ok := StartFile(t, p, Module, regs);
    if !ok {
      restored := Undo(t, p);
      return;
    }
    progress := Tracing;
  }

  /** pump_modules while a module is left: starts its file in the target. */
  method StartModule(t: Tracee, p: Target, d: Config) returns (progress: Progress, ghost restored: bool)
    requires Busy(t, p, d) && HandedOver(t) && SameLibraries(t, d) && (t.state.Dlsym? || t.state.File?)
    requires t.moduleIndex < |t.modules|
    requires t.initFunction != 0
    modifies t`moduleContent, t`content, t`filePurpose, t`fileFd, t`fileName, t`state, p`memory, p`regs, p`failures
    ensures Ends(t, p, d, progress, restored, |t.modules| - t.moduleIndex + 2)
    ensures progress.Tracing? ==>
              t.state.File? && t.filePurpose.Module? && t.fileName == FileName(Module, t.moduleIndex)
    ensures progress.Tracing? ==> |t.fileName| <= 22
    ensures var sp := Sp(RegsOf(p.arch, old(p.regs)), p.w);
            progress.Tracing? && Roomy(p, sp, |t.fileName|) ==>
                CreatesFile(t, p, StackFor(sp, |t.fileName|, |p.memory|))
    ensures p.Answers(progress.Tracing?)
    ensures progress.Tracing? ==> Called(t, p, old(p.regs), old(p.failures) < p.failures)
  {
    hide LayoutOf, Load, Sp, Roomy, Read, CreatesFile, Enters, StackFor, FileName, TrapAt, Resumed,
         HandedOver, SameLibraries, CodeRestored, Captured;
    progress, restored := Finished, false;
    var content := ReadFile(p);
    if content.None? {
      restored := Undo(t, p);
      return;
    }
    t.moduleContent := content.value;
    var regs := p.ReadRegisters();
    if regs.None? {
      restored := Undo(t, p);
      return;
    }
    progress, restored := StartModuleFile(t, p, d, regs.value);
  }

  /** pump_modules */
  method PumpModules(t: Tracee, p: Target, d: Config)
      returns (progress: Progress, ghost restored: bool, ghost handed: Option<Plan>)
    requires Busy(t, p, d) && HandedOver(t) && SameLibraries(t, d) && (t.state.Dlsym? || t.state.File?)
    requires t.initFunction != 0
    modifies t`moduleContent, t`content, t`filePurpose, t`fileFd, t`fileName, t`state, p`memory, p`regs, p`failures
    ensures Ends(t, p, d, progress, restored, |t.modules| - t.moduleIndex + 2)
    ensures Delivered(t, p, d, progress, handed, old(p.regs))
    ensures p.Judged(progress.Tracing?, t.moduleIndex < |t.modules| || Encodable(PlanFor(d)))
    ensures progress.Tracing? ==> t.state.File? || t.state.Init?
    ensures progress.Tracing? ==> Called(t, p, old(p.regs), old(p.failures) < p.failures)
  {
    hide LayoutOf, Encoded, Load, Sp, PlanInTarget, Roomy, PlanOf, Read, FirstArgument, Enters, FileName;
    restored, handed := false, None;
    if t.moduleIndex >= |t.modules| {
      progress, restored, handed := FinishInjection(t, p, d);
    } else {
      progress, restored := StartModule(t, p, d);
    }
  }

  /** Filling a descriptor of the target with a file may fail. */
  method WriteToTargetFd(p: Target) returns (ok: bool)
    modifies p`failures
    ensures p.Answers(ok)
  {
    ok := *;
    if !ok { p.failures := p.failures + 1; }
  }

  /** A 32-bit int returned in a register. */
  function AsI32(v: nat): i32 { Signed(v % U32) }

  const ANDROID_DLEXT_USE_LIBRARY_FD := 0x10
  const LIBLOADER_NAME: seq<byte> := [108, 105, 98, 108, 111, 97, 100, 101, 114, 46, 115, 111, 0]
  const INIT_NAME: seq<byte> := [122, 110, 110, 95, 108, 111, 97, 100, 101, 114, 95, 105, 110, 105, 116, 0]
  const EXTINFO_SIZE := 48
  const RTLD_NOW := 2

  /** The android_dlextinfo block: the flags, and the descriptor where the target's word size puts it. */
  function ExtInfo(a: Arch, fd: i32): (r: seq<byte>)
    ensures |r| == EXTINFO_SIZE
  {
    var at := if Is64(a) then 28 else 20;
    LeBytes(ANDROID_DLEXT_USE_LIBRARY_FD, 8) + seq(at - 8, _ => 0) + LeBytes(Unsigned(fd), 4) + seq(44 - at, _ => 0)
  }

  /** The descriptor and its flag are where android_dlopen_ext looks for them. */
  lemma ExtInfoFields(a: Arch, fd: i32)
    ensures FromLe(ExtInfo(a, fd)[..8]) == ANDROID_DLEXT_USE_LIBRARY_FD
    ensures var at := if Is64(a) then 28 else 20; FromLe(ExtInfo(a, fd)[at..at + 4]) == Unsigned(fd)
  {
    hide LeBytes, FromLe;
    var at := if Is64(a) then 28 else 20;
    assert ExtInfo(a, fd)[..8] == LeBytes(ANDROID_DLEXT_USE_LIBRARY_FD, 8);
    assert ExtInfo(a, fd)[at..at + 4] == LeBytes(Unsigned(fd), 4);
    LeBack(ANDROID_DLEXT_USE_LIBRARY_FD, 8);
    LeBack(Unsigned(fd), 4);
    Powers();
  }

  const DLOPEN_BLOCK := 16 + EXTINFO_SIZE

  /** The target is about to load the library with this descriptor; name and extension block lie at `stack`. */
  ghost predicate OpensLibrary(t: Tracee, p: Target, fd: i32, stack: nat)
    requires Fits(t, p) && 128 < |p.memory|
    reads t, p`memory, p`regs
  {
    stack < |p.memory|
    && Enters(p, p.symbols(DlopenExtFunction), ReturnTo(t, p), [stack, RTLD_NOW, After(stack, 16, |p.memory|), t.entry])
    && Load(p.memory, stack, |LIBLOADER_NAME|) == LIBLOADER_NAME
    && Load(p.memory, After(stack, 16, |p.memory|), EXTINFO_SIZE) == ExtInfo(t.arch, fd)
  }

  /** Writes the name and the extension block. */
  method WriteDlopenArguments(t: Tracee, p: Target, stack: nat, fd: i32) returns (ok: bool)
    requires Fits(t, p) && stack < |p.memory|
    modifies p`memory, p`failures
    ensures Fits(t, p)
    ensures ok ==> Load(p.memory, stack, |LIBLOADER_NAME|) == LIBLOADER_NAME
                   && Load(p.memory, After(stack, 16, |p.memory|), EXTINFO_SIZE) == ExtInfo(t.arch, fd)
    ensures p.Answers(ok)
  {
    hide LayoutOf, Load, Store, ExtInfo, RegisterSize;
    var extinfo := After(stack, 16, |p.memory|);
    ghost var m := p.memory;
    ghost var written;
    ok, written := p.WriteMemory(stack, LIBLOADER_NAME);
    if !ok { return; }
    assert LIBLOADER_NAME[..written] == LIBLOADER_NAME;
    LoadStore(m, stack, LIBLOADER_NAME);
    m := p.memory;
    ok, written := p.WriteMemory(extinfo, ExtInfo(t.arch, fd));
    if !ok { return; }
    assert ExtInfo(t.arch, fd)[..written] == ExtInfo(t.arch, fd);
    LoadStore(m, extinfo, ExtInfo(t.arch, fd));
    StoreAbove(m, stack, |LIBLOADER_NAME|, 16, ExtInfo(t.arch, fd));
  }

  /** Both parts of a block are kept when the whole block is. */
  lemma BlockKept(m: seq<byte>, m': seq<byte>, a: nat, i: nat, k: nat, size: nat)
    requires |m| == |m'| && a < |m| && i + k <= size <= |m| && Load(m, a, size) == Load(m', a, size)
    ensures Load(m, After(a, i, |m|), k) == Load(m', After(a, i, |m|), k)
  {
    LoadPart(m, a, i, k, size);
    LoadPart(m', a, i, k, size);
  }

  lemma LoadPart(m: seq<byte>, a: nat, i: nat, k: nat, size: nat)
    requires a < |m| && i + k <= size <= |m|
    ensures Load(m, After(a, i, |m|), k) == Load(m, a, size)[i..i + k]
  {
    var b := After(a, i, |m|);
    forall j | 0 <= j < k ensures Load(m, b, k)[j] == Load(m, a, size)[i..i + k][j] {}
  }

  /** start_dlopen */
  method StartDlopen(t: Tracee, p: Target, d: Config, regs: Regs, fd: i32)
      returns (progress: Progress, ghost restored: bool)
    requires Busy(t, p, d) && t.state.File? && RegsOk(regs) && regs.arch == p.arch
    modifies t`state, p`memory, p`regs, p`failures
    ensures Ends(t, p, d, progress, restored, |d.libraries| + 4)
    ensures progress.Tracing? ==> t.state.Dlopen?
    ensures progress.Tracing? && Roomy(p, Sp(regs, p.w), DLOPEN_BLOCK) ==>
              OpensLibrary(t, p, fd, StackFor(Sp(regs, p.w), DLOPEN_BLOCK, |p.memory|))
    ensures p.Answers(progress.Tracing?)
  {
    hide LayoutOf, Load, Store, Sp, SetSp, Read, Enters, StackFor, Roomy, ExtInfo;
    progress, restored := Finished, false;
    var dlopen := ResolveSymbol(p, DlopenExtFunction);
    if dlopen.None? {
      restored := Undo(t, p);
      return;
    }
    var stack := StackFor(Sp(regs, p.w), DLOPEN_BLOCK, |p.memory|);
    StackForBound(Sp(regs, p.w), DLOPEN_BLOCK, |p.memory|);
    var ok := WriteDlopenArguments(t, p, stack, fd);
    if ok { ok := CallDlopen(t, p, regs, stack, dlopen.value, fd); }
    if !ok {
      restored := Undo(t, p);
      return;
    }
    t.state := Dlopen;
    progress := Tracing;
  }

  /** start_dlopen once its arguments are in place. */
  method CallDlopen(t: Tracee, p: Target, regs: Regs, stack: nat, dlopen: nat, fd: i32) returns (ok: bool)
    requires Fits(t, p) && RegsOk(regs) && regs.arch == p.arch && dlopen == p.symbols(DlopenExtFunction) < Usize(p.w)
    requires stack == StackFor(Sp(regs, p.w), DLOPEN_BLOCK, |p.memory|) < Usize(p.w)
    requires Load(p.memory, stack, |LIBLOADER_NAME|) == LIBLOADER_NAME
    requires Load(p.memory, After(stack, 16, |p.memory|), EXTINFO_SIZE) == ExtInfo(t.arch, fd)
    modifies p`memory, p`regs, p`failures
    ensures Fits(t, p) && (ok && Roomy(p, Sp(regs, p.w), DLOPEN_BLOCK) ==> OpensLibrary(t, p, fd, stack))
    ensures p.Answers(ok)
  {
    hide LayoutOf, Load, Store, Sp, SetSp, Read, Enters, StackFor, Roomy, ExtInfo, RegisterSize;
    ghost var m := p.memory;
    var extinfo := After(stack, 16, |p.memory|);
    if Roomy(p, Sp(regs, p.w), DLOPEN_BLOCK) {
      StackFits(p, regs, DLOPEN_BLOCK);
    }
    ok := Call(t, p, SetSp(regs, stack), dlopen, [stack, RTLD_NOW, extinfo, t.entry], DLOPEN_BLOCK);
    if ok && Roomy(p, Sp(regs, p.w), DLOPEN_BLOCK) {
      BlockKept(m, p.memory, stack, 0, |LIBLOADER_NAME|, DLOPEN_BLOCK);
      BlockKept(m, p.memory, stack, 16, EXTINFO_SIZE, DLOPEN_BLOCK);
    }
  }

  /** The module at `i` has got the descriptor, and the next one is due. */
  predicate NextDescriptor(t: Tracee, modules: seq<PlanModule>, i: nat, fd: i32)
    reads t`modules, t`moduleIndex
  {
    i < |modules| && t.modules == modules[i := modules[i].(fd := fd)] && t.moduleIndex == i + 1
  }

  /** file_ready */
  method FileReady(t: Tracee, p: Target, d: Config, regs: Regs)
      returns (progress: Progress, ghost restored: bool, ghost handed: Option<Plan>)
    requires Inv(t, p, d) && t.state.File? && regs == RegsOf(p.arch, p.regs)
    requires 0 <= t.fileFd == AsI32(ReturnValue(regs, p.w))
    modifies t`modules, t`moduleIndex, t`moduleContent, t`content, t`filePurpose, t`fileFd, t`fileName, t`state,
             p`memory, p`regs, p`failures
    ensures Ends(t, p, d, progress, restored, old(Left(t, d)))
    ensures Delivered(t, p, d, progress, handed, old(p.regs))
    ensures progress.Tracing? && old(t.filePurpose).Module? ==>
              NextDescriptor(t, old(t.modules), old(t.moduleIndex), old(t.fileFd))
    ensures progress.Tracing? && old(t.filePurpose).Loader? && Roomy(p, Sp(regs, p.w), DLOPEN_BLOCK) ==>
              OpensLibrary(t, p, old(t.fileFd), StackFor(Sp(regs, p.w), DLOPEN_BLOCK, |p.memory|))
    ensures p.Judged(progress.Tracing?, !old(LastModule(t)) || Encodable(PlanFor(d)))
    ensures progress.Tracing? ==> t.state.File? || t.state.Init? || t.state.Dlopen?
    ensures progress.Tracing? ==> Called(t, p, old(p.regs), old(p.failures) < p.failures)
  {
    hide LayoutOf, Encoded, Load, Sp, PlanInTarget, Roomy, PlanOf, Read, Enters, FirstArgument, OpensLibrary, StackFor;
    progress, restored, handed := Finished, false, None;
    var fd := t.fileFd;
    var filled := WriteToTargetFd(p);
    if !filled {
      restored := Undo(t, p);
    } else if t.filePurpose == Loader {
      progress, restored := StartDlopen(t, p, d, regs, fd);
    } else {
      var i := t.moduleIndex;
      t.modules := t.modules[i := t.modules[i].(fd := fd)];
      t.moduleIndex := i + 1;
      progress, restored, handed := PumpModules(t, p, d);
    }
  }

  /** trap_file */
  method TrapFile(t: Tracee, p: Target, d: Config)
      returns (progress: Progress, ghost restored: bool, ghost handed: Option<Plan>)
    requires Inv(t, p, d) && t.state.File?
    modifies t`modules, t`moduleIndex, t`moduleContent, t`content, t`filePurpose, t`fileFd, t`fileName, t`state,
             p`memory, p`regs, p`failures
    ensures Ends(t, p, d, progress, restored, old(Left(t, d)))
    ensures Delivered(t, p, d, progress, handed, old(p.regs))
    ensures var fd := AsI32(ReturnValue(RegsOf(p.arch, old(p.regs)), p.w));
            progress.Tracing? && old(t.filePurpose).Module? ==>
                fd >= 0 && NextDescriptor(t, old(t.modules), old(t.moduleIndex), fd)
    ensures var fd, sp := AsI32(ReturnValue(RegsOf(p.arch, old(p.regs)), p.w)), Sp(RegsOf(p.arch, old(p.regs)), p.w);
            progress.Tracing? && old(t.filePurpose).Loader? && Roomy(p, sp, DLOPEN_BLOCK) ==>
              fd >= 0 && OpensLibrary(t, p, fd, StackFor(sp, DLOPEN_BLOCK, |p.memory|))
    ensures p.Judged(progress.Tracing?, AsI32(ReturnValue(RegsOf(p.arch, old(p.regs)), p.w)) >= 0
              && (!old(LastModule(t)) || Encodable(PlanFor(d))))
    ensures progress.Tracing? ==> t.state.File? || t.state.Init? || t.state.Dlopen?
    ensures progress.Tracing? ==> Called(t, p, old(p.regs), old(p.failures) < p.failures)
  {
    hide LayoutOf, Encoded, Load, Sp, PlanInTarget, Roomy, PlanOf, Read, Enters, FirstArgument, OpensLibrary, StackFor;
    progress, restored, handed := Finished, false, None;
    var regs := p.ReadRegisters();
    if regs.None? {
      restored := Undo(t, p);
      return;
    }
    var fd := AsI32(ReturnValue(regs.value, p.w));
    if fd < 0 {
      restored := Undo(t, p);
      return;
    }
    t.fileFd := fd;
    progress, restored, handed := FileReady(t, p, d, regs.value);
  }

  /** trap_after_dlopen: a null handle leads to dlerror, any other to dlsym. */
  method TrapAfterDlopen(t: Tracee, p: Target, d: Config) returns (progress: Progress, ghost restored: bool)
    requires Inv(t, p, d) && t.state.Dlopen?
    modifies t`state, p`memory, p`regs, p`failures
    ensures Ends(t, p, d, progress, restored, old(Left(t, d)))
    ensures var handle := ReturnValue(RegsOf(p.arch, old(p.regs)), p.w);
            progress.Tracing? ==> if handle == 0 then t.state.Dlerror? else t.state.Dlsym?
    ensures var handle, sp := ReturnValue(RegsOf(p.arch, old(p.regs)), p.w), Sp(RegsOf(p.arch, old(p.regs)), p.w);
            progress.Tracing? && handle != 0 && Roomy(p, sp, |INIT_NAME|) ==>
              LooksUpInit(t, p, handle, StackFor(sp, |INIT_NAME|, |p.memory|))
    ensures var handle, sp := ReturnValue(RegsOf(p.arch, old(p.regs)), p.w), Sp(RegsOf(p.arch, old(p.regs)), p.w);
            progress.Tracing? && handle == 0 && Roomy(p, sp, 0) ==>
              (p.regs == old(p.regs) && old(p.failures) < p.failures)
              || Enters(p, p.symbols(DlerrorFunction), ReturnTo(t, p), [])
    ensures p.Judged(progress.Tracing? && t.state.Dlsym?, ReturnValue(RegsOf(p.arch, old(p.regs)), p.w) != 0)
    ensures progress.Finished? ==> old(p.failures) < p.failures
    ensures progress.Tracing? ==> Called(t, p, old(p.regs), old(p.failures) < p.failures)
  {
    hide LayoutOf, Load, Store, Sp, SetSp, Read, Pushed, CallReady;
    progress, restored := Finished, false;
    var regs := p.ReadRegisters();
    if regs.None? {
      restored := Undo(t, p);
      return;
    }
    var handle := ReturnValue(regs.value, p.w);
    if handle == 0 {
      progress, restored := CallDlerror(t, p, d, regs.value);
    } else {
      progress, restored := CallDlsym(t, p, d, regs.value, handle);
    }
  }

  /** The call of dlerror; that its registers may not get through is not looked at. */
  method EnterDlerror(t: Tracee, p: Target, regs: Regs) returns (ready: bool)
    requires Fits(t, p) && RegsOk(regs) && regs.arch == p.arch
    modifies p`memory, p`regs, p`failures
    ensures Fits(t, p) && old(p.failures) <= p.failures && (!ready ==> old(p.failures) < p.failures)
    ensures ready && Roomy(p, Sp(regs, p.w), 0) ==>
              (p.regs == old(p.regs) && old(p.failures) < p.failures)
              || Enters(p, p.symbols(DlerrorFunction), ReturnTo(t, p), [])
  {
    hide LayoutOf, Load, Store, Sp, SetSp, Read, Pushed, CallReady, Enters;
    var dlerror := ResolveSymbol(p, DlerrorFunction);
    if dlerror.None? { return false; }
    ghost var m := p.memory;
    var regs';
    ready, regs' := p.SetupCall(regs, dlerror.value, ReturnTo(t, p), []);
    if !ready { return; }
    var written := p.WriteRegisters(regs');
    if written && Roomy(p, Sp(regs, p.w), 0) {
      SpFits(p, regs);
      Powers();
      CallEnters(p, regs', m, Sp(regs, p.w), dlerror.value, ReturnTo(t, p), []);
    }
  }

  /** trap_after_dlopen when the library was not loaded: asks dlerror why, even if the registers cannot be written. */
  method CallDlerror(t: Tracee, p: Target, d: Config, regs: Regs) returns (progress: Progress, ghost restored: bool)
    requires Inv(t, p, d) && t.state.Dlopen? && RegsOk(regs) && regs.arch == p.arch
    modifies t`state, p`memory, p`regs, p`failures
    ensures Ends(t, p, d, progress, restored, old(Left(t, d)))
    ensures progress.Tracing? ==> t.state.Dlerror?
    ensures progress.Tracing? && Roomy(p, Sp(regs, p.w), 0) ==>
              (p.regs == old(p.regs) && old(p.failures) < p.failures)
              || Enters(p, p.symbols(DlerrorFunction), ReturnTo(t, p), [])
    ensures old(p.failures) <= p.failures && (progress.Finished? ==> old(p.failures) < p.failures)
  {
    hide LayoutOf, Load, Sp, Read, Enters, Roomy, HandedOver, SameLibraries, CodeRestored, TrapAt, Resumed;
    progress, restored := Finished, false;
    var ready := EnterDlerror(t, p, regs);
    if !ready {
      restored := Undo(t, p);
      return;
    }
    t.state := Dlerror;
    progress := Tracing;
  }

  /** The target is about to look up the loader's entry point in the library just loaded. */
  ghost predicate LooksUpInit(t: Tracee, p: Target, handle: nat, stack: nat)
    requires Fits(t, p) && 128 < |p.memory|
    reads t, p`memory, p`regs
  {
    stack < |p.memory| && Enters(p, p.symbols(DlsymFunction), ReturnTo(t, p), [handle, stack])
    && Load(p.memory, stack, |INIT_NAME|) == INIT_NAME
  }

  /** The call of dlsym, with the name of the entry point below the stack pointer. */
  method EnterDlsym(t: Tracee, p: Target, regs: Regs, handle: nat) returns (ok: bool)
    requires Fits(t, p) && RegsOk(regs) && regs.arch == p.arch && handle < Usize(p.w)
    modifies p`memory, p`regs, p`failures
    ensures Fits(t, p) && p.Answers(ok)
    ensures ok && Roomy(p, Sp(regs, p.w), |INIT_NAME|) ==>
              LooksUpInit(t, p, handle, StackFor(Sp(regs, p.w), |INIT_NAME|, |p.memory|))
  {
    hide LayoutOf, Load, Store, Sp, SetSp, Read, Enters, StackFor, Roomy;
    var dlsym := ResolveSymbol(p, DlsymFunction);
    if dlsym.None? { return false; }
    var stack, regs' := PushBytes(p, regs, INIT_NAME);
    if stack.None? { return false; }
    if Roomy(p, Sp(regs, p.w), |INIT_NAME|) {
      StackFits(p, regs, |INIT_NAME|);
    }
    ok := Call(t, p, regs', dlsym.value, [handle, stack.value], |INIT_NAME|);
  }

  /** trap_after_dlopen when it was: looks up the loader's entry point. */
  method CallDlsym(t: Tracee, p: Target, d: Config, regs: Regs, handle: nat)
      returns (progress: Progress, ghost restored: bool)
    requires Inv(t, p, d) && t.state.Dlopen? && RegsOk(regs) && regs.arch == p.arch && handle < Usize(p.w)
    modifies t`state, p`memory, p`regs, p`failures
    ensures Ends(t, p, d, progress, restored, old(Left(t, d)))
    ensures progress.Tracing? ==> t.state.Dlsym?
    ensures progress.Tracing? && Roomy(p, Sp(regs, p.w), |INIT_NAME|) ==>
              LooksUpInit(t, p, handle, StackFor(Sp(regs, p.w), |INIT_NAME|, |p.memory|))
    ensures p.Answers(progress.Tracing?)
  {
    hide LayoutOf, Load, Sp, Read, Enters, StackFor, Roomy, HandedOver, SameLibraries, CodeRestored, TrapAt, Resumed;
    progress, restored := Finished, false;
    var ok := EnterDlsym(t, p, regs, handle);
    if !ok {
      restored := Undo(t, p);
      return;
    }
    t.state := Dlsym;
    progress := Tracing;
  }

  /** The configured libraries as modules: no descriptor is there yet. */
  function ModulesOf(d: Config): seq<PlanModule>
    requires ConfigOk(d)
  {
    seq(|d.libraries|, i requires 0 <= i < |d.libraries| =>
      PlanModule(i, d.libraries[i].path, d.libraries[i].companion, -1))
  }

  lemma FreshModules(t: Tracee, d: Config)
    requires ConfigOk(d) && t.modules == ModulesOf(d) && t.moduleIndex == 0
    ensures HandedOver(t) && SameLibraries(t, d)
  {
  }

  /** The modules of an injection, and the first of them. */
  method TakeModules(t: Tracee, p: Target, d: Config)
      returns (progress: Progress, ghost restored: bool, ghost handed: Option<Plan>)
    requires Busy(t, p, d) && t.state.Dlsym?
    requires t.initFunction != 0
    modifies t`nonce, t`modules, t`moduleIndex, t`moduleContent, t`content, t`filePurpose, t`fileFd, t`fileName,
             t`state, p`memory, p`regs, p`failures
    ensures Ends(t, p, d, progress, restored, |d.libraries| + 2)
    ensures Delivered(t, p, d, progress, handed, old(p.regs))
    ensures progress.Tracing? ==> t.moduleIndex == 0
    ensures p.Judged(progress.Tracing?, d.libraries != [])
    ensures progress.Tracing? ==> t.state.File? || t.state.Init?
    ensures progress.Tracing? ==> Called(t, p, old(p.regs), old(p.failures) < p.failures)
  {
    hide Called, LayoutOf, Encoded, Load, Sp, PlanInTarget, Roomy, PlanOf, Read, TrapAt, Resumed, StackFor,
         CodeRestored, HandedOver, SameLibraries, Captured;
    progress, restored, handed := Finished, false, None;
    t.modules := ModulesOf(d);
    if t.modules == [] {
      restored := Undo(t, p);
      return;
    }
    t.moduleIndex := 0;
    FreshModules(t, d);
    t.nonce := *;
    progress, restored, handed := PumpModules(t, p, d);
  }

  /** trap_after_dlsym */
  method TrapAfterDlsym(t: Tracee, p: Target, d: Config)
      returns (progress: Progress, ghost restored: bool, ghost handed: Option<Plan>)
    requires Inv(t, p, d) && t.state.Dlsym?
    modifies t`initFunction, t`nonce, t`modules, t`moduleIndex, t`moduleContent, t`content, t`filePurpose, t`fileFd,
             t`fileName, t`state, p`memory, p`regs, p`failures
    ensures Ends(t, p, d, progress, restored, old(Left(t, d)))
    ensures Delivered(t, p, d, progress, handed, old(p.regs))
    ensures progress.Tracing? ==>
              0 != t.initFunction == ReturnValue(RegsOf(p.arch, old(p.regs)), p.w) && t.moduleIndex == 0
    ensures p.Judged(progress.Tracing?,
                     ReturnValue(RegsOf(p.arch, old(p.regs)), p.w) != 0 && d.libraries != [])
    ensures progress.Tracing? ==> t.state.File? || t.state.Init?
    ensures progress.Tracing? ==> Called(t, p, old(p.regs), old(p.failures) < p.failures)
  {
    hide Called, LayoutOf, Encoded, Load, Sp, PlanInTarget, Roomy, PlanOf, Read, TrapAt, Resumed, StackFor,
         CodeRestored, Captured;
    progress, restored, handed := Finished, false, None;
    var regs := p.ReadRegisters();
    if regs.None? {
      restored := ReleaseTracee(t, p);
      return;
    }
    var function_ := ReturnValue(regs.value, p.w);
    if function_ == 0 {
      restored := Undo(t, p);
      return;
    }
    t.initFunction := function_;
    progress, restored, handed := TakeModules(t, p, d);
  }

  /** trap_after_dlerror: only for the log; then everything is put back. */
  method TrapAfterDlerror(t: Tracee, p: Target, d: Config) returns (progress: Progress, ghost restored: bool)
    requires Inv(t, p, d) && t.state.Dlerror?
    modifies p`memory, p`regs, p`failures
    ensures progress.Finished? && Ends(t, p, d, progress, restored, 0)
    ensures old(p.failures) <= p.failures
  {
    hide LayoutOf, Load, Read;
    progress, restored := Finished, false;
    var regs := p.ReadRegisters();
    if regs.None? {
      restored := ReleaseTracee(t, p);
      return;
    }
    var pointer := ReturnValue(regs.value, p.w);
    if pointer != 0 {
      var _, _ := p.ReadCString(pointer);
    }
    restored := Undo(t, p);
  }

  // ---- the first trap ----

  /** How the first trap ends: nothing was saved and no register touched, or the invariant of a running injection. */
  ghost predicate FirstEnds(t: Tracee, p: Target, d: Config, progress: Progress, restored: bool, left: int,
                            regs: seq<byte>)
    reads t, p
  {
    Fits(t, p)
    && (if t.captured then t.trap == regs && Captured(t, p) && Ends(t, p, d, progress, restored, left)
        else progress.Finished? && p.regs == regs && (restored ==> CodeRestored(t, p)))
  }

  /** What both first traps come to once the registers are saved: the loader's file is started in the target. */
  method StartLoader(t: Tracee, p: Target, d: Config, regs: Regs) returns (progress: Progress, ghost restored: bool)
    requires Busy(t, p, d) && (t.state.Entry? || t.state.Late?) && t.late == t.state.Late? && RegsOk(regs)
             && regs.arch == p.arch
    requires p.regs == t.trap && Sp(regs, p.w) == Sp(RegsOf(p.arch, t.trap), p.w)
    modifies t`content, t`filePurpose, t`fileFd, t`fileName, t`state, p`memory, p`regs, p`failures
    ensures FirstEnds(t, p, d, progress, restored, |d.libraries| + 5, t.trap)
    ensures progress.Tracing? ==> t.state.File? && t.filePurpose.Loader?
    ensures p.Answers(progress.Tracing?)
    ensures progress.Tracing? ==> Called(t, p, t.trap, old(p.failures) < p.failures)
  {
    hide LayoutOf, Load, Store, Read, Write, Pc, SetPc, CreatesFile, Enters, FileName, Roomy, StackFor, HandedOver,
         SameLibraries, CodeRestored;
    progress, restored := Finished, false;
    var ok := StartFile(t, p, Loader, regs);
    if !ok {
      restored := ReleaseTracee(t, p);
      return;
    }
    progress := Tracing;
  }

  /**
   trap_at_entry. While the state is still Entry no register was written, so that skipping back over the breakpoint
   is all a release has to do.
   */
  method TrapAtEntry(t: Tracee, p: Target, d: Config) returns (progress: Progress, ghost restored: bool)
    requires Inv(t, p, d) && t.state.Entry?
    modifies t`captured, t`trap, t`saved, t`content, t`filePurpose, t`fileFd, t`fileName, t`state, p`memory, p`regs,
             p`failures
    ensures FirstEnds(t, p, d, progress, restored, old(Left(t, d)), old(p.regs))
    ensures progress.Tracing? ==> t.state.File? && t.filePurpose.Loader?
    ensures p.Judged(progress.Tracing?, TrapAt(false, p.arch, t.entry, old(p.regs), p.w))
    ensures progress.Tracing? ==> Called(t, p, old(p.regs), old(p.failures) < p.failures)
  {
    hide LayoutOf, Load, Store, Read, Write, Pc, SetPc, CreatesFile, Enters, FileName, Roomy, StackFor, HandedOver,
         SameLibraries, CodeRestored;
    progress, restored := Finished, false;
    var regs := p.ReadRegisters();
    if regs.None? {
      restored := RestoreEntry(t, p);
      return;
    }
    if SeenPc(t.arch, regs.value, p.w) != ExpectedPc(t.arch, t.entry, p.w) {
      restored := RestoreEntry(t, p);
      return;
    }
    t.captured, t.trap := true, p.regs;
    t.saved := if TrapReportsNextInstruction(t.arch) then SetPc(regs.value, t.entry) else regs.value;
    if TrapReportsNextInstruction(t.arch) { SetPcOnly(regs.value, t.entry, p.w); }
    progress, restored := StartLoader(t, p, d, t.saved);
  }

  /** trap_at_late: the target was stopped where the breakpoint was planted, and has not run since. */
  method TrapAtLate(t: Tracee, p: Target, d: Config) returns (progress: Progress, ghost restored: bool)
    requires Inv(t, p, d) && t.state.Late?
    requires SeenPc(t.arch, RegsOf(t.arch, p.regs), p.w) == t.entry
    modifies t`entry, t`thumb, t`captured, t`trap, t`saved, t`content, t`filePurpose, t`fileFd, t`fileName, t`state,
             p`memory, p`regs, p`failures
    ensures FirstEnds(t, p, d, progress, restored, old(Left(t, d)), old(p.regs))
    ensures t.entry == old(t.entry)
    ensures t.thumb == old(t.thumb) || t.thumb == (t.arch == Arm32 && Pc(RegsOf(t.arch, old(p.regs)), p.w) % 2 != 0)
    ensures progress.Tracing? ==> t.state.File? && t.filePurpose.Loader?
    ensures p.Answers(progress.Tracing?)
    ensures progress.Tracing? ==> Called(t, p, old(p.regs), old(p.failures) < p.failures)
  {
    hide LayoutOf, Load, Store, Read, Write, Pc, SetPc, CreatesFile, Enters, FileName, Roomy, StackFor, HandedOver,
         SameLibraries, CodeRestored;
    progress, restored := Finished, false;
    var regs := p.ReadRegisters();
    if regs.None? {
      restored := RestoreEntry(t, p);
      return;
    }
    var pc := Pc(regs.value, p.w);
    if t.arch == Arm32 {
      t.thumb := pc % 2 != 0;
      t.entry := ClearBit0(pc);
    } else {
      t.entry := pc;
      t.thumb := false;
    }
    t.captured, t.trap := true, p.regs;
    t.saved := regs.value;
    progress, restored := StartLoader(t, p, d, regs.value);
  }

  // ---- every trap, and whole runs ----

  /** How a handled trap ends, whatever the phase. */
  ghost predicate StepEnds(t: Tracee, p: Target, d: Config, progress: Progress, restored: bool, left: int,
                           regs: seq<byte>)
    reads t, p
  {
    Fits(t, p)
    && (if progress.Tracing? then
          Inv(t, p, d) && t.captured && Left(t, d) < left && (!t.state.Dlerror? ==> Left(t, d) == left - 1)
        else if t.captured then restored ==> Transparent(t, p)
        else p.regs == regs && (restored ==> CodeRestored(t, p)))
  }

  /** A late target has not run since it was stopped at its entry. */
  predicate AtItsStop(t: Tracee, p: Target)
    requires Fits(t, p)
    reads t, p`memory, p`regs
  {
    t.state.Late? ==> SeenPc(t.arch, RegsOf(t.arch, p.regs), p.w) == t.entry
  }

  // ---- what an injection needs to go through ----

  /** How far an injection is: 0 before the first trap, then the loader's file, dlopen, dlsym, every module's file. */
  function Stage(t: Tracee, d: Config): int
    reads t`state, t`filePurpose, t`modules, t`moduleIndex
  {
    |d.libraries| + 5 - Left(t, d)
  }

  /** The stage at which the loader has got the plan. */
  function LastStage(d: Config): nat { 4 + |d.libraries| }

  /**
   What the registers must say at the trap of a stage: that it is the expected trap, then that each remote call gave
   what was asked of it. There must be a library, and a plan that fits.
   */
  predicate GoodAt(stage: int, d: Config, late: bool, a: Arch, entry: nat, w: nat, regs: seq<byte>)
    requires ConfigOk(d) && |regs| == RegisterSize(a) && LayoutOf(a).Some? && entry < Usize(w)
  {
    var v := ReturnValue(RegsOf(a, regs), w);
    if stage <= 0 then late || TrapAt(false, a, entry, regs, w)
    else if stage == 1 then AsI32(v) >= 0
    else if stage == 2 then v != 0
    else if stage == 3 then v != 0 && d.libraries != []
    else stage < LastStage(d) && AsI32(v) >= 0 && (stage == LastStage(d) - 1 ==> Encodable(PlanFor(d)))
  }

  /** The target's registers are what the injection needs them to be. */
  ghost predicate GoesOn(t: Tracee, p: Target, d: Config)
    requires ConfigOk(d) && Fits(t, p)
    reads t, p`memory, p`regs
  {
    !t.state.Dlerror? && GoodAt(Stage(t, d), d, t.late, p.arch, t.entry, p.w, p.regs)
  }

  lemma GoesOnIn(t: Tracee, p: Target, d: Config)
    requires Inv(t, p, d)
    ensures var v := ReturnValue(RegsOf(p.arch, p.regs), p.w);
            GoesOn(t, p, d) ==
            match t.state
            case Entry => TrapAt(false, p.arch, t.entry, p.regs, p.w)
            case Late => true
            case File => AsI32(v) >= 0 && (!LastModule(t) || Encodable(PlanFor(d)))
            case Dlopen => v != 0
            case Dlsym => v != 0 && d.libraries != []
            case _ => false
  {
    hide TrapAt, ReturnValue, PlanFor, Encodable, AsI32;
  }

  /**
   step: the injection is in its next stage exactly when the registers were good and nothing failed. Otherwise it has
   been given up, or asks dlerror for the reason.
   */
  method Step(t: Tracee, p: Target, d: Config)
      returns (progress: Progress, ghost restored: bool, ghost handed: Option<Plan>)
    requires Inv(t, p, d) && AtItsStop(t, p)
    modifies t, p`memory, p`regs, p`failures
    ensures StepEnds(t, p, d, progress, restored, old(Left(t, d)), old(p.regs))
    ensures Delivered(t, p, d, progress, handed, old(p.regs))
    ensures t.entry == old(t.entry) && t.breakpointSize == old(t.breakpointSize) && Original(t) == old(Original(t))
    ensures old(t.captured) ==> t.captured && t.saved == old(t.saved) && t.trap == old(t.trap)
    ensures !old(t.captured) && t.captured ==> t.trap == old(p.regs) && Captured(t, p)
    ensures p.Judged(progress.Tracing? && !t.state.Dlerror?, old(GoesOn(t, p, d)))
    ensures old(t.state).Dlerror? || old(t.state).Init? ==> progress.Finished?
    ensures progress.Tracing? && t.state.Init? <==> handed.Some?
    ensures progress.Tracing? ==> Called(t, p, old(p.regs), old(p.failures) < p.failures)
  {
    hide Called, LayoutOf, Encoded, Load, Store, Sp, PlanInTarget, Roomy, PlanOf, Read, Write, Pc, SetPc, SeenPc,
         ExpectedPc, TrapAt, Resumed;
    GoesOnIn(t, p, d);
    hide GoesOn;
    progress, restored, handed := Finished, false, None;
    match t.state
    case Entry => progress, restored := TrapAtEntry(t, p, d);
    case Late => progress, restored := TrapAtLate(t, p, d);
    case File => progress, restored, handed := TrapFile(t, p, d);
    case Dlopen => progress, restored := TrapAfterDlopen(t, p, d);
    case Dlsym => progress, restored, handed := TrapAfterDlsym(t, p, d);
    case Dlerror => progress, restored := TrapAfterDlerror(t, p, d);
    case Init => restored := ReleaseTracee(t, p);
    case Traced => assert false;
  }

  /** What the target has in its memory and its registers when it comes to a trap. */
  datatype Snapshot = Snapshot(memory: seq<byte>, regs: seq<byte>)

  /** Between two traps the target does as it likes: it comes to the next one with this memory and these registers. */
  method TargetRuns(p: Target, next: Snapshot)
    requires p.Valid() && |next.memory| == |p.memory| && |next.regs| == |p.regs|
    modifies p`memory, p`regs
    ensures p.Valid() && p.memory == next.memory && p.regs == next.regs
  {
    p.memory, p.regs := next.memory, next.regs;
  }

  /** What a run of the target looks like: it comes to enough traps. */
  predicate RunOf(p: Target, runs: seq<Snapshot>, traps: int)
    reads p`memory, p`regs
  {
    traps <= |runs| && forall k :: 0 <= k < |runs| ==> |runs[k].memory| == |p.memory| && |runs[k].regs| == |p.regs|
  }

  /** The registers at the trap `k` traps after the one that is at hand. */
  function RegsAt(regs: seq<byte>, runs: seq<Snapshot>, k: int): seq<byte>
    requires k <= |runs|
  {
    if k <= 0 then regs else runs[k - 1].regs
  }

  /** The registers are good at every trap from stage `first` up to `end`. */
  predicate GoodUpTo(first: int, end: int, d: Config, late: bool, a: Arch, entry: nat, w: nat, regs: seq<byte>,
                     runs: seq<Snapshot>)
    requires ConfigOk(d) && |regs| == RegisterSize(a) && LayoutOf(a).Some? && entry < Usize(w)
    requires forall k :: 0 <= k < |runs| ==> |runs[k].regs| == RegisterSize(a)
    requires end - first <= |runs| + 1
  {
    forall stage :: first <= stage < end ==> GoodTrap(stage, first, d, late, a, entry, w, regs, runs)
  }

  /** The registers are good at the trap of this stage; the trap of stage `first` is the one at hand. */
  predicate GoodTrap(stage: int, first: int, d: Config, late: bool, a: Arch, entry: nat, w: nat, regs: seq<byte>,
                     runs: seq<Snapshot>)
    requires ConfigOk(d) && |regs| == RegisterSize(a) && LayoutOf(a).Some? && entry < Usize(w)
    requires forall k :: 0 <= k < |runs| ==> |runs[k].regs| == RegisterSize(a)
    requires stage - first <= |runs|
  {
    GoodAt(stage, d, late, a, entry, w, RegsAt(regs, runs, stage - first))
  }

  /** The target resumes as `trap` says, with the program counter on the entry. */
  ghost predicate ResumesFrom(t: Tracee, p: Target, trap: seq<byte>)
    requires Fits(t, p) && |trap| == RegisterSize(t.arch)
    reads t, p`memory, p`regs
  {
    TrapAt(t.late, t.arch, t.entry, trap, p.w) && p.regs == Resumed(t.late, t.arch, t.entry, trap)
    && SeenPc(t.arch, RegsOf(t.arch, p.regs), p.w) == Kept(t.arch, t.entry)
  }

  /** The registers are good at every trap that is left, so that the loader gets its plan unless something fails. */
  ghost predicate MayHand(t: Tracee, p: Target, d: Config, runs: seq<Snapshot>)
    requires Inv(t, p, d) && RunOf(p, runs, Left(t, d))
    reads t, p
  {
    Stage(t, d) < LastStage(d)
    && GoodUpTo(Stage(t, d), LastStage(d), d, t.late, p.arch, t.entry, p.w, p.regs, runs)
  }

  /** The injection still leads up to the call of the loader, or past it. */
  predicate On(t: Tracee, progress: Progress)
    reads t`state
  {
    progress.Tracing? && !t.state.Dlerror?
  }

  /** Where an injection is after `traps` traps: `clean` says that nothing has failed, `regs` are those of the first. */
  ghost predicate Track(t: Tracee, p: Target, d: Config, progress: Progress, handed: bool, begin: int, traps: nat,
                        clean: bool, regs: seq<byte>, runs: seq<Snapshot>)
    requires ConfigOk(d) && |regs| == RegisterSize(p.arch) && LayoutOf(p.arch).Some? && t.entry < Usize(p.w)
    requires forall k :: 0 <= k < |runs| ==> |runs[k].regs| == RegisterSize(p.arch)
    requires LastStage(d) - begin <= |runs| + 1
    reads t
  {
    (On(t, progress) ==>
       Stage(t, d) == begin + traps <= LastStage(d) && (handed <==> t.state.Init?)
       && GoodUpTo(begin, begin + traps, d, t.late, p.arch, t.entry, p.w, regs, runs))
    && (handed ==> begin < LastStage(d)
                   && GoodUpTo(begin, LastStage(d), d, t.late, p.arch, t.entry, p.w, regs, runs))
    && (!On(t, progress) && !handed && clean ==>
          begin >= LastStage(d) || !GoodUpTo(begin, LastStage(d), d, t.late, p.arch, t.entry, p.w, regs, runs))
  }

  /** One trap further. */
  lemma NextTrap(t: Tracee, p: Target, d: Config, progress: Progress, handed: bool, begin: int, traps: nat, clean: bool,
                 regs: seq<byte>, runs: seq<Snapshot>, failed: bool, good: bool, before: bool)
    requires ConfigOk(d) && |regs| == RegisterSize(p.arch) && LayoutOf(p.arch).Some? && t.entry < Usize(p.w)
    requires forall k :: 0 <= k < |runs| ==> |runs[k].regs| == RegisterSize(p.arch)
    requires LastStage(d) - begin <= |runs| + 1 && begin + traps <= LastStage(d) && traps <= |runs|
    requires GoodUpTo(begin, begin + traps, d, t.late, p.arch, t.entry, p.w, regs, runs)
    requires good == GoodAt(begin + traps, d, t.late, p.arch, t.entry, p.w, RegsAt(regs, runs, traps))
    requires before <==> begin + traps == LastStage(d)
    requires before ==> begin < LastStage(d) || progress.Finished?
    requires On(t, progress) <==> good && !failed
    requires On(t, progress) ==> Stage(t, d) == begin + traps + 1 && (t.state.Init? <==> Stage(t, d) == LastStage(d))
    requires before ==> (handed <==> begin < LastStage(d))
    requires !before ==> (handed <==> progress.Tracing? && t.state.Init?)
    requires clean ==> !failed
    ensures Track(t, p, d, progress, handed, begin, traps + 1, clean, regs, runs)
  {
    hide GoodAt;
    if begin <= begin + traps < LastStage(d) {
      assert good == GoodTrap(begin + traps, begin, d, t.late, p.arch, t.entry, p.w, regs, runs);
    }
    LastIsLast(d, t.late, p.arch, t.entry, p.w, RegsAt(regs, runs, traps));
  }

  lemma LastIsLast(d: Config, late: bool, a: Arch, entry: nat, w: nat, regs: seq<byte>)
    requires ConfigOk(d) && |regs| == RegisterSize(a) && LayoutOf(a).Some? && entry < Usize(w)
    ensures !GoodAt(LastStage(d), d, late, a, entry, w, regs)
  {
  }

  lemma StageIs(t: Tracee, p: Target, d: Config)
    requires Inv(t, p, d)
    ensures 0 <= Stage(t, d) <= LastStage(d)
    ensures Stage(t, d) == LastStage(d) <==> t.state.Init? || t.state.Dlerror?
  {
  }

  /**
   The rest of an injection from a trap on: at most one trap for every phase and every library that is left. `runs`
   is what the target has at the traps after this one. However it ends, if the writes that put things back succeed,
   the code under the breakpoint is the program's own and all registers are those of the first trap, with the program
   counter on the entry; when it ends before the first registers were saved, no register was touched. The loader gets
   its plan exactly when every remote call gave what was asked of it, and nothing failed.
   */
  method RunInjection(t: Tracee, p: Target, d: Config, runs: seq<Snapshot>)
      returns (traps: nat, ghost restored: bool, ghost handed: Option<Plan>)
    requires Inv(t, p, d) && AtItsStop(t, p) && RunOf(p, runs, Left(t, d))
    modifies t, p`memory, p`regs, p`failures
    ensures 1 <= traps <= old(Left(t, d)) && Fits(t, p) && old(p.failures) <= p.failures
    ensures t.entry == old(t.entry) && Original(t) == old(Original(t)) && t.breakpointSize == old(t.breakpointSize)
    ensures restored ==> CodeRestored(t, p)
    ensures old(t.captured) ==> t.captured
    ensures restored && t.captured ==>
              var trap := if old(t.captured) then old(t.trap) else old(p.regs);
              |trap| == RegisterSize(t.arch) && ResumesFrom(t, p, trap)
    ensures !t.captured ==> traps == 1 && p.regs == old(p.regs)
    ensures handed.Some? ==> old(MayHand(t, p, d, runs))
    ensures old(MayHand(t, p, d, runs)) && p.failures == old(p.failures) ==> handed.Some?
  {
    hide LayoutOf, RegisterSize, Encoded, Load, Store, Sp, PlanInTarget, Roomy, PlanOf, Read, Write, Pc, SetPc,
         SeenPc, Delivered, TrapAt, Resumed, HandedOver, SameLibraries, GoodAt, GoodUpTo, Track, CodeRestored, Left,
         StepEnds, Underway, Captured;
    ghost var first := if t.captured then t.trap else p.regs;
    ghost var left, was := Left(t, d), t.captured;
    ghost var regs, begin := p.regs, Stage(t, d);
    LeftPositive(t, p, d);
    SavedAt(t, p, d);
    var progress;
    progress, restored, handed := TrackedStep(t, p, d, None, begin, 0, true, regs, runs);
    traps := 1;
    UnderwayNow(t, p, d, progress, restored, 1, left, first, was, regs);
    while progress == Tracing
      invariant Fits(t, p) && t.entry == old(t.entry) && Original(t) == old(Original(t))
                && old(p.failures) <= p.failures
      invariant Underway(t, p, d, progress, restored, traps, left, first, was, regs)
      invariant Track(t, p, d, progress, handed.Some?, begin, traps, p.failures == old(p.failures), regs, runs)
      decreases if progress.Tracing? then 1 + Left(t, d) else 0
    {
      UnderwayFacts(t, p, d, restored, traps, left, first, was, regs);
      progress, restored, handed :=
        Advance(t, p, d, handed, begin, traps, p.failures == old(p.failures), regs, runs, restored, left, first, was);
      traps := traps + 1;
    }
    UnderwayEnds(t, p, d, restored, traps, left, first, was, regs);
    TrackEnds(t, p, d, handed.Some?, begin, traps, p.failures == old(p.failures), regs, runs);
  }

  /** What has been saved was saved at the first trap. */
  lemma SavedAt(t: Tracee, p: Target, d: Config)
    requires Inv(t, p, d)
    ensures t.captured ==> Captured(t, p)
  {
  }

  /** A run after `traps` traps: in the next phase or over, with what it owes the target. */
  ghost predicate Underway(t: Tracee, p: Target, d: Config, progress: Progress, restored: bool, traps: nat, left: int,
                           first: seq<byte>, was: bool, regs: seq<byte>)
    requires Fits(t, p)
    reads t, p
  {
    (progress.Tracing? ==> Inv(t, p, d) && t.captured && !t.state.Late? && traps + Left(t, d) <= left)
    && (progress.Finished? ==> traps <= left && (restored ==> CodeRestored(t, p)))
    && (t.captured ==> Captured(t, p) && t.trap == first)
    && (progress.Finished? && restored && t.captured ==> p.regs == Bytes(t.saved))
    && (was ==> t.captured) && (!t.captured ==> traps == 1 && p.regs == regs)
  }

  lemma UnderwayNow(t: Tracee, p: Target, d: Config, progress: Progress, restored: bool, traps: nat, left: int,
                    first: seq<byte>, was: bool, regs: seq<byte>)
    requires StepEnds(t, p, d, progress, restored, left - traps + 1, regs) && 0 < traps <= left
    requires t.captured ==> Captured(t, p) && t.trap == first
    requires (was ==> t.captured) && (!t.captured ==> traps == 1)
    ensures Underway(t, p, d, progress, restored, traps, left, first, was, regs)
  {
    hide LayoutOf, RegisterSize, Load, Read, Write, TrapAt, Resumed, HandedOver, SameLibraries;
    if progress == Tracing { LeftPositive(t, p, d); }
  }

  lemma UnderwayFacts(t: Tracee, p: Target, d: Config, restored: bool, traps: nat, left: int, first: seq<byte>,
                      was: bool, regs: seq<byte>)
    requires Fits(t, p) && Underway(t, p, d, Tracing, restored, traps, left, first, was, regs)
    ensures Inv(t, p, d) && t.captured && !t.state.Late? && traps + Left(t, d) <= left && 0 < Left(t, d)
  {
    LeftPositive(t, p, d);
  }

  lemma UnderwayEnds(t: Tracee, p: Target, d: Config, restored: bool, traps: nat, left: int, first: seq<byte>,
                     was: bool, regs: seq<byte>)
    requires Fits(t, p) && Underway(t, p, d, Finished, restored, traps, left, first, was, regs)
    ensures traps <= left && (restored ==> CodeRestored(t, p)) && (was ==> t.captured)
    ensures restored && t.captured ==> |first| == RegisterSize(t.arch) && ResumesFrom(t, p, first)
    ensures !t.captured ==> traps == 1 && p.regs == regs
  {
    hide LayoutOf, RegisterSize, Load, Read, Write, TrapAt, Resumed, SeenPc, CodeRestored;
    if t.captured { StandsOnEntry(t, p); }
  }

  /** The target runs to its next trap, and that is handled. */
  method Advance(t: Tracee, p: Target, d: Config, ghost before: Option<Plan>, ghost begin: int, traps: nat,
                 ghost clean: bool, ghost regs: seq<byte>, runs: seq<Snapshot>, ghost restored0: bool, ghost left: int,
                 ghost first: seq<byte>, ghost was: bool)
      returns (progress: Progress, ghost restored: bool, ghost handed: Option<Plan>)
    requires Fits(t, p) && |regs| == RegisterSize(p.arch) && RunOf(p, runs, left) && 0 < traps
    requires Underway(t, p, d, Tracing, restored0, traps, left, first, was, regs)
    requires LastStage(d) - begin <= |runs| + 1
             && Track(t, p, d, Tracing, before.Some?, begin, traps, clean, regs, runs)
    modifies t, p`memory, p`regs, p`failures
    ensures Fits(t, p) && t.entry == old(t.entry) && Original(t) == old(Original(t)) && old(p.failures) <= p.failures
    ensures Underway(t, p, d, progress, restored, traps + 1, left, first, was, regs)
    ensures Track(t, p, d, progress, handed.Some?, begin, traps + 1, clean && p.failures == old(p.failures), regs, runs)
    ensures progress.Tracing? ==> Left(t, d) < old(Left(t, d))
  {
    hide LayoutOf, RegisterSize, Load, Store, Read, Write, Pc, SetPc, SeenPc, TrapAt, Resumed, HandedOver,
         SameLibraries, GoodAt, GoodUpTo, CodeRestored;
    UnderwayFacts(t, p, d, restored0, traps, left, first, was, regs);
    ghost var now := Left(t, d);
    TargetRuns(p, runs[traps - 1]);
    ghost var found := p.regs;
    progress, restored, handed := TrackedStep(t, p, d, before, begin, traps, clean, regs, runs);
    if progress == Tracing { LeftPositive(t, p, d); }
  }

  lemma TrackEnds(t: Tracee, p: Target, d: Config, handed: bool, begin: int, traps: nat, clean: bool, regs: seq<byte>,
                  runs: seq<Snapshot>)
    requires ConfigOk(d) && |regs| == RegisterSize(p.arch) && LayoutOf(p.arch).Some? && t.entry < Usize(p.w)
    requires forall k :: 0 <= k < |runs| ==> |runs[k].regs| == RegisterSize(p.arch)
    requires LastStage(d) - begin <= |runs| + 1
    requires Track(t, p, d, Finished, handed, begin, traps, clean, regs, runs)
    ensures var good := begin < LastStage(d)
                        && GoodUpTo(begin, LastStage(d), d, t.late, p.arch, t.entry, p.w, regs, runs);
            (handed ==> good) && (good && clean ==> handed)
  {
  }

  /** One trap of a run, and where the injection is after it. */
  method TrackedStep(t: Tracee, p: Target, d: Config, ghost before: Option<Plan>, ghost begin: int, ghost traps: nat,
                     ghost clean: bool, ghost regs: seq<byte>, ghost runs: seq<Snapshot>)
      returns (progress: Progress, ghost restored: bool, ghost handed: Option<Plan>)
    requires Inv(t, p, d) && AtItsStop(t, p) && |regs| == RegisterSize(p.arch)
    requires forall k :: 0 <= k < |runs| ==> |runs[k].regs| == RegisterSize(p.arch)
    requires LastStage(d) - begin <= |runs| + 1 && traps <= |runs| && p.regs == RegsAt(regs, runs, traps)
    requires if traps == 0 then begin == Stage(t, d) && before.None?
             else Track(t, p, d, Tracing, before.Some?, begin, traps, clean, regs, runs)
    modifies t, p`memory, p`regs, p`failures
    ensures StepEnds(t, p, d, progress, restored, old(Left(t, d)), old(p.regs))
    ensures t.entry == old(t.entry) && t.breakpointSize == old(t.breakpointSize) && Original(t) == old(Original(t))
    ensures old(t.captured) ==> t.captured && t.saved == old(t.saved) && t.trap == old(t.trap)
    ensures !old(t.captured) && t.captured ==> t.trap == old(p.regs)
    ensures Fits(t, p) && (t.captured ==> Captured(t, p)) && old(p.failures) <= p.failures
    ensures Track(t, p, d, progress, handed.Some?, begin, traps + 1, clean && p.failures == old(p.failures), regs, runs)
  {
    hide LayoutOf, RegisterSize, Encoded, Load, Store, Sp, PlanInTarget, Roomy, PlanOf, Read, Write, Pc, SetPc,
         SeenPc, TrapAt, Resumed, HandedOver, SameLibraries, GoodAt, GoodUpTo;
    StageIs(t, p, d);
    ghost var on, good, last := On(t, Tracing), GoesOn(t, p, d), Stage(t, d) == LastStage(d);
    NothingBefore(d, t.late, p.arch, t.entry, p.w, begin, regs, runs);
    ghost var h;
    progress, restored, h := Step(t, p, d);
    handed := if h.Some? then h else before;
    if on {
      if progress == Tracing { StageIs(t, p, d); }
      NextTrap(t, p, d, progress, handed.Some?, begin, traps, clean && p.failures == old(p.failures), regs, runs,
               p.failures != old(p.failures), good, last);
    }
  }

  lemma NothingBefore(d: Config, late: bool, a: Arch, entry: nat, w: nat, begin: int, regs: seq<byte>,
                      runs: seq<Snapshot>)
    requires ConfigOk(d) && |regs| == RegisterSize(a) && LayoutOf(a).Some? && entry < Usize(w)
    requires forall k :: 0 <= k < |runs| ==> |runs[k].regs| == RegisterSize(a)
    ensures GoodUpTo(begin, begin, d, late, a, entry, w, regs, runs)
  {
  }

  lemma StandsOnEntry(t: Tracee, p: Target)
    requires Fits(t, p) && Captured(t, p)
    ensures SeenPc(t.arch, RegsOf(t.arch, Bytes(t.saved)), p.w) == Kept(t.arch, t.entry)
  {
    hide Read, Write, Pc, SeenPc, Resumed, TrapAt;
    ResumedAtEntry(t.late, t.arch, t.entry, t.trap, p.w);
  }

  lemma LeftPositive(t: Tracee, p: Target, d: Config)
    requires Inv(t, p, d)
    ensures Left(t, d) > 0
  {
  }

  /** arm_entry_injection and arm_entry_breakpoint: an armed tracee that satisfies the invariant. */
  method ArmEntry(p: Target, d: Config, entry: nat, thumb: bool) returns (ok: bool, t: Tracee)
    requires p.Valid() && 0 < entry < Usize(p.w) && ConfigOk(d)
    modifies p`memory, p`failures
    ensures fresh(t) && Fits(t, p) && t.entry == entry && p.regs == old(p.regs)
    ensures ok ==> Inv(t, p, d) && t.state.Entry? && t.breakpointSize == |Breakpoint(p.arch, thumb)|
                   && Original(t) == Load(old(p.memory), entry, t.breakpointSize)
                   && p.memory == Store(old(p.memory), entry, Breakpoint(p.arch, thumb))
    ensures p.Answers(ok)
  {
    hide Load, Store, LayoutOf;
    t := new Tracee(Entry, p.arch);
    t.entry := entry;
    t.thumb := thumb;
    ok := SetEntryBreakpoint(t, p, thumb);
  }

  /** seize_late_target from the stop on: `pc` was read at that stop. */
  method BeginLate(p: Target, d: Config, pc: nat) returns (seized: bool, t: Tracee, ghost restored: bool)
    requires p.Valid() && ConfigOk(d) && pc == Pc(RegsOf(p.arch, p.regs), p.w)
    modifies p`memory, p`regs, p`failures
    ensures fresh(t) && Fits(t, p) && t.late && t.entry == (if p.arch == Arm32 then ClearBit0(pc) else pc)
    ensures seized ==>
              Inv(t, p, d) && t.captured && !t.state.Late? && t.trap == old(p.regs) && Left(t, d) == |d.libraries| + 4
    ensures seized || restored ==>
              0 < t.breakpointSize == |Breakpoint(p.arch, t.thumb)| && t.thumb == (p.arch == Arm32 && pc % 2 != 0)
              && Original(t) == Load(old(p.memory), t.entry, t.breakpointSize)
    ensures !seized && restored ==> p.regs == old(p.regs) && CodeRestored(t, p)
    ensures p.Answers(seized)
    ensures seized ==> Called(t, p, old(p.regs), old(p.failures) < p.failures)
  {
    hide Load, Store, LayoutOf, Read, Write, Pc, SetPc, Encoded, Sp, PlanInTarget, Roomy, PlanOf;
    t := new Tracee(Late, p.arch);
    PcBound(p);
    t.entry := if p.arch == Arm32 then ClearBit0(pc) else pc;
    t.thumb := p.arch == Arm32 && pc % 2 != 0;
    seized := SetEntryBreakpoint(t, p, t.thumb);
    restored := false;
    if !seized { return; }
    ghost var regs := p.regs;
    var progress;
    progress, restored := TrapAtLate(t, p, d);
    seized := progress == Tracing;
  }

  lemma PcBound(p: Target)
    requires p.Valid()
    ensures Pc(RegsOf(p.arch, p.regs), p.w) < Usize(p.w)
  {
  }

  /** What an injection owes the target it found with this memory, for its code from `entry` on. */
  predicate CodeAsFound(p: Target, found: seq<byte>, entry: nat, size: nat)
    requires p.Valid() && |found| == |p.memory| && entry < |found| && size <= INSTRUCTION_CAPACITY
    reads p`memory, p`regs
  {
    Load(p.memory, entry, size) == Load(found, entry, size)
  }

  /**
   Armed, run to the end and put back. `runs` is what the target has when it traps at the breakpoint, and at every
   trap after that. The code at the entry is what it was before; `taken` says that the trap was the expected one and
   its registers were saved, and then the target resumes with them, on the entry. The loader gets its plan exactly
   when every trap was good and nothing failed.
   */
  method Inject(p: Target, d: Config, entry: nat, thumb: bool, runs: seq<Snapshot>)
      returns (armed: bool, traps: nat, ghost taken: bool, ghost restored: bool, ghost handed: Option<Plan>)
    requires p.Valid() && 0 < entry < Usize(p.w) && ConfigOk(d) && RunOf(p, runs, |d.libraries| + 6)
    modifies p`memory, p`regs, p`failures
    ensures p.Valid() && traps <= |d.libraries| + 5
    ensures armed && restored ==>
              var size := |Breakpoint(p.arch, thumb)|;
              size <= INSTRUCTION_CAPACITY && CodeAsFound(p, old(p.memory), entry, size)
    ensures armed && taken && restored ==>
              TrapAt(false, p.arch, entry, runs[0].regs, p.w) && p.regs == AtEntry(p.arch, entry, runs[0].regs)
              && SeenPc(p.arch, RegsOf(p.arch, p.regs), p.w) == Kept(p.arch, entry)
    ensures armed && !taken ==> traps == 1 && p.regs == runs[0].regs
    ensures !armed ==> p.regs == old(p.regs)
    ensures var good := GoodUpTo(0, LastStage(d), d, false, p.arch, entry, p.w, runs[0].regs, runs[1..]);
            (handed.Some? ==> armed && good) && (good && p.failures == old(p.failures) ==> handed.Some?)
  {
    hide Load, Store, LayoutOf, RegisterSize, SeenPc, TrapAt, AtEntry, GoodUpTo;
    traps, restored, taken, handed := 0, false, false, None;
    var t;
    armed, t := ArmEntry(p, d, entry, thumb);
    if armed {
      TargetRuns(p, runs[0]);
      traps, restored, handed := RunInjection(t, p, d, runs[1..]);
      taken := t.captured;
    }
  }

  /** The same for a target that was stopped past its entry: it resumes with the registers it was stopped with. */
  method InjectLate(p: Target, d: Config, pc: nat, runs: seq<Snapshot>)
      returns (begun: bool, traps: nat, ghost restored: bool, ghost handed: Option<Plan>)
    requires p.Valid() && ConfigOk(d) && pc == Pc(RegsOf(p.arch, p.regs), p.w) && RunOf(p, runs, |d.libraries| + 6)
    modifies p`memory, p`regs, p`failures
    ensures p.Valid() && traps <= |d.libraries| + 5
    ensures restored ==>
              var size := |Breakpoint(p.arch, p.arch == Arm32 && pc % 2 != 0)|;
              p.regs == old(p.regs) && size <= INSTRUCTION_CAPACITY
              && CodeAsFound(p, old(p.memory), if p.arch == Arm32 then ClearBit0(pc) else pc, size)
    ensures var entry := if p.arch == Arm32 then ClearBit0(pc) else pc;
            entry < Usize(p.w)
            && var good := GoodUpTo(1, LastStage(d), d, true, p.arch, entry, p.w, runs[0].regs, runs[1..]);
               (handed.Some? ==> begun && good) && (good && p.failures == old(p.failures) ==> handed.Some?)
  {
    hide Load, Store, LayoutOf, RegisterSize, SeenPc, TrapAt, GoodUpTo;
    var t;
    handed := None;
    begun, t, restored := BeginLate(p, d, pc);
    traps := 1;
    if begun {
      TargetRuns(p, runs[0]);
      var more;
      more, restored, handed := RunInjection(t, p, d, runs[1..]);
      traps := traps + more;
    }
  }
}
