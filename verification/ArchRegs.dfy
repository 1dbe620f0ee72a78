/** Register sets of the supported architectures as raw bytes, with fields at fixed offsets (arch.rs). */
module ArchRegs {
  import opened Bits

  const REGS_CAPACITY := 272

  datatype Arch = Arm32 | Arm64 | X86 | X86_64 | Riscv64 | Unknown

  datatype Layout = Layout(size: nat, word: nat, pc: nat, sp: nat, retval: nat, link: Option<nat>, args: seq<nat>,
                           memfdCreate: int)

  function LayoutOf(a: Arch): Option<Layout> {
    match a
    case Arm64 => Some(Layout(34 * 8, 8, 32 * 8, 31 * 8, 0, Some(30 * 8), [0, 8, 16, 24], 279))
    case Arm32 => Some(Layout(18 * 4, 4, 15 * 4, 13 * 4, 0, Some(14 * 4), [0, 4, 8, 12], 385))
    case X86_64 => Some(Layout(27 * 8, 8, 128, 152, 80, None, [112, 104, 96, 88], 319))
    case X86 => Some(Layout(17 * 4, 4, 48, 60, 24, None, [], 356))
    case Riscv64 => Some(Layout(32 * 8, 8, 0, 16, 80, Some(8), [80, 88, 96, 104, 112, 120, 128, 136], 279))
    case Unknown => None
  }

  function RegisterSize(a: Arch): (r: nat)
    ensures r <= REGS_CAPACITY
  {
    if LayoutOf(a).Some? then LayoutOf(a).value.size else 0
  }

  function MemfdCreateNumber(a: Arch): int {
    if LayoutOf(a).Some? then LayoutOf(a).value.memfdCreate else -1
  }

  predicate Is64(a: Arch) { a.Arm64? || a.X86_64? || a.Riscv64? }

  function Breakpoint(a: Arch, thumb: bool): seq<byte> {
    match a
    case Arm64 => [0x00, 0x00, 0x20, 0xD4]
    case Riscv64 => [0x73, 0x00, 0x10, 0x00]
    case X86_64 => [0xCC]
    case X86 => [0xCC]
    case Arm32 => if thumb then [0x00, 0xBE] else [0x70, 0x00, 0x20, 0xE1]
    case Unknown => []
  }

  // ---- one register set ----

  /** A copied value in the source too: assigning it never aliases. */
  datatype Regs = Regs(arch: Arch, buffer: seq<byte>)

  predicate RegsOk(r: Regs) { |r.buffer| == REGS_CAPACITY }

  function NewRegs(a: Arch): (r: Regs)
    ensures RegsOk(r)
  {
    Regs(a, seq(REGS_CAPACITY, _ => 0))
  }

  function Bytes(r: Regs): seq<byte>
    requires RegsOk(r)
  {
    r.buffer[..RegisterSize(r.arch)]
  }

  /** An address or a register as the injector sees it: `w` is its own word size. */
  function Usize(w: nat): (r: nat)
    ensures r > 0
  {
    if w == 8 then 0x1_0000_0000_0000_0000 else 0x1_0000_0000
  }

  function Read(r: Regs, offset: nat, w: nat): (v: nat)
    requires RegsOk(r)
    ensures v < Usize(w)
  {
    if LayoutOf(r.arch).None? then 0
    else
      var l := LayoutOf(r.arch).value;
      if offset + l.word > |r.buffer| then 0
      else
        Powers();
        var v := FromLe(r.buffer[offset..offset + l.word]);
        if v < Usize(w) then v else 0
  }

  function Write(r: Regs, offset: nat, value: nat): (r': Regs)
    requires RegsOk(r)
    ensures RegsOk(r') && r'.arch == r.arch
  {
    if LayoutOf(r.arch).None? then r
    else
      var l := LayoutOf(r.arch).value;
      if offset + l.word > |r.buffer| then r
      else r.(buffer := r.buffer[..offset] + LeBytes(value, l.word) + r.buffer[offset + l.word..])
  }

  function Pc(r: Regs, w: nat): (v: nat)
    requires RegsOk(r)
    ensures v < Usize(w)
  {
    if LayoutOf(r.arch).Some? then Read(r, LayoutOf(r.arch).value.pc, w) else 0
  }

  function Sp(r: Regs, w: nat): (v: nat)
    requires RegsOk(r)
    ensures v < Usize(w)
  {
    if LayoutOf(r.arch).Some? then Read(r, LayoutOf(r.arch).value.sp, w) else 0
  }

  function ReturnValue(r: Regs, w: nat): (v: nat)
    requires RegsOk(r)
    ensures v < Usize(w)
  {
    if LayoutOf(r.arch).Some? then Read(r, LayoutOf(r.arch).value.retval, w) else 0
  }

  function Link(r: Regs, w: nat): Option<nat>
    requires RegsOk(r)
  {
    if LayoutOf(r.arch).Some? && LayoutOf(r.arch).value.link.Some?
    then Some(Read(r, LayoutOf(r.arch).value.link.value, w))
    else None
  }

  function Argument(r: Regs, i: nat, w: nat): nat
    requires RegsOk(r) && LayoutOf(r.arch).Some? && i < |LayoutOf(r.arch).value.args|
  {
    Read(r, LayoutOf(r.arch).value.args[i], w)
  }

  function SetPc(r: Regs, v: nat): (r': Regs)
    requires RegsOk(r)
    ensures RegsOk(r') && r'.arch == r.arch
  {
    if LayoutOf(r.arch).Some? then Write(r, LayoutOf(r.arch).value.pc, v) else r
  }

  function SetSp(r: Regs, v: nat): (r': Regs)
    requires RegsOk(r)
    ensures RegsOk(r') && r'.arch == r.arch
  {
    if LayoutOf(r.arch).Some? then Write(r, LayoutOf(r.arch).value.sp, v) else r
  }

  function SetLink(r: Regs, v: nat): (r': Regs)
    requires RegsOk(r)
    ensures RegsOk(r') && r'.arch == r.arch
  {
    if LayoutOf(r.arch).Some? && LayoutOf(r.arch).value.link.Some?
    then Write(r, LayoutOf(r.arch).value.link.value, v)
    else r
  }

  /** None when the architecture has no register for that argument. */
  function SetArgument(r: Regs, i: nat, v: nat): (r': Option<Regs>)
    requires RegsOk(r)
    ensures r'.Some? ==> RegsOk(r'.value) && r'.value.arch == r.arch
  {
    if LayoutOf(r.arch).Some? && i < |LayoutOf(r.arch).value.args| then
      Some(Write(r, LayoutOf(r.arch).value.args[i], v))
    else None
  }

  /** What a register of the target keeps of a value, as the injector reads it back. */
  function Kept(a: Arch, v: nat): nat
    requires LayoutOf(a).Some?
  {
    v % Power256(LayoutOf(a).value.word)
  }

  /** A field holds what was written to it, cut to the target's word. */
  lemma ReadBack(r: Regs, offset: nat, v: nat, w: nat)
    requires RegsOk(r) && LayoutOf(r.arch).Some? && offset + LayoutOf(r.arch).value.word <= REGS_CAPACITY
             && v < Usize(w)
    ensures Read(Write(r, offset, v), offset, w) == Kept(r.arch, v)
  {
    var l := LayoutOf(r.arch).value;
    var r' := Write(r, offset, v);
    assert r'.buffer[offset..offset + l.word] == LeBytes(v, l.word);
    LeBack(v, l.word);
    ModAtMost(v, Power256(l.word));
  }

  lemma ModAtMost(v: nat, m: nat)
    requires m > 0
    ensures v % m <= v
  {
    assert v == m * (v / m) + v % m;
    assert m * (v / m) >= 0;
  }

  predicate ApartBy(a: nat, b: nat, word: nat) { a + word <= b || b + word <= a }

  /** A write leaves every field that it does not overlap. */
  lemma ReadOther(r: Regs, o: nat, v: nat, p: nat, w: nat)
    requires RegsOk(r) && LayoutOf(r.arch).Some? && ApartBy(o, p, LayoutOf(r.arch).value.word)
    ensures Read(Write(r, o, v), p, w) == Read(r, p, w)
  {
    var l := LayoutOf(r.arch).value;
    var r' := Write(r, o, v);
    if p + l.word <= REGS_CAPACITY && o + l.word <= REGS_CAPACITY {
      assert r'.buffer[p..p + l.word] == r.buffer[p..p + l.word];
    }
  }

  /** The layout tables: no two fields overlap, and all of them lie inside the register set handed to the kernel. */
  lemma TablesApart(a: Arch)
    requires LayoutOf(a).Some?
    ensures var l := LayoutOf(a).value;
            (l.word == 4 || l.word == 8) && l.pc + l.word <= l.size && l.sp + l.word <= l.size
            && l.retval + l.word <= l.size && l.size <= REGS_CAPACITY
            && ApartBy(l.pc, l.sp, l.word) && ApartBy(l.pc, l.retval, l.word) && ApartBy(l.sp, l.retval, l.word)
            && (l.link.Some? ==> l.link.value + l.word <= l.size && ApartBy(l.link.value, l.pc, l.word)
                                 && ApartBy(l.link.value, l.sp, l.word))
            && forall i :: 0 <= i < |l.args| ==>
                 l.args[i] + l.word <= l.size && ApartBy(l.args[i], l.pc, l.word) && ApartBy(l.args[i], l.sp, l.word)
                 && (l.link.Some? ==> ApartBy(l.args[i], l.link.value, l.word))
                 && forall j :: 0 <= j < |l.args| && j != i ==> ApartBy(l.args[i], l.args[j], l.word)
  {
  }

  /** Setting the program counter changes the program counter and nothing else that is ever read. */
  lemma SetPcOnly(r: Regs, v: nat, w: nat)
    requires RegsOk(r) && LayoutOf(r.arch).Some? && v < Usize(w)
    ensures var r' := SetPc(r, v);
            Pc(r', w) == Kept(r.arch, v) && Sp(r', w) == Sp(r, w) && ReturnValue(r', w) == ReturnValue(r, w)
            && Link(r', w) == Link(r, w)
            && forall i :: 0 <= i < |LayoutOf(r.arch).value.args| ==> Argument(r', i, w) == Argument(r, i, w)
  {
    hide Read, Write;
    var l := LayoutOf(r.arch).value;
    TablesApart(r.arch);
    ReadBack(r, l.pc, v, w);
    ReadOther(r, l.pc, v, l.sp, w);
    ReadOther(r, l.pc, v, l.retval, w);
    if l.link.Some? { ReadOther(r, l.pc, v, l.link.value, w); }
    forall i | 0 <= i < |l.args| ensures Read(Write(r, l.pc, v), l.args[i], w) == Read(r, l.args[i], w) {
      ReadOther(r, l.pc, v, l.args[i], w);
    }
  }

  lemma SetSpOnly(r: Regs, v: nat, w: nat)
    requires RegsOk(r) && LayoutOf(r.arch).Some? && v < Usize(w)
    ensures var r' := SetSp(r, v);
            Sp(r', w) == Kept(r.arch, v) && Pc(r', w) == Pc(r, w) && ReturnValue(r', w) == ReturnValue(r, w)
            && Link(r', w) == Link(r, w)
            && forall i :: 0 <= i < |LayoutOf(r.arch).value.args| ==> Argument(r', i, w) == Argument(r, i, w)
  {
    hide Read, Write;
    var l := LayoutOf(r.arch).value;
    TablesApart(r.arch);
    ReadBack(r, l.sp, v, w);
    ReadOther(r, l.sp, v, l.pc, w);
    ReadOther(r, l.sp, v, l.retval, w);
    if l.link.Some? { ReadOther(r, l.sp, v, l.link.value, w); }
    forall i | 0 <= i < |l.args| ensures Read(Write(r, l.sp, v), l.args[i], w) == Read(r, l.args[i], w) {
      ReadOther(r, l.sp, v, l.args[i], w);
    }
  }

  lemma SetLinkOnly(r: Regs, v: nat, w: nat)
    requires RegsOk(r) && LayoutOf(r.arch).Some? && LayoutOf(r.arch).value.link.Some? && v < Usize(w)
    ensures var r' := SetLink(r, v);
            Link(r', w) == Some(Kept(r.arch, v)) && Pc(r', w) == Pc(r, w) && Sp(r', w) == Sp(r, w)
            && forall i :: 0 <= i < |LayoutOf(r.arch).value.args| ==> Argument(r', i, w) == Argument(r, i, w)
  {
    hide Read, Write;
    var l := LayoutOf(r.arch).value;
    TablesApart(r.arch);
    ReadBack(r, l.link.value, v, w);
    ReadOther(r, l.link.value, v, l.pc, w);
    ReadOther(r, l.link.value, v, l.sp, w);
    forall i | 0 <= i < |l.args| ensures Read(Write(r, l.link.value, v), l.args[i], w) == Read(r, l.args[i], w) {
      ReadOther(r, l.link.value, v, l.args[i], w);
    }
  }

  lemma SetArgumentOnly(r: Regs, i: nat, v: nat, w: nat)
    requires RegsOk(r) && LayoutOf(r.arch).Some? && i < |LayoutOf(r.arch).value.args| && v < Usize(w)
    ensures SetArgument(r, i, v).Some?
    ensures var r' := SetArgument(r, i, v).value;
            Argument(r', i, w) == Kept(r.arch, v) && Pc(r', w) == Pc(r, w) && Sp(r', w) == Sp(r, w)
            && Link(r', w) == Link(r, w)
            && forall j :: 0 <= j < |LayoutOf(r.arch).value.args| && j != i ==> Argument(r', j, w) == Argument(r, j, w)
  {
    hide Read, Write;
    var l := LayoutOf(r.arch).value;
    TablesApart(r.arch);
    ReadBack(r, l.args[i], v, w);
    ReadOther(r, l.args[i], v, l.pc, w);
    ReadOther(r, l.args[i], v, l.sp, w);
    if l.link.Some? { ReadOther(r, l.args[i], v, l.link.value, w); }
    forall j | 0 <= j < |l.args| && j != i ensures Read(Write(r, l.args[i], v), l.args[j], w) == Read(r, l.args[j], w) {
      ReadOther(r, l.args[i], v, l.args[j], w);
    }
  }
}
