/** The boot plan: written by the injector (plan.rs), read in the target by the loader (plan.cpp, ipc/plan.h). */
module BootPlan {
  import opened Bits

  const PLAN_MAGIC := 0x5A4E_4E31
  const PLAN_VERSION := 3
  const MAX_MODULES := 32
  const MAX_BYTES := 32 * 1024
  const HEADER_SIZE := 60
  const MODULE_SIZE := 20

  type u32 = x: int | 0 <= x < U32
  type i32 = x: int | -0x8000_0000 <= x < 0x8000_0000

  datatype PlanModule = PlanModule(index: u32, path: seq<byte>, companion: bool, fd: i32)

  datatype Plan = Plan(modules: seq<PlanModule>, inlineEngine: seq<byte>, pltEngine: seq<byte>, debugdata: seq<byte>,
                       nonce: u32, token: seq<byte>)

  /** A string as the plan refers to it: where it starts in the blob, and its length without the final zero. */
  datatype Ref = Ref(offset: u32, length: u32)

  predicate PlanOk(p: Plan) { |p.token| == 16 }

  // ---- words ----

  function Word(v: u32): (r: seq<byte>)
    ensures |r| == 4
  {
    [v % 0x100, v / 0x100 % 0x100, v / 0x1_0000 % 0x100, v / 0x100_0000]
  }

  function WordAt(raw: seq<byte>, k: nat): u32
    requires k + 4 <= |raw|
  {
    raw[k] as int + raw[k + 1] as int * 0x100 + raw[k + 2] as int * 0x1_0000 + raw[k + 3] as int * 0x100_0000
  }

  function Unsigned(v: i32): u32 { if v < 0 then v + U32 else v }
  function Signed(v: u32): i32 { if v >= 0x8000_0000 then v - U32 else v }

  function Words(ws: seq<u32>): (r: seq<byte>)
    ensures |r| == 4 * |ws|
  {
    if ws == [] then [] else Words(ws[..|ws| - 1]) + Word(ws[|ws| - 1])
  }

  lemma WordBack(v: u32)
    ensures WordAt(Word(v), 0) == v
  {
    assert v == v / 0x100 * 0x100 + v % 0x100;
    assert v / 0x100 == v / 0x1_0000 * 0x100 + v / 0x100 % 0x100;
    assert v / 0x1_0000 == v / 0x100_0000 * 0x100 + v / 0x1_0000 % 0x100;
  }

  lemma WordInside(a: seq<byte>, b: seq<byte>, c: seq<byte>, k: nat)
    requires k + 4 <= |b|
    ensures WordAt(a + b + c, |a| + k) == WordAt(b, k)
  {
    forall i | k <= i < k + 4 ensures (a + b + c)[|a| + i] == b[i] {}
  }

  lemma {:induction false} WordsBack(ws: seq<u32>, i: nat)
    requires i < |ws|
    ensures WordAt(Words(ws), 4 * i) == ws[i]
  {
    var last := |ws| - 1;
    assert Words(ws) == [] + Words(ws[..last]) + Word(ws[last]);
    if i < last {
      WordsBack(ws[..last], i);
      WordInside([], Words(ws[..last]), Word(ws[last]), 4 * i);
    } else {
      WordBack(ws[last]);
      assert Words(ws) == Words(ws[..last]) + Word(ws[last]) + [];
      WordInside(Words(ws[..last]), Word(ws[last]), [], 0);
    }
  }

  lemma WordsPush(ws: seq<u32>, w: u32)
    ensures Words(ws + [w]) == Words(ws) + Word(w)
  {
    assert (ws + [w])[..|ws|] == ws;
  }

  // ---- the layout ----

  function Str(s: seq<byte>): (r: seq<byte>)
    ensures |r| == |s| + 1
  {
    s + [0]
  }

  function Paths(ms: seq<PlanModule>): seq<byte> {
    if ms == [] then [] else Paths(ms[..|ms| - 1]) + Str(ms[|ms| - 1].path)
  }

  function Options(p: Plan): seq<byte> { Str(p.inlineEngine) + Str(p.pltEngine) + Str(p.debugdata) }

  function Blob(p: Plan): seq<byte> { Options(p) + Paths(p.modules) }

  function RefTo(offset: nat, s: seq<byte>): Ref { Ref(offset % U32, |s| % U32) }

  function PathRef(p: Plan, i: nat): Ref
    requires i < |p.modules|
  {
    RefTo(|Options(p)| + |Paths(p.modules[..i])|, p.modules[i].path)
  }

  function OptionWords(p: Plan): seq<u32> {
    var i, l, d := RefTo(0, p.inlineEngine), RefTo(|p.inlineEngine| + 1, p.pltEngine),
                   RefTo(|p.inlineEngine| + |p.pltEngine| + 2, p.debugdata);
    [i.offset, i.length, l.offset, l.length, d.offset, d.length]
  }

  function HeaderBytes(p: Plan, size: nat): (r: seq<byte>)
    requires PlanOk(p)
    ensures |r| == HEADER_SIZE
  {
    Words([PLAN_MAGIC, PLAN_VERSION, size % U32, |p.modules| % U32, p.nonce]) + p.token + Words(OptionWords(p))
  }

  function RecordWords(m: PlanModule, path: Ref): seq<u32> {
    [Unsigned(m.fd), if m.companion then 1 else 0, m.index, path.offset, path.length]
  }

  function Records(p: Plan, n: nat): (r: seq<byte>)
    requires n <= |p.modules|
    ensures |r| == MODULE_SIZE * n
  {
    if n == 0 then [] else Records(p, n - 1) + Words(RecordWords(p.modules[n - 1], PathRef(p, n - 1)))
  }

  function PlanSize(p: Plan): nat { HEADER_SIZE + MODULE_SIZE * |p.modules| + |Blob(p)| }

  /** What fits on the wire. */
  predicate Encodable(p: Plan) {
    |p.modules| <= MAX_MODULES && (forall i :: 0 <= i < |p.modules| ==> p.modules[i].index < MAX_MODULES)
    && PlanSize(p) <= MAX_BYTES
  }

  function Encoded(p: Plan): seq<byte>
    requires PlanOk(p)
  {
    HeaderBytes(p, PlanSize(p)) + Records(p, |p.modules|) + Blob(p)
  }

  // ---- the printer ----

  method PushString(blob: seq<byte>, value: seq<byte>) returns (blob': seq<byte>, ref: Ref)
    ensures blob' == blob + Str(value) && ref == RefTo(|blob|, value)
  {
    var offset := |blob| % U32;
    blob' := blob + value;
    blob' := blob' + [0];
    ref := Ref(offset, |value| % U32);
  }

  /** Appends a word; `ws` are the words behind `front` so far, `next` those with the new one. */
  method PushU32(out: seq<byte>, ghost front: seq<byte>, ghost ws: seq<u32>, value: u32, ghost next: seq<u32>)
      returns (out': seq<byte>)
    requires out == front + Words(ws) && next == ws + [value]
    ensures out' == front + Words(next)
  {
    WordsPush(ws, value);
    out' := out + Word(value);
  }

  method PushStringRef(out: seq<byte>, ghost front: seq<byte>, ghost ws: seq<u32>, ref: Ref, ghost next: seq<u32>)
      returns (out': seq<byte>)
    requires out == front + Words(ws) && next == ws + [ref.offset, ref.length]
    ensures out' == front + Words(next)
  {
    out' := PushU32(out, front, ws, ref.offset, ws + [ref.offset]);
    out' := PushU32(out', front, ws + [ref.offset], ref.length, next);
  }

  method PushHeader(p: Plan, size: nat, inline: Ref, plt: Ref, debugdata: Ref) returns (out: seq<byte>)
    requires PlanOk(p)
    requires OptionWords(p) ==
               [inline.offset, inline.length, plt.offset, plt.length, debugdata.offset, debugdata.length]
    ensures out == HeaderBytes(p, size)
  {
    hide Words;
    WordsOfNone();
    ghost var ws := [PLAN_MAGIC, PLAN_VERSION, size % U32, |p.modules| % U32, p.nonce];
    ghost var refs := OptionWords(p);
    out := PushU32([], [], [], PLAN_MAGIC, ws[..1]);
    out := PushU32(out, [], ws[..1], PLAN_VERSION, ws[..2]);
    out := PushU32(out, [], ws[..2], size % U32, ws[..3]);
    out := PushU32(out, [], ws[..3], |p.modules| % U32, ws[..4]);
    out := PushU32(out, [], ws[..4], p.nonce, ws);
    out := out + p.token;
    ghost var front := out;
    out := PushStringRef(out, front, [], inline, refs[..2]);
    out := PushStringRef(out, front, refs[..2], plt, refs[..4]);
    out := PushStringRef(out, front, refs[..4], debugdata, refs);
  }

  lemma WordsOfNone()
    ensures Words([]) == []
  {
  }

  /** One module record. */
  method PushModule(out: seq<byte>, m: PlanModule, path: Ref) returns (out': seq<byte>)
    ensures out' == out + Words(RecordWords(m, path))
  {
    hide Words;
    WordsOfNone();
    ghost var ws := RecordWords(m, path);
    var flags := 0;
    if m.companion { flags := 1; }
    out' := PushU32(out, out, [], Unsigned(m.fd), ws[..1]);
    out' := PushU32(out', out, ws[..1], flags, ws[..2]);
    out' := PushU32(out', out, ws[..2], m.index, ws[..3]);
    out' := PushStringRef(out', out, ws[..3], path, ws);
  }

  method PushPaths(p: Plan, blob0: seq<byte>) returns (blob: seq<byte>, paths: seq<Ref>)
    requires blob0 == Options(p)
    ensures blob == Blob(p) && |paths| == |p.modules| && forall k :: 0 <= k < |paths| ==> paths[k] == PathRef(p, k)
  {
    blob, paths := blob0, [];
    var i := 0;
    assert p.modules[..0] == [];
    while i < |p.modules|
      invariant i <= |p.modules| && |paths| == i && blob == Options(p) + Paths(p.modules[..i])
      invariant forall k :: 0 <= k < i ==> paths[k] == PathRef(p, k)
    {
      var ref;
      assert p.modules[..i + 1][..i] == p.modules[..i];
      blob, ref := PushString(blob, p.modules[i].path);
      paths := paths + [ref];
      i := i + 1;
    }
    assert p.modules[..i] == p.modules;
  }

  /** Plan::encode. */
  method Encode(p: Plan) returns (r: Option<seq<byte>>)
    requires PlanOk(p)
    ensures r.Some? <==> Encodable(p)
    ensures r.Some? ==> r.value == Encoded(p) && |r.value| == PlanSize(p)
  {
    hide Words, PathRef, RecordWords, Blob;
    if |p.modules| > MAX_MODULES { return None; }
    var i := 0;
    while i < |p.modules|
      invariant i <= |p.modules| && forall k :: 0 <= k < i ==> p.modules[k].index < MAX_MODULES
    {
      if p.modules[i].index >= MAX_MODULES { return None; }
      i := i + 1;
    }
    var blob, inline, plt, debugdata;
    blob, inline := PushString([], p.inlineEngine);
    blob, plt := PushString(blob, p.pltEngine);
    blob, debugdata := PushString(blob, p.debugdata);
    var paths;
    blob, paths := PushPaths(p, blob);
    var size := HEADER_SIZE + MODULE_SIZE * |p.modules| + |blob|;
    if size > MAX_BYTES { return None; }
    var out := PushHeader(p, size, inline, plt, debugdata);
    i := 0;
    while i < |p.modules|
      invariant i <= |p.modules| && out == HeaderBytes(p, size) + Records(p, i)
    {
      out := PushModule(out, p.modules[i], paths[i]);
      i := i + 1;
    }
    out := out + blob;
    return Some(out);
  }

  // ---- what the parser accepts ----

  function RefAt(raw: seq<byte>, k: nat): Ref
    requires k + 8 <= |raw|
  {
    Ref(WordAt(raw, k), WordAt(raw, k + 4))
  }

  /** An empty string may point anywhere; any other must be followed by a zero inside the blob. */
  predicate RefOk(blob: seq<byte>, ref: Ref) {
    ref.length == 0 || (ref.offset + ref.length < |blob| && blob[ref.offset + ref.length] == 0)
  }

  function StringOf(blob: seq<byte>, ref: Ref): seq<byte>
    requires RefOk(blob, ref)
  {
    if ref.length == 0 then [] else blob[ref.offset..ref.offset + ref.length]
  }

  predicate HeaderOk(raw: seq<byte>)
    requires |raw| >= HEADER_SIZE
  {
    WordAt(raw, 0) == PLAN_MAGIC && WordAt(raw, 4) == PLAN_VERSION && HEADER_SIZE <= WordAt(raw, 8) <= MAX_BYTES
    && WordAt(raw, 12) <= MAX_MODULES && HEADER_SIZE + MODULE_SIZE * WordAt(raw, 12) <= WordAt(raw, 8)
  }

  /** The caller's promise: a header can be read, and when it is accepted as many bytes as it claims. */
  predicate Mapped(raw: seq<byte>) {
    |raw| >= HEADER_SIZE && (HeaderOk(raw) ==> WordAt(raw, 8) <= |raw|)
  }

  function Count(raw: seq<byte>): nat
    requires Mapped(raw)
  {
    WordAt(raw, 12)
  }

  function BlobOf(raw: seq<byte>): seq<byte>
    requires Mapped(raw) && HeaderOk(raw)
  {
    raw[HEADER_SIZE + MODULE_SIZE * Count(raw)..WordAt(raw, 8)]
  }

  function ModuleBase(i: nat): nat { HEADER_SIZE + MODULE_SIZE * i }

  lemma ModuleBaseBound(raw: seq<byte>, i: nat)
    requires Mapped(raw) && HeaderOk(raw) && i < Count(raw)
    ensures ModuleBase(i) + MODULE_SIZE <= WordAt(raw, 8) <= |raw|
  {
  }

  predicate ModuleOk(raw: seq<byte>, i: nat)
    requires Mapped(raw) && HeaderOk(raw) && i < Count(raw)
  {
    ModuleBaseBound(raw, i);
    Signed(WordAt(raw, ModuleBase(i))) >= 0 && WordAt(raw, ModuleBase(i) + 8) < MAX_MODULES
    && RefOk(BlobOf(raw), RefAt(raw, ModuleBase(i) + 12))
  }

  function ModuleOf(raw: seq<byte>, i: nat): PlanModule
    requires Mapped(raw) && HeaderOk(raw) && i < Count(raw) && ModuleOk(raw, i)
  {
    ModuleBaseBound(raw, i);
    PlanModule(WordAt(raw, ModuleBase(i) + 8), StringOf(BlobOf(raw), RefAt(raw, ModuleBase(i) + 12)),
               WordAt(raw, ModuleBase(i) + 4) % 2 == 1, Signed(WordAt(raw, ModuleBase(i))))
  }

  predicate Accepted(raw: seq<byte>)
    requires Mapped(raw)
  {
    HeaderOk(raw) && RefOk(BlobOf(raw), RefAt(raw, 36)) && RefOk(BlobOf(raw), RefAt(raw, 44))
    && RefOk(BlobOf(raw), RefAt(raw, 52)) && forall i :: 0 <= i < Count(raw) ==> ModuleOk(raw, i)
  }

  function Decoded(raw: seq<byte>): Plan
    requires Mapped(raw) && Accepted(raw)
  {
    var blob := BlobOf(raw);
    Plan(seq(Count(raw), i requires 0 <= i < Count(raw) => ModuleOf(raw, i)), StringOf(blob, RefAt(raw, 36)),
         StringOf(blob, RefAt(raw, 44)), StringOf(blob, RefAt(raw, 52)), WordAt(raw, 16), raw[20..36])
  }

  // ---- the parser ----

  /** blobString: `out` is left alone for an empty string. */
  method BlobString(blob: seq<byte>, ref: Ref, out: seq<byte>) returns (ok: bool, out': seq<byte>)
    ensures ok <==> RefOk(blob, ref)
    ensures ok ==> out' == if ref.length == 0 then out else StringOf(blob, ref)
  {
    out' := out;
    if ref.length == 0 { return true, out; }
    if ref.offset > |blob| || ref.length > |blob| - ref.offset { return false, out; }
    var end := ref.offset + ref.length;
    if end >= |blob| { return false, out; }
    if blob[end] != 0 { return false, out; }
    return true, blob[ref.offset..ref.offset + ref.length];
  }

  const EMPTY_PLAN := Plan([], [], [], [], 0, [])

  method ParseModules(raw: seq<byte>) returns (ok: bool, modules: seq<PlanModule>)
    requires Mapped(raw) && HeaderOk(raw)
    ensures ok <==> forall i :: 0 <= i < Count(raw) ==> ModuleOk(raw, i)
    ensures ok ==> |modules| == Count(raw) && forall i :: 0 <= i < Count(raw) ==> modules[i] == ModuleOf(raw, i)
  {
    hide WordAt, BlobOf, RefOk, HeaderOk;
    modules := [];
    var blob := BlobOf(raw);
    var i := 0;
    while i < Count(raw)
      invariant i == |modules| <= Count(raw)
      invariant forall k :: 0 <= k < i ==> ModuleOk(raw, k) && modules[k] == ModuleOf(raw, k)
    {
      ModuleBaseBound(raw, i);
      var base := ModuleBase(i);
      var fd := Signed(WordAt(raw, base));
      var companion := WordAt(raw, base + 4) % 2 != 0;
      var index := WordAt(raw, base + 8);
      if fd < 0 || index >= MAX_MODULES {
        assert !ModuleOk(raw, i);
        return false, modules;
      }
      var good, path := BlobString(blob, RefAt(raw, base + 12), []);
      if !good {
        assert !ModuleOk(raw, i);
        return false, modules;
      }
      modules := modules + [PlanModule(index, path, companion, fd)];
      i := i + 1;
    }
    return true, modules;
  }

  /** parsePlan: `raw` is None for a null pointer. */
  method ParsePlan(raw: Option<seq<byte>>) returns (ok: bool, out: Plan)
    requires raw.Some? ==> Mapped(raw.value)
    ensures ok <==> raw.Some? && Accepted(raw.value)
    ensures ok ==> out == Decoded(raw.value)
  {
    hide WordAt, RefOk, ModuleOk, ModuleOf;
    out := EMPTY_PLAN;
    ok := false;
    if raw == None { return; }
    var bytes := raw.value;
    if WordAt(bytes, 0) != PLAN_MAGIC { return; }
    if WordAt(bytes, 4) != PLAN_VERSION { return; }
    var size := WordAt(bytes, 8);
    if size < HEADER_SIZE || size > MAX_BYTES { return; }
    var count := WordAt(bytes, 12);
    if count > MAX_MODULES { return; }
    var records := count * MODULE_SIZE;
    if HEADER_SIZE + records > size { return; }
    var blob := bytes[HEADER_SIZE + records..size];
    out := out.(nonce := WordAt(bytes, 16), token := bytes[20..36]);
    var inlineEngine, pltEngine, debugdata, modules;
    ok, inlineEngine := BlobString(blob, RefAt(bytes, 36), []);
    if !ok { return; }
    ok, pltEngine := BlobString(blob, RefAt(bytes, 44), []);
    if !ok { return; }
    ok, debugdata := BlobString(blob, RefAt(bytes, 52), []);
    if !ok { return; }
    ok, modules := ParseModules(bytes);
    if !ok { return; }
    out := Plan(modules, inlineEngine, pltEngine, debugdata, out.nonce, out.token);
  }

  // ---- the parser undoes the printer ----

  predicate AllHandedOver(p: Plan) {
    forall i :: 0 <= i < |p.modules| ==> p.modules[i].fd >= 0
  }

  lemma StrInside(a: seq<byte>, s: seq<byte>, c: seq<byte>)
    requires |a| + |s| < U32
    ensures var blob, ref := a + Str(s) + c, RefTo(|a|, s); RefOk(blob, ref) && StringOf(blob, ref) == s
  {
    var blob := a + Str(s) + c;
    assert blob == a + s + ([0] + c);
    assert blob[|a|..|a| + |s|] == s;
    assert blob[|a| + |s|] == 0;
  }

  lemma {:induction false} PathsSplit(ms: seq<PlanModule>, i: nat)
    requires i < |ms|
    ensures Paths(ms[..i]) + Str(ms[i].path) <= Paths(ms)
  {
    var last := |ms| - 1;
    if i == last {
    } else {
      PathsSplit(ms[..last], i);
      assert ms[..last][..i] == ms[..i];
    }
  }

  lemma PathInBlob(p: Plan, i: nat)
    requires i < |p.modules| && |Blob(p)| < U32
    ensures RefOk(Blob(p), PathRef(p, i)) && StringOf(Blob(p), PathRef(p, i)) == p.modules[i].path
  {
    hide Paths, RefOk, StringOf, Options;
    PathsSplit(p.modules, i);
    var a, s := Options(p) + Paths(p.modules[..i]), p.modules[i].path;
    var front := Paths(p.modules[..i]) + Str(s);
    var c := Paths(p.modules)[|front|..];
    assert Paths(p.modules) == front + c;
    assert Blob(p) == a + Str(s) + c;
    StrInside(a, s, c);
  }

  lemma OptionsInBlob(p: Plan)
    requires |Blob(p)| < U32
    ensures var b, w := Blob(p), OptionWords(p);
            RefOk(b, Ref(w[0], w[1])) && StringOf(b, Ref(w[0], w[1])) == p.inlineEngine
            && RefOk(b, Ref(w[2], w[3])) && StringOf(b, Ref(w[2], w[3])) == p.pltEngine
            && RefOk(b, Ref(w[4], w[5])) && StringOf(b, Ref(w[4], w[5])) == p.debugdata
  {
    hide Paths, RefOk, StringOf;
    OptionInBlob(p, [], p.inlineEngine, Str(p.pltEngine) + Str(p.debugdata) + Paths(p.modules));
    OptionInBlob(p, Str(p.inlineEngine), p.pltEngine, Str(p.debugdata) + Paths(p.modules));
    OptionInBlob(p, Str(p.inlineEngine) + Str(p.pltEngine), p.debugdata, Paths(p.modules));
  }

  lemma OptionInBlob(p: Plan, a: seq<byte>, s: seq<byte>, c: seq<byte>)
    requires |Blob(p)| < U32 && Blob(p) == a + Str(s) + c
    ensures RefOk(Blob(p), RefTo(|a|, s)) && StringOf(Blob(p), RefTo(|a|, s)) == s
  {
    hide Blob;
    StrInside(a, s, c);
  }

  lemma {:induction false} RecordsSplit(p: Plan, n: nat, i: nat)
    requires i < n <= |p.modules|
    ensures Records(p, i) + Words(RecordWords(p.modules[i], PathRef(p, i))) <= Records(p, n)
  {
    hide Words, PathRef, RecordWords;
    if i == n - 1 {
    } else {
      RecordsSplit(p, n - 1, i);
    }
  }

  /** The words of a plan that was laid out at the start of `raw`. */
  lemma HeaderInRaw(p: Plan, rest: seq<byte>, raw: seq<byte>)
    requires PlanOk(p) && Encodable(p) && raw == HeaderBytes(p, PlanSize(p)) + rest
    ensures WordAt(raw, 0) == PLAN_MAGIC && WordAt(raw, 4) == PLAN_VERSION && WordAt(raw, 8) == PlanSize(p)
    ensures WordAt(raw, 12) == |p.modules| && WordAt(raw, 16) == p.nonce && raw[20..36] == p.token
    ensures forall j :: 0 <= j < 6 ==> WordAt(raw, 36 + 4 * j) == OptionWords(p)[j]
  {
    hide WordAt, OptionWords, Words;
    var a := [PLAN_MAGIC, PLAN_VERSION, PlanSize(p) % U32, |p.modules| % U32, p.nonce];
    var b := OptionWords(p);
    SixWords(p);
    forall i | 0 <= i < 5 ensures WordAt(raw, 4 * i) == a[i] {
      WordsBack(a, i);
      assert raw == [] + Words(a) + (p.token + Words(b) + rest);
      WordInside([], Words(a), p.token + Words(b) + rest, 4 * i);
    }
    assert WordAt(raw, 4 * 0) == a[0] && WordAt(raw, 4 * 1) == a[1] && WordAt(raw, 4 * 2) == a[2]
           && WordAt(raw, 4 * 3) == a[3]
           && WordAt(raw, 4 * 4) == a[4];
    forall j | 0 <= j < 6 ensures WordAt(raw, 36 + 4 * j) == b[j] {
      WordsBack(b, j);
      assert raw == (Words(a) + p.token) + Words(b) + rest;
      WordInside(Words(a) + p.token, Words(b), rest, 4 * j);
    }
  }

  lemma SixWords(p: Plan)
    ensures |OptionWords(p)| == 6
  {
  }

  lemma RecordInRaw(p: Plan, i: nat, rest: seq<byte>, raw: seq<byte>)
    requires PlanOk(p) && i < |p.modules|
    requires raw == HeaderBytes(p, PlanSize(p)) + Records(p, |p.modules|) + rest
    ensures ModuleBase(i) + MODULE_SIZE <= |raw|
    ensures forall j :: 0 <= j < 5 ==> WordAt(raw, ModuleBase(i) + 4 * j) == RecordWords(p.modules[i], PathRef(p, i))[j]
  {
    hide WordAt, Words, PathRef, HeaderBytes;
    var w := RecordWords(p.modules[i], PathRef(p, i));
    RecordsSplit(p, |p.modules|, i);
    var all := Records(p, |p.modules|);
    var front := HeaderBytes(p, PlanSize(p)) + Records(p, i);
    var c := all[|Records(p, i) + Words(w)|..] + rest;
    assert all == Records(p, i) + Words(w) + all[|Records(p, i) + Words(w)|..];
    assert raw == front + Words(w) + c;
    forall j | 0 <= j < 5 ensures WordAt(raw, ModuleBase(i) + 4 * j) == w[j] {
      WordsBack(w, j);
      WordInside(front, Words(w), c, 4 * j);
    }
  }

  lemma SignedBack(v: i32)
    ensures Signed(Unsigned(v)) == v
  {
  }

  /** The module records of a laid-out plan: accepted exactly when a descriptor was handed over, and then unchanged. */
  lemma ModuleBack(p: Plan, i: nat, junk: seq<byte>, raw: seq<byte>)
    requires PlanOk(p) && Encodable(p) && i < |p.modules| && raw == Encoded(p) + junk
    requires Mapped(raw) && HeaderOk(raw) && Count(raw) == |p.modules| && BlobOf(raw) == Blob(p)
    ensures ModuleOk(raw, i) <==> p.modules[i].fd >= 0
    ensures ModuleOk(raw, i) ==> ModuleOf(raw, i) == p.modules[i]
  {
    hide WordAt, Words, PathRef, HeaderBytes, RefOk, StringOf, HeaderOk, BlobOf, Blob, PlanSize, Mapped;
    var m, path := p.modules[i], PathRef(p, i);
    assert raw == HeaderBytes(p, PlanSize(p)) + Records(p, |p.modules|) + (Blob(p) + junk);
    RecordInRaw(p, i, Blob(p) + junk, raw);
    var w := RecordWords(m, path);
    var k := ModuleBase(i);
    assert WordAt(raw, k + 4 * 0) == w[0] && WordAt(raw, k + 4 * 1) == w[1] && WordAt(raw, k + 4 * 2) == w[2]
           && WordAt(raw, k + 4 * 3) == w[3] && WordAt(raw, k + 4 * 4) == w[4];
    assert RefAt(raw, k + 12) == path;
    SignedBack(m.fd);
    BlobSmall(p);
    PathInBlob(p, i);
  }

  lemma BlobSmall(p: Plan)
    requires Encodable(p)
    ensures |Blob(p)| < U32
  {
  }

  lemma LaidOut(p: Plan, junk: seq<byte>, raw: seq<byte>)
    requires PlanOk(p) && Encodable(p) && raw == Encoded(p) + junk
    ensures Mapped(raw) && HeaderOk(raw) && Count(raw) == |p.modules| && BlobOf(raw) == Blob(p)
    ensures |raw| >= HEADER_SIZE && WordAt(raw, 16) == p.nonce && raw[20..36] == p.token
    ensures forall j :: 0 <= j < 6 ==> WordAt(raw, 36 + 4 * j) == OptionWords(p)[j]
  {
    hide WordAt, Words, HeaderBytes, Records, Blob, OptionWords;
    assert raw == HeaderBytes(p, PlanSize(p)) + (Records(p, |p.modules|) + Blob(p) + junk);
    HeaderInRaw(p, Records(p, |p.modules|) + Blob(p) + junk, raw);
    SixWords(p);
  }

  /**
   parsePlan undoes Plan::encode, whatever memory follows the plan: the loader gets back exactly the plan, and it
   refuses what encode wrote exactly when some module has no descriptor yet.
   */
  lemma RoundTrip(p: Plan, junk: seq<byte>)
    requires PlanOk(p) && Encodable(p)
    ensures Mapped(Encoded(p) + junk)
    ensures Accepted(Encoded(p) + junk) <==> AllHandedOver(p)
    ensures AllHandedOver(p) ==> Decoded(Encoded(p) + junk) == p
  {
    hide WordAt, Words, HeaderBytes, Records, Blob, OptionWords, RefOk, StringOf, HeaderOk, BlobOf, ModuleOk,
         ModuleOf, Mapped, Encoded;
    var raw := Encoded(p) + junk;
    LaidOut(p, junk, raw);
    BlobSmall(p);
    OptionsInBlob(p);
    SixWords(p);
    OptionRefs(p, raw);
    forall i | 0 <= i < |p.modules|
      ensures (ModuleOk(raw, i) <==> p.modules[i].fd >= 0) && (ModuleOk(raw, i) ==> ModuleOf(raw, i) == p.modules[i])
    {
      ModuleBack(p, i, junk, raw);
    }
    if AllHandedOver(p) {
      assert Decoded(raw).modules == p.modules;
    }
  }

  lemma OptionRefs(p: Plan, raw: seq<byte>)
    requires |raw| >= HEADER_SIZE && |OptionWords(p)| == 6
    requires forall j :: 0 <= j < 6 ==> WordAt(raw, 36 + 4 * j) == OptionWords(p)[j]
    ensures var w := OptionWords(p);
            RefAt(raw, 36) == Ref(w[0], w[1]) && RefAt(raw, 44) == Ref(w[2], w[3]) && RefAt(raw, 52) == Ref(w[4], w[5])
  {
    hide WordAt, OptionWords;
    var w := OptionWords(p);
    assert WordAt(raw, 36 + 4 * 0) == w[0] && WordAt(raw, 36 + 4 * 1) == w[1] && WordAt(raw, 36 + 4 * 2) == w[2]
           && WordAt(raw, 36 + 4 * 3) == w[3] && WordAt(raw, 36 + 4 * 4) == w[4] && WordAt(raw, 36 + 4 * 5) == w[5];
  }

  // ---- the parser stays inside the plan ----

  /** How much of the memory the parser may look at. */
  function Extent(raw: seq<byte>): nat
    requires Mapped(raw)
  {
    if HeaderOk(raw) then WordAt(raw, 8) else HEADER_SIZE
  }

  lemma SameWord(a: seq<byte>, b: seq<byte>, n: nat, k: nat)
    requires n <= |a| && n <= |b| && a[..n] == b[..n] && k + 4 <= n
    ensures WordAt(a, k) == WordAt(b, k)
  {
    forall i | k <= i < k + 4 ensures a[i] == b[i] { assert a[..n][i] == b[..n][i]; }
  }

  /** Nothing behind the first `size` bytes (or behind a header that is refused) makes any difference. */
  lemma ParserStaysInside(a: seq<byte>, b: seq<byte>)
    requires Mapped(a) && Mapped(b) && |b| >= Extent(a) && a[..Extent(a)] == b[..Extent(a)]
    ensures Accepted(a) <==> Accepted(b)
    ensures Accepted(a) ==> Decoded(a) == Decoded(b)
  {
    hide WordAt, RefOk, StringOf;
    var n := Extent(a);
    forall k: nat | k + 4 <= n ensures WordAt(a, k) == WordAt(b, k) { SameWord(a, b, n, k); }
    if HeaderOk(a) {
      assert BlobOf(a) == a[..n][ModuleBase(Count(a))..] == b[..n][ModuleBase(Count(a))..] == BlobOf(b);
      assert a[20..36] == a[..n][20..36] == b[..n][20..36] == b[20..36];
      forall i | 0 <= i < Count(a)
        ensures (ModuleOk(a, i) <==> ModuleOk(b, i)) && (ModuleOk(a, i) ==> ModuleOf(a, i) == ModuleOf(b, i))
      {
        ModuleBaseBound(a, i);
      }
    }
  }

  predicate TerminatedAt(raw: seq<byte>, s: seq<byte>, at: nat)
    requires Mapped(raw) && HeaderOk(raw)
  {
    ModuleBase(Count(raw)) <= at && at + |s| < WordAt(raw, 8) && raw[at..at + |s|] == s && raw[at + |s|] == 0
  }

  /** A NUL-terminated piece of the first `size` bytes of the plan, behind its records. */
  ghost predicate TerminatedSlice(raw: seq<byte>, s: seq<byte>)
    requires Mapped(raw) && HeaderOk(raw)
  {
    exists at: nat :: TerminatedAt(raw, s, at)
  }

  lemma SubSlice(raw: seq<byte>, base: nat, size: nat, o: nat, l: nat)
    requires base <= size <= |raw| && o + l < size - base
    ensures raw[base..size][o..o + l] == raw[base + o..base + o + l]
    ensures raw[base..size][o + l] == raw[base + o + l]
  {
    var a, b := raw[base..size][o..o + l], raw[base + o..base + o + l];
    assert |a| == |b|;
    forall k | 0 <= k < l ensures a[k] == b[k] {}
  }

  lemma SliceOfBlob(raw: seq<byte>, ref: Ref)
    requires Mapped(raw) && HeaderOk(raw) && RefOk(BlobOf(raw), ref) && ref.length > 0
    ensures TerminatedSlice(raw, StringOf(BlobOf(raw), ref))
  {
    hide WordAt;
    var base, size, o, l := ModuleBase(Count(raw)), WordAt(raw, 8), ref.offset, ref.length;
    var s := StringOf(BlobOf(raw), ref);
    assert base <= size <= |raw|;
    SubSlice(raw, base, size, o, l);
    assert TerminatedAt(raw, s, base + o);
  }

  /** Every accepted string that is not empty is a NUL-terminated slice of the plan's own bytes. */
  lemma StringsAreTerminated(raw: seq<byte>)
    requires Mapped(raw) && Accepted(raw)
    ensures var p := Decoded(raw);
            (p.inlineEngine == [] || TerminatedSlice(raw, p.inlineEngine))
            && (p.pltEngine == [] || TerminatedSlice(raw, p.pltEngine))
            && (p.debugdata == [] || TerminatedSlice(raw, p.debugdata))
            && forall i :: 0 <= i < |p.modules| ==> p.modules[i].path == [] || TerminatedSlice(raw, p.modules[i].path)
    ensures var p := Decoded(raw);
            AllHandedOver(p) && PlanOk(p) && |p.modules| <= MAX_MODULES
            && forall i :: 0 <= i < |p.modules| ==> p.modules[i].index < MAX_MODULES
  {
    hide WordAt, TerminatedSlice, RefOk, HeaderOk, BlobOf;
    Terminated(raw, RefAt(raw, 36));
    Terminated(raw, RefAt(raw, 44));
    Terminated(raw, RefAt(raw, 52));
    forall i | 0 <= i < Count(raw)
      ensures ModuleOk(raw, i) && (ModuleOf(raw, i).path == [] || TerminatedSlice(raw, ModuleOf(raw, i).path))
    {
      assert ModuleOk(raw, i);
      ModuleBaseBound(raw, i);
      Terminated(raw, RefAt(raw, ModuleBase(i) + 12));
    }
    CountBound(raw);
  }

  lemma Terminated(raw: seq<byte>, ref: Ref)
    requires Mapped(raw) && HeaderOk(raw) && RefOk(BlobOf(raw), ref)
    ensures StringOf(BlobOf(raw), ref) == [] || TerminatedSlice(raw, StringOf(BlobOf(raw), ref))
  {
    if ref.length > 0 { SliceOfBlob(raw, ref); }
  }

  lemma CountBound(raw: seq<byte>)
    requires Mapped(raw) && HeaderOk(raw)
    ensures Count(raw) <= MAX_MODULES
  {
  }
}
