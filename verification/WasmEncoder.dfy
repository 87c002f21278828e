/** Modules written per section 5.5 of the WebAssembly Core Specification, and what the scanner reads back. Every
    number of a module is given as the LEB128 group that spells it, so that equal numbers may be written differently. */
module WasmEncoder {
  import opened Bytes
  import opened Wrappers
  import opened WasmReader
  import opened WasmSections

  /** A number as it is written: one group of at most five bytes. */
  type Numeral = Bytes

  /** A byte vector after its length. */
  datatype Vec = Vec(length: Numeral, content: Bytes)

  /** A vector of entries after their count. */
  datatype List<T> = List(count: Numeral, items: seq<T>)

  /** The low bit of the flags says whether there is a maximum. */
  datatype Limits = Limits(flags: Byte, min: Numeral, max: Option<Numeral>)

  datatype ImportType =
    | FunctionType(typeIndex: Numeral)
    | TableType(refType: Byte, limits: Limits)
    | MemoryType(limits: Limits)
    | GlobalType(valueType: Byte, mutability: Byte)

  datatype ImportDef = ImportDef(mod: Vec, name: Vec, desc: ImportType)

  datatype ExportDef = ExportDef(name: Vec, kind: Byte, index: Numeral)

  /** An instruction of a constant expression, other than `end`. */
  datatype Op =
    | Immediate(opcode: Byte, group: Numeral)  // the operand may also stand for a signed number
    | F32Const(bits: Bytes)
    | F64Const(bits: Bytes)
    | RefNull(refType: Byte)
    | Plain(opcode: Byte)                      // no operand; 0xfd, which starts a v128.const, is not among them

  datatype GlobalDef = GlobalDef(valueType: Byte, mutability: Byte, init: seq<Op>)

  datatype DataDef =
    | Active(flags: Numeral, offset: seq<Op>, content: Vec)
    | Passive(flags: Numeral, content: Vec)
    | ActiveIn(flags: Numeral, memory: Numeral, offset: seq<Op>, content: Vec)

  datatype Section =
    | CustomSec(name: Vec, payload: Bytes)
    | ImportSec(imports: List<ImportDef>)
    | FunctionSec(typeIndices: List<Numeral>)
    | MemorySec(memories: List<Limits>)
    | GlobalSec(globals: List<GlobalDef>)
    | ExportSec(exports: List<ExportDef>)
    | StartSec(function_: Numeral)
    | CodeSec(payload: Bytes)
    | DataSec(segments: List<DataDef>)
    | OtherSec(id: Byte, payload: Bytes)

  /** A section after its size. */
  datatype Sized = Sized(size: Numeral, section: Section)

  // ----- Encoding -----

  function Join(parts: seq<Bytes>): Bytes {
    if parts == [] then [] else parts[0] + Join(parts[1..])
  }

  function Each<T>(f: T -> Bytes, xs: seq<T>): (r: seq<Bytes>)
    ensures |r| == |xs| && forall i :: 0 <= i < |xs| ==> r[i] == f(xs[i])
  {
    if xs == [] then [] else [f(xs[0])] + Each(f, xs[1..])
  }

  function VecBytes(v: Vec): Bytes {
    v.length + v.content
  }

  function ListBytes<T>(f: T -> Bytes, l: List<T>): Bytes {
    l.count + Join(Each(f, l.items))
  }

  function LimitsBytes(l: Limits): Bytes {
    match l.max
    case None => [l.flags] + l.min
    case Some(max) => [l.flags] + (l.min + max)
  }

  function DescBytes(d: ImportType): Bytes {
    match d
    case FunctionType(i) => i
    case TableType(t, l) => [t] + LimitsBytes(l)
    case MemoryType(l) => LimitsBytes(l)
    case GlobalType(t, m) => [t] + [m]
  }

  function Kind(d: ImportType): Byte {
    match d
    case FunctionType(_) => 0
    case TableType(_, _) => 1
    case MemoryType(_) => 2
    case GlobalType(_, _) => 3
  }

  function ImportBytes(i: ImportDef): Bytes {
    VecBytes(i.mod) + (VecBytes(i.name) + ([Kind(i.desc)] + DescBytes(i.desc)))
  }

  function ExportBytes(e: ExportDef): Bytes {
    VecBytes(e.name) + ([e.kind] + e.index)
  }

  function OpBytes(op: Op): Bytes {
    match op
    case Immediate(c, group) => [c] + group
    case F32Const(bits) => [0x43] + bits
    case F64Const(bits) => [0x44] + bits
    case RefNull(t) => [0xd0] + [t]
    case Plain(c) => [c]
  }

  function ExprBytes(ops: seq<Op>): Bytes {
    if ops == [] then [0x0b] else OpBytes(ops[0]) + ExprBytes(ops[1..])
  }

  function GlobalBytes(g: GlobalDef): Bytes {
    [g.valueType] + ([g.mutability] + ExprBytes(g.init))
  }

  /** What the flags of a data segment may spell; the reader takes all but two numbers for a passive one. */
  predicate ModeFits(d: DataDef) {
    match d
    case Active(flags, _, _) => Spells(flags, 0)
    case Passive(flags, _) => IsGroup(flags) && Value(flags) !in {0, 2}
    case ActiveIn(flags, _, _, _) => Spells(flags, 2)
  }

  /** What stands between the flags of a data segment and its content. */
  function OffsetBytes(d: DataDef): Bytes {
    match d
    case Active(_, offset, _) => ExprBytes(offset)
    case Passive(_, _) => []
    case ActiveIn(_, m, offset, _) => m + ExprBytes(offset)
  }

  function DataBytes(d: DataDef): Bytes {
    d.flags + (OffsetBytes(d) + VecBytes(d.content))
  }

  function NumeralBytes(g: Numeral): Bytes {
    g
  }

  function Id(s: Section): Byte {
    match s
    case CustomSec(_, _) => 0
    case ImportSec(_) => 2
    case FunctionSec(_) => 3
    case MemorySec(_) => 5
    case GlobalSec(_) => 6
    case ExportSec(_) => 7
    case StartSec(_) => 8
    case CodeSec(_) => 10
    case DataSec(_) => 11
    case OtherSec(id, _) => id
  }

  function BodyBytes(s: Section): Bytes {
    match s
    case CustomSec(name, payload) => VecBytes(name) + payload
    case ImportSec(imps) => ListBytes(ImportBytes, imps)
    case FunctionSec(ts) => ListBytes(NumeralBytes, ts)
    case MemorySec(ms) => ListBytes(LimitsBytes, ms)
    case GlobalSec(gs) => ListBytes(GlobalBytes, gs)
    case ExportSec(es) => ListBytes(ExportBytes, es)
    case StartSec(f) => f
    case CodeSec(payload) => payload
    case DataSec(ds) => ListBytes(DataBytes, ds)
    case OtherSec(_, payload) => payload
  }

  function SectionBytes(s: Sized): Bytes {
    [Id(s.section)] + (s.size + BodyBytes(s.section))
  }

  const HEADER: Bytes := [0x00, 0x61, 0x73, 0x6d, 1, 0, 0, 0]

  function SectionsBytes(sections: seq<Sized>): Bytes {
    if sections == [] then [] else SectionBytes(sections[0]) + SectionsBytes(sections[1..])
  }

  function ModuleBytes(sections: seq<Sized>): Bytes {
    HEADER + SectionsBytes(sections)
  }

  // ----- What fits: lengths, sizes and flags spell what they must, counts too or more; at most 63 instructions -----

  predicate VecFits(v: Vec) {
    Spells(v.length, |v.content|)
  }

  predicate LimitsFit(l: Limits) {
    IsGroup(l.min) && (l.max.Some? ==> IsGroup(l.max.value)) && l.flags % 2 == if l.max.Some? then 1 else 0
  }

  predicate DescFits(d: ImportType) {
    match d
    case FunctionType(t) => IsGroup(t)
    case TableType(_, l) => LimitsFit(l)
    case MemoryType(l) => LimitsFit(l)
    case GlobalType(_, _) => true
  }

  predicate ImportFits(i: ImportDef) {
    VecFits(i.mod) && VecFits(i.name) && DescFits(i.desc)
  }

  predicate ExportFits(e: ExportDef) {
    VecFits(e.name) && IsGroup(e.index)
  }

  /** The reader takes the opcode for one without an operand. */
  predicate IsPlain(c: Byte) {
    c !in {0x0b, 0x41, 0x42, 0x23, 0xd2, 0xfc, 0x43, 0x44, 0xd0}
  }

  predicate OpFits(op: Op) {
    match op
    case Immediate(c, group) => c in {0x41, 0x42, 0x23, 0xd2, 0xfc} && IsGroup(group)
    case F32Const(bits) => |bits| == 4
    case F64Const(bits) => |bits| == 8
    case RefNull(_) => true
    case Plain(c) => IsPlain(c) && c != 0xfd
  }

  predicate ExprFits(ops: seq<Op>) {
    |ops| < 64 && forall i :: 0 <= i < |ops| ==> OpFits(ops[i])
  }

  predicate DataFits(d: DataDef) {
    && ModeFits(d) && VecFits(d.content)
    && match d
       case Active(_, offset, _) => ExprFits(offset)
       case Passive(_, _) => true
       case ActiveIn(_, m, offset, _) => IsGroup(m) && ExprFits(offset)
  }

  predicate CountFits<T>(l: List<T>) {
    Spells(l.count, |l.items|)
  }

  /** The count may claim more than there is: a reader that stops at the end of the section does not notice. */
  predicate CountCovers<T>(l: List<T>) {
    IsGroup(l.count) && Value(l.count) >= |l.items|
  }

  predicate SectionFits(s: Section) {
    match s
    case CustomSec(name, _) => VecFits(name)
    case ImportSec(imps) => CountCovers(imps) && forall i :: 0 <= i < |imps.items| ==> ImportFits(imps.items[i])
    case FunctionSec(ts) => CountFits(ts)
    case MemorySec(ms) => CountFits(ms) && forall i :: 0 <= i < |ms.items| ==> LimitsFit(ms.items[i])
    case GlobalSec(gs) => CountCovers(gs) && forall i :: 0 <= i < |gs.items| ==> ExprFits(gs.items[i].init)
    case ExportSec(es) => CountCovers(es) && forall i :: 0 <= i < |es.items| ==> ExportFits(es.items[i])
    case StartSec(f) => IsGroup(f)
    case CodeSec(_) => true
    case DataSec(ds) => CountCovers(ds) && forall i :: 0 <= i < |ds.items| ==> DataFits(ds.items[i])
    case OtherSec(id, _) => id !in {0, 2, 3, 5, 6, 7, 8, 10, 11}
  }

  predicate SizedFits(s: Sized) {
    SectionFits(s.section) && Spells(s.size, |BodyBytes(s.section)|)
  }

  predicate ModuleFits(sections: seq<Sized>) {
    forall i :: 0 <= i < |sections| ==> SizedFits(sections[i])
  }

  // ----- What the scanner must report about a module, read off its description -----

  function ImportsOf(imps: seq<ImportDef>): seq<Import> {
    seq(|imps|, i requires 0 <= i < |imps| => Import(imps[i].mod.content, imps[i].name.content, Kind(imps[i].desc)))
  }

  function SegmentsOf(entropy: Entropy, ds: seq<DataDef>): seq<DataSegment> {
    seq(|ds|, i requires 0 <= i < |ds| => Segment(entropy, ds[i].content.content))
  }

  function MemoryOf(l: Limits): Memory {
    Memory(l.max.Some?, Value(l.min), match l.max case None => None case Some(max) => Some(Value(max)))
  }

  function MemoriesOf(ms: seq<Limits>): seq<Memory> {
    seq(|ms|, i requires 0 <= i < |ms| => MemoryOf(ms[i]))
  }

  function GlobalOf(g: GlobalDef): Global {
    Global(g.valueType, g.mutability == 1)
  }

  function GlobalsOf(gs: seq<GlobalDef>): seq<Global> {
    seq(|gs|, i requires 0 <= i < |gs| => GlobalOf(gs[i]))
  }

  function ExportOf(e: ExportDef): Export {
    Export(e.name.content, e.kind, Value(e.index))
  }

  function ExportsOf(es: seq<ExportDef>): seq<Export> {
    seq(|es|, i requires 0 <= i < |es| => ExportOf(es[i]))
  }

  /** A section's effect on the report; `start` is the offset of its body. */
  function Describe(entropy: Entropy, s: Section, start: nat, p: Parsed): Parsed {
    match s
    case CustomSec(name, payload) => p.(customSections := p.customSections + [CustomSection(name.content, |payload|)])
    case ImportSec(imps) => p.(imports := p.imports + ImportsOf(imps.items))
    case FunctionSec(ts) => p.(functionCount := |ts.items|)
    case MemorySec(ms) => p.(memories := p.memories + MemoriesOf(ms.items))
    case GlobalSec(gs) => p.(globals := p.globals + GlobalsOf(gs.items))
    case ExportSec(es) => p.(exports := p.exports + ExportsOf(es.items))
    case StartSec(f) => p.(hasStartSection := true, startFunctionIndex := Some(Value(f)))
    case CodeSec(payload) => p.(codeSection := Some(CodeSection(|payload|, start)))
    case DataSec(ds) => p.(dataSegments := p.dataSegments + SegmentsOf(entropy, ds.items))
    case OtherSec(_, _) => p
  }

  function DescribeAll(entropy: Entropy, sections: seq<Sized>, pos: nat, p: Parsed): Parsed {
    if sections == [] then p
    else
      var s := sections[0];
      var start := pos + 1 + |s.size|;
      DescribeAll(entropy, sections[1..], start + |BodyBytes(s.section)|, Describe(entropy, s.section, start, p))
  }

  // ----- Reading back one construct -----

  /** Wherever these bytes stand, the entry reads them as `x` and steps over them. */
  ghost predicate Reads<T(!new)>(entry: (Bytes, nat) -> Read<T>, e: Bytes, x: T) {
    |e| >= 1 && forall buf: Bytes, pos: nat :: At(buf, pos, e) ==> entry(buf, pos) == Ok(x, pos + |e|)
  }

  lemma ByteReads(buf: Bytes, pos: nat, b: Byte)
    requires At(buf, pos, [b])
    ensures ByteAt(buf, pos) == Ok(b, pos + 1)
  {
    assert buf[pos] == buf[pos..pos + 1][0];
  }

  lemma VecReads(v: Vec, buf: Bytes, pos: nat)
    requires VecFits(v) && At(buf, pos, VecBytes(v))
    ensures VecAt(buf, pos) == Ok(v.content, pos + |VecBytes(v)|)
  {
    AtSplit(buf, pos, v.length, v.content);
    LebRoundTrip(buf, pos, v.length);
    hide LebAt, IsGroup, Value;
  }

  lemma LimitsReads(l: Limits, buf: Bytes, pos: nat)
    requires LimitsFit(l) && At(buf, pos, LimitsBytes(l))
    ensures MemoryAt(buf, pos) == Ok(MemoryOf(l), pos + |LimitsBytes(l)|)
  {
    hide At, LebAt, IsGroup, Value;
    match l.max {
      case None =>
        AtSplit(buf, pos, [l.flags], l.min);
        ByteReads(buf, pos, l.flags);
        LebRoundTrip(buf, pos + 1, l.min);
      case Some(max) =>
        AtSplit(buf, pos, [l.flags], l.min + max);
        AtSplit(buf, pos + 1, l.min, max);
        ByteReads(buf, pos, l.flags);
        LebRoundTrip(buf, pos + 1, l.min);
        LebRoundTrip(buf, pos + 1 + |l.min|, max);
    }
  }

  lemma DescReads(d: ImportType, buf: Bytes, pos: nat)
    requires DescFits(d) && At(buf, pos, DescBytes(d))
    ensures DescriptorAt(buf, pos, Kind(d)) == Ok((), pos + |DescBytes(d)|)
  {
    hide LebAt, MemoryAt, At, IsGroup, Value;
    match d {
      case FunctionType(i) => LebRoundTrip(buf, pos, i);
      case TableType(t, l) =>
        AtSplit(buf, pos, [t], LimitsBytes(l));
        ByteReads(buf, pos, t);
        LimitsReads(l, buf, pos + 1);
      case MemoryType(l) => LimitsReads(l, buf, pos);
      case GlobalType(t, m) =>
        AtSplit(buf, pos, [t], [m]);
        ByteReads(buf, pos, t);
        ByteReads(buf, pos + 1, m);
    }
  }

  lemma ImportReads(i: ImportDef, buf: Bytes, pos: nat)
    requires ImportFits(i) && At(buf, pos, ImportBytes(i))
    ensures var k := Kind(i.desc);
            var next := pos + |ImportBytes(i)|;
            && ImportNameAt(buf, pos) == Ok(Import(i.mod.content, i.name.content, k), next - |DescBytes(i.desc)|)
            && DescriptorAt(buf, next - |DescBytes(i.desc)|, k) == Ok((), next)
            && next > pos
  {
    hide LebAt, VecAt, DescriptorAt, DescBytes, DescFits, VecBytes, VecFits, At;
    var m, n, d := VecBytes(i.mod), VecBytes(i.name), DescBytes(i.desc);
    var k := Kind(i.desc);
    AtSplit(buf, pos, m, n + ([k] + d));
    AtSplit(buf, pos + |m|, n, [k] + d);
    AtSplit(buf, pos + |m| + |n|, [k], d);
    VecReads(i.mod, buf, pos);
    VecReads(i.name, buf, pos + |m|);
    ByteReads(buf, pos + |m| + |n|, k);
    DescReads(i.desc, buf, pos + |m| + |n| + 1);
  }

  lemma ExportReads(e: ExportDef)
    requires ExportFits(e)
    ensures Reads(ExportAt, ExportBytes(e), ExportOf(e))
  {
    hide LebAt, VecAt, VecBytes, VecFits, At, IsGroup, Value;
    var n := VecBytes(e.name);
    forall buf: Bytes, pos: nat | At(buf, pos, ExportBytes(e))
      ensures ExportAt(buf, pos) == Ok(ExportOf(e), pos + |ExportBytes(e)|)
    {
      AtSplit(buf, pos, n, [e.kind] + e.index);
      AtSplit(buf, pos + |n|, [e.kind], e.index);
      VecReads(e.name, buf, pos);
      ByteReads(buf, pos + |n|, e.kind);
      LebRoundTrip(buf, pos + |n| + 1, e.index);
    }
  }

  lemma MemoryReads(l: Limits)
    requires LimitsFit(l)
    ensures Reads(MemoryAt, LimitsBytes(l), MemoryOf(l))
  {
    forall buf: Bytes, pos: nat | At(buf, pos, LimitsBytes(l))
      ensures MemoryAt(buf, pos) == Ok(MemoryOf(l), pos + |LimitsBytes(l)|)
    {
      LimitsReads(l, buf, pos);
    }
  }

  lemma OpReads(op: Op, buf: Bytes, pos: nat)
    requires OpFits(op) && At(buf, pos, OpBytes(op))
    ensures pos < |buf| && buf[pos] != 0x0b && buf[pos] == OpBytes(op)[0]
    ensures OperandAt(buf, pos + 1, buf[pos]) == Ok((), pos + |OpBytes(op)|)
  {
    var e := OpBytes(op);
    AtSplit(buf, pos, [e[0]], e[1..]);
    assert e == [e[0]] + e[1..];
    ByteReads(buf, pos, e[0]);
    match op {
      case Immediate(_, group) =>
        assert e[1..] == group;
        LebRoundTrip(buf, pos + 1, group);
      case RefNull(t) =>
        assert e[1..] == [t];
        ByteReads(buf, pos + 1, t);
      case _ =>
    }
  }

  lemma {:induction false} ExprReads(ops: seq<Op>, done: nat, buf: Bytes, pos: nat)
    requires done + |ops| < MAX_OPS && (forall i :: 0 <= i < |ops| ==> OpFits(ops[i]))
    requires At(buf, pos, ExprBytes(ops))
    ensures InitExprAt(buf, pos, done) == Ok((), pos + |ExprBytes(ops)|)
    decreases |ops|
  {
    hide LebAt, OpBytes, OperandAt, OpFits;
    if ops == [] {
      ByteReads(buf, pos, 0x0b);
    } else {
      AtSplit(buf, pos, OpBytes(ops[0]), ExprBytes(ops[1..]));
      OpReads(ops[0], buf, pos);
      ExprReads(ops[1..], done + 1, buf, pos + |OpBytes(ops[0])|);
    }
  }

  // ----- Where the reader's bounds bite -----

  /** A LEB128 number of any length: only its last byte has a clear high bit. */
  predicate IsNumeral(g: Bytes) {
    g != [] && g[|g| - 1] < 128 && forall j :: 0 <= j < |g| - 1 ==> g[j] >= 128
  }

  /** An immediate is stepped over exactly when it takes at most five bytes; the longer ones that an i64.const
      may have make the reader throw. */
  lemma ImmediateLimit(g: Bytes, buf: Bytes, pos: nat)
    requires IsNumeral(g) && At(buf, pos, g)
    ensures Ignore(LebAt(buf, pos)) == Ok((), pos + |g|) <==> |g| <= 5
    ensures |g| > 5 ==> LebAt(buf, pos) == Throw(pos + 5)
  {
    if |g| <= 5 {
      LebRoundTrip(buf, pos, g);
    } else {
      forall i: nat | pos <= i < pos + 5 ensures buf[i] >= 128 {
        assert buf[i] == buf[pos..pos + |g|][i - pos];
      }
      LebMeaning(buf, pos);
    }
  }

  lemma OpTakesBytes(op: Op)
    ensures |OpBytes(op)| >= 1
  {
  }

  lemma {:induction false} LongExprStops(ops: seq<Op>, done: nat, buf: Bytes, pos: nat)
    requires done <= MAX_OPS <= done + |ops| && (forall i :: 0 <= i < |ops| ==> OpFits(ops[i]))
    requires At(buf, pos, ExprBytes(ops))
    ensures InitExprAt(buf, pos, done).Ok? && InitExprAt(buf, pos, done).pos < pos + |ExprBytes(ops)|
    decreases |ops|
  {
    hide LebAt, OpBytes, OperandAt, OpFits;
    if ops == [] {
    } else if done == MAX_OPS {
      OpTakesBytes(ops[0]);
    } else {
      AtSplit(buf, pos, OpBytes(ops[0]), ExprBytes(ops[1..]));
      OpReads(ops[0], buf, pos);
      LongExprStops(ops[1..], done + 1, buf, pos + |OpBytes(ops[0])|);
    }
  }

  /** A constant expression is stepped over exactly when it has fewer than 64 instructions before its `end`;
      in a longer one the reader stops, without an error, before the `end`. */
  lemma ExprLimit(ops: seq<Op>, buf: Bytes, pos: nat)
    requires (forall i :: 0 <= i < |ops| ==> OpFits(ops[i])) && At(buf, pos, ExprBytes(ops))
    ensures InitExprAt(buf, pos, 0) == Ok((), pos + |ExprBytes(ops)|) <==> |ops| < 64
    ensures InitExprAt(buf, pos, 0).Ok?
  {
    if |ops| < MAX_OPS {
      ExprReads(ops, 0, buf, pos);
    } else {
      LongExprStops(ops, 0, buf, pos);
    }
  }

  lemma {:induction false} PlainRunSkipped(buf: Bytes, pos: nat, k: nat, ops: nat)
    requires pos + k <= |buf| && ops + k <= MAX_OPS && forall i :: pos <= i < pos + k ==> IsPlain(buf[i])
    ensures InitExprAt(buf, pos, ops) == InitExprAt(buf, pos + k, ops + k)
    decreases k
  {
    hide LebAt, SkipAt;
    if k > 0 {
      PlainRunSkipped(buf, pos + 1, k - 1, ops + 1);
    }
  }

  /** The reader does not know v128.const, 0xfd 0x0c and sixteen bytes: it takes each of these bytes for an instruction.
      So it steps over the constant, as eighteen instructions, if none of its bytes is `end` or wants an operand, and
      stops inside it, without an error, at an `end` among the bytes before any that wants one. */
  lemma VectorConst(bits: Bytes, buf: Bytes, pos: nat, ops: nat)
    requires |bits| == 16 && At(buf, pos, [0xfd, 0x0c] + bits) && ops + 18 < MAX_OPS
    ensures (forall i :: 0 <= i < 16 ==> IsPlain(bits[i])) ==>
              InitExprAt(buf, pos, ops) == InitExprAt(buf, pos + 18, ops + 18)
    ensures forall j: nat :: j < 16 && bits[j] == 0x0b && (forall i :: 0 <= i < j ==> IsPlain(bits[i])) ==>
              InitExprAt(buf, pos, ops) == Ok((), pos + 3 + j)
  {
    var e := [0xfd, 0x0c] + bits;
    assert forall i :: pos <= i < pos + 18 ==> buf[i] == e[i - pos];
    hide InitExprAt;
    if forall i :: 0 <= i < 16 ==> IsPlain(bits[i]) {
      PlainRunSkipped(buf, pos, 18, ops);
    }
    forall j: nat | j < 16 && bits[j] == 0x0b && (forall i :: 0 <= i < j ==> IsPlain(bits[i]))
      ensures InitExprAt(buf, pos, ops) == Ok((), pos + 3 + j)
    {
      PlainRunSkipped(buf, pos, 2 + j, ops);
      EndsHere(buf, pos + 2 + j, ops + 2 + j);
    }
  }

  lemma EndsHere(buf: Bytes, pos: nat, ops: nat)
    requires pos < |buf| && buf[pos] == 0x0b && ops < MAX_OPS
    ensures InitExprAt(buf, pos, ops) == Ok((), pos + 1)
  {
  }

  lemma GlobalReads(g: GlobalDef)
    requires ExprFits(g.init)
    ensures Reads(GlobalAt, GlobalBytes(g), GlobalOf(g))
  {
    hide InitExprAt, ExprBytes;
    var m := g.mutability;
    forall buf: Bytes, pos: nat | At(buf, pos, GlobalBytes(g))
      ensures GlobalAt(buf, pos) == Ok(GlobalOf(g), pos + |GlobalBytes(g)|)
    {
      AtSplit(buf, pos, [g.valueType], [m] + ExprBytes(g.init));
      AtSplit(buf, pos + 1, [m], ExprBytes(g.init));
      ByteReads(buf, pos, g.valueType);
      ByteReads(buf, pos + 1, m);
      ExprReads(g.init, 0, buf, pos + 2);
    }
  }

  lemma OffsetReads(d: DataDef, buf: Bytes, pos: nat)
    requires DataFits(d) && At(buf, pos, OffsetBytes(d))
    ensures SegmentOffsetAt(buf, pos, Value(d.flags)) == Ok((), pos + |OffsetBytes(d)|)
  {
    hide LebAt, InitExprAt, ExprBytes, At, VecFits, IsGroup, Value;
    match d {
      case Active(_, offset, _) => ExprReads(offset, 0, buf, pos);
      case Passive(_, _) =>
      case ActiveIn(_, m, offset, _) =>
        AtSplit(buf, pos, m, ExprBytes(offset));
        LebRoundTrip(buf, pos, m);
        ExprReads(offset, 0, buf, pos + |m|);
    }
  }

  lemma DataReads(d: DataDef, buf: Bytes, pos: nat)
    requires DataFits(d) && At(buf, pos, DataBytes(d))
    ensures DataAt(buf, pos) == Ok(d.content.content, pos + |DataBytes(d)|) && |DataBytes(d)| >= 1
  {
    hide LebAt, VecAt, SegmentOffsetAt, OffsetBytes, VecBytes, VecFits, At, ExprFits, IsGroup, Value;
    var flags, offset, v := d.flags, OffsetBytes(d), VecBytes(d.content);
    AtSplit(buf, pos, flags, offset + v);
    AtSplit(buf, pos + |flags|, offset, v);
    LebRoundTrip(buf, pos, flags);
    OffsetReads(d, buf, pos + |flags|);
    VecReads(d.content, buf, pos + |flags| + |offset|);
  }

  // ----- Reading back lists -----

  /** If every part reads as its item, the parts in a row read as the items in order, whatever comes after. */
  lemma {:induction false} ItemsRoundTrip<T(!new)>(entry: (Bytes, nat) -> Read<T>, parts: seq<Bytes>, items: seq<T>,
                                            buf: Bytes, pos: nat, more: nat, end: nat, done: seq<T>)
    requires |parts| == |items| && forall i :: 0 <= i < |parts| ==> Reads(entry, parts[i], items[i])
    requires At(buf, pos, Join(parts)) && pos + |Join(parts)| <= end
    ensures Items(entry, buf, pos, |parts| + more, end, done)
            == Items(entry, buf, pos + |Join(parts)|, more, end, done + items)
    decreases |parts|
  {
    hide At;
    if parts != [] {
      assert Reads(entry, parts[0], items[0]);
      AtSplit(buf, pos, parts[0], Join(parts[1..]));
      ItemsRoundTrip(entry, parts[1..], items[1..], buf, pos + |parts[0]|, more, end, done + [items[0]]);
      assert done + [items[0]] + items[1..] == done + items;
    } else {
      assert done + items == done;
    }
  }

  /** A count and that many parts, or fewer up to the end of the section. */
  lemma VectorRoundTrip<T(!new), D>(entry: (Bytes, nat) -> Read<T>, f: D -> Bytes, l: List<D>, items: seq<T>,
                              buf: Bytes, pos: nat, end: nat, done: seq<T>)
    requires |l.items| == |items| && forall i :: 0 <= i < |items| ==> Reads(entry, f(l.items[i]), items[i])
    requires At(buf, pos, ListBytes(f, l)) && pos + |ListBytes(f, l)| <= end
    requires CountFits(l) || (CountCovers(l) && pos + |ListBytes(f, l)| == end)
    ensures Vector(entry, buf, pos, end, done) == Body(done + items, Finished)
  {
    var parts := Each(f, l.items);
    hide At, LebAt, Reads, IsGroup, Value, Each, Join;
    assert forall i :: 0 <= i < |parts| ==> Reads(entry, parts[i], items[i]);
    AtSplit(buf, pos, l.count, Join(parts));
    LebRoundTrip(buf, pos, l.count);
    ItemsRoundTrip(entry, parts, items, buf, pos + |l.count|, Value(l.count) - |parts|, end, done);
  }

  lemma JoinEachCons<T>(f: T -> Bytes, xs: seq<T>)
    requires xs != []
    ensures Join(Each(f, xs)) == f(xs[0]) + Join(Each(f, xs[1..]))
  {
    assert Each(f, xs)[1..] == Each(f, xs[1..]);
  }

  lemma JoinEachNone<T>(f: T -> Bytes)
    ensures Join(Each(f, [])) == []
  {
  }

  lemma {:induction false} ImportItemsRoundTrip(imps: seq<ImportDef>, buf: Bytes, pos: nat, more: nat, end: nat,
                                                done: seq<Import>)
    requires forall i :: 0 <= i < |imps| ==> ImportFits(imps[i])
    requires At(buf, pos, Join(Each(ImportBytes, imps))) && pos + |Join(Each(ImportBytes, imps))| <= end
    ensures ImportItems(buf, pos, |imps| + more, end, done)
            == ImportItems(buf, pos + |Join(Each(ImportBytes, imps))|, more, end, done + ImportsOf(imps))
    decreases |imps|
  {
    hide ImportNameAt, DescriptorAt, ImportBytes, ImportFits, At, Each, Join;
    if imps != [] {
      var e := ImportBytes(imps[0]);
      var first := Import(imps[0].mod.content, imps[0].name.content, Kind(imps[0].desc));
      JoinEachCons(ImportBytes, imps);
      AtSplit(buf, pos, e, Join(Each(ImportBytes, imps[1..])));
      ImportReads(imps[0], buf, pos);
      ImportItemsRoundTrip(imps[1..], buf, pos + |e|, more, end, done + [first]);
      assert done + ImportsOf(imps) == done + [first] + ImportsOf(imps[1..]);
    } else {
      assert done + ImportsOf(imps) == done && Join(Each(ImportBytes, imps)) == [] by {
        JoinEachNone(ImportBytes);
      }
    }
  }

  lemma ImportVectorRoundTrip(imps: List<ImportDef>, buf: Bytes, pos: nat, end: nat, done: seq<Import>)
    requires CountCovers(imps) && forall i :: 0 <= i < |imps.items| ==> ImportFits(imps.items[i])
    requires At(buf, pos, ListBytes(ImportBytes, imps)) && pos + |ListBytes(ImportBytes, imps)| == end
    ensures ImportVector(buf, pos, end, done) == Body(done + ImportsOf(imps.items), Finished)
  {
    hide At, LebAt, Each, Join, ImportFits, IsGroup, Value;
    AtSplit(buf, pos, imps.count, Join(Each(ImportBytes, imps.items)));
    LebRoundTrip(buf, pos, imps.count);
    ImportItemsRoundTrip(imps.items, buf, pos + |imps.count|, Value(imps.count) - |imps.items|, end, done);
  }

  lemma {:induction false} DataItemsRoundTrip(entropy: Entropy, ds: seq<DataDef>, buf: Bytes, pos: nat, more: nat,
                                              end: nat, done: seq<DataSegment>)
    requires forall i :: 0 <= i < |ds| ==> DataFits(ds[i])
    requires At(buf, pos, Join(Each(DataBytes, ds))) && pos + |Join(Each(DataBytes, ds))| <= end
    ensures DataItems(entropy, buf, pos, |ds| + more, end, done)
            == DataItems(entropy, buf, pos + |Join(Each(DataBytes, ds))|, more, end, done + SegmentsOf(entropy, ds))
    decreases |ds|
  {
    hide DataAt, DataBytes, DataFits, Segment, At, Each, Join;
    if ds != [] {
      var e := DataBytes(ds[0]);
      JoinEachCons(DataBytes, ds);
      AtSplit(buf, pos, e, Join(Each(DataBytes, ds[1..])));
      DataReads(ds[0], buf, pos);
      var first := Segment(entropy, ds[0].content.content);
      DataItemsRoundTrip(entropy, ds[1..], buf, pos + |e|, more, end, done + [first]);
      assert done + SegmentsOf(entropy, ds) == done + [first] + SegmentsOf(entropy, ds[1..]);
    } else {
      assert done + SegmentsOf(entropy, ds) == done && Join(Each(DataBytes, ds)) == [] by {
        JoinEachNone(DataBytes);
      }
    }
  }

  lemma DataVectorRoundTrip(entropy: Entropy, ds: List<DataDef>, buf: Bytes, pos: nat, end: nat, done: seq<DataSegment>)
    requires CountCovers(ds) && forall i :: 0 <= i < |ds.items| ==> DataFits(ds.items[i])
    requires At(buf, pos, ListBytes(DataBytes, ds)) && pos + |ListBytes(DataBytes, ds)| == end
    ensures DataVector(entropy, buf, pos, end, done) == Body(done + SegmentsOf(entropy, ds.items), Finished)
  {
    hide At, LebAt, Each, Join, DataFits, IsGroup, Value;
    AtSplit(buf, pos, ds.count, Join(Each(DataBytes, ds.items)));
    LebRoundTrip(buf, pos, ds.count);
    DataItemsRoundTrip(entropy, ds.items, buf, pos + |ds.count|, Value(ds.count) - |ds.items|, end, done);
  }

  // ----- Reading back sections and modules -----

  /** Decoding the frame of an encoded section reports its description and no error. */
  lemma SectionRoundTrip(entropy: Entropy, s: Section, buf: Bytes, f: Frame, p: Parsed)
    requires SectionFits(s) && f.id == Id(s) && f.size == |BodyBytes(s)| && At(buf, f.start, BodyBytes(s))
    ensures DecodeSection(entropy, buf, f, p) == Describe(entropy, s, f.start, p)
  {
    hide LebAt, VecAt, Vector, ImportVector, DataVector, ListBytes, VecBytes, VecFits, CountFits, CountCovers,
      ImportFits, DataFits, IsGroup, Value;
    assert p.parseErrors + [] == p.parseErrors;
    match s {
      case CustomSec(name, payload) =>
        AtSplit(buf, f.start, VecBytes(name), payload);
        VecReads(name, buf, f.start);
      case ImportSec(imps) =>
        ImportVectorRoundTrip(imps, buf, f.start, f.End(), p.imports);
      case FunctionSec(ts) =>
        CountRoundTrip(ts, buf, f.start);
      case MemorySec(ms) =>
        forall i | 0 <= i < |ms.items| ensures Reads(MemoryAt, LimitsBytes(ms.items[i]), MemoriesOf(ms.items)[i]) {
          MemoryReads(ms.items[i]);
        }
        VectorRoundTrip(MemoryAt, LimitsBytes, ms, MemoriesOf(ms.items), buf, f.start, |buf| + 1, p.memories);
      case GlobalSec(gs) =>
        forall i | 0 <= i < |gs.items| ensures Reads(GlobalAt, GlobalBytes(gs.items[i]), GlobalsOf(gs.items)[i]) {
          GlobalReads(gs.items[i]);
        }
        VectorRoundTrip(GlobalAt, GlobalBytes, gs, GlobalsOf(gs.items), buf, f.start, f.End(), p.globals);
      case ExportSec(es) =>
        forall i | 0 <= i < |es.items| ensures Reads(ExportAt, ExportBytes(es.items[i]), ExportsOf(es.items)[i]) {
          ExportReads(es.items[i]);
        }
        VectorRoundTrip(ExportAt, ExportBytes, es, ExportsOf(es.items), buf, f.start, f.End(), p.exports);
      case StartSec(g) =>
        LebRoundTrip(buf, f.start, g);
      case CodeSec(_) =>
      case DataSec(ds) =>
        DataVectorRoundTrip(entropy, ds, buf, f.start, f.End(), p.dataSegments);
      case OtherSec(_, _) =>
    }
  }

  lemma CountRoundTrip(ts: List<Numeral>, buf: Bytes, pos: nat)
    requires CountFits(ts) && At(buf, pos, ListBytes(NumeralBytes, ts))
    ensures LebAt(buf, pos) == Ok(|ts.items|, pos + |ts.count|)
  {
    hide At, LebAt, IsGroup, Value, Each, Join;
    AtSplit(buf, pos, ts.count, Join(Each(NumeralBytes, ts.items)));
    LebRoundTrip(buf, pos, ts.count);
  }

  /** A section with an honest size, whatever its body: it adds what its frame decodes to, and parsing goes on
      behind it. */
  lemma FrameRoundTrip(entropy: Entropy, id: Byte, size: Numeral, body: Bytes, buf: Bytes, pos: nat, p: Parsed)
    requires Spells(size, |body|) && At(buf, pos, [id] + (size + body))
    ensures var f := Frame(pos, id, pos + 1 + |size|, |body|);
            && At(buf, f.start, body)
            && ParseFrom(entropy, buf, pos, p)
               == ParseFrom(entropy, buf, f.End(), DecodeSection(entropy, buf, f, p))
  {
    hide LebAt, DecodeSection, IsGroup, Value, At;
    var f := Frame(pos, id, pos + 1 + |size|, |body|);
    AtSplit(buf, pos, [id], size + body);
    AtSplit(buf, pos + 1, size, body);
    ByteReads(buf, pos, id);
    LebRoundTrip(buf, pos + 1, size);
    assert f.End() <= |buf| by {
      AtFits(buf, f.start, body);
    }
    assert Frames(buf, pos).frames == [f] + Frames(buf, f.End()).frames;
  }

  lemma AtFits(buf: Bytes, pos: nat, e: Bytes)
    requires At(buf, pos, e)
    ensures pos + |e| <= |buf|
  {
  }

  /** Encoded sections parse to their descriptions in turn, and parsing goes on behind them. */
  lemma {:induction false} SectionsRoundTrip(entropy: Entropy, sections: seq<Sized>, buf: Bytes, pos: nat, p: Parsed)
    requires ModuleFits(sections) && At(buf, pos, SectionsBytes(sections))
    ensures ParseFrom(entropy, buf, pos, p)
            == ParseFrom(entropy, buf, pos + |SectionsBytes(sections)|, DescribeAll(entropy, sections, pos, p))
    decreases |sections|
  {
    hide ParseFrom, DecodeSection, Describe, BodyBytes, At, SectionFits, Spells;
    if sections != [] {
      var s := sections[0];
      var body := BodyBytes(s.section);
      AtSplit(buf, pos, SectionBytes(s), SectionsBytes(sections[1..]));
      FrameRoundTrip(entropy, Id(s.section), s.size, body, buf, pos, p);
      var f := Frame(pos, Id(s.section), pos + 1 + |s.size|, |body|);
      SectionRoundTrip(entropy, s.section, buf, f, p);
      SectionsRoundTrip(entropy, sections[1..], buf, f.End(), Describe(entropy, s.section, f.start, p));
    }
  }

  lemma NothingLeft(entropy: Entropy, buf: Bytes, p: Parsed)
    ensures ParseFrom(entropy, buf, |buf|, p) == p
  {
  }

  /** Scanning an encoded module reports exactly what its description says, in order, and no parse error: for
      any sections in any order, any number of times, each number written in any way. */
  lemma ModuleRoundTrip(entropy: Entropy, sections: seq<Sized>)
    requires ModuleFits(sections)
    ensures Parse(entropy, ModuleBytes(sections)) == DescribeAll(entropy, sections, 8, EMPTY)
    ensures Parse(entropy, ModuleBytes(sections)).parseErrors == []
  {
    var buf := ModuleBytes(sections);
    assert At(buf, 0, buf);
    AtSplit(buf, 0, HEADER, SectionsBytes(sections));
    SectionsRoundTrip(entropy, sections, buf, 8, EMPTY);
    NothingLeft(entropy, buf, DescribeAll(entropy, sections, 8, EMPTY));
    DescriptionHasNoErrors(entropy, sections, 8, EMPTY);
  }

  lemma {:induction false} DescriptionHasNoErrors(entropy: Entropy, sections: seq<Sized>, pos: nat, p: Parsed)
    ensures DescribeAll(entropy, sections, pos, p).parseErrors == p.parseErrors
    decreases |sections|
  {
    if sections != [] {
      var s := sections[0];
      var start := pos + 1 + |s.size|;
      DescriptionHasNoErrors(entropy, sections[1..], start + |BodyBytes(s.section)|,
        Describe(entropy, s.section, start, p));
    }
  }
}
