/** The section decoder of the WASM scanner: the framing loop, the section bodies, and their error recovery. */
module WasmSections {
  import opened Bytes
  import opened Wrappers
  import opened WasmReader

  datatype Import = Import(mod: Bytes, name: Bytes, kind: Byte)
  datatype Export = Export(name: Bytes, kind: Byte, index: nat)
  datatype Memory = Memory(hasMax: bool, min: nat, max: Option<nat>)
  datatype Global = Global(valueType: Byte, mutable: bool)
  datatype DataSegment = DataSegment(size: nat, entropy: real, rawSample: Bytes)
  datatype CodeSection = CodeSection(size: nat, offset: nat)
  /** `size` is negative when the name runs past the end of its section. */
  datatype CustomSection = CustomSection(name: Bytes, size: int)

  datatype ParseError =
    | TruncatedHeader(offset: nat)
    | SectionTooLong(id: Byte, start: nat, claimed: nat, remaining: nat)
    | BodyThrew(id: Byte, start: nat)
    | UnknownImportKind(kind: Byte, mod: Bytes, name: Bytes)

  datatype Parsed = Parsed(
    imports: seq<Import>,
    exports: seq<Export>,
    memories: seq<Memory>,
    globals: seq<Global>,
    dataSegments: seq<DataSegment>,
    hasStartSection: bool,
    startFunctionIndex: Option<nat>,
    functionCount: nat,
    codeSection: Option<CodeSection>,
    customSections: seq<CustomSection>,
    parseErrors: seq<ParseError>)

  const EMPTY := Parsed([], [], [], [], [], false, None, 0, None, [], [])

  /** Shannon entropy of a data segment, left uninterpreted. */
  type Entropy = Bytes -> real

  // ----- Framing: section headers only -----

  datatype Frame = Frame(header: nat, id: Byte, start: nat, size: nat) {
    function End(): nat { start + size }
  }

  datatype Framing = Framing(frames: seq<Frame>, error: Option<ParseError>)

  /** The sections from `pos` on, found by reading headers and jumping over bodies. */
  function Frames(buf: Bytes, pos: nat): Framing
    decreases |buf| - pos
  {
    if pos >= |buf| then Framing([], None)
    else
      match LebAt(buf, pos + 1)
      case Throw(p) => Framing([], Some(TruncatedHeader(p)))
      case Ok(size, start) =>
        LebBounds(buf, pos + 1);
        if start + size > |buf| then
          Framing([], Some(SectionTooLong(buf[pos], start, size, |buf| - start)))
        else
          var rest := Frames(buf, start + size);
          Framing([Frame(pos, buf[pos], start, size)] + rest.frames, rest.error)
  }

  // ----- Section bodies -----

  datatype BodyEnd = Finished | Threw | Aborted(error: ParseError)

  /** The list a body parser leaves, and how it ends. */
  datatype Body<+T> = Body(items: seq<T>, end: BodyEnd)

  /** Pushes onto `done` the entries read one after the other, at most `left` of them, while the position is
      before `end`. */
  function Items<T>(entry: (Bytes, nat) -> Read<T>, buf: Bytes, pos: nat, left: nat, end: nat,
                    done: seq<T>): (r: Body<T>)
    ensures !r.end.Aborted?
    decreases left
  {
    if left == 0 || pos >= end then Body(done, Finished)
    else
      match entry(buf, pos)
      case Throw(_) => Body(done, Threw)
      case Ok(x, p) => Items(entry, buf, p, left - 1, end, done + [x])
  }

  /** A count and that many entries. */
  function Vector<T>(entry: (Bytes, nat) -> Read<T>, buf: Bytes, pos: nat, end: nat, done: seq<T>): (r: Body<T>)
    ensures !r.end.Aborted?
  {
    match LebAt(buf, pos)
    case Throw(_) => Body(done, Threw)
    case Ok(count, p) => Items(entry, buf, p, count, end, done)
  }

  function ExportAt(buf: Bytes, pos: nat): Read<Export> {
    var (name, p) :- VecAt(buf, pos);
    var (kind, p1) :- ByteAt(buf, p);
    var (index, p2) :- LebAt(buf, p1);
    Ok(Export(name, kind, index), p2)
  }

  function MemoryAt(buf: Bytes, pos: nat): Read<Memory> {
    var (flags, p) :- ByteAt(buf, pos);
    var (min, p1) :- LebAt(buf, p);
    if flags % 2 == 0 then Ok(Memory(false, min, None), p1)
    else
      var (max, p2) :- LebAt(buf, p1);
      Ok(Memory(true, min, Some(max)), p2)
  }

  function GlobalAt(buf: Bytes, pos: nat): Read<Global> {
    var (valueType, p) :- ByteAt(buf, pos);
    var (mutByte, p1) :- ByteAt(buf, p);
    var (_, p2) :- InitExprAt(buf, p1, 0);
    Ok(Global(valueType, mutByte == 1), p2)
  }

  function Segment(entropy: Entropy, data: Bytes): DataSegment {
    DataSegment(|data|, entropy(data), if |data| <= 64 then data else data[..64])
  }

  /** The contents of the data segment that starts here. */
  function DataAt(buf: Bytes, pos: nat): Read<Bytes> {
    var (flags, p) :- LebAt(buf, pos);
    var (_, p1) :- SegmentOffsetAt(buf, p, flags);
    VecAt(buf, p1)
  }

  /** What stands between the flags and the bytes of a data segment. */
  function SegmentOffsetAt(buf: Bytes, pos: nat, flags: nat): Read<()> {
    if flags == 0 then InitExprAt(buf, pos, 0)
    else if flags == 2 then
      var (_, p) :- LebAt(buf, pos);
      InitExprAt(buf, p, 0)
    else Ok((), pos)
  }

  function DataItems(entropy: Entropy, buf: Bytes, pos: nat, left: nat, end: nat,
                     done: seq<DataSegment>): Body<DataSegment>
    decreases left
  {
    if left == 0 || pos >= end then Body(done, Finished)
    else
      match DataAt(buf, pos)
      case Throw(_) => Body(done, Threw)
      case Ok(data, p) => DataItems(entropy, buf, p, left - 1, end, done + [Segment(entropy, data)])
  }

  function DataVector(entropy: Entropy, buf: Bytes, pos: nat, end: nat, done: seq<DataSegment>): Body<DataSegment> {
    match LebAt(buf, pos)
    case Throw(_) => Body(done, Threw)
    case Ok(count, p) => DataItems(entropy, buf, p, count, end, done)
  }

  /** Limits: a flags byte, a minimum, and a maximum if the low bit is set. */
  function LimitsAt(buf: Bytes, pos: nat): Read<()> {
    Ignore(MemoryAt(buf, pos))
  }

  /** The type descriptor of an import of kind 0 to 3. */
  function DescriptorAt(buf: Bytes, pos: nat, kind: Byte): Read<()> {
    match kind
    case 0 => Ignore(LebAt(buf, pos))
    case 1 => var (_, p) :- ByteAt(buf, pos); LimitsAt(buf, p)
    case 2 => LimitsAt(buf, pos)
    case _ => var (_, p) :- ByteAt(buf, pos); Ignore(ByteAt(buf, p))
  }

  function ImportNameAt(buf: Bytes, pos: nat): Read<Import> {
    var (mod, p) :- VecAt(buf, pos);
    var (name, p1) :- VecAt(buf, p);
    var (kind, p2) :- ByteAt(buf, p1);
    Ok(Import(mod, name, kind), p2)
  }

  function ImportItems(buf: Bytes, pos: nat, left: nat, end: nat, done: seq<Import>): Body<Import>
    decreases left
  {
    if left == 0 || pos >= end then Body(done, Finished)
    else
      match ImportNameAt(buf, pos)
      case Throw(_) => Body(done, Threw)
      case Ok(i, p) =>
        if i.kind > 3 then Body(done, Aborted(UnknownImportKind(i.kind, i.mod, i.name)))
        else
          match DescriptorAt(buf, p, i.kind)
          case Throw(_) => Body(done, Threw)
          case Ok(_, q) => ImportItems(buf, q, left - 1, end, done + [i])
  }

  function ImportVector(buf: Bytes, pos: nat, end: nat, done: seq<Import>): Body<Import> {
    match LebAt(buf, pos)
    case Throw(_) => Body(done, Threw)
    case Ok(count, p) => ImportItems(buf, p, count, end, done)
  }

  // ----- Decoding a framed buffer -----

  /** The errors that a body's end adds for its section. */
  function ErrorsOf(f: Frame, end: BodyEnd): seq<ParseError> {
    match end
    case Finished => []
    case Threw => [BodyThrew(f.id, f.start)]
    case Aborted(e) => [e]
  }

  function Thrown<T>(f: Frame, r: Read<T>): seq<ParseError> {
    ErrorsOf(f, if r.Ok? then Finished else Threw)
  }

  /** What one section adds to the result. Only its own frame and the buffer matter, not where
      the body parser of an earlier section stopped. */
  function DecodeSection(entropy: Entropy, buf: Bytes, f: Frame, s: Parsed): Parsed {
    match f.id
    case 0 =>
      var r := VecAt(buf, f.start);
      s.(customSections := s.customSections + (if r.Ok? then [CustomSection(r.value, f.End() - r.pos)] else []),
         parseErrors := s.parseErrors + Thrown(f, r))
    case 2 =>
      var b := ImportVector(buf, f.start, f.End(), s.imports);
      s.(imports := b.items, parseErrors := s.parseErrors + ErrorsOf(f, b.end))
    case 3 =>
      var r := LebAt(buf, f.start);
      s.(functionCount := if r.Ok? then r.value else s.functionCount, parseErrors := s.parseErrors + Thrown(f, r))
    case 5 =>
      var b := Vector(MemoryAt, buf, f.start, |buf| + 1, s.memories);
      s.(memories := b.items, parseErrors := s.parseErrors + ErrorsOf(f, b.end))
    case 6 =>
      var b := Vector(GlobalAt, buf, f.start, f.End(), s.globals);
      s.(globals := b.items, parseErrors := s.parseErrors + ErrorsOf(f, b.end))
    case 7 =>
      var b := Vector(ExportAt, buf, f.start, f.End(), s.exports);
      s.(exports := b.items, parseErrors := s.parseErrors + ErrorsOf(f, b.end))
    case 8 =>
      var r := LebAt(buf, f.start);
      s.(hasStartSection := true, startFunctionIndex := if r.Ok? then Some(r.value) else s.startFunctionIndex,
         parseErrors := s.parseErrors + Thrown(f, r))
    case 10 =>
      s.(codeSection := Some(CodeSection(f.size, f.start)))
    case 11 =>
      var b := DataVector(entropy, buf, f.start, f.End(), s.dataSegments);
      s.(dataSegments := b.items, parseErrors := s.parseErrors + ErrorsOf(f, b.end))
    case _ => s
  }

  function DecodeAll(entropy: Entropy, buf: Bytes, frames: seq<Frame>, s: Parsed): Parsed {
    if frames == [] then s
    else DecodeAll(entropy, buf, frames[1..], DecodeSection(entropy, buf, frames[0], s))
  }

  /** The reference meaning of a parse: frame the whole buffer first, then decode each frame on its own. */
  function ParseFrom(entropy: Entropy, buf: Bytes, pos: nat, s: Parsed): Parsed {
    var framing := Frames(buf, pos);
    var t := DecodeAll(entropy, buf, framing.frames, s);
    if framing.error.Some? then t.(parseErrors := t.parseErrors + [framing.error.value]) else t
  }

  function Parse(entropy: Entropy, buf: Bytes): Parsed {
    ParseFrom(entropy, buf, 8, EMPTY)
  }

  /** Where the frame after the first i of `frames` must have its header. */
  function Boundary(frames: seq<Frame>, pos: nat, i: nat): nat
    requires i <= |frames|
  {
    if i == 0 then pos else frames[i - 1].End()
  }

  predicate FrameStandsAt(buf: Bytes, f: Frame, pos: nat) {
    f.header == pos < |buf| && f.id == buf[pos] && LebAt(buf, pos + 1) == Ok(f.size, f.start) && f.End() <= |buf|
  }

  /** The error that stops the framing at `pos`, if any: there is none exactly at the end of the buffer. */
  function StopsAt(buf: Bytes, pos: nat): Option<ParseError> {
    if pos >= |buf| then None
    else
      match LebAt(buf, pos + 1)
      case Throw(p) => Some(TruncatedHeader(p))
      case Ok(size, start) =>
        if start + size > |buf| >= start then Some(SectionTooLong(buf[pos], start, size, |buf| - start)) else None
  }

  /** The frames tile the buffer: each header stands where the section before ends and each body lies
      within the buffer. Framing stops at the end of the buffer, or with the error of the first header
      that is cut short or claims more than is left. */
  lemma {:induction false} FramesTile(buf: Bytes, pos: nat)
    requires pos <= |buf|
    ensures var Framing(frames, error) := Frames(buf, pos);
            && (forall i :: 0 <= i < |frames| ==> FrameStandsAt(buf, frames[i], Boundary(frames, pos, i)))
            && error == StopsAt(buf, Boundary(frames, pos, |frames|))
            && (error.None? <==> Boundary(frames, pos, |frames|) == |buf|)
    decreases |buf| - pos
  {
    hide LebAt;
    if pos < |buf| {
      LebBounds(buf, pos + 1);
      var header := LebAt(buf, pos + 1);
      if header.Ok? && header.pos + header.value <= |buf| {
        var next := header.pos + header.value;
        FramesTile(buf, next);
        var rest := Frames(buf, next).frames;
        var frames := [Frame(pos, buf[pos], header.pos, header.value)] + rest;
        assert Frames(buf, pos) == Framing(frames, Frames(buf, next).error);
        hide Frames;
        assert Boundary(frames, pos, |frames|) == Boundary(rest, next, |rest|);
        forall i | 0 <= i < |frames|
          ensures FrameStandsAt(buf, frames[i], Boundary(frames, pos, i))
        {
          if i > 0 {
            assert frames[i] == rest[i - 1] && FrameStandsAt(buf, rest[i - 1], Boundary(rest, next, i - 1));
          }
        }
      }
    }
  }

  // ----- The object the body parsers push into -----

  class ParsedSections {
    var imports: seq<Import>
    var exports: seq<Export>
    var memories: seq<Memory>
    var globals: seq<Global>
    var dataSegments: seq<DataSegment>
    var hasStartSection: bool
    var startFunctionIndex: Option<nat>
    var functionCount: nat
    var codeSection: Option<CodeSection>
    var customSections: seq<CustomSection>
    var parseErrors: seq<ParseError>

    constructor ()
      ensures View() == EMPTY
    {
      imports, exports, memories, globals, dataSegments := [], [], [], [], [];
      hasStartSection, startFunctionIndex, functionCount, codeSection := false, None, 0, None;
      customSections, parseErrors := [], [];
    }

    function View(): Parsed reads this {
      Parsed(imports, exports, memories, globals, dataSegments, hasStartSection, startFunctionIndex,
             functionCount, codeSection, customSections, parseErrors)
    }
  }

  method SkipMemLimits(reader: BufferReader) returns (r: Result<(), RangeError>)
    requires reader.Valid()
    modifies reader`pos
    ensures reader.Valid() && Seen(r, reader.pos) == LimitsAt(reader.buf, old(reader.pos))
  {
    hide LebAt;
    var flags :- reader.ReadByte();
    var _ :- reader.ReadLEB128U();
    if flags % 2 == 1 {
      var _ :- reader.ReadLEB128U();
    }
    return Success(());
  }

  /** The descriptor that follows an import; of an unknown kind, nothing is read. */
  method SkipDescriptor(reader: BufferReader, kind: Byte) returns (r: Result<(), RangeError>, known: bool)
    requires reader.Valid()
    modifies reader`pos
    ensures reader.Valid() && known == (kind <= 3)
    ensures if known then Seen(r, reader.pos) == DescriptorAt(reader.buf, old(reader.pos), kind)
            else r == Success(()) && reader.pos == old(reader.pos)
  {
    hide LebAt, LimitsAt;
    known := true;
    match kind {
      case 0 =>
        var _ :- reader.ReadLEB128U();
      case 1 =>
        var _ :- reader.ReadByte();
        r := SkipMemLimits(reader);
        return;
      case 2 =>
        r := SkipMemLimits(reader);
        return;
      case 3 =>
        var _ :- reader.ReadByte();
        var _ :- reader.ReadByte();
      case _ =>
        known := false;
    }
    r := Success(());
  }

  method ParseImportSection(reader: BufferReader, sections: ParsedSections, sectionEnd: nat)
    returns (r: Result<(), RangeError>)
    requires reader.Valid()
    modifies reader`pos, sections`imports, sections`parseErrors
    ensures reader.Valid()
    ensures var b := ImportVector(reader.buf, old(reader.pos), sectionEnd, old(sections.imports));
            && sections.imports == b.items
            && sections.parseErrors == old(sections.parseErrors) + (if b.end.Aborted? then [b.end.error] else [])
            && r.Failure? == b.end.Threw?
  {
    hide LebAt, VecAt, DescriptorAt;
    ghost var body := ImportVector(reader.buf, reader.pos, sectionEnd, sections.imports);
    var count :- reader.ReadLEB128U();
    var i := 0;
    while i < count && reader.pos < sectionEnd
      invariant reader.Valid() && i <= count && sections.parseErrors == old(sections.parseErrors)
      invariant ImportItems(reader.buf, reader.pos, count - i, sectionEnd, sections.imports) == body
    {
      ghost var at := reader.pos;
      var mod :- reader.ReadString();
      var name :- reader.ReadString();
      var kind :- reader.ReadByte();
      assert ImportNameAt(reader.buf, at) == Ok(Import(mod, name, kind), reader.pos);
      var _, known :- SkipDescriptor(reader, kind);
      if !known {
        sections.parseErrors := sections.parseErrors + [UnknownImportKind(kind, mod, name)];
        return Success(());
      }
      sections.imports := sections.imports + [Import(mod, name, kind)];
      i := i + 1;
    }
    return Success(());
  }

  method ReadExport(reader: BufferReader) returns (r: Result<Export, RangeError>)
    requires reader.Valid()
    modifies reader`pos
    ensures reader.Valid() && Seen(r, reader.pos) == ExportAt(reader.buf, old(reader.pos))
  {
    hide LebAt, VecAt, InitExprAt;
    var name :- reader.ReadString();
    var kind :- reader.ReadByte();
    var index :- reader.ReadLEB128U();
    return Success(Export(name, kind, index));
  }

  method ParseExportSection(reader: BufferReader, sections: ParsedSections, sectionEnd: nat)
    returns (r: Result<(), RangeError>)
    requires reader.Valid()
    modifies reader`pos, sections`exports
    ensures reader.Valid()
    ensures var b := Vector(ExportAt, reader.buf, old(reader.pos), sectionEnd, old(sections.exports));
            sections.exports == b.items && r.Failure? == b.end.Threw?
  {
    hide LebAt, ExportAt;
    ghost var body := Vector(ExportAt, reader.buf, reader.pos, sectionEnd, sections.exports);
    var count :- reader.ReadLEB128U();
    var i := 0;
    while i < count && reader.pos < sectionEnd
      invariant reader.Valid() && i <= count
      invariant Items(ExportAt, reader.buf, reader.pos, count - i, sectionEnd, sections.exports) == body
    {
      var x :- ReadExport(reader);
      sections.exports := sections.exports + [x];
      i := i + 1;
    }
    return Success(());
  }

  method ReadMemory(reader: BufferReader) returns (r: Result<Memory, RangeError>)
    requires reader.Valid()
    modifies reader`pos
    ensures reader.Valid() && Seen(r, reader.pos) == MemoryAt(reader.buf, old(reader.pos))
  {
    hide LebAt, VecAt, InitExprAt;
    var flags :- reader.ReadByte();
    var hasMax := flags % 2 != 0;
    var min :- reader.ReadLEB128U();
    if hasMax {
      var max :- reader.ReadLEB128U();
      return Success(Memory(hasMax, min, Some(max)));
    }
    return Success(Memory(hasMax, min, None));
  }

  method ParseMemorySection(reader: BufferReader, sections: ParsedSections) returns (r: Result<(), RangeError>)
    requires reader.Valid()
    modifies reader`pos, sections`memories
    ensures reader.Valid()
    ensures var b := Vector(MemoryAt, reader.buf, old(reader.pos), |reader.buf| + 1, old(sections.memories));
            sections.memories == b.items && r.Failure? == b.end.Threw?
  {
    hide LebAt, MemoryAt;
    ghost var body := Vector(MemoryAt, reader.buf, reader.pos, |reader.buf| + 1, sections.memories);
    var count :- reader.ReadLEB128U();
    var i := 0;
    while i < count
      invariant reader.Valid() && i <= count
      invariant Items(MemoryAt, reader.buf, reader.pos, count - i, |reader.buf| + 1, sections.memories) == body
    {
      var x :- ReadMemory(reader);
      sections.memories := sections.memories + [x];
      i := i + 1;
    }
    return Success(());
  }

  method ReadGlobal(reader: BufferReader) returns (r: Result<Global, RangeError>)
    requires reader.Valid()
    modifies reader`pos
    ensures reader.Valid() && Seen(r, reader.pos) == GlobalAt(reader.buf, old(reader.pos))
  {
    hide LebAt, VecAt, InitExprAt;
    var valueType :- reader.ReadByte();
    var mutByte :- reader.ReadByte();
    var _ :- reader.SkipInitExpr();
    return Success(Global(valueType, mutByte == 1));
  }

  method ParseGlobalSection(reader: BufferReader, sections: ParsedSections, sectionEnd: nat)
    returns (r: Result<(), RangeError>)
    requires reader.Valid()
    modifies reader`pos, sections`globals
    ensures reader.Valid()
    ensures var b := Vector(GlobalAt, reader.buf, old(reader.pos), sectionEnd, old(sections.globals));
            sections.globals == b.items && r.Failure? == b.end.Threw?
  {
    hide LebAt, GlobalAt;
    ghost var body := Vector(GlobalAt, reader.buf, reader.pos, sectionEnd, sections.globals);
    var count :- reader.ReadLEB128U();
    var i := 0;
    while i < count && reader.pos < sectionEnd
      invariant reader.Valid() && i <= count
      invariant Items(GlobalAt, reader.buf, reader.pos, count - i, sectionEnd, sections.globals) == body
    {
      var x :- ReadGlobal(reader);
      sections.globals := sections.globals + [x];
      i := i + 1;
    }
    return Success(());
  }

  method ReadData(reader: BufferReader) returns (r: Result<Bytes, RangeError>)
    requires reader.Valid()
    modifies reader`pos
    ensures reader.Valid() && Seen(r, reader.pos) == DataAt(reader.buf, old(reader.pos))
  {
    hide LebAt, VecAt, InitExprAt;
    var flags :- reader.ReadLEB128U();
    if flags == 0 {
      var _ :- reader.SkipInitExpr();
    } else if flags == 2 {
      var _ :- reader.ReadLEB128U();
      var _ :- reader.SkipInitExpr();
    }
    r := reader.ReadByteVec();
  }

  method ParseDataSection(entropy: Entropy, reader: BufferReader, sections: ParsedSections, sectionEnd: nat)
      returns (r: Result<(), RangeError>)
    requires reader.Valid()
    modifies reader`pos, sections`dataSegments
    ensures reader.Valid()
    ensures var b := DataVector(entropy, reader.buf, old(reader.pos), sectionEnd, old(sections.dataSegments));
            && sections.dataSegments == b.items && r.Failure? == b.end.Threw? && !b.end.Aborted?
  {
    hide LebAt, DataAt;
    ghost var body := DataVector(entropy, reader.buf, reader.pos, sectionEnd, sections.dataSegments);
    var count :- reader.ReadLEB128U();
    var i := 0;
    while i < count && reader.pos < sectionEnd
      invariant reader.Valid() && i <= count
      invariant DataItems(entropy, reader.buf, reader.pos, count - i, sectionEnd, sections.dataSegments) == body
    {
      var data :- ReadData(reader);
      var rawSample := if |data| <= 64 then data else data[..64];
      sections.dataSegments := sections.dataSegments + [DataSegment(|data|, entropy(data), rawSample)];
      i := i + 1;
    }
    return Success(());
  }

  method ParseCustomSection(reader: BufferReader, sections: ParsedSections, sectionEnd: nat)
    returns (r: Result<(), RangeError>)
    requires reader.Valid()
    modifies reader`pos, sections`customSections
    ensures reader.Valid()
    ensures match VecAt(reader.buf, old(reader.pos))
            case Ok(name, p) =>
              r.Success? && sections.customSections == old(sections.customSections)
                + [CustomSection(name, sectionEnd - p)]
            case Throw(_) => r.Failure? && sections.customSections == old(sections.customSections)
  {
    var name :- reader.ReadString();
    sections.customSections := sections.customSections + [CustomSection(name, sectionEnd - reader.pos)];
    return Success(());
  }

  /** The `switch` of the section loop: decodes one body with the reader at its start. */
  method ParseBody(entropy: Entropy, reader: BufferReader, sections: ParsedSections, f: Frame)
    returns (r: Result<(), RangeError>)
    requires reader.Valid() && reader.pos == f.start
    modifies reader`pos, sections
    ensures reader.Valid()
    ensures var s := sections.View();
            (if r.Success? then s else s.(parseErrors := s.parseErrors + [BodyThrew(f.id, f.start)]))
            == DecodeSection(entropy, reader.buf, f, old(sections.View()))
  {
    hide LebAt, VecAt, ImportVector, Vector, DataVector;
    ghost var empty: seq<ParseError> := [];
    assert sections.parseErrors + empty == sections.parseErrors;
    match f.id {
      case 0 => r := ParseCustomSection(reader, sections, f.End());
      case 2 => r := ParseImportSection(reader, sections, f.End());
      case 3 =>
        var n :- reader.ReadLEB128U();
        sections.functionCount := n;
        r := Success(());
      case 5 => r := ParseMemorySection(reader, sections);
      case 6 => r := ParseGlobalSection(reader, sections, f.End());
      case 7 => r := ParseExportSection(reader, sections, f.End());
      case 8 =>
        sections.hasStartSection := true;
        var n :- reader.ReadLEB128U();
        sections.startFunctionIndex := Some(n);
        r := Success(());
      case 10 =>
        sections.codeSection := Some(CodeSection(f.size, f.start));
        r := Success(());
      case 11 => r := ParseDataSection(entropy, reader, sections, f.End());
      case _ => r := Success(());
    }
  }

  /** One pass with a moving position, which body parsers may leave anywhere, gives the same result
      as framing first and decoding after. Throws only below eight bytes. */
  method ParseWasmSections(entropy: Entropy, buf: Bytes) returns (r: Result<ParsedSections, RangeError>)
    ensures |buf| < 8 <==> r.Failure?
    ensures r.Success? ==> fresh(r.value) && r.value.View() == Parse(entropy, buf)
  {
    hide LebAt, DecodeSection;
    var sections := new ParsedSections();
    var reader := new BufferReader(buf);
    var _ :- reader.SetPos(8);
    while reader.pos < |buf|
      invariant reader.Valid()
      invariant ParseFrom(entropy, buf, reader.pos, sections.View()) == Parse(entropy, buf)
      decreases |buf| - reader.pos
    {
      LebBounds(buf, reader.pos + 1);
      var header := reader.pos;
      var id := reader.ReadByte();  // cannot throw: the guard has just seen a byte
      var size := reader.ReadLEB128U();
      if size.Failure? {
        sections.parseErrors := sections.parseErrors + [TruncatedHeader(reader.pos)];
        break;
      }
      var start := reader.pos;
      var sectionEnd := start + size.value;
      if sectionEnd > |buf| {
        sections.parseErrors := sections.parseErrors + [SectionTooLong(id.value, start, size.value, |buf| - start)];
        break;
      }
      var f := Frame(header, id.value, start, size.value);
      var body := ParseBody(entropy, reader, sections, f);
      if body.Failure? {
        sections.parseErrors := sections.parseErrors + [BodyThrew(id.value, start)];
      }
      var _ := reader.SetPos(sectionEnd);
    }
    return Success(sections);
  }
}
