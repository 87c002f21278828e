/** What the scanner makes of modules that break off, or hold a section it cannot read. */
module WasmRecovery {
  import opened Bytes
  import opened Wrappers
  import opened WasmReader
  import opened WasmSections
  import opened WasmEncoder
  import opened WasmScan

  // ----- Bytes that break off -----

  /** The buffer ends after the first k bytes of `e`, short of all of them. */
  ghost predicate Cut(buf: Bytes, pos: nat, e: Bytes, k: nat) {
    k < |e| && pos + k == |buf| && buf[pos..] == e[..k]
  }

  /** A break in two parts is in the first one or in the second. */
  lemma CutSplit(buf: Bytes, pos: nat, a: Bytes, b: Bytes, k: nat)
    requires Cut(buf, pos, a + b, k)
    ensures if k < |a| then Cut(buf, pos, a, k) else At(buf, pos, a) && Cut(buf, pos + |a|, b, k - |a|)
  {
    var e := a + b;
    if k < |a| {
      assert e[..k] == a[..k];
    } else {
      assert buf[pos..pos + |a|] == buf[pos..][..|a|] == e[..|a|] == a;
      assert buf[pos + |a|..] == buf[pos..][|a|..] == e[|a|..k] == b[..k - |a|];
    }
  }

  lemma CutGroup(g: Bytes, buf: Bytes, pos: nat, k: nat)
    requires IsGroup(g) && Cut(buf, pos, g, k)
    ensures LebAt(buf, pos) == Throw(|buf|)
  {
    assert forall i :: pos <= i < |buf| ==> buf[i] == buf[pos..][i - pos] == g[i - pos];
    LebMeaning(buf, pos);
  }

  lemma CutByte(b: Byte, buf: Bytes, pos: nat, k: nat)
    requires Cut(buf, pos, [b], k)
    ensures ByteAt(buf, pos).Throw?
  {
  }

  lemma CutVec(v: Vec, buf: Bytes, pos: nat, k: nat)
    requires VecFits(v) && Cut(buf, pos, VecBytes(v), k)
    ensures VecAt(buf, pos).Throw?
  {
    CutSplit(buf, pos, v.length, v.content, k);
    if k < |v.length| {
      CutGroup(v.length, buf, pos, k);
    } else {
      LebRoundTrip(buf, pos, v.length);
    }
    hide LebAt, IsGroup, Value;
  }

  lemma CutLimits(l: Limits, buf: Bytes, pos: nat, k: nat)
    requires LimitsFit(l) && Cut(buf, pos, LimitsBytes(l), k)
    ensures MemoryAt(buf, pos).Throw?
  {
    hide At, Cut, LebAt, IsGroup, Value;
    var rest := if l.max.None? then l.min else l.min + l.max.value;
    var flags := l.flags;
    CutSplit(buf, pos, [flags], rest, k);
    if k < 1 {
      CutByte(flags, buf, pos, k);
    } else {
      ByteReads(buf, pos, flags);
      if l.max.None? {
        CutGroup(l.min, buf, pos + 1, k - 1);
      } else {
        CutPair(l.min, l.max.value, buf, pos + 1, k - 1);
      }
    }
  }

  /** Two numbers in a row. */
  lemma CutPair(g: Numeral, h: Numeral, buf: Bytes, pos: nat, k: nat)
    requires IsGroup(g) && IsGroup(h) && Cut(buf, pos, g + h, k)
    ensures LebAt(buf, pos).Throw? || LebAt(buf, LebAt(buf, pos).pos).Throw?
  {
    hide At, Cut, LebAt, IsGroup, Value;
    CutSplit(buf, pos, g, h, k);
    if k < |g| {
      CutGroup(g, buf, pos, k);
    } else {
      LebRoundTrip(buf, pos, g);
      CutGroup(h, buf, pos + |g|, k - |g|);
    }
  }

  lemma CutDesc(d: ImportType, buf: Bytes, pos: nat, k: nat)
    requires DescFits(d) && Cut(buf, pos, DescBytes(d), k)
    ensures DescriptorAt(buf, pos, Kind(d)).Throw?
  {
    hide LebAt, MemoryAt, At, Cut, IsGroup, Value;
    match d {
      case FunctionType(i) => CutGroup(i, buf, pos, k);
      case TableType(t, l) =>
        CutSplit(buf, pos, [t], LimitsBytes(l), k);
        if k < 1 {
          CutByte(t, buf, pos, k);
        } else {
          ByteReads(buf, pos, t);
          CutLimits(l, buf, pos + 1, k - 1);
        }
      case MemoryType(l) => CutLimits(l, buf, pos, k);
      case GlobalType(t, m) =>
        CutSplit(buf, pos, [t], [m], k);
        if k < 1 {
          CutByte(t, buf, pos, k);
        } else {
          ByteReads(buf, pos, t);
          CutByte(m, buf, pos + 1, k - 1);
        }
    }
  }

  /** The bytes of an import up to its kind. */
  function NamedBytes(mod: Vec, name: Vec, kind: Byte): Bytes {
    VecBytes(mod) + (VecBytes(name) + [kind])
  }

  lemma NamedReads(mod: Vec, name: Vec, kind: Byte, buf: Bytes, pos: nat)
    requires VecFits(mod) && VecFits(name) && At(buf, pos, NamedBytes(mod, name, kind))
    ensures ImportNameAt(buf, pos)
            == Ok(Import(mod.content, name.content, kind), pos + |NamedBytes(mod, name, kind)|)
  {
    hide LebAt, VecAt, VecBytes, VecFits, At;
    AtSplit(buf, pos, VecBytes(mod), VecBytes(name) + [kind]);
    AtSplit(buf, pos + |VecBytes(mod)|, VecBytes(name), [kind]);
    VecReads(mod, buf, pos);
    VecReads(name, buf, pos + |VecBytes(mod)|);
    ByteReads(buf, pos + |VecBytes(mod)| + |VecBytes(name)|, kind);
  }

  lemma CutNamed(mod: Vec, name: Vec, kind: Byte, buf: Bytes, pos: nat, k: nat)
    requires VecFits(mod) && VecFits(name) && Cut(buf, pos, NamedBytes(mod, name, kind), k)
    ensures ImportNameAt(buf, pos).Throw?
  {
    hide LebAt, VecAt, VecBytes, VecFits, At, Cut;
    var m, n := VecBytes(mod), VecBytes(name);
    CutSplit(buf, pos, m, n + [kind], k);
    if k < |m| {
      CutVec(mod, buf, pos, k);
    } else {
      VecReads(mod, buf, pos);
      CutSplit(buf, pos + |m|, n, [kind], k - |m|);
      if k - |m| < |n| {
        CutVec(name, buf, pos + |m|, k - |m|);
      } else {
        VecReads(name, buf, pos + |m|);
        CutByte(kind, buf, pos + |m| + |n|, k - |m| - |n|);
      }
    }
  }

  lemma CutImport(i: ImportDef, buf: Bytes, pos: nat, k: nat)
    requires ImportFits(i) && Cut(buf, pos, ImportBytes(i), k)
    ensures match ImportNameAt(buf, pos)
            case Throw(_) => true
            case Ok(named, p) => named.kind <= 3 && DescriptorAt(buf, p, named.kind).Throw?
  {
    hide ImportNameAt, DescriptorAt, DescBytes, DescFits, VecFits, At, Cut;
    var named, d := NamedBytes(i.mod, i.name, Kind(i.desc)), DescBytes(i.desc);
    assert ImportBytes(i) == named + d;
    CutSplit(buf, pos, named, d, k);
    hide NamedBytes, ImportBytes;
    if k < |named| {
      CutNamed(i.mod, i.name, Kind(i.desc), buf, pos, k);
    } else {
      NamedReads(i.mod, i.name, Kind(i.desc), buf, pos);
      CutDesc(i.desc, buf, pos + |named|, k - |named|);
    }
  }

  lemma CutExport(e: ExportDef, buf: Bytes, pos: nat, k: nat)
    requires ExportFits(e) && Cut(buf, pos, ExportBytes(e), k)
    ensures ExportAt(buf, pos).Throw?
  {
    hide LebAt, VecAt, VecBytes, VecFits, At, Cut, IsGroup, Value;
    var n := VecBytes(e.name);
    CutSplit(buf, pos, n, [e.kind] + e.index, k);
    if k < |n| {
      CutVec(e.name, buf, pos, k);
    } else {
      VecReads(e.name, buf, pos);
      CutSplit(buf, pos + |n|, [e.kind], e.index, k - |n|);
      if k - |n| < 1 {
        CutByte(e.kind, buf, pos + |n|, k - |n|);
      } else {
        ByteReads(buf, pos + |n|, e.kind);
        CutGroup(e.index, buf, pos + |n| + 1, k - |n| - 1);
      }
    }
  }

  // ----- Expressions that break off -----

  /** After k bytes an instruction is under way. */
  predicate InsideOp(ops: seq<Op>, k: nat) {
    ops != [] && if k < |OpBytes(ops[0])| then k > 0 else InsideOp(ops[1..], k - |OpBytes(ops[0])|)
  }

  lemma CutOperand(op: Op, buf: Bytes, pos: nat, k: nat)
    requires OpFits(op) && Cut(buf, pos, OpBytes(op), k) && k > 0
    ensures pos < |buf| && buf[pos] != 0x0b && OperandAt(buf, pos + 1, buf[pos]).Throw?
  {
    var e := OpBytes(op);
    assert e == [e[0]] + e[1..];
    CutSplit(buf, pos, [e[0]], e[1..], k);
    ByteReads(buf, pos, e[0]);
    match op {
      case Immediate(_, group) =>
        assert e[1..] == group;
        CutGroup(group, buf, pos + 1, k - 1);
      case RefNull(t) =>
        assert e[1..] == [t];
        CutByte(t, buf, pos + 1, k - 1);
      case _ =>
    }
  }

  /** Where a constant expression breaks off, reading it throws inside an instruction; between two, it comes to the end
      of the buffer without an error. */
  lemma {:induction false} CutExpr(ops: seq<Op>, done: nat, buf: Bytes, pos: nat, k: nat)
    requires done + |ops| < MAX_OPS && (forall i :: 0 <= i < |ops| ==> OpFits(ops[i]))
    requires Cut(buf, pos, ExprBytes(ops), k)
    ensures if InsideOp(ops, k) then InitExprAt(buf, pos, done).Throw? else InitExprAt(buf, pos, done) == Ok((), |buf|)
    decreases |ops|
  {
    hide LebAt, OpBytes, OperandAt, OpFits;
    if ops != [] {
      var e := OpBytes(ops[0]);
      CutSplit(buf, pos, e, ExprBytes(ops[1..]), k);
      if k < |e| {
        if k > 0 {
          CutOperand(ops[0], buf, pos, k);
        }
      } else {
        OpReads(ops[0], buf, pos);
        CutExpr(ops[1..], done + 1, buf, pos + |e|, k - |e|);
      }
    }
  }

  lemma CutGlobal(g: GlobalDef, buf: Bytes, pos: nat, k: nat)
    requires ExprFits(g.init) && Cut(buf, pos, GlobalBytes(g), k)
    ensures if k < 2 || InsideOp(g.init, k - 2) then GlobalAt(buf, pos).Throw?
            else GlobalAt(buf, pos) == Ok(GlobalOf(g), |buf|)
  {
    hide InitExprAt, ExprBytes, At, Cut, InsideOp;
    var m := g.mutability;
    CutSplit(buf, pos, [g.valueType], [m] + ExprBytes(g.init), k);
    if k < 1 {
      CutByte(g.valueType, buf, pos, k);
    } else {
      ByteReads(buf, pos, g.valueType);
      CutSplit(buf, pos + 1, [m], ExprBytes(g.init), k - 1);
      if k < 2 {
        CutByte(m, buf, pos + 1, k - 1);
      } else {
        ByteReads(buf, pos + 1, m);
        CutExpr(g.init, 0, buf, pos + 2, k - 2);
      }
    }
  }

  lemma CutOffset(d: DataDef, buf: Bytes, pos: nat, k: nat)
    requires DataFits(d) && Cut(buf, pos, OffsetBytes(d), k)
    ensures var r := SegmentOffsetAt(buf, pos, Value(d.flags)); r.Throw? || r == Ok((), |buf|)
  {
    hide LebAt, InitExprAt, ExprBytes, At, Cut, VecFits, IsGroup, Value, InsideOp;
    match d {
      case Active(_, offset, _) => CutExpr(offset, 0, buf, pos, k);
      case Passive(_, _) => assert false by { CutIsShort(buf, pos, [], k); }
      case ActiveIn(_, m, offset, _) =>
        CutSplit(buf, pos, m, ExprBytes(offset), k);
        if k < |m| {
          CutGroup(m, buf, pos, k);
        } else {
          LebRoundTrip(buf, pos, m);
          CutExpr(offset, 0, buf, pos + |m|, k - |m|);
        }
    }
  }

  lemma CutIsShort(buf: Bytes, pos: nat, e: Bytes, k: nat)
    requires Cut(buf, pos, e, k)
    ensures k < |e|
  {
  }

  lemma CutData(d: DataDef, buf: Bytes, pos: nat, k: nat)
    requires DataFits(d) && Cut(buf, pos, DataBytes(d), k)
    ensures DataAt(buf, pos).Throw?
  {
    hide VecAt, SegmentOffsetAt, OffsetBytes, VecBytes, VecFits, At, Cut, ExprFits, LebAt, IsGroup, Value;
    var flags, offset, v := d.flags, OffsetBytes(d), VecBytes(d.content);
    CutSplit(buf, pos, flags, offset + v, k);
    if k < |flags| {
      CutGroup(flags, buf, pos, k);
    } else {
      LebRoundTrip(buf, pos, flags);
      var pos1, k1 := pos + |flags|, k - |flags|;
      CutSplit(buf, pos1, offset, v, k1);
      if k1 < |offset| {
        CutOffset(d, buf, pos1, k1);
        NoVecAtEnd(buf);
      } else {
        OffsetReads(d, buf, pos1);
        CutVec(d.content, buf, pos1 + |offset|, k1 - |offset|);
      }
    }
  }

  lemma NoVecAtEnd(buf: Bytes)
    ensures VecAt(buf, |buf|).Throw? && LebAt(buf, |buf|).Throw?
  {
    LebMeaning(buf, |buf|);
  }

  // ----- Lists that break off -----

  /** How many parts lie wholly within the first k bytes of the parts in a row. */
  function Whole(parts: seq<Bytes>, k: nat): nat {
    if parts == [] || k < |parts[0]| then 0 else 1 + Whole(parts[1..], k - |parts[0]|)
  }

  /** How many bytes of the next part are left of k bytes then. */
  function Rest(parts: seq<Bytes>, k: nat): nat {
    if parts == [] || k < |parts[0]| then k else Rest(parts[1..], k - |parts[0]|)
  }

  lemma {:induction false} CutJoin(parts: seq<Bytes>, buf: Bytes, pos: nat, k: nat)
    requires Cut(buf, pos, Join(parts), k)
    ensures var m, j := Whole(parts, k), Rest(parts, k);
            && m < |parts| && k == |Join(parts[..m])| + j
            && At(buf, pos, Join(parts[..m])) && Cut(buf, pos + |Join(parts[..m])|, parts[m], j)
    decreases |parts|
  {
    CutIsShort(buf, pos, Join(parts), k);
    hide Cut;
    var m, first := Whole(parts, k), parts[0];
    CutSplit(buf, pos, first, Join(parts[1..]), k);
    if k >= |first| {
      var rest := parts[1..];
      CutJoin(rest, buf, pos + |first|, k - |first|);
      assert parts[..m][1..] == rest[..m - 1];
      AtJoin(buf, pos, first, Join(rest[..m - 1]));
    } else {
      CutFits(buf, pos, first, k);
    }
  }

  lemma AtJoin(buf: Bytes, pos: nat, a: Bytes, b: Bytes)
    requires At(buf, pos, a) && At(buf, pos + |a|, b)
    ensures At(buf, pos, a + b)
  {
    assert buf[pos..pos + |a| + |b|] == buf[pos..pos + |a|] + buf[pos + |a|..pos + |a| + |b|];
  }

  lemma CutFits(buf: Bytes, pos: nat, e: Bytes, k: nat)
    requires Cut(buf, pos, e, k)
    ensures pos + k == |buf| && k < |e|
  {
  }

  /** The entry throws wherever these bytes break off. */
  ghost predicate Breaks<T(!new)>(entry: (Bytes, nat) -> Read<T>, e: Bytes) {
    forall buf: Bytes, pos: nat, k: nat :: Cut(buf, pos, e, k) ==> entry(buf, pos).Throw?
  }

  /** Entries that break off: those before the break are pushed; inside an entry, the next read throws; between two,
      so does a list that goes on past the end of the buffer. */
  lemma CutItems<T(!new)>(entry: (Bytes, nat) -> Read<T>, parts: seq<Bytes>, items: seq<T>,
                          buf: Bytes, pos: nat, k: nat, left: nat, end: nat, done: seq<T>)
    requires |parts| == |items| && forall i :: 0 <= i < |parts| ==> Reads(entry, parts[i], items[i])
    requires forall i :: 0 <= i < |parts| ==> Breaks(entry, parts[i])
    requires Cut(buf, pos, Join(parts), k) && end >= |buf| && left >= |parts|
    ensures var m := Whole(parts, k);
            && m < |parts|
            && Items(entry, buf, pos, left, end, done)
               == Body(done + items[..m], if Rest(parts, k) == 0 && end == |buf| then Finished else Threw)
  {
    CutJoin(parts, buf, pos, k);
    hide At, Reads, Cut;
    var m := Whole(parts, k);
    var p := pos + |Join(parts[..m])|;
    CutFits(buf, p, parts[m], Rest(parts, k));
    ItemsRoundTrip(entry, parts[..m], items[..m], buf, pos, left - m, end, done);
    assert Breaks(entry, parts[m]);
  }

  /** How many entries of a list lie wholly within its first k bytes. */
  function Kept(count: Numeral, parts: seq<Bytes>, k: nat): nat {
    if k < |count| then 0 else Whole(parts, k - |count|)
  }

  /** The k-th byte is inside the count or an entry: the break is not between two of them. */
  predicate Amid(count: Numeral, parts: seq<Bytes>, k: nat) {
    k < |count| || Rest(parts, k - |count|) > 0
  }

  lemma CutVector<T(!new), D>(entry: (Bytes, nat) -> Read<T>, f: D -> Bytes, l: List<D>, items: seq<T>,
                              buf: Bytes, pos: nat, k: nat, end: nat, done: seq<T>)
    requires CountCovers(l) && |l.items| == |items|
    requires forall i :: 0 <= i < |items| ==> Reads(entry, f(l.items[i]), items[i]) && Breaks(entry, f(l.items[i]))
    requires Cut(buf, pos, ListBytes(f, l), k) && end >= |buf|
    ensures var parts := Each(f, l.items);
            && Kept(l.count, parts, k) <= |items|
            && Vector(entry, buf, pos, end, done)
               == Body(done + items[..Kept(l.count, parts, k)],
                       if !Amid(l.count, parts, k) && end == |buf| then Finished else Threw)
  {
    var parts := Each(f, l.items);
    hide At, Cut, LebAt, Reads, Breaks, IsGroup, Value, Each, Join, Whole, Rest;
    CutSplit(buf, pos, l.count, Join(parts), k);
    if k < |l.count| {
      CutGroup(l.count, buf, pos, k);
      assert done + items[..0] == done;
    } else {
      assert forall i :: 0 <= i < |parts| ==> Reads(entry, parts[i], items[i]) && Breaks(entry, parts[i]);
      LebRoundTrip(buf, pos, l.count);
      CutItems(entry, parts, items, buf, pos + |l.count|, k - |l.count|, Value(l.count), end, done);
    }
  }

  lemma EachPrefix<T>(f: T -> Bytes, xs: seq<T>, m: nat)
    requires m <= |xs|
    ensures Each(f, xs)[..m] == Each(f, xs[..m])
  {
  }

  lemma CutImports(l: List<ImportDef>, buf: Bytes, pos: nat, k: nat, done: seq<Import>)
    requires CountCovers(l) && forall i :: 0 <= i < |l.items| ==> ImportFits(l.items[i])
    requires Cut(buf, pos, ListBytes(ImportBytes, l), k)
    ensures var parts := Each(ImportBytes, l.items);
            && Kept(l.count, parts, k) <= |l.items|
            && ImportVector(buf, pos, |buf|, done)
               == Body(done + ImportsOf(l.items[..Kept(l.count, parts, k)]),
                       if Amid(l.count, parts, k) then Threw else Finished)
  {
    var parts := Each(ImportBytes, l.items);
    hide At, Cut, LebAt, IsGroup, Value, Each, Join, Whole, Rest, ImportFits, ImportNameAt, DescriptorAt, ImportBytes;
    CutSplit(buf, pos, l.count, Join(parts), k);
    if k < |l.count| {
      CutGroup(l.count, buf, pos, k);
      assert done + ImportsOf([]) == done && l.items[..0] == [];
    } else {
      LebRoundTrip(buf, pos, l.count);
      var start, j := pos + |l.count|, k - |l.count|;
      CutJoin(parts, buf, start, j);
      var m := Whole(parts, j);
      EachPrefix(ImportBytes, l.items, m);
      var p := start + |Join(parts[..m])|;
      CutFits(buf, p, parts[m], Rest(parts, j));
      ImportItemsRoundTrip(l.items[..m], buf, start, Value(l.count) - m, |buf|, done);
      CutImport(l.items[m], buf, p, Rest(parts, j));
    }
  }

  lemma CutSegments(entropy: Entropy, l: List<DataDef>, buf: Bytes, pos: nat, k: nat, done: seq<DataSegment>)
    requires CountCovers(l) && forall i :: 0 <= i < |l.items| ==> DataFits(l.items[i])
    requires Cut(buf, pos, ListBytes(DataBytes, l), k)
    ensures var parts := Each(DataBytes, l.items);
            && Kept(l.count, parts, k) <= |l.items|
            && DataVector(entropy, buf, pos, |buf|, done)
               == Body(done + SegmentsOf(entropy, l.items[..Kept(l.count, parts, k)]),
                       if Amid(l.count, parts, k) then Threw else Finished)
  {
    var parts := Each(DataBytes, l.items);
    hide At, Cut, LebAt, IsGroup, Value, Each, Join, Whole, Rest, DataFits, DataAt, DataBytes;
    CutSplit(buf, pos, l.count, Join(parts), k);
    if k < |l.count| {
      CutGroup(l.count, buf, pos, k);
      assert done + SegmentsOf(entropy, []) == done && l.items[..0] == [];
    } else {
      LebRoundTrip(buf, pos, l.count);
      var start, j := pos + |l.count|, k - |l.count|;
      CutJoin(parts, buf, start, j);
      var m := Whole(parts, j);
      EachPrefix(DataBytes, l.items, m);
      var p := start + |Join(parts[..m])|;
      CutFits(buf, p, parts[m], Rest(parts, j));
      DataItemsRoundTrip(entropy, l.items[..m], buf, start, Value(l.count) - m, |buf|, done);
      CutData(l.items[m], buf, p, Rest(parts, j));
    }
  }

  /** The break is in the initializer of a global, and not inside an instruction. */
  predicate BetweenOps(l: List<GlobalDef>, k: nat) {
    var parts := Each(GlobalBytes, l.items);
    && k >= |l.count|
    && var m, j := Whole(parts, k - |l.count|), Rest(parts, k - |l.count|);
       m < |l.items| && j >= 2 && !InsideOp(l.items[m].init, j - 2)
  }

  /** The globals that are pushed: between two instructions, the one that breaks off too. */
  function GlobalsKept(l: List<GlobalDef>, k: nat): nat {
    Kept(l.count, Each(GlobalBytes, l.items), k) + if BetweenOps(l, k) then 1 else 0
  }

  lemma CutGlobals(l: List<GlobalDef>, buf: Bytes, pos: nat, k: nat, done: seq<Global>)
    requires CountCovers(l) && forall i :: 0 <= i < |l.items| ==> ExprFits(l.items[i].init)
    requires Cut(buf, pos, ListBytes(GlobalBytes, l), k)
    ensures GlobalsKept(l, k) <= |l.items|
    ensures Vector(GlobalAt, buf, pos, |buf|, done)
            == Body(done + GlobalsOf(l.items[..GlobalsKept(l, k)]),
                    if Amid(l.count, Each(GlobalBytes, l.items), k) && !BetweenOps(l, k) then Threw else Finished)
  {
    var parts := Each(GlobalBytes, l.items);
    hide At, Cut, LebAt, IsGroup, Value, Each, Join, Whole, Rest, ExprFits, GlobalAt, GlobalBytes, InsideOp;
    CutSplit(buf, pos, l.count, Join(parts), k);
    if k < |l.count| {
      CutGroup(l.count, buf, pos, k);
      assert done + GlobalsOf([]) == done && l.items[..0] == [];
    } else {
      LebRoundTrip(buf, pos, l.count);
      var start, j := pos + |l.count|, k - |l.count|;
      CutJoin(parts, buf, start, j);
      var m := Whole(parts, j);
      EachPrefix(GlobalBytes, l.items, m);
      var p := start + |Join(parts[..m])|;
      CutFits(buf, p, parts[m], Rest(parts, j));
      GlobalsReadBack(l.items[..m], buf, start, Value(l.count) - m, done);
      CutGlobal(l.items[m], buf, p, Rest(parts, j));
      var last := GlobalOf(l.items[m]);
      assert GlobalsOf(l.items[..m + 1]) == GlobalsOf(l.items[..m]) + [last];
    }
  }

  lemma GlobalsReadBack(gs: seq<GlobalDef>, buf: Bytes, pos: nat, more: nat, done: seq<Global>)
    requires forall i :: 0 <= i < |gs| ==> ExprFits(gs[i].init)
    requires At(buf, pos, Join(Each(GlobalBytes, gs)))
    ensures Items(GlobalAt, buf, pos, |gs| + more, |buf|, done)
            == Items(GlobalAt, buf, pos + |Join(Each(GlobalBytes, gs))|, more, |buf|, done + GlobalsOf(gs))
  {
    var parts := Each(GlobalBytes, gs);
    hide Each, Join, GlobalAt, GlobalBytes, ExprFits;
    AtFits(buf, pos, Join(parts));
    forall i | 0 <= i < |parts| ensures Reads(GlobalAt, parts[i], GlobalsOf(gs)[i]) {
      GlobalReads(gs[i]);
    }
    ItemsRoundTrip(GlobalAt, parts, GlobalsOf(gs), buf, pos, more, |buf|, done);
  }

  // ----- Sections and modules that break off -----

  /** What is reported of a section of which only the first k bytes are there. */
  function DescribeCut(entropy: Entropy, s: Section, k: nat, start: nat, p: Parsed): Parsed {
    match s
    case CustomSec(name, _) =>
      if k < |VecBytes(name)| then p
      else p.(customSections := p.customSections + [CustomSection(name.content, k - |VecBytes(name)|)])
    case ImportSec(l) =>
      p.(imports := p.imports + ImportsOf(Front(l.items, Kept(l.count, Each(ImportBytes, l.items), k))))
    case FunctionSec(l) => if k < |l.count| then p else p.(functionCount := |l.items|)
    case MemorySec(l) =>
      p.(memories := p.memories + MemoriesOf(Front(l.items, Kept(l.count, Each(LimitsBytes, l.items), k))))
    case GlobalSec(l) => p.(globals := p.globals + GlobalsOf(Front(l.items, GlobalsKept(l, k))))
    case ExportSec(l) =>
      p.(exports := p.exports + ExportsOf(Front(l.items, Kept(l.count, Each(ExportBytes, l.items), k))))
    case StartSec(_) => p.(hasStartSection := true)
    case CodeSec(_) => p.(codeSection := Some(CodeSection(k, start)))
    case DataSec(l) =>
      p.(dataSegments :=
         p.dataSegments + SegmentsOf(entropy, Front(l.items, Kept(l.count, Each(DataBytes, l.items), k))))
    case OtherSec(_, _) => p
  }

  function Front<T>(xs: seq<T>, n: nat): seq<T> {
    if n <= |xs| then xs[..n] else xs
  }

  /** The break is noticed: it is in a name, a count, a start index, or an entry; a memory section is read past its end,
      and of a global only what stands before its initializer and the instructions in it count. */
  predicate Noticed(s: Section, k: nat) {
    match s
    case CustomSec(name, _) => k < |VecBytes(name)|
    case ImportSec(l) => Amid(l.count, Each(ImportBytes, l.items), k)
    case FunctionSec(l) => k < |l.count|
    case MemorySec(_) => true
    case GlobalSec(l) => Amid(l.count, Each(GlobalBytes, l.items), k) && !BetweenOps(l, k)
    case ExportSec(l) => Amid(l.count, Each(ExportBytes, l.items), k)
    case StartSec(_) => true
    case CodeSec(_) => false
    case DataSec(l) => Amid(l.count, Each(DataBytes, l.items), k)
    case OtherSec(_, _) => false
  }

  lemma ExportBreaks(e: ExportDef)
    requires ExportFits(e)
    ensures Breaks(ExportAt, ExportBytes(e))
  {
    forall buf: Bytes, pos: nat, k: nat | Cut(buf, pos, ExportBytes(e), k) ensures ExportAt(buf, pos).Throw? {
      CutExport(e, buf, pos, k);
    }
  }

  lemma MemoryBreaks(l: Limits)
    requires LimitsFit(l)
    ensures Breaks(MemoryAt, LimitsBytes(l))
  {
    forall buf: Bytes, pos: nat, k: nat | Cut(buf, pos, LimitsBytes(l), k) ensures MemoryAt(buf, pos).Throw? {
      CutLimits(l, buf, pos, k);
    }
  }

  lemma CutExports(l: List<ExportDef>, buf: Bytes, pos: nat, k: nat, done: seq<Export>)
    requires CountCovers(l) && forall i :: 0 <= i < |l.items| ==> ExportFits(l.items[i])
    requires Cut(buf, pos, ListBytes(ExportBytes, l), k)
    ensures var parts := Each(ExportBytes, l.items);
            Vector(ExportAt, buf, pos, |buf|, done)
            == Body(done + ExportsOf(Front(l.items, Kept(l.count, parts, k))),
                    if Amid(l.count, parts, k) then Threw else Finished)
  {
    hide Reads, Breaks, ExportFits, ExportBytes, Vector, Kept, Amid, Cut;
    forall i | 0 <= i < |l.items|
      ensures Reads(ExportAt, ExportBytes(l.items[i]), ExportsOf(l.items)[i])
      ensures Breaks(ExportAt, ExportBytes(l.items[i]))
    {
      ExportReads(l.items[i]);
      ExportBreaks(l.items[i]);
    }
    CutVector(ExportAt, ExportBytes, l, ExportsOf(l.items), buf, pos, k, |buf|, done);
    var m := Kept(l.count, Each(ExportBytes, l.items), k);
    assert ExportsOf(l.items[..m]) == ExportsOf(l.items)[..m];
  }

  lemma CutMemories(l: List<Limits>, buf: Bytes, pos: nat, k: nat, done: seq<Memory>)
    requires CountFits(l) && forall i :: 0 <= i < |l.items| ==> LimitsFit(l.items[i])
    requires Cut(buf, pos, ListBytes(LimitsBytes, l), k)
    ensures Vector(MemoryAt, buf, pos, |buf| + 1, done)
            == Body(done + MemoriesOf(Front(l.items, Kept(l.count, Each(LimitsBytes, l.items), k))), Threw)
  {
    hide Reads, Breaks, LimitsFit, LimitsBytes, Vector, Kept, Amid, Cut;
    forall i | 0 <= i < |l.items|
      ensures Reads(MemoryAt, LimitsBytes(l.items[i]), MemoriesOf(l.items)[i])
      ensures Breaks(MemoryAt, LimitsBytes(l.items[i]))
    {
      MemoryReads(l.items[i]);
      MemoryBreaks(l.items[i]);
    }
    CutVector(MemoryAt, LimitsBytes, l, MemoriesOf(l.items), buf, pos, k, |buf| + 1, done);
    var m := Kept(l.count, Each(LimitsBytes, l.items), k);
    assert MemoriesOf(l.items[..m]) == MemoriesOf(l.items)[..m];
  }

  /** Decoding a body that breaks off at the end of the buffer. */
  lemma CutSection(entropy: Entropy, s: Section, k: nat, buf: Bytes, f: Frame, p: Parsed)
    requires SectionFits(s) && f.id == Id(s) && f.size == k && Cut(buf, f.start, BodyBytes(s), k)
    ensures var t := DescribeCut(entropy, s, k, f.start, p);
            DecodeSection(entropy, buf, f, p)
            == t.(parseErrors := p.parseErrors + if Noticed(s, k) then [BodyThrew(Id(s), f.start)] else [])
  {
    hide LebAt, VecAt, Vector, ImportVector, DataVector, ListBytes, VecBytes, VecFits, CountFits, CountCovers,
      ImportFits, DataFits, ExportFits, LimitsFit, ExprFits, IsGroup, Value, Kept, Amid, BetweenOps, GlobalsKept, Each;
    CutFits(buf, f.start, BodyBytes(s), k);
    match s {
      case CustomSec(name, payload) =>
        CutSplit(buf, f.start, VecBytes(name), payload, k);
        if k < |VecBytes(name)| {
          CutVec(name, buf, f.start, k);
        } else {
          VecReads(name, buf, f.start);
        }
      case ImportSec(l) =>
        CutImports(l, buf, f.start, k, p.imports);
      case FunctionSec(l) =>
        CutCount(l, buf, f.start, k);
      case MemorySec(l) =>
        CutMemories(l, buf, f.start, k, p.memories);
      case GlobalSec(l) =>
        CutGlobals(l, buf, f.start, k, p.globals);
      case ExportSec(l) =>
        CutExports(l, buf, f.start, k, p.exports);
      case StartSec(g) =>
        CutGroup(g, buf, f.start, k);
      case CodeSec(_) =>
      case DataSec(l) =>
        CutSegments(entropy, l, buf, f.start, k, p.dataSegments);
      case OtherSec(_, _) =>
    }
  }

  lemma CutCount(l: List<Numeral>, buf: Bytes, pos: nat, k: nat)
    requires CountFits(l) && Cut(buf, pos, ListBytes(NumeralBytes, l), k)
    ensures if k < |l.count| then LebAt(buf, pos).Throw? else LebAt(buf, pos) == Ok(|l.items|, pos + |l.count|)
  {
    hide At, Cut, LebAt, IsGroup, Value, Each, Join;
    CutSplit(buf, pos, l.count, Join(Each(NumeralBytes, l.items)), k);
    if k < |l.count| {
      CutGroup(l.count, buf, pos, k);
    } else {
      LebRoundTrip(buf, pos, l.count);
    }
  }

  lemma ModuleParts(sections: seq<Sized>, tail: Bytes)
    ensures var n, buf := |ModuleBytes(sections)|, ModuleBytes(sections) + tail;
            && n == 8 + |SectionsBytes(sections)| && At(buf, n, tail) && At(buf, 8, SectionsBytes(sections))
            && HeaderFits(buf)
  {
    hide SectionsBytes, At;
    var whole := ModuleBytes(sections);
    var buf := whole + tail;
    assert At(buf, 0, whole + tail) by {
      WholeIsAt(buf);
    }
    AtSplit(buf, 0, whole, tail);
    AtSplit(buf, 0, HEADER, SectionsBytes(sections));
    assert buf[..8] == HEADER;
  }

  lemma WholeIsAt(buf: Bytes)
    ensures At(buf, 0, buf)
  {
  }

  lemma ModuleThen(entropy: Entropy, sections: seq<Sized>, tail: Bytes)
    requires ModuleFits(sections)
    ensures var n, buf := |ModuleBytes(sections)|, ModuleBytes(sections) + tail;
            && At(buf, n, tail)
            && Parse(entropy, buf) == ParseFrom(entropy, buf, n, DescribeAll(entropy, sections, 8, EMPTY))
            && DescribeAll(entropy, sections, 8, EMPTY).parseErrors == []
            && HeaderFits(buf)
  {
    hide ModuleFits, ModuleBytes, SectionsBytes, At, ParseFrom, DescribeAll, HeaderFits;
    var buf := ModuleBytes(sections) + tail;
    ModuleParts(sections, tail);
    SectionsRoundTrip(entropy, sections, buf, 8, EMPTY);
    DescriptionHasNoErrors(entropy, sections, 8, EMPTY);
  }

  lemma ErrorsBlock(entropy: Entropy, buf: Bytes, max: nat)
    requires |buf| > 8 && Parse(entropy, buf).parseErrors != []
    ensures Blocked(entropy, buf, max)
  {
    hide Parse, HeaderFits;
  }

  lemma CutBody(entropy: Entropy, s: Section, size: Numeral, k: nat, buf: Bytes, pos: nat, p: Parsed)
    requires SectionFits(s) && k < |BodyBytes(s)| && Spells(size, k)
    requires At(buf, pos, [Id(s)] + (size + BodyBytes(s)[..k])) && pos + 1 + |size| + k == |buf|
    ensures var start := pos + 1 + |size|;
            ParseFrom(entropy, buf, pos, p)
            == DescribeCut(entropy, s, k, start, p).(
                 parseErrors := p.parseErrors + if Noticed(s, k) then [BodyThrew(Id(s), start)] else [])
  {
    hide ParseFrom, DecodeSection, DescribeCut, Noticed, SectionFits, Spells, BodyBytes;
    var body := BodyBytes(s)[..k];
    var f := Frame(pos, Id(s), pos + 1 + |size|, k);
    FrameRoundTrip(entropy, Id(s), size, body, buf, pos, p);
    assert Cut(buf, f.start, BodyBytes(s), k);
    CutSection(entropy, s, k, buf, f, p);
    NothingLeft(entropy, buf, DecodeSection(entropy, buf, f, p));
  }

  /** A module whose last section has an honest size and a body that breaks off: everything before is reported, and of
      that section the entries before the break, with one error exactly if the break is noticed. Then the module is
      blocked. */
  lemma BreaksOffInBody(entropy: Entropy, sections: seq<Sized>, s: Section, size: Numeral, k: nat, max: nat)
    requires ModuleFits(sections) && SectionFits(s) && k < |BodyBytes(s)| && Spells(size, k)
    ensures var bytes := ModuleBytes(sections) + ([Id(s)] + (size + BodyBytes(s)[..k]));
            var start := |ModuleBytes(sections)| + 1 + |size|;
            var told := DescribeCut(entropy, s, k, start, DescribeAll(entropy, sections, 8, EMPTY));
            && Parse(entropy, bytes) == told.(parseErrors := if Noticed(s, k) then [BodyThrew(Id(s), start)] else [])
            && (Noticed(s, k) ==> Blocked(entropy, bytes, max))
  {
    hide *;
    var tail := [Id(s)] + (size + BodyBytes(s)[..k]);
    var buf, pos := ModuleBytes(sections) + tail, |ModuleBytes(sections)|;
    TakesBytes(sections);
    ModuleThen(entropy, sections, tail);
    CutBody(entropy, s, size, k, buf, pos, DescribeAll(entropy, sections, 8, EMPTY));
    if Noticed(s, k) {
      ErrorsBlock(entropy, buf, max);
    }
  }

  lemma TakesBytes(sections: seq<Sized>)
    ensures |ModuleBytes(sections)| >= 8
  {
  }

  /** The error of a section whose header or body breaks off after j bytes of the section. */
  function HeaderError(s: Sized, pos: nat, j: nat): ParseError {
    var start, there := pos + 1 + |s.size|, pos + j;
    if there < start then TruncatedHeader(there)
    else SectionTooLong(Id(s.section), start, |BodyBytes(s.section)|, there - start)
  }

  lemma CutHeader(entropy: Entropy, s: Sized, buf: Bytes, pos: nat, j: nat, p: Parsed)
    requires SizedFits(s) && Cut(buf, pos, SectionBytes(s), j) && j > 0
    ensures ParseFrom(entropy, buf, pos, p) == p.(parseErrors := p.parseErrors + [HeaderError(s, pos, j)])
  {
    hide LebAt, DecodeSection, IsGroup, Value, Cut, At, BodyBytes;
    var id, body := Id(s.section), BodyBytes(s.section);
    CutFits(buf, pos, SectionBytes(s), j);
    CutSplit(buf, pos, [id], s.size + body, j);
    ByteReads(buf, pos, id);
    CutSplit(buf, pos + 1, s.size, body, j - 1);
    if j - 1 < |s.size| {
      CutGroup(s.size, buf, pos + 1, j - 1);
    } else {
      LebRoundTrip(buf, pos + 1, s.size);
      assert Frames(buf, pos).frames == [];
    }
  }

  /** A module that breaks off inside a section: what comes before is reported, with one error, and it is blocked. */
  lemma BreaksOffInSection(entropy: Entropy, sections: seq<Sized>, s: Sized, j: nat, max: nat)
    requires ModuleFits(sections) && SizedFits(s) && 0 < j < |SectionBytes(s)|
    ensures var bytes := ModuleBytes(sections) + SectionBytes(s)[..j];
            && Parse(entropy, bytes) == DescribeAll(entropy, sections, 8, EMPTY).(
                                          parseErrors := [HeaderError(s, |ModuleBytes(sections)|, j)])
            && Blocked(entropy, bytes, max)
  {
    var tail := SectionBytes(s)[..j];
    var buf := ModuleBytes(sections) + tail;
    ModuleThen(entropy, sections, tail);
    TakesBytes(sections);
    hide ModuleBytes, ParseFrom, SizedFits, SectionBytes, HeaderFits;
    assert Cut(buf, |ModuleBytes(sections)|, SectionBytes(s), j);
    CutHeader(entropy, s, buf, |ModuleBytes(sections)|, j, DescribeAll(entropy, sections, 8, EMPTY));
    ErrorsBlock(entropy, buf, max);
  }

  /** The section in which the first n bytes of some sections end. */
  lemma {:induction false} SectionOf(sections: seq<Sized>, n: nat) returns (i: nat)
    requires n < |SectionsBytes(sections)|
    ensures i < |sections| && |SectionsBytes(sections[..i])| <= n
    ensures var j := n - |SectionsBytes(sections[..i])|;
            && j < |SectionBytes(sections[i])|
            && SectionsBytes(sections)[..n] == SectionsBytes(sections[..i]) + SectionBytes(sections[i])[..j]
    decreases |sections|
  {
    hide SectionBytes;
    var first := SectionBytes(sections[0]);
    if n < |first| {
      return 0;
    }
    var h := SectionOf(sections[1..], n - |first|);
    assert sections[..h + 1][1..] == sections[1..][..h];
    assert SectionsBytes(sections)[..n] == first + SectionsBytes(sections[1..])[..n - |first|];
    return h + 1;
  }

  lemma ModuleOf(sections: seq<Sized>, n: nat) returns (i: nat)
    requires 8 <= n < |ModuleBytes(sections)|
    ensures i < |sections| && |ModuleBytes(sections[..i])| <= n
    ensures var j := n - |ModuleBytes(sections[..i])|;
            && j < |SectionBytes(sections[i])|
            && ModuleBytes(sections)[..n] == ModuleBytes(sections[..i]) + SectionBytes(sections[i])[..j]
  {
    hide SectionBytes, SectionsBytes;
    i := SectionOf(sections, n - 8);
    var j := n - 8 - |SectionsBytes(sections[..i])|;
    assert ModuleBytes(sections)[..n] == HEADER + SectionsBytes(sections)[..n - 8];
    assert HEADER + (SectionsBytes(sections[..i]) + SectionBytes(sections[i])[..j])
           == ModuleBytes(sections[..i]) + SectionBytes(sections[i])[..j];
  }

  lemma FrontFits(sections: seq<Sized>, i: nat)
    requires ModuleFits(sections) && i < |sections|
    ensures ModuleFits(sections[..i]) && SizedFits(sections[i])
  {
    hide SizedFits;
  }

  /** Every proper prefix of a module that does not end between two sections is blocked. */
  lemma EveryCutIsBlocked(entropy: Entropy, sections: seq<Sized>, n: nat, max: nat)
    requires ModuleFits(sections) && n < |ModuleBytes(sections)|
    requires forall i: nat :: i <= |sections| ==> |ModuleBytes(sections[..i])| != n
    ensures Blocked(entropy, ModuleBytes(sections)[..n], max)
  {
    hide ModuleBytes, SectionBytes, ModuleFits, SizedFits, Parse, Risky;
    if n >= 8 {
      var i := ModuleOf(sections, n);
      FrontFits(sections, i);
      BreaksOffInSection(entropy, sections[..i], sections[i], n - |ModuleBytes(sections[..i])|, max);
    }
  }

  // ----- Errors in the middle -----

  lemma AroundAt(entropy: Entropy, id: Byte, size: Numeral, body: Bytes, after: seq<Sized>, buf: Bytes, pos: nat,
                 p: Parsed)
    requires ModuleFits(after) && Spells(size, |body|)
    requires At(buf, pos, [id] + (size + body) + SectionsBytes(after))
    requires pos + 1 + |size| + |body| + |SectionsBytes(after)| == |buf|
    ensures var f := Frame(pos, id, pos + 1 + |size|, |body|);
            && At(buf, f.start, body)
            && ParseFrom(entropy, buf, pos, p)
               == DescribeAll(entropy, after, f.End(), DecodeSection(entropy, buf, f, p))
  {
    hide ParseFrom, DecodeSection, DescribeAll, Spells, At, SectionsBytes;
    var f := Frame(pos, id, pos + 1 + |size|, |body|);
    AtSplit(buf, pos, [id] + (size + body), SectionsBytes(after));
    FrameRoundTrip(entropy, id, size, body, buf, pos, p);
    SectionsRoundTrip(entropy, after, buf, f.End(), DecodeSection(entropy, buf, f, p));
    NothingLeft(entropy, buf, DescribeAll(entropy, after, f.End(), DecodeSection(entropy, buf, f, p)));
  }

  /** A section with an honest size and any body, between encoded sections: both sides are reported in full. */
  lemma Around(entropy: Entropy, before: seq<Sized>, id: Byte, size: Numeral, body: Bytes, after: seq<Sized>)
    requires ModuleFits(before) && ModuleFits(after) && Spells(size, |body|)
    ensures var bytes := ModuleBytes(before) + ([id] + (size + body) + SectionsBytes(after));
            var pos := |ModuleBytes(before)|;
            var f := Frame(pos, id, pos + 1 + |size|, |body|);
            && At(bytes, f.start, body) && |bytes| > 8
            && Parse(entropy, bytes)
               == DescribeAll(entropy, after, f.End(),
                              DecodeSection(entropy, bytes, f, DescribeAll(entropy, before, 8, EMPTY)))
  {
    hide Parse, DescribeAll, DecodeSection, Spells, ModuleFits;
    var tail := [id] + (size + body) + SectionsBytes(after);
    TakesBytes(before);
    ModuleThen(entropy, before, tail);
    hide ModuleBytes, ParseFrom, At, HeaderFits;
    AroundAt(entropy, id, size, body, after, ModuleBytes(before) + tail, |ModuleBytes(before)|,
      DescribeAll(entropy, before, 8, EMPTY));
  }

  /** An import section whose count is larger than its first, well-formed entries, and goes on with an import of a kind
      that does not exist. */
  function StrangeImports(count: Numeral, imps: seq<ImportDef>, mod: Vec, name: Vec, kind: Byte, rest: Bytes): Bytes {
    count + (Join(Each(ImportBytes, imps)) + (NamedBytes(mod, name, kind) + rest))
  }

  lemma StrangeImportsRead(count: Numeral, imps: seq<ImportDef>, mod: Vec, name: Vec, kind: Byte, rest: Bytes,
                           buf: Bytes, pos: nat, end: nat, done: seq<Import>)
    requires IsGroup(count) && Value(count) > |imps| && (forall i :: 0 <= i < |imps| ==> ImportFits(imps[i]))
    requires VecFits(mod) && VecFits(name) && kind > 3
    requires At(buf, pos, StrangeImports(count, imps, mod, name, kind, rest))
    requires end == pos + |StrangeImports(count, imps, mod, name, kind, rest)|
    ensures ImportVector(buf, pos, end, done)
            == Body(done + ImportsOf(imps), Aborted(UnknownImportKind(kind, mod.content, name.content)))
  {
    hide LebAt, At, VecFits, ImportFits, ImportNameAt, DescriptorAt, Each, Join, NamedBytes, IsGroup, Value;
    var entries, named := Join(Each(ImportBytes, imps)), NamedBytes(mod, name, kind);
    AtSplit(buf, pos, count, entries + (named + rest));
    AtSplit(buf, pos + |count|, entries, named + rest);
    AtSplit(buf, pos + |count| + |entries|, named, rest);
    LebRoundTrip(buf, pos, count);
    ImportItemsRoundTrip(imps, buf, pos + |count|, Value(count) - |imps|, end, done);
    assert |named| > 0 by { NamedTakesBytes(mod, name, kind); }
    NamedReads(mod, name, kind, buf, pos + |count| + |entries|);
  }

  lemma NamedTakesBytes(mod: Vec, name: Vec, kind: Byte)
    ensures |NamedBytes(mod, name, kind)| > 0
  {
  }

  lemma DecodeStrange(entropy: Entropy, count: Numeral, imps: seq<ImportDef>, mod: Vec, name: Vec, kind: Byte,
                      rest: Bytes, buf: Bytes, f: Frame, p: Parsed)
    requires IsGroup(count) && Value(count) > |imps| && (forall i :: 0 <= i < |imps| ==> ImportFits(imps[i]))
    requires VecFits(mod) && VecFits(name) && kind > 3 && f.id == 2 && p.parseErrors == []
    requires At(buf, f.start, StrangeImports(count, imps, mod, name, kind, rest))
    requires f.size == |StrangeImports(count, imps, mod, name, kind, rest)|
    ensures DecodeSection(entropy, buf, f, p)
            == p.(imports := p.imports + ImportsOf(imps),
                  parseErrors := [UnknownImportKind(kind, mod.content, name.content)])
  {
    hide IsGroup, Value, ImportFits, VecFits, StrangeImports, ImportVector, At;
    StrangeImportsRead(count, imps, mod, name, kind, rest, buf, f.start, f.End(), p.imports);
  }

  lemma ErrorBeforeBlocks(entropy: Entropy, buf: Bytes, after: seq<Sized>, pos: nat, q: Parsed, max: nat)
    requires |buf| > 8 && Parse(entropy, buf) == DescribeAll(entropy, after, pos, q) && q.parseErrors != []
    ensures Blocked(entropy, buf, max)
  {
    hide Parse, Blocked;
    DescriptionHasNoErrors(entropy, after, pos, q);
    hide DescribeAll;
    ErrorsBlock(entropy, buf, max);
  }

  /** An import of an unknown kind ends its section, with the imports before it kept and one error that names it; all
      other sections, before and after, are reported in full. The module is blocked. */
  lemma UnknownKindIsTold(entropy: Entropy, before: seq<Sized>, size: Numeral, count: Numeral, imps: seq<ImportDef>,
                          mod: Vec, name: Vec, kind: Byte, rest: Bytes, after: seq<Sized>, max: nat)
    requires ModuleFits(before) && ModuleFits(after)
    requires IsGroup(count) && Value(count) > |imps| && (forall i :: 0 <= i < |imps| ==> ImportFits(imps[i]))
    requires VecFits(mod) && VecFits(name) && kind > 3
    requires Spells(size, |StrangeImports(count, imps, mod, name, kind, rest)|)
    ensures var body := StrangeImports(count, imps, mod, name, kind, rest);
            var bytes := ModuleBytes(before) + ([2] + (size + body) + SectionsBytes(after));
            var p := DescribeAll(entropy, before, 8, EMPTY);
            var q := p.(imports := p.imports + ImportsOf(imps),
                        parseErrors := [UnknownImportKind(kind, mod.content, name.content)]);
            && Parse(entropy, bytes)
               == DescribeAll(entropy, after, |ModuleBytes(before)| + 1 + |size| + |body|, q)
            && Blocked(entropy, bytes, max)
  {
    hide *;
    var body := StrangeImports(count, imps, mod, name, kind, rest);
    var bytes := ModuleBytes(before) + ([2] + (size + body) + SectionsBytes(after));
    var p := DescribeAll(entropy, before, 8, EMPTY);
    var f := Frame(|ModuleBytes(before)|, 2, |ModuleBytes(before)| + 1 + |size|, |body|);
    var q := p.(imports := p.imports + ImportsOf(imps),
                parseErrors := [UnknownImportKind(kind, mod.content, name.content)]);
    assert p.parseErrors == [] by { DescriptionHasNoErrors(entropy, before, 8, EMPTY); NoErrorsYet(); }
    Around(entropy, before, 2, size, body, after);
    DecodeStrange(entropy, count, imps, mod, name, kind, rest, bytes, f, p);
    assert f.End() == |ModuleBytes(before)| + 1 + |size| + |body| by { FrameEnd(f); }
    ErrorBeforeBlocks(entropy, bytes, after, f.End(), q, max);
  }

  lemma NoErrorsYet()
    ensures EMPTY.parseErrors == []
  {
  }

  lemma FrameEnd(f: Frame)
    ensures f.End() == f.start + f.size
  {
  }

  lemma DecodeOverlong(entropy: Entropy, body: Bytes, buf: Bytes, f: Frame, p: Parsed)
    requires At(buf, f.start, body) && |body| >= 5 && (forall i :: 0 <= i < 5 ==> body[i] >= 128)
    requires f.id in {0, 2, 3, 5, 6, 7, 8, 11} && p.parseErrors == []
    ensures DecodeSection(entropy, buf, f, p)
            == p.(hasStartSection := p.hasStartSection || f.id == 8, parseErrors := [BodyThrew(f.id, f.start)])
  {
    NoGroup(body, buf, f.start);
    hide LebAt, At;
  }

  /** A number of more than five bytes where a section wants its first one is an error of that section, and of no other:
      all others, before and after, are reported in full. The module is blocked. */
  lemma OverlongNumberIsTold(entropy: Entropy, before: seq<Sized>, id: Byte, size: Numeral, body: Bytes,
                             after: seq<Sized>, max: nat)
    requires ModuleFits(before) && ModuleFits(after) && Spells(size, |body|)
    requires id in {0, 2, 3, 5, 6, 7, 8, 11} && |body| >= 5 && forall i :: 0 <= i < 5 ==> body[i] >= 128
    ensures var bytes := ModuleBytes(before) + ([id] + (size + body) + SectionsBytes(after));
            var p, start := DescribeAll(entropy, before, 8, EMPTY), |ModuleBytes(before)| + 1 + |size|;
            var q := p.(hasStartSection := p.hasStartSection || id == 8, parseErrors := [BodyThrew(id, start)]);
            && Parse(entropy, bytes) == DescribeAll(entropy, after, start + |body|, q)
            && Blocked(entropy, bytes, max)
  {
    hide *;
    var bytes := ModuleBytes(before) + ([id] + (size + body) + SectionsBytes(after));
    var p, start := DescribeAll(entropy, before, 8, EMPTY), |ModuleBytes(before)| + 1 + |size|;
    var f := Frame(|ModuleBytes(before)|, id, start, |body|);
    var q := p.(hasStartSection := p.hasStartSection || id == 8, parseErrors := [BodyThrew(id, start)]);
    assert p.parseErrors == [] by { DescriptionHasNoErrors(entropy, before, 8, EMPTY); NoErrorsYet(); }
    Around(entropy, before, id, size, body, after);
    DecodeOverlong(entropy, body, bytes, f, p);
    assert f.End() == start + |body| by { FrameEnd(f); }
    ErrorBeforeBlocks(entropy, bytes, after, f.End(), q, max);
  }

  lemma NoGroup(body: Bytes, buf: Bytes, pos: nat)
    requires At(buf, pos, body) && |body| >= 5 && forall i :: 0 <= i < 5 ==> body[i] >= 128
    ensures LebAt(buf, pos).Throw?
  {
    assert forall i :: pos <= i < pos + 5 ==> buf[i] == buf[pos..pos + |body|][i - pos];
    LebMeaning(buf, pos);
  }
}
