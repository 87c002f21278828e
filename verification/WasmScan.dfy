/** The rule engine, the report and the verdict of the WASM scanner. */
module WasmScan {
  import opened Bytes
  import opened Wrappers
  import opened WasmReader
  import opened WasmSections
  import opened Sorting

  datatype Severity = Critical | High | Medium | Low | Info

  /** A fired rule; `item` is the memory or data segment it is about. */
  datatype Finding = Finding(rule: nat, severity: Severity, item: Option<nat>)

  datatype Status = Clean | Warning | Failed | Error

  datatype Summary = Summary(critical: nat, high: nat, medium: nat, low: nat, info: nat, passedChecks: nat,
                             totalChecks: nat)

  datatype Report = Report(wasmSize: nat, status: Status, findings: seq<Finding>, summary: Summary,
                           deploymentBlocked: bool, parsed: Option<Parsed>)

  const TOTAL_RULES: nat := 20
  const DEFAULT_MAX_WASM_SIZE: nat := 5 * 1024 * 1024

  function SeverityOf(rule: nat): Severity {
    match rule
    case 1 => Critical
    case 2 => Critical
    case 3 => High
    case 4 => High
    case 5 => High
    case 6 => Medium
    case 7 => Medium
    case 8 => Low
    case 9 => High
    case 10 => Medium
    case 11 => High
    case 12 => Medium
    case 13 => Medium
    case 14 => High
    case 15 => Medium
    case 16 => Medium
    case 17 => Low
    case 18 => Critical
    case 19 => Medium
    case _ => Low
  }

  // ----- Tests on sections -----

  function Ascii(s: string): (r: Bytes)
    requires forall i :: 0 <= i < |s| ==> s[i] < 128 as char
  {
    seq(|s|, i requires 0 <= i < |s| => s[i] as int)
  }

  const SOROBAN_HOST_MODULE: Bytes := [0x5f]

  const SUSPICIOUS_IMPORT_MODULES: seq<Bytes> :=
    [Ascii("wasi_snapshot_preview1"), Ascii("wasi_unstable"), Ascii("env"), Ascii("js"), Ascii("http"),
     Ascii("fetch"), Ascii("console"), Ascii("net"), Ascii("fs"), Ascii("os")]

  function LowerCase(s: Bytes): Bytes {
    seq(|s|, i requires 0 <= i < |s| => if 65 <= s[i] <= 90 then s[i] + 32 else s[i])
  }

  /** Two texts of bytes that differ at most in the case of letters, the second one in lower case. */
  predicate SameName(a: Bytes, b: Bytes) {
    |a| == |b| && forall i :: 0 <= i < |a| ==> b[i] == a[i] || (65 <= a[i] <= 90 && b[i] == a[i] + 32)
  }

  /** An import is suspicious exactly if its module is one of the table in any spelling. */
  lemma SuspiciousExactly(i: Import)
    ensures IsSuspicious(i) <==> exists name :: name in SUSPICIOUS_IMPORT_MODULES && SameName(i.mod, name)
  {
    forall name | name in SUSPICIOUS_IMPORT_MODULES ensures LowerCase(i.mod) == name <==> SameName(i.mod, name) {
      TableIsLower(name);
    }
  }

  lemma TableIsLower(name: Bytes)
    requires name in SUSPICIOUS_IMPORT_MODULES
    ensures forall k :: 0 <= k < |name| ==> !(65 <= name[k] <= 90)
  {
  }

  predicate IsSoroban(i: Import) {
    i.mod == SOROBAN_HOST_MODULE
  }

  predicate IsSuspicious(i: Import) {
    LowerCase(i.mod) in SUSPICIOUS_IMPORT_MODULES
  }

  predicate IsUnbounded(m: Memory) {
    !m.hasMax && m.min >= 2
  }

  predicate IsBase32(b: Byte) {
    65 <= b <= 90 || 50 <= b <= 55
  }

  /** The address pattern: a G and ten characters of the base-32 alphabet. Decoding as ASCII drops each byte's
      high bit. */
  predicate AddressAt(sample: Bytes, i: nat) {
    && i + 11 <= |sample| && sample[i] % 128 == 71
    && forall j :: i + 1 <= j < i + 11 ==> IsBase32(sample[j] % 128)
  }

  predicate HoldsAddress(sample: Bytes) {
    exists i :: 0 <= i < |sample| && AddressAt(sample, i)
  }

  function Filter<T>(p: T -> bool, xs: seq<T>): seq<T> {
    if xs == [] then [] else (if p(xs[0]) then [xs[0]] else []) + Filter(p, xs[1..])
  }

  predicate MostlyNull(sample: Bytes) {
    2 * |Filter(b => b == 0, sample)| > |sample|
  }

  /** Over half null bytes, or an embedded address. */
  predicate IsSuspiciousSample(sample: Bytes) {
    MostlyNull(sample) || HoldsAddress(sample)
  }

  predicate HasDuplicateName(es: seq<Export>) {
    exists j :: 0 <= j < |es| && exists i :: 0 <= i < j && es[i].name == es[j].name
  }

  /** Total size of the segments from `idx` on. */
  function TotalSize(ds: seq<DataSegment>, idx: nat): nat
    requires idx <= |ds|
    decreases |ds| - idx
  {
    if idx == |ds| then 0 else ds[idx].size + TotalSize(ds, idx + 1)
  }

  // ----- The rules -----

  function Fire(rule: nat, item: Option<nat>): Finding {
    Finding(rule, SeverityOf(rule), item)
  }

  /** The findings so far, and one more if the condition holds. */
  function Add(found: seq<Finding>, c: bool, rule: nat, item: Option<nat>): seq<Finding> {
    if c then found + [Fire(rule, item)] else found
  }

  function ImportFindings(found: seq<Finding>, imports: seq<Import>): seq<Finding> {
    var soroban := |Filter(IsSoroban, imports)|;
    Add(Add(Add(found, soroban == 0, 4, None), Filter(IsSuspicious, imports) != [], 5, None), 0 < soroban < 3, 6, None)
  }

  function ExportFindings(found: seq<Finding>, exports: seq<Export>): seq<Finding> {
    Add(Add(found, Filter((e: Export) => e.kind == 0, exports) == [], 7, None), HasDuplicateName(exports), 8, None)
  }

  function MemoryFindings(found: seq<Finding>, ms: seq<Memory>, idx: nat): seq<Finding>
    requires idx <= |ms|
    decreases |ms| - idx
  {
    if idx == |ms| then found
    else MemoryFindings(Add(Add(found, IsUnbounded(ms[idx]), 9, Some(idx)), ms[idx].min > 512, 10, Some(idx)),
      ms, idx + 1)
  }

  function SegmentFindings(found: seq<Finding>, seg: DataSegment, idx: nat): seq<Finding> {
    Add(Add(found, seg.entropy > 7.2 && seg.size > 256, 13, Some(idx)), IsSuspiciousSample(seg.rawSample), 14,
      Some(idx))
  }

  function DataFindings(found: seq<Finding>, ds: seq<DataSegment>, idx: nat): seq<Finding>
    requires idx <= |ds|
    decreases |ds| - idx
  {
    if idx == |ds| then found else DataFindings(SegmentFindings(found, ds[idx], idx), ds, idx + 1)
  }

  function SizeFindings(found: seq<Finding>, p: Parsed): seq<Finding> {
    var code := p.codeSection.Some? && p.codeSection.value.size > 1_000_000;
    Add(Add(Add(found, TotalSize(p.dataSegments, 0) > 512 * 1024, 15, None), p.functionCount > 2000, 16, None), code,
      17, None)
  }

  function SectionFindings(found: seq<Finding>, p: Parsed): seq<Finding> {
    var a := Add(found, p.parseErrors != [], 3, None);
    var b := ExportFindings(ImportFindings(a, p.imports), p.exports);
    var c := Add(MemoryFindings(b, p.memories, 0), p.hasStartSection, 11, None);
    var d := Add(c, |Filter((g: Global) => g.mutable, p.globals)| > 20, 12, None);
    SizeFindings(DataFindings(d, p.dataSegments, 0), p)
  }

  /** Every finding about a buffer, in the order in which the rules are tried. */
  function Findings(size: nat, p: Parsed, max: nat): seq<Finding> {
    var a := Add([], size > max, 18, None);
    if size <= 8 then Add(a, true, 19, None)
    else SectionFindings(Add(a, 500_000 < size <= max, 20, None), p)
  }

  method RunRules(size: nat, p: Parsed, max: nat) returns (findings: seq<Finding>)
    ensures findings == Findings(size, p, max)
  {
    findings := [];
    if size > max {
      findings := findings + [Fire(18, None)];
    }
    if size <= 8 {
      findings := findings + [Fire(19, None)];
      return;
    }
    if size > 500_000 && size <= max {
      findings := findings + [Fire(20, None)];
    }
    if |p.parseErrors| > 0 {
      findings := findings + [Fire(3, None)];
    }
    findings := RunImportRules(p.imports, findings);
    findings := RunExportRules(p.exports, findings);
    findings := RunMemoryRules(p.memories, findings);
    if p.hasStartSection {
      findings := findings + [Fire(11, None)];
    }
    if |Filter((g: Global) => g.mutable, p.globals)| > 20 {
      findings := findings + [Fire(12, None)];
    }
    var totalDataSize;
    findings, totalDataSize := RunDataRules(p.dataSegments, findings);
    if totalDataSize > 512 * 1024 {
      findings := findings + [Fire(15, None)];
    }
    if p.functionCount > 2000 {
      findings := findings + [Fire(16, None)];
    }
    if p.codeSection.Some? && p.codeSection.value.size > 1_000_000 {
      findings := findings + [Fire(17, None)];
    }
  }

  method RunImportRules(imports: seq<Import>, found: seq<Finding>) returns (findings: seq<Finding>)
    ensures findings == ImportFindings(found, imports)
  {
    findings := found;
    var sorobanImports := Filter(IsSoroban, imports);
    var suspiciousImports := Filter(IsSuspicious, imports);
    if |sorobanImports| == 0 && |imports| > 0 {
      findings := findings + [Fire(4, None)];
    } else if |imports| == 0 {
      findings := findings + [Fire(4, None)];
    }
    if |suspiciousImports| > 0 {
      findings := findings + [Fire(5, None)];
    }
    if |sorobanImports| > 0 && |sorobanImports| < 3 {
      findings := findings + [Fire(6, None)];
    }
  }

  method RunExportRules(exports: seq<Export>, found: seq<Finding>) returns (findings: seq<Finding>)
    ensures findings == ExportFindings(found, exports)
  {
    findings := found;
    var funcExports := Filter((e: Export) => e.kind == 0, exports);
    if |funcExports| == 0 {
      findings := findings + [Fire(7, None)];
    }
    if HasDuplicateName(exports) {
      findings := findings + [Fire(8, None)];
    }
  }

  method RunMemoryRules(ms: seq<Memory>, found: seq<Finding>) returns (findings: seq<Finding>)
    ensures findings == MemoryFindings(found, ms, 0)
  {
    findings := found;
    for idx := 0 to |ms|
      invariant MemoryFindings(findings, ms, idx) == MemoryFindings(found, ms, 0)
    {
      var mem := ms[idx];
      if !mem.hasMax && mem.min >= 2 {
        findings := findings + [Fire(9, Some(idx))];
      }
      if mem.min > 512 {
        findings := findings + [Fire(10, Some(idx))];
      }
    }
  }

  method RunDataRules(ds: seq<DataSegment>, found: seq<Finding>) returns (findings: seq<Finding>, totalDataSize: nat)
    ensures findings == DataFindings(found, ds, 0) && totalDataSize == TotalSize(ds, 0)
  {
    findings, totalDataSize := found, 0;
    for idx := 0 to |ds|
      invariant DataFindings(findings, ds, idx) == DataFindings(found, ds, 0)
      invariant totalDataSize + TotalSize(ds, idx) == TotalSize(ds, 0)
    {
      var seg := ds[idx];
      totalDataSize := totalDataSize + seg.size;
      if seg.entropy > 7.2 && seg.size > 256 {
        findings := findings + [Fire(13, Some(idx))];
      }
      if |seg.rawSample| > 0 {
        if MostlyNull(seg.rawSample) {
          findings := findings + [Fire(14, Some(idx))];
        } else if HoldsAddress(seg.rawSample) {
          findings := findings + [Fire(14, Some(idx))];
        }
      }
    }
  }

  // ----- The report -----

  function Rank(s: Severity): nat {
    match s
    case Critical => 0
    case High => 1
    case Medium => 2
    case Low => 3
    case Info => 4
  }

  function RankOf(f: Finding): int {
    Rank(f.severity)
  }

  /** The stable sort by severity. */
  function Sorted(fs: seq<Finding>): seq<Finding> {
    Sort(RankOf, fs)
  }

  function OfSeverity(s: Severity, fs: seq<Finding>): seq<Finding> {
    if fs == [] then [] else (if fs[0].severity == s then [fs[0]] else []) + OfSeverity(s, fs[1..])
  }

  lemma {:induction false} OfSeverityIsWithKey(s: Severity, fs: seq<Finding>)
    ensures OfSeverity(s, fs) == WithKey(RankOf, Rank(s), fs)
  {
    if fs != [] {
      OfSeverityIsWithKey(s, fs[1..]);
    }
  }

  /** Sorting orders the findings by severity, keeps every one of them, and keeps the order in which
      findings of equal severity were made. */
  lemma SortedIsStable(fs: seq<Finding>)
    ensures Ordered(RankOf, Sorted(fs)) && multiset(Sorted(fs)) == multiset(fs) && |Sorted(fs)| == |fs|
    ensures forall s :: OfSeverity(s, Sorted(fs)) == OfSeverity(s, fs)
  {
    SortIsStable(RankOf, fs);
    forall s ensures OfSeverity(s, Sorted(fs)) == OfSeverity(s, fs) {
      OfSeverityIsWithKey(s, fs);
      OfSeverityIsWithKey(s, Sorted(fs));
    }
  }

  function CountOf(s: Severity, fs: seq<Finding>): nat {
    |OfSeverity(s, fs)|
  }

  /** Every finding is counted under exactly one severity. */
  lemma {:induction false} CountsAddUp(fs: seq<Finding>)
    ensures CountOf(Critical, fs) + CountOf(High, fs) + CountOf(Medium, fs) + CountOf(Low, fs) + CountOf(Info, fs)
            == |fs|
  {
    if fs != [] {
      CountsAddUp(fs[1..]);
    }
  }

  lemma {:induction false} CountPositive(s: Severity, fs: seq<Finding>)
    ensures CountOf(s, fs) > 0 <==> exists i :: 0 <= i < |fs| && fs[i].severity == s
  {
    if fs != [] {
      CountPositive(s, fs[1..]);
      assert forall i :: 1 <= i < |fs| ==> fs[i] == fs[1..][i - 1];
    }
  }

  lemma {:induction false} CountConcat(s: Severity, a: seq<Finding>, b: seq<Finding>)
    ensures CountOf(s, a + b) == CountOf(s, a) + CountOf(s, b)
  {
    if a == [] {
      assert a + b == b;
    } else {
      CountConcat(s, a[1..], b);
      assert (a + b)[1..] == a[1..] + b;
    }
  }

  lemma CountOne(s: Severity, f: Finding)
    ensures CountOf(s, [f]) == if f.severity == s then 1 else 0
  {
    assert OfSeverity(s, [f]) == (if f.severity == s then [f] else []) + OfSeverity(s, [f][1..]);
  }

  predicate HasGrave(fs: seq<Finding>) {
    CountOf(Critical, fs) > 0 || CountOf(High, fs) > 0
  }

  method BuildReport(wasmSize: nat, found: seq<Finding>, totalChecks: nat, parsed: Option<Parsed>, forceError: bool)
      returns (report: Report)
    ensures report.findings == Sorted(found) && report.wasmSize == wasmSize && report.parsed == parsed
    ensures report.summary == Summary(CountOf(Critical, found), CountOf(High, found), CountOf(Medium, found),
                                      CountOf(Low, found), CountOf(Info, found),
                                      if totalChecks > |found| then totalChecks - |found| else 0, totalChecks)
    ensures report.status == if forceError then Error else if HasGrave(found) then Failed
                             else if exists i :: 0 <= i < |found| && found[i].severity in {Medium, Low} then Warning
                             else Clean
    ensures report.deploymentBlocked <==> forceError || HasGrave(found)
    ensures report.summary.critical + report.summary.high + report.summary.medium + report.summary.low
            + report.summary.info == |report.findings|
    ensures Ordered(RankOf, report.findings)
  {
    hide Sorted;
    var findings := Sorted(found);
    SortedIsStable(found);
    CountsAddUp(found);
    var s := Summary(0, 0, 0, 0, 0, 0, totalChecks);
    for i := 0 to |findings|
      invariant s == Summary(CountOf(Critical, findings[..i]), CountOf(High, findings[..i]),
                             CountOf(Medium, findings[..i]), CountOf(Low, findings[..i]),
                             CountOf(Info, findings[..i]), 0, totalChecks)
    {
      assert findings[..i + 1] == findings[..i] + [findings[i]];
      forall v: Severity
        ensures CountOf(v, findings[..i + 1])
                == CountOf(v, findings[..i]) + if findings[i].severity == v then 1 else 0 {
        CountConcat(v, findings[..i], [findings[i]]);
        CountOne(v, findings[i]);
      }
      match findings[i].severity {
        case Critical => s := s.(critical := s.critical + 1);
        case High => s := s.(high := s.high + 1);
        case Medium => s := s.(medium := s.medium + 1);
        case Low => s := s.(low := s.low + 1);
        case Info => s := s.(info := s.info + 1);
      }
    }
    assert findings[..|findings|] == findings;
    s := s.(passedChecks := if totalChecks > |findings| then totalChecks - |findings| else 0);
    forall v: Severity ensures CountOf(v, found) > 0 <==> exists i :: 0 <= i < |found| && found[i].severity == v {
      CountPositive(v, found);
    }
    var status;
    if forceError {
      status := Error;
    } else if s.critical > 0 || s.high > 0 {
      status := Failed;
    } else if s.medium > 0 || s.low > 0 {
      status := Warning;
    } else {
      status := Clean;
    }
    var deploymentBlocked := status == Failed || status == Error;
    return Report(wasmSize, status, findings, s, deploymentBlocked, parsed);
  }

  // ----- The verdict -----

  /** What makes the parsed sections of a module unfit for deployment. */
  ghost predicate Risky(p: Parsed) {
    || p.parseErrors != []
    || (forall i :: 0 <= i < |p.imports| ==> !IsSoroban(p.imports[i]))
    || (exists i :: 0 <= i < |p.imports| && IsSuspicious(p.imports[i]))
    || (exists i :: 0 <= i < |p.memories| && IsUnbounded(p.memories[i]))
    || p.hasStartSection
    || (exists i :: 0 <= i < |p.dataSegments| && IsSuspiciousSample(p.dataSegments[i].rawSample))
  }

  function VersionOf(buf: Bytes): nat
    requires |buf| >= 8
  {
    var b0: int, b1: int, b2: int, b3: int := buf[4], buf[5], buf[6], buf[7];
    b0 + 0x100 * b1 + 0x1_0000 * b2 + 0x100_0000 * b3
  }

  predicate HeaderFits(buf: Bytes) {
    |buf| >= 8 && buf[..8] == [0x00, 0x61, 0x73, 0x6d, 1, 0, 0, 0]
  }

  /** The verdict, read off the buffer. A module of eight bytes has no sections, and is not blocked for
      lacking imports. */
  ghost predicate Blocked(entropy: Entropy, buf: Bytes, max: nat) {
    !HeaderFits(buf) || |buf| > max || (|buf| > 8 && Risky(Parse(entropy, buf)))
  }

  /** Filtering keeps the elements that pass, each where it stood: none of none, and one more exactly if it passes. */
  lemma {:induction false} FilterGrows<T(!new)>(p: T -> bool, xs: seq<T>, x: T)
    ensures Filter(p, []) == [] && Filter(p, xs + [x]) == Filter(p, xs) + if p(x) then [x] else []
  {
    if xs != [] {
      FilterGrows(p, xs[1..], x);
      assert (xs + [x])[1..] == xs[1..] + [x];
    } else {
      assert Filter(p, [x][1..]) == [];
    }
  }

  /** The total is that of the sizes: nothing for no segments, and each adds its own. */
  lemma {:induction false} TotalSizeGrows(ds: seq<DataSegment>, d: DataSegment, idx: nat)
    requires idx <= |ds|
    ensures TotalSize([], 0) == 0 && TotalSize(ds + [d], idx) == TotalSize(ds, idx) + d.size
    decreases |ds| - idx
  {
    if idx < |ds| {
      TotalSizeGrows(ds, d, idx + 1);
    } else {
      assert TotalSize(ds + [d], idx + 1) == 0;
    }
  }

  lemma {:induction false} FilterEmpty<T(!new)>(p: T -> bool, xs: seq<T>)
    ensures Filter(p, xs) == [] <==> forall i :: 0 <= i < |xs| ==> !p(xs[i])
  {
    if xs != [] {
      FilterEmpty(p, xs[1..]);
      assert forall i :: 1 <= i < |xs| ==> xs[i] == xs[1..][i - 1];
    }
  }

  // ----- Which findings there are -----

  /** The condition of a rule, for an item where the rule is about one. */
  ghost predicate Holds(rule: nat, item: Option<nat>, size: nat, p: Parsed, max: nat) {
    if rule == 9 || rule == 10 then
      size > 8 && item.Some? && item.value < |p.memories|
      && if rule == 9 then IsUnbounded(p.memories[item.value]) else p.memories[item.value].min > 512
    else if rule == 13 || rule == 14 then
      size > 8 && item.Some? && item.value < |p.dataSegments| && SegmentHolds(rule, p.dataSegments[item.value])
    else
      item.None? && match rule
                    case 18 => size > max
                    case 19 => size <= 8
                    case 20 => size > 8 && 500_000 < size <= max
                    case _ => size > 8 && SectionHolds(rule, p)
  }

  predicate SegmentHolds(rule: nat, seg: DataSegment) {
    if rule == 13 then seg.entropy > 7.2 && seg.size > 256 else IsSuspiciousSample(seg.rawSample)
  }

  /** The conditions on the sections as a whole. */
  ghost predicate SectionHolds(rule: nat, p: Parsed) {
    match rule
    case 3 => p.parseErrors != []
    case 4 => forall i :: 0 <= i < |p.imports| ==> !IsSoroban(p.imports[i])
    case 5 => exists i :: 0 <= i < |p.imports| && IsSuspicious(p.imports[i])
    case 6 => 0 < |Filter(IsSoroban, p.imports)| < 3
    case 7 => forall i :: 0 <= i < |p.exports| ==> p.exports[i].kind != 0
    case 8 => HasDuplicateName(p.exports)
    case 11 => p.hasStartSection
    case 12 => |Filter((g: Global) => g.mutable, p.globals)| > 20
    case 15 => TotalSize(p.dataSegments, 0) > 512 * 1024
    case 16 => p.functionCount > 2000
    case 17 => p.codeSection.Some? && p.codeSection.value.size > 1_000_000
    case _ => false
  }

  /** How often a finding was made. */
  function Times(f: Finding, fs: seq<Finding>): nat {
    multiset(fs)[f]
  }

  /** One for the finding of this rule if the condition holds. */
  function One(f: Finding, rule: nat, item: Option<nat>, c: bool): nat {
    if c && f == Fire(rule, item) then 1 else 0
  }

  lemma AddTimes(f: Finding, found: seq<Finding>, c: bool, rule: nat, item: Option<nat>)
    ensures Times(f, Add(found, c, rule, item)) == Times(f, found) + One(f, rule, item, c)
  {
  }

  lemma ImportTimes(f: Finding, found: seq<Finding>, p: Parsed)
    ensures Times(f, ImportFindings(found, p.imports))
            == Times(f, found) + One(f, 4, None, SectionHolds(4, p)) + One(f, 5, None, SectionHolds(5, p))
              + One(f, 6, None, SectionHolds(6, p))
  {
    FilterEmpty(IsSoroban, p.imports);
    FilterEmpty(IsSuspicious, p.imports);
    hide Times, Add, Filter, IsSoroban, IsSuspicious, One;
    var soroban, suspicious := |Filter(IsSoroban, p.imports)|, Filter(IsSuspicious, p.imports) != [];
    var a := Add(found, soroban == 0, 4, None);
    AddTimes(f, found, soroban == 0, 4, None);
    AddTimes(f, a, suspicious, 5, None);
    AddTimes(f, Add(a, suspicious, 5, None), 0 < soroban < 3, 6, None);
  }

  lemma ExportTimes(f: Finding, found: seq<Finding>, p: Parsed)
    ensures Times(f, ExportFindings(found, p.exports))
            == Times(f, found) + One(f, 7, None, SectionHolds(7, p)) + One(f, 8, None, SectionHolds(8, p))
  {
    var functions := Filter((e: Export) => e.kind == 0, p.exports) == [];
    FilterEmpty((e: Export) => e.kind == 0, p.exports);
    hide Times, Add, Filter, HasDuplicateName, One;
    AddTimes(f, found, functions, 7, None);
    AddTimes(f, Add(found, functions, 7, None), HasDuplicateName(p.exports), 8, None);
  }

  /** The finding is about one of the items from idx on, for which its rule holds. */
  ghost predicate MemoryHolds(f: Finding, ms: seq<Memory>, idx: nat) {
    && f.item.Some? && idx <= f.item.value < |ms| && f.severity == SeverityOf(f.rule)
    && ((f.rule == 9 && IsUnbounded(ms[f.item.value])) || (f.rule == 10 && ms[f.item.value].min > 512))
  }

  lemma {:induction false} MemoryTimes(f: Finding, found: seq<Finding>, ms: seq<Memory>, idx: nat)
    requires idx <= |ms|
    ensures Times(f, MemoryFindings(found, ms, idx)) == Times(f, found) + if MemoryHolds(f, ms, idx) then 1 else 0
    decreases |ms| - idx
  {
    hide Times, Add, IsUnbounded;
    if idx < |ms| {
      var a := Add(found, IsUnbounded(ms[idx]), 9, Some(idx));
      AddTimes(f, found, IsUnbounded(ms[idx]), 9, Some(idx));
      AddTimes(f, a, ms[idx].min > 512, 10, Some(idx));
      MemoryTimes(f, Add(a, ms[idx].min > 512, 10, Some(idx)), ms, idx + 1);
    }
  }

  ghost predicate DataHolds(f: Finding, ds: seq<DataSegment>, idx: nat) {
    && f.item.Some? && idx <= f.item.value < |ds| && f.severity == SeverityOf(f.rule)
    && (f.rule == 13 || f.rule == 14) && SegmentHolds(f.rule, ds[f.item.value])
  }

  lemma {:induction false} DataTimes(f: Finding, found: seq<Finding>, ds: seq<DataSegment>, idx: nat)
    requires idx <= |ds|
    ensures Times(f, DataFindings(found, ds, idx)) == Times(f, found) + if DataHolds(f, ds, idx) then 1 else 0
    decreases |ds| - idx
  {
    hide Times, Add, IsSuspiciousSample;
    if idx < |ds| {
      var seg := ds[idx];
      var a := Add(found, seg.entropy > 7.2 && seg.size > 256, 13, Some(idx));
      AddTimes(f, found, seg.entropy > 7.2 && seg.size > 256, 13, Some(idx));
      AddTimes(f, a, IsSuspiciousSample(seg.rawSample), 14, Some(idx));
      DataTimes(f, SegmentFindings(found, seg, idx), ds, idx + 1);
    }
  }

  lemma SizeTimes(f: Finding, found: seq<Finding>, p: Parsed)
    ensures Times(f, SizeFindings(found, p))
            == Times(f, found) + One(f, 15, None, SectionHolds(15, p)) + One(f, 16, None, SectionHolds(16, p))
              + One(f, 17, None, SectionHolds(17, p))
  {
    hide Times, Add, TotalSize, One;
    var a := Add(found, TotalSize(p.dataSegments, 0) > 512 * 1024, 15, None);
    AddTimes(f, found, TotalSize(p.dataSegments, 0) > 512 * 1024, 15, None);
    AddTimes(f, a, p.functionCount > 2000, 16, None);
    AddTimes(f, Add(a, p.functionCount > 2000, 16, None),
      p.codeSection.Some? && p.codeSection.value.size > 1_000_000, 17, None);
  }

  /** What the rules on sections contribute, one after the other. */
  ghost function FromSections(f: Finding, p: Parsed): int {
    One(f, 3, None, SectionHolds(3, p))
    + One(f, 4, None, SectionHolds(4, p)) + One(f, 5, None, SectionHolds(5, p)) + One(f, 6, None, SectionHolds(6, p))
    + One(f, 7, None, SectionHolds(7, p)) + One(f, 8, None, SectionHolds(8, p))
    + (if MemoryHolds(f, p.memories, 0) then 1 else 0)
    + One(f, 11, None, SectionHolds(11, p)) + One(f, 12, None, SectionHolds(12, p))
    + (if DataHolds(f, p.dataSegments, 0) then 1 else 0)
    + One(f, 15, None, SectionHolds(15, p)) + One(f, 16, None, SectionHolds(16, p))
      + One(f, 17, None, SectionHolds(17, p))
  }

  ghost predicate IsSectionRule(rule: nat) {
    3 <= rule <= 17
  }

  /** A finding is of one rule only. */
  lemma FromOneRule(f: Finding, size: nat, p: Parsed, max: nat)
    requires size > 8
    ensures FromSections(f, p)
            == if IsSectionRule(f.rule) && f.severity == SeverityOf(f.rule) && Holds(f.rule, f.item, size, p, max)
               then 1 else 0
  {
    hide SectionHolds, SegmentHolds, IsUnbounded, SeverityOf;
    assert !SectionHolds(9, p) && !SectionHolds(10, p) && !SectionHolds(13, p) && !SectionHolds(14, p) by {
      NoSectionRule(p);
    }
  }

  lemma NoSectionRule(p: Parsed)
    ensures forall r: nat :: r < 3 || r > 17 || r == 9 || r == 10 || r == 13 || r == 14 ==> !SectionHolds(r, p)
  {
  }

  lemma SectionTimes(f: Finding, found: seq<Finding>, p: Parsed)
    ensures Times(f, SectionFindings(found, p)) == Times(f, found) + FromSections(f, p)
  {
    assert FromSections(f, p) ==
           One(f, 3, None, SectionHolds(3, p))
           + One(f, 4, None, SectionHolds(4, p)) + One(f, 5, None, SectionHolds(5, p))
             + One(f, 6, None, SectionHolds(6, p))
           + One(f, 7, None, SectionHolds(7, p)) + One(f, 8, None, SectionHolds(8, p))
           + (if MemoryHolds(f, p.memories, 0) then 1 else 0)
           + One(f, 11, None, SectionHolds(11, p)) + One(f, 12, None, SectionHolds(12, p))
           + (if DataHolds(f, p.dataSegments, 0) then 1 else 0)
           + One(f, 15, None, SectionHolds(15, p)) + One(f, 16, None, SectionHolds(16, p))
             + One(f, 17, None, SectionHolds(17, p));
    var many := |Filter((g: Global) => g.mutable, p.globals)| > 20;
    assert many == SectionHolds(12, p) && SectionHolds(3, p) == (p.parseErrors != []) &&
           SectionHolds(11, p) == p.hasStartSection;
    var a := Add(found, p.parseErrors != [], 3, None);
    var b := ImportFindings(a, p.imports);
    var c := ExportFindings(b, p.exports);
    var d := MemoryFindings(c, p.memories, 0);
    var e := Add(d, p.hasStartSection, 11, None);
    var g := Add(e, many, 12, None);
    var h := DataFindings(g, p.dataSegments, 0);
    assert SectionFindings(found, p) == SizeFindings(h, p);
    hide *;
    AddTimes(f, found, p.parseErrors != [], 3, None);
    ImportTimes(f, a, p);
    ExportTimes(f, b, p);
    MemoryTimes(f, c, p.memories, 0);
    AddTimes(f, d, p.hasStartSection, 11, None);
    AddTimes(f, e, many, 12, None);
    DataTimes(f, g, p.dataSegments, 0);
    SizeTimes(f, h, p);
  }

  /** The rules make a finding once if its condition holds, and else never. */
  lemma FindingsExactly(f: Finding, size: nat, p: Parsed, max: nat)
    ensures Times(f, Findings(size, p, max))
            == if f.severity == SeverityOf(f.rule) && Holds(f.rule, f.item, size, p, max) then 1 else 0
  {
    assert Times(f, []) == 0;
    NoSectionRule(p);
    hide Times, Add, SectionFindings, SectionHolds, SegmentHolds, IsUnbounded, FromSections;
    var a := Add([], size > max, 18, None);
    AddTimes(f, [], size > max, 18, None);
    if size <= 8 {
      AddTimes(f, a, true, 19, None);
    } else {
      AddTimes(f, a, 500_000 < size <= max, 20, None);
      SectionTimes(f, Add(a, 500_000 < size <= max, 20, None), p);
      FromOneRule(f, size, p, max);
    }
  }

  /** Some finding is critical or high exactly if there is one to point at. */
  lemma GraveExactly(fs: seq<Finding>)
    ensures HasGrave(fs) <==> exists f :: Times(f, fs) > 0 && IsGrave(f.severity)
  {
    CountPositive(Critical, fs);
    CountPositive(High, fs);
    hide CountOf;
    if i :| 0 <= i < |fs| && IsGrave(fs[i].severity) {
      assert Times(fs[i], fs) > 0;
    }
    if f :| Times(f, fs) > 0 && IsGrave(f.severity) {
      var i :| 0 <= i < |fs| && fs[i] == f;
    }
  }

  predicate IsGrave(s: Severity) {
    s == Critical || s == High
  }

  /** The conditions of the critical and high rules are the size limit and what makes a module risky. */
  lemma GraveRules(size: nat, p: Parsed, max: nat)
    ensures (exists rule: nat, item :: IsGrave(SeverityOf(rule)) && Holds(rule, item, size, p, max)) <==>
            size > max || (size > 8 && Risky(p))
  {
    hide IsSoroban, IsSuspicious, IsUnbounded, IsSuspiciousSample, Filter, TotalSize, HasDuplicateName;
    if size > max {
      assert Holds(18, None, size, p, max);
    }
    if size > 8 {
      assert p.parseErrors != [] ==> Holds(3, None, size, p, max);
      assert (forall i :: 0 <= i < |p.imports| ==> !IsSoroban(p.imports[i])) ==> Holds(4, None, size, p, max);
      assert (exists i :: 0 <= i < |p.imports| && IsSuspicious(p.imports[i])) ==> Holds(5, None, size, p, max);
      assert forall i: nat :: i < |p.memories| && IsUnbounded(p.memories[i]) ==> Holds(9, Some(i), size, p, max);
      assert p.hasStartSection ==> Holds(11, None, size, p, max);
      assert forall i: nat :: i < |p.dataSegments| && IsSuspiciousSample(p.dataSegments[i].rawSample) ==>
             Holds(14, Some(i), size, p, max);
    }
  }

  /** The rules find something grave exactly in an oversized buffer or a risky module. */
  lemma FindingsGrave(size: nat, p: Parsed, max: nat)
    ensures HasGrave(Findings(size, p, max)) <==> size > max || (size > 8 && Risky(p))
  {
    hide HasGrave, Findings, Risky, Holds, Times;
    var fs := Findings(size, p, max);
    GraveExactly(fs);
    GraveRules(size, p, max);
    forall f ensures Times(f, fs) > 0 <==> f.severity == SeverityOf(f.rule) && Holds(f.rule, f.item, size, p, max) {
      FindingsExactly(f, size, p, max);
    }
    if rule: nat, item :| IsGrave(SeverityOf(rule)) && Holds(rule, item, size, p, max) {
      assert Times(Fire(rule, item), fs) > 0;
    }
  }

  /** A report of one structural error, without parsing. */
  method StructuralError(wasmSize: nat, rule: nat) returns (report: Report)
    requires rule == 1 || rule == 2
    ensures report.deploymentBlocked && report.status == Error && report.wasmSize == wasmSize && report.parsed == None
    ensures report.findings == [Fire(rule, None)]
    ensures report.summary.critical + report.summary.high + report.summary.medium + report.summary.low
            + report.summary.info == 1
    ensures Ordered(RankOf, report.findings)
  {
    report := BuildReport(wasmSize, [Fire(rule, None)], TOTAL_RULES, None, true);
    assert Sorted([Fire(rule, None)]) == [Fire(rule, None)] by {
      SortedIsStable([Fire(rule, None)]);
      assert Fire(rule, None) in multiset(Sorted([Fire(rule, None)]));
    }
  }

  /** The scan: structural checks, parsing, rules, report. An absent or zero limit means the default. */
  method ScanWasm(entropy: Entropy, buf: Bytes, maxWasmSize: Option<nat>) returns (report: Report)
    ensures var max := if maxWasmSize.Some? && maxWasmSize.value != 0 then maxWasmSize.value else DEFAULT_MAX_WASM_SIZE;
            report.deploymentBlocked <==> Blocked(entropy, buf, max)
    ensures report.wasmSize == |buf| && (report.status == Error <==> !HeaderFits(buf))
    ensures report.summary.critical + report.summary.high + report.summary.medium + report.summary.low
            + report.summary.info == |report.findings|
    ensures Ordered(RankOf, report.findings)
    ensures HeaderFits(buf) ==> report.parsed == Some(Parse(entropy, buf))
    ensures !HeaderFits(buf) ==>
              var rule := if |buf| < 8 || buf[..4] != [0x00, 0x61, 0x73, 0x6d] then 1 else 2;
              report.parsed == None && report.findings == [Fire(rule, None)]
    ensures HeaderFits(buf) ==>
              var max := if maxWasmSize.Some? && maxWasmSize.value != 0 then maxWasmSize.value
                         else DEFAULT_MAX_WASM_SIZE;
              report.findings == Sorted(Findings(|buf|, Parse(entropy, buf), max))
  {
    hide Parse, Risky, Findings, Sorted, CountOf;
    var max := if maxWasmSize.Some? && maxWasmSize.value != 0 then maxWasmSize.value else DEFAULT_MAX_WASM_SIZE;
    var tooShort := |buf| < 8;
    var badMagic := tooShort || buf[0] != 0x00 || buf[1] != 0x61 || buf[2] != 0x73 || buf[3] != 0x6d;
    if badMagic {
      report := StructuralError(|buf|, 1);
      return;
    }
    if VersionOf(buf) != 1 {
      report := StructuralError(|buf|, 2);
      return;
    }
    var sections := ParseWasmSections(entropy, buf);
    if sections.Failure? {
      assert false;  // the buffer has at least eight bytes
    }
    var parsed := sections.value.View();
    var found := RunRules(|buf|, parsed, max);
    FindingsGrave(|buf|, parsed, max);
    report := BuildReport(|buf|, found, TOTAL_RULES, Some(parsed), false);
  }
}
