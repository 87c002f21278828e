/** From a module's description, through its bytes, to the verdict. */
module WasmVerdict {
  import opened Bytes
  import opened WasmReader
  import opened WasmSections
  import opened WasmEncoder
  import opened WasmScan

  /** What the verdict of a well-formed module depends on. */
  datatype Trait = HostImport | SuspiciousImport | UnboundedMemory | StartFunction | SuspiciousData

  ghost predicate InReport(t: Trait, p: Parsed) {
    match t
    case HostImport => exists i :: 0 <= i < |p.imports| && IsSoroban(p.imports[i])
    case SuspiciousImport => exists i :: 0 <= i < |p.imports| && IsSuspicious(p.imports[i])
    case UnboundedMemory => exists i :: 0 <= i < |p.memories| && IsUnbounded(p.memories[i])
    case StartFunction => p.hasStartSection
    case SuspiciousData => exists i :: 0 <= i < |p.dataSegments| && IsSuspiciousSample(p.dataSegments[i].rawSample)
  }

  ghost predicate InSection(t: Trait, s: Section) {
    match t
    case HostImport =>
      s.ImportSec? && exists i :: 0 <= i < |s.imports.items| && s.imports.items[i].mod.content == [0x5f]
    case SuspiciousImport =>
      s.ImportSec? &&
      exists i :: 0 <= i < |s.imports.items| && LowerCase(s.imports.items[i].mod.content) in SUSPICIOUS_IMPORT_MODULES
    case UnboundedMemory =>
      s.MemorySec? &&
      exists i :: 0 <= i < |s.memories.items| && s.memories.items[i].max.None? && Value(s.memories.items[i].min) >= 2
    case StartFunction => s.StartSec?
    case SuspiciousData =>
      s.DataSec? &&
      exists i :: 0 <= i < |s.segments.items| && IsSuspiciousSample(Sample(s.segments.items[i].content.content))
  }

  /** The first 64 bytes. */
  function Sample(content: Bytes): Bytes {
    if |content| <= 64 then content else content[..64]
  }

  lemma AnyConcat<T(!new)>(test: T -> bool, a: seq<T>, b: seq<T>)
    ensures (exists i :: 0 <= i < |a + b| && test((a + b)[i])) <==>
            (exists i :: 0 <= i < |a| && test(a[i])) || (exists i :: 0 <= i < |b| && test(b[i]))
  {
    var c := a + b;
    if i :| 0 <= i < |a| && test(a[i]) {
      assert c[i] == a[i];
    }
    if i :| 0 <= i < |b| && test(b[i]) {
      assert c[|a| + i] == b[i];
    }
  }

  lemma DescribeImports(p: Parsed, imps: List<ImportDef>, t: Trait)
    requires t == HostImport || t == SuspiciousImport
    ensures InReport(t, p.(imports := p.imports + ImportsOf(imps.items))) <==>
            InReport(t, p) || InSection(t, ImportSec(imps))
  {
    hide LowerCase;
    AnyConcat(if t == HostImport then IsSoroban else IsSuspicious, p.imports, ImportsOf(imps.items));
    assert forall i :: 0 <= i < |imps.items| ==> ImportsOf(imps.items)[i].mod == imps.items[i].mod.content;
  }

  lemma DescribeMemories(p: Parsed, ms: List<Limits>)
    ensures InReport(UnboundedMemory, p.(memories := p.memories + MemoriesOf(ms.items))) <==>
            InReport(UnboundedMemory, p) || InSection(UnboundedMemory, MemorySec(ms))
  {
    hide Value;
    AnyConcat(IsUnbounded, p.memories, MemoriesOf(ms.items));
    assert forall i :: 0 <= i < |ms.items| ==> MemoriesOf(ms.items)[i] == MemoryOf(ms.items[i]);
  }

  lemma DescribeData(entropy: Entropy, p: Parsed, ds: List<DataDef>)
    ensures InReport(SuspiciousData, p.(dataSegments := p.dataSegments + SegmentsOf(entropy, ds.items))) <==>
            InReport(SuspiciousData, p) || InSection(SuspiciousData, DataSec(ds))
  {
    hide IsSuspiciousSample;
    AnyConcat((d: DataSegment) => IsSuspiciousSample(d.rawSample), p.dataSegments, SegmentsOf(entropy, ds.items));
    assert forall i :: 0 <= i < |ds.items| ==>
           SegmentsOf(entropy, ds.items)[i].rawSample == Sample(ds.items[i].content.content);
  }

  lemma DescribeAdds(entropy: Entropy, s: Section, start: nat, p: Parsed, t: Trait)
    ensures InReport(t, Describe(entropy, s, start, p)) <==> InReport(t, p) || InSection(t, s)
  {
    match (t, s) {
      case (HostImport, ImportSec(imps)) => DescribeImports(p, imps, t);
      case (SuspiciousImport, ImportSec(imps)) => DescribeImports(p, imps, t);
      case (UnboundedMemory, MemorySec(ms)) =>
        DescribeMemories(p, ms);
      case (SuspiciousData, DataSec(ds)) => DescribeData(entropy, p, ds);
      case _ =>
    }
  }

  lemma {:induction false} DescribeAllAdds(entropy: Entropy, sections: seq<Sized>, pos: nat, p: Parsed, t: Trait)
    ensures InReport(t, DescribeAll(entropy, sections, pos, p)) <==> InReport(t, p) || Has(sections, t)
    decreases |sections|
  {
    hide InReport, InSection, Describe, BodyBytes;
    if sections != [] {
      var s := sections[0];
      var start := pos + 1 + |s.size|;
      DescribeAdds(entropy, s.section, start, p, t);
      DescribeAllAdds(entropy, sections[1..], start + |BodyBytes(s.section)|, Describe(entropy, s.section, start, p),
        t);
      assert forall k :: 1 <= k < |sections| ==> sections[k] == sections[1..][k - 1];
    }
  }

  ghost predicate Has(sections: seq<Sized>, t: Trait) {
    exists k :: 0 <= k < |sections| && InSection(t, sections[k].section)
  }

  lemma RiskyTraits(p: Parsed)
    requires p.parseErrors == []
    ensures Risky(p) <==> !InReport(HostImport, p) || InReport(SuspiciousImport, p) || InReport(UnboundedMemory, p)
                          || InReport(StartFunction, p) || InReport(SuspiciousData, p)
  {
    hide IsSoroban, IsSuspicious, IsUnbounded, IsSuspiciousSample;
  }

  /** Of every module that can be encoded, and however each of its numbers is written, the scanner blocks
      exactly those that are too large, import nothing from the host or something suspicious, declare
      a large memory without a maximum, start on their own, or carry suspicious data. */
  lemma EncodedModuleVerdict(entropy: Entropy, sections: seq<Sized>, max: nat)
    requires ModuleFits(sections)
    ensures var bytes := ModuleBytes(sections);
            Blocked(entropy, bytes, max) <==>
            || |bytes| > max
            || (sections != []
                && (!Has(sections, HostImport) || Has(sections, SuspiciousImport) || Has(sections, UnboundedMemory)
                    || Has(sections, StartFunction) || Has(sections, SuspiciousData)))
  {
    var bytes := ModuleBytes(sections);
    assert bytes[..8] == HEADER;
    if sections != [] {
      assert |SectionsBytes(sections)| >= |SectionBytes(sections[0])| >= 1;
    }
    ModuleRoundTrip(entropy, sections);
    hide ModuleBytes, Parse, DescribeAll, InReport;
    var p := Parse(entropy, bytes);
    forall t: Trait ensures InReport(t, p) <==> Has(sections, t) {
      NothingInEmpty(t);
      DescribeAllAdds(entropy, sections, 8, EMPTY, t);
    }
    RiskyTraits(p);
    hide Has, Risky;
  }

  lemma NothingInEmpty(t: Trait)
    ensures !InReport(t, EMPTY)
  {
  }
}
