/**
 * The ACPI tables, built in place in one buffer: sealed with checksums and
 * linked by guest-physical addresses.
 */
module Acpi {
  import opened Aml
  import opened Arith
  import opened Basics

  const MAX_VCPUS := 32
  const FOOTPRINT := 4096

  const RSDP := 0x000
  const XSDT := 0x040
  const FACS := 0x080
  const FADT := 0x0C0
  const MADT := 0x200
  const DSDT := 0x440

  const HEADER_LEN := 36
  const RSDP_LEN := 36
  const XSDT_LEN := HEADER_LEN + 2 * 8
  const FACS_LEN := 64
  const FADT_LEN := 276
  const MADT_ENTRIES := 44
  const MADT_ENTRY_LEN := 16

  // ---- Checksums ----

  function ByteSum(s: Bytes): nat {
    if s == [] then 0 else ByteSum(s[..|s| - 1]) + s[|s| - 1]
  }

  /** What makes a table's bytes sum to zero modulo 256. */
  function Complement(s: Bytes): byte { (256 - ByteSum(s) % 256) % 256 }

  method Checksum(buf: array<byte>, off: nat, len: nat) returns (c: byte)
    requires off + len <= buf.Length
    ensures c == Complement(buf[off..off + len])
  {
    var s: byte := 0;
    for i := 0 to len
      invariant s == ByteSum(buf[off..off + i]) % 256
    {
      assert buf[off..off + i + 1] == buf[off..off + i] + [buf[off + i]];
      s := (s as int + buf[off + i] as int) % 256;
    }
    c := (256 - s as int) % 256;
  }

  lemma {:induction false} SumUpdate(s: Bytes, i: nat, v: byte)
    requires i < |s|
    ensures ByteSum(s[i := v]) == ByteSum(s) - s[i] + v
  {
    var n := |s| - 1;
    var t := s[i := v];
    if i < n {
      SumUpdate(s[..n], i, v);
      assert t[..n] == s[..n][i := v];
    } else {
      assert t[..n] == s[..n];
    }
  }

  predicate Sealed(s: Bytes) { ByteSum(s) % 256 == 0 }

  lemma SealSums(s: Bytes, i: nat)
    requires i < |s| && s[i] == 0
    ensures Sealed(s[i := Complement(s)])
  {
    SumUpdate(s, i, Complement(s));
  }

  // ---- Fields ----

  function Ascii(s: string): (r: Bytes)
    ensures |r| == |s|
  {
    seq(|s|, i requires 0 <= i < |s| => s[i] as int % 256)
  }

  function Le16(v: nat): Bytes { LittleEndian(v, 2) }
  function Le32(v: nat): Bytes { LittleEndian(v, 4) }
  function Le64(v: nat): Bytes { LittleEndian(v, 8) }

  function U32At(s: Bytes, off: nat): nat
    requires off + 4 <= |s|
  {
    FromLittleEndian(s[off..off + 4])
  }

  function U64At(s: Bytes, off: nat): nat
    requires off + 8 <= |s|
  {
    FromLittleEndian(s[off..off + 8])
  }

  /** Bytes at an offset of a table. */
  datatype Field = Field(off: nat, bytes: Bytes) {
    function End(): nat { off + |bytes| }
  }

  /** Fields apart from each other, all within [lo, hi). */
  ghost predicate Apart(fields: seq<Field>, lo: nat, hi: nat) {
    (forall i :: 0 <= i < |fields| ==> lo <= fields[i].off && fields[i].End() <= hi) &&
    (forall i, j :: 0 <= i < j < |fields| ==> (fields[i].End() <= fields[j].off || fields[j].End() <= fields[i].off))
  }

  ghost predicate Holds(table: Bytes, f: Field) {
    f.End() <= |table| && table[f.off..f.End()] == f.bytes
  }

  ghost predicate HoldsAll(table: Bytes, fields: seq<Field>) {
    forall i :: 0 <= i < |fields| ==> Holds(table, fields[i])
  }

  /** `after` differs from `before` only within [lo, hi). */
  ghost predicate OnlyWithin(before: Bytes, after: Bytes, lo: nat, hi: nat) {
    |before| == |after| && forall k :: 0 <= k < |after| && !(lo <= k < hi) ==> after[k] == before[k]
  }

  ghost predicate Covered(fields: seq<Field>, k: int) {
    exists i :: 0 <= i < |fields| && fields[i].off <= k < fields[i].End()
  }

  /** `after` differs from `before` only where the fields of the table at `at` are. */
  ghost predicate OnlyFields(before: Bytes, after: Bytes, at: nat, fields: seq<Field>) {
    |before| == |after| && forall k :: 0 <= k < |after| && !Covered(fields, k - at) ==> after[k] == before[k]
  }

  lemma OneMoreField(before: Bytes, mid: Bytes, after: Bytes, at: nat, fields: seq<Field>, f: Field)
    requires OnlyFields(before, mid, at, fields) && OnlyWithin(mid, after, at + f.off, at + f.End())
    ensures OnlyFields(before, after, at, fields + [f])
  {
    var more := fields + [f];
    forall k | 0 <= k < |after| && !Covered(more, k - at)
      ensures after[k] == before[k]
    {
      assert more[|fields|] == f;
      assert forall i :: 0 <= i < |fields| ==> more[i] == fields[i];
    }
  }

  lemma FieldsWithin(before: Bytes, after: Bytes, at: nat, fields: seq<Field>, lo: nat, hi: nat)
    requires OnlyFields(before, after, at, fields) && Apart(fields, lo, hi)
    ensures OnlyWithin(before, after, at + lo, at + hi)
  {
  }

  method Put(buf: array<byte>, at: nat, f: Field)
    requires at + f.End() <= buf.Length
    modifies buf
    ensures buf[at + f.off..at + f.End()] == f.bytes
    ensures OnlyWithin(old(buf[..]), buf[..], at + f.off, at + f.End())
  {
    forall k | at + f.off <= k < at + f.End() {
      buf[k] := f.bytes[k - at - f.off];
    }
  }

  /** Write fields of the `len`-byte table at `at`, in order; every one of them reads back. */
  method PutAll(buf: array<byte>, at: nat, len: nat, fields: seq<Field>, lo: nat, hi: nat)
    requires Apart(fields, lo, hi) && lo <= hi <= len && at + len <= buf.Length
    modifies buf
    ensures HoldsAll(buf[at..at + len], fields)
    ensures OnlyFields(old(buf[..]), buf[..], at, fields) && OnlyWithin(old(buf[..]), buf[..], at + lo, at + hi)
  {
    hide Covered;
    ghost var before := buf[..];
    for i := 0 to |fields|
      invariant HoldsAll(buf[at..at + len], fields[..i])
      invariant OnlyFields(before, buf[..], at, fields[..i])
    {
      ghost var mid := buf[..];
      Put(buf, at, fields[i]);
      forall j | 0 <= j < i
        ensures Holds(buf[at..at + len], fields[j])
      {
        assert Holds(mid[at..at + len], fields[..i][j]);
        KeptField(mid[at..at + len], buf[at..at + len], fields[j], fields[i].off, fields[i].End());
      }
      SubSlice(buf[..], at, len, fields[i].off, fields[i].End());
      OneMoreField(before, mid, buf[..], at, fields[..i], fields[i]);
      assert fields[..i] + [fields[i]] == fields[..i + 1];
    }
    assert fields[..|fields|] == fields;
    FieldsWithin(before, buf[..], at, fields, lo, hi);
  }

  /** A field outside what changed is kept. */
  lemma KeptField(before: Bytes, after: Bytes, f: Field, lo: nat, hi: nat)
    requires Holds(before, f) && OnlyWithin(before, after, lo, hi) && (f.End() <= lo || hi <= f.off)
    ensures Holds(after, f)
  {
    assert after[f.off..f.End()] == before[f.off..f.End()];
  }

  /** Make the table's bytes sum to zero, with the byte at `i`, which no field uses. */
  method Seal(buf: array<byte>, at: nat, len: nat, i: nat)
    requires i < len && at + len <= buf.Length && buf[at + i] == 0
    modifies buf
    ensures Sealed(buf[at..at + len]) && OnlyWithin(old(buf[..]), buf[..], at + i, at + i + 1)
  {
    var c := Checksum(buf, at, len);
    SealSums(buf[at..at + len], i);
    ghost var table := buf[at..at + len];
    buf[at + i] := c;
    assert buf[at..at + len] == table[i := c];
  }

  // ---- The definition block ----

  const MMIO_WINDOW_BASE := 0xE000_0000
  const MMIO_WINDOW_END := 0xFEC0_0000
  const PNP0A03 := 0x030A_D041
  const SLP_TYP_S5 := 5
  const END_TAG: Bytes := [0x79, 0x00]

  /** Word and DWord Address Space and I/O Port descriptors. */
  function WordAddress(resource: byte, typeFlags: byte, min: nat, max: nat): (r: Bytes)
    requires min <= max < 0x1_0000
    ensures |r| == 16
  {
    [0x88, 13, 0, resource, 0x0C, typeFlags] + Le16(0) + Le16(min) + Le16(max) + Le16(0) + Le16(max - min + 1)
  }

  function DwordMemory(min: nat, max: nat): (r: Bytes)
    requires min <= max
    ensures |r| == 26
  {
    [0x87, 23, 0, 0, 0x0C, 0x01] + Le32(0) + Le32(min) + Le32(max) + Le32(0) + Le32(max - min + 1)
  }

  function IoPorts(base: nat, len: byte): (r: Bytes)
    ensures |r| == 8
  {
    [0x47, 0x01] + Le16(base) + Le16(base) + [0x01, len]
  }

  function PciRootResources(): (r: Bytes)
    ensures |r| == 84
  {
    WordAddress(2, 0, 0, 0) + IoPorts(0x0CF8, 8) + WordAddress(1, 3, 0x0000, 0x0CF7) +
    WordAddress(1, 3, 0x0D00, 0xFFFF) + DwordMemory(MMIO_WINDOW_BASE, MMIO_WINDOW_END - 1) + END_TAG
  }

  function HereName(seg: string): Path { Path(false, Ascii(seg)) }

  function Pci0(): Term {
    Device(HereName("PCI0"), [
      Name(Ascii("_HID"), Integer(PNP0A03)),
      Name(Ascii("_UID"), Integer(0)),
      Name(Ascii("_CRS"), Buffer(PciRootResources()))])
  }

  function Vmbs(): Term {
    Device(HereName("VMBS"), [
      Name(Ascii("_HID"), Text(Ascii("VMBus"))),
      Name(Ascii("_UID"), Integer(0)),
      Name(Ascii("_CRS"), Buffer(END_TAG))])
  }

  function SystemBus(vmbus: bool): Term {
    Scope(Path(true, Ascii("_SB_")), if vmbus then [Pci0(), Vmbs()] else [Pci0()])
  }

  function SoftOff(): Term {
    Name(Ascii("_S5_"), Package([SLP_TYP_S5, SLP_TYP_S5, 0, 0]))
  }

  function DsdtTerms(vmbus: bool): seq<Term> { [SoftOff(), SystemBus(vmbus)] }

  // The block is small: each part prints, within these many bytes.

  lemma SegPrints(seg: string, v: Value)
    requires NameSeg(Ascii(seg)) && PrintableValue(v)
    ensures Printable(Name(Ascii(seg), v)) && |Print(Name(Ascii(seg), v))| == 5 + |PrintValue(v)|
  {
  }

  lemma ThreePrint(a: Term, b: Term, c: Term)
    requires Printable(a) && Printable(b) && Printable(c)
    ensures PrintableAll([a, b, c]) && |PrintAll([a, b, c])| == |Print(a)| + |Print(b)| + |Print(c)|
  {
    hide Print, Printable;
    assert [a, b, c][1..] == [b, c] && [b, c][1..] == [c] && [c][1..] == [];
    assert PrintableAll([]) && PrintAll([]) == [];
    assert PrintableAll([c]) && PrintAll([c]) == Print(c) + PrintAll([]);
    assert PrintableAll([b, c]) && PrintAll([b, c]) == Print(b) + PrintAll([c]);
  }

  lemma TwoPrint(a: Term, b: Term)
    requires Printable(a) && Printable(b)
    ensures PrintableAll([a, b]) && |PrintAll([a, b])| == |Print(a)| + |Print(b)|
  {
    hide Print, Printable;
    assert [a, b][1..] == [b] && [b][1..] == [];
    assert PrintableAll([]) && PrintAll([]) == [];
    assert PrintableAll([b]) && PrintAll([b]) == Print(b) + PrintAll([]);
  }

  lemma OnePrints(a: Term)
    requires Printable(a)
    ensures PrintableAll([a]) && |PrintAll([a])| == |Print(a)|
  {
    hide Print, Printable;
    assert [a][1..] == [];
  }

  lemma IntegerValueSize(v: nat)
    requires v < 0x1_0000_0000
    ensures PrintableValue(Integer(v)) && |PrintValue(Integer(v))| <= 5
  {
  }

  lemma BufferSize(b: Bytes)
    requires |b| < 256
    ensures PrintableValue(Buffer(b)) && |PrintValue(Buffer(b))| <= 5 + |b|
  {
  }

  lemma ContainerSize(path: Path, ts: seq<Term>)
    requires NameSeg(path.seg) && PrintableAll(ts) && |PrintAll(ts)| < 1000
    ensures Printable(Device(path, ts)) && |Print(Device(path, ts))| <= |PrintAll(ts)| + 9
    ensures Printable(Scope(path, ts)) && |Print(Scope(path, ts))| <= |PrintAll(ts)| + 9
  {
    hide PrintAll;
  }

  lemma Pci0Prints()
    ensures Printable(Pci0()) && |Print(Pci0())| <= 200
  {
    hide Print, Printable, PrintAll, PrintableAll, PrintValue, PrintableValue, PciRootResources;
    IntegerValueSize(PNP0A03);
    IntegerValueSize(0);
    BufferSize(PciRootResources());
    SegPrints("_HID", Integer(PNP0A03));
    SegPrints("_UID", Integer(0));
    SegPrints("_CRS", Buffer(PciRootResources()));
    ThreePrint(Name(Ascii("_HID"), Integer(PNP0A03)), Name(Ascii("_UID"), Integer(0)),
               Name(Ascii("_CRS"), Buffer(PciRootResources())));
    ContainerSize(HereName("PCI0"), Pci0().body);
  }

  lemma VmbsPrints()
    ensures Printable(Vmbs()) && |Print(Vmbs())| <= 100
  {
    hide Print, Printable, PrintAll, PrintableAll, PrintValue, PrintableValue;
    IntegerValueSize(0);
    BufferSize(END_TAG);
    VmbusText();
    SegPrints("_HID", Text(Ascii("VMBus")));
    SegPrints("_UID", Integer(0));
    SegPrints("_CRS", Buffer(END_TAG));
    ThreePrint(Name(Ascii("_HID"), Text(Ascii("VMBus"))), Name(Ascii("_UID"), Integer(0)),
               Name(Ascii("_CRS"), Buffer(END_TAG)));
    ContainerSize(HereName("VMBS"), Vmbs().body);
  }

  lemma VmbusText()
    ensures PrintableValue(Text(Ascii("VMBus"))) && |PrintValue(Text(Ascii("VMBus")))| == 7
  {
  }

  lemma SoftOffPrints()
    ensures Printable(SoftOff()) && |Print(SoftOff())| <= 40
  {
    var es := [SLP_TYP_S5, SLP_TYP_S5, 0, 0];
    assert es[1..] == [5, 0, 0] && [5, 0, 0][1..] == [0, 0] && [0, 0][1..] == [0] && [0][1..] == [];
    assert |PrintIntegers([0])| == 1 && |PrintIntegers([0, 0])| == 2;
    assert |PrintIntegers([5, 0, 0])| == 4 && |PrintIntegers(es)| == 6;
    hide PrintIntegers;
    assert PrintableValue(Package(es)) && |PrintValue(Package(es))| <= 20;
    SegPrints("_S5_", Package(es));
  }

  /** The whole block prints, fits its place in the buffer, and reads back as these declarations. */
  lemma DsdtPrints(vmbus: bool)
    ensures PrintableAll(DsdtTerms(vmbus)) && DSDT + HEADER_LEN + |PrintAll(DsdtTerms(vmbus))| <= FOOTPRINT
    ensures ParseTerms(PrintAll(DsdtTerms(vmbus))) == Some(DsdtTerms(vmbus))
  {
    hide Print, Printable, PrintAll, PrintableAll, ParseTerms, Pci0, Vmbs, SoftOff;
    Pci0Prints();
    VmbsPrints();
    SoftOffPrints();
    OnePrints(Pci0());
    TwoPrint(Pci0(), Vmbs());
    ContainerSize(SystemBus(vmbus).path, SystemBus(vmbus).body);
    TwoPrint(SoftOff(), SystemBus(vmbus));
    TermsReadBack(DsdtTerms(vmbus));
  }
}
