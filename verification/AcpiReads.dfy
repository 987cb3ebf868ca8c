/** What an operating system reads in the finished tables, byte by byte at the standard's offsets. */
module AcpiReads {
  import opened Acpi
  import opened AcpiTables
  import opened Aml
  import opened Basics

  /** The `i`th local x2APIC entry: the processor's ID, enabled, and its UID. */
  ghost predicate MadtEntryIs(s: Bytes, i: nat) {
    var at := 0x200 + 44 + 16 * i;
    at + 16 <= |s| && s[at] == 9 && s[at + 1] == 16 && U32At(s, at + 4) == i && U32At(s, at + 8) == 1 && U32At(s, at + 12) == i
  }

  lemma MadtLists(s: Bytes, vcpus: nat, i: nat)
    requires MadtOk(s, vcpus) && i < vcpus <= MAX_VCPUS
    ensures MadtEntryIs(s, i)
  {
    hide Ascii, LittleEndian, FromLittleEndian, HoldsAll, Sealed, RestZero, MadtEntry;
    var t, f := s[MADT..MADT + MadtLen(vcpus)], MadtFields(vcpus);
    assert f[2 + i] == Field(MADT_ENTRIES + i * MADT_ENTRY_LEN, MadtEntry(i));
    FieldHeld(t, f, 2 + i);
    SubSlice(s, MADT, MadtLen(vcpus), MADT_ENTRIES + i * MADT_ENTRY_LEN, MADT_ENTRIES + (i + 1) * MADT_ENTRY_LEN);
    var at := 0x200 + 44 + 16 * i;
    assert s[at..at + 16] == MadtEntry(i);
    EntrySays(i);
    U32InTable(s, at, 16, 4);
    U32InTable(s, at, 16, 8);
    U32InTable(s, at, 16, 12);
    assert s[at..at + 16][0] == s[at] && s[at..at + 16][1] == s[at + 1];
  }

  lemma EntrySays(i: nat)
    requires i < MAX_VCPUS
    ensures var e := MadtEntry(i);
            e[0] == 9 && e[1] == 16 && U32At(e, 4) == i && U32At(e, 8) == 1 && U32At(e, 12) == i
  {
    hide LittleEndian, FromLittleEndian;
    var e := MadtEntry(i);
    assert e[4..8] == Le32(i) && e[8..12] == Le32(1) && e[12..16] == Le32(i);
    Powers();
    LittleEndianRoundTrip(i, 4);
    LittleEndianRoundTrip(1, 4);
  }

  /** The MADT lists exactly the vCPUs, in order: its length leaves no room for more. */
  lemma MadtIsComplete(s: Bytes, vcpus: nat)
    requires MadtOk(s, vcpus) && 1 <= vcpus <= MAX_VCPUS
    ensures U32At(s, 0x200 + 4) == 44 + 16 * vcpus && forall i :: 0 <= i < vcpus ==> MadtEntryIs(s, i)
  {
    hide HoldsAll, Sealed, RestZero, MadtEntryIs, MadtFields, Ascii, LittleEndian, FromLittleEndian;
    NamesTable(s, 0, MADT, MadtLen(vcpus), "APIC", 5, "MADT    ");
    forall i | 0 <= i < vcpus
      ensures MadtEntryIs(s, i)
    {
      MadtLists(s, vcpus, i);
    }
  }

  /** The FADT's fixed hardware: PM1a event and control blocks, the SCI, the flags and the reset register. */
  lemma FadtSays(s: Bytes, base: nat)
    requires FadtOk(s, base)
    ensures U32At(s, 0xC0 + 56) == 0x600 && s[0xC0 + 88] == 4 && U32At(s, 0xC0 + 64) == 0x604 && s[0xC0 + 89] == 2
    ensures s[0xC0 + 46..0xC0 + 48] == [9, 0] && U32At(s, 0xC0 + 112) == 0x475
    ensures s[0xC0 + 116..0xC0 + 120] == [1, 8, 0, 1] && U64At(s, 0xC0 + 120) == 0x60C && s[0xC0 + 128] == 1
  {
    hide Ascii, LittleEndian, FromLittleEndian, HoldsAll, Sealed, RestZero;
    var t, f := s[FADT..FADT + FADT_LEN], FadtFields(base);
    FieldReads32(t, f, 3, 0x600);
    FieldReads32(t, f, 4, 0x604);
    assert f[11] == FadtHigh(base)[0];
    FieldReads32(t, f, 11, 0x475);
    U32InTable(s, FADT, FADT_LEN, 56);
    U32InTable(s, FADT, FADT_LEN, 64);
    U32InTable(s, FADT, FADT_LEN, 112);
    FadtBytes(s, base);
    ResetRegister(s, base);
  }

  lemma FadtBytes(s: Bytes, base: nat)
    requires FadtOk(s, base)
    ensures s[0xC0 + 88] == 4 && s[0xC0 + 89] == 2 && s[0xC0 + 46..0xC0 + 48] == [9, 0] && s[0xC0 + 128] == 1
  {
    hide Ascii, LittleEndian, FromLittleEndian, HoldsAll, Sealed, RestZero;
    var t, f := s[FADT..FADT + FADT_LEN], FadtFields(base);
    FieldHeld(t, f, 2);
    FieldHeld(t, f, 5);
    FieldHeld(t, f, 6);
    assert f[13] == FadtHigh(base)[2];
    FieldHeld(t, f, 13);
    WordBytes(9);
    SubSlice(s, FADT, FADT_LEN, 46, 48);
    ByteInTable(s, FADT, FADT_LEN, 88, 4);
    ByteInTable(s, FADT, FADT_LEN, 89, 2);
    ByteInTable(s, FADT, FADT_LEN, 128, 1);
  }

  lemma ByteInTable(s: Bytes, at: nat, len: nat, off: nat, b: byte)
    requires at + len <= |s| && off < len && s[at..at + len][off..off + 1] == [b]
    ensures s[at + off] == b
  {
    assert s[at..at + len][off..off + 1][0] == s[at + off];
  }

  /** A little-endian word has its low byte first. */
  lemma WordBytes(v: nat)
    requires v < 0x1_0000
    ensures Le16(v) == [v % 256, v / 256]
  {
    assert LittleEndian(v, 2) == [v % 256] + LittleEndian(v / 256, 1);
    assert LittleEndian(v / 256, 1) == [v / 256 % 256] + LittleEndian(v / 256 / 256, 0);
  }

  lemma ResetRegister(s: Bytes, base: nat)
    requires FadtOk(s, base)
    ensures s[0xC0 + 116..0xC0 + 120] == [1, 8, 0, 1] && U64At(s, 0xC0 + 120) == 0x60C
  {
    hide Ascii, LittleEndian, FromLittleEndian, HoldsAll, Sealed, RestZero;
    var t, f := s[FADT..FADT + FADT_LEN], FadtFields(base);
    assert f[12] == FadtHigh(base)[1];
    FieldHeld(t, f, 12);
    SubSlice(s, FADT, FADT_LEN, 116, 128);
    var gas := s[FADT + 116..FADT + 128];
    assert gas == IoGas(0x60C, 8, 1);
    assert gas[0..4] == [1, 8, 0, 1] && gas[4..12] == Le64(0x60C);
    SubSlice(s, FADT + 116, 12, 0, 4);
    SubSlice(s, FADT + 116, 12, 4, 12);
    Powers();
    LittleEndianRoundTrip(0x60C, 8);
  }

  /** The DSDT: soft-off is sleep type 5, the PCI host bridge is there, and the VMBus device exactly when asked for. */
  ghost predicate Declares(ts: seq<Term>, vmbus: bool) {
    |ts| == 2 && ts[0] == Name(Ascii("_S5_"), Package([5, 5, 0, 0])) &&
    ts[1].Scope? && ts[1].path == Path(true, Ascii("_SB_")) && |ts[1].body| == (if vmbus then 2 else 1) &&
    IsHostBridge(ts[1].body[0]) &&
    (vmbus ==> ts[1].body[1] == Device(Path(false, Ascii("VMBS")), [
       Name(Ascii("_HID"), Text(Ascii("VMBus"))), Name(Ascii("_UID"), Integer(0)), Name(Ascii("_CRS"), Buffer([0x79, 0x00]))]))
  }

  /** PNP0A03, with the window for device registers from 0xE000_0000 up to 0xFEBF_FFFF. */
  ghost predicate IsHostBridge(t: Term) {
    t.Device? && t.path == Path(false, Ascii("PCI0")) && |t.body| == 3 &&
    t.body[0] == Name(Ascii("_HID"), Integer(0x030A_D041)) && t.body[1] == Name(Ascii("_UID"), Integer(0)) &&
    t.body[2].Name? && t.body[2].seg == Ascii("_CRS") && t.body[2].value.Buffer? &&
    var crs := t.body[2].value.bytes;
    |crs| == 84 && crs[56] == 0x87 && U32At(crs, 66) == 0xE000_0000 && U32At(crs, 70) == 0xFEBF_FFFF
  }

  lemma HostBridge()
    ensures IsHostBridge(Pci0())
  {
    hide Ascii, LittleEndian, FromLittleEndian;
    var crs := PciRootResources();
    var mem := DwordMemory(0xE000_0000, 0xFEBF_FFFF);
    assert crs[56..82] == mem;
    assert mem[10..14] == Le32(0xE000_0000) && mem[14..18] == Le32(0xFEBF_FFFF);
    SubSlice(crs, 56, 26, 10, 14);
    SubSlice(crs, 56, 26, 14, 18);
    assert crs[56..82][0] == crs[56];
    Powers();
    LittleEndianRoundTrip(0xE000_0000, 4);
    LittleEndianRoundTrip(0xFEBF_FFFF, 4);
  }

  /** The block after the DSDT's header, as long as its length says, declares just that. */
  ghost predicate DsdtSays(s: Bytes, vmbus: bool) {
    0x448 <= |s| &&
    var len := U32At(s, 0x444);
    36 <= len && 0x440 + len <= |s| &&
    var ts := ParseTerms(s[0x440 + 36..0x440 + len]);
    ts.Some? && Declares(ts.value, vmbus)
  }

  lemma DsdtDeclares(s: Bytes, vmbus: bool)
    requires DsdtOk(s, DsdtAml(vmbus))
    ensures DsdtSays(s, vmbus)
  {
    hide Ascii, LittleEndian, FromLittleEndian, HoldsAll, Sealed, RestZero, ParseTerms, DsdtAml, IsHostBridge, Pci0;
    var aml := DsdtAml(vmbus);
    NamesTable(s, 0, DSDT, HEADER_LEN + |aml|, "DSDT", 2, "DSDT    ");
    DsdtHeld(s, aml);
    HostBridge();
  }

  /** The RSDP is of revision 2, 36 bytes long, with its XSDT at the address given. */
  lemma RsdpSays(s: Bytes, base: nat)
    requires RsdpOk(s, base) && base + FOOTPRINT <= 0x1_0000_0000
    ensures s[0..8] == Ascii("RSD PTR ") && s[15] == 2 && U32At(s, 20) == 36 && U64At(s, 24) == base + 0x40
  {
    hide Ascii, LittleEndian, FromLittleEndian, HoldsAll, Sealed;
    var t, f := s[RSDP..RSDP + RSDP_LEN], RsdpFields(base);
    FieldHeld(t, RsdpSignature(), 0);
    SubSlice(s, RSDP, RSDP_LEN, 0, 8);
    FieldHeld(t, f, 1);
    ByteInTable(s, RSDP, RSDP_LEN, 15, 2);
    FieldReads32(t, f, 3, 36);
    U32InTable(s, RSDP, RSDP_LEN, 20);
    RsdpLinks(s, base);
  }

  /** The tables as built: the vCPUs asked for, at least one and at most 32, and VMBus exactly when asked for. */
  lemma TablesSay(s: Bytes, base: nat, vcpuCount: nat, vmbus: bool)
    requires AllOk(s, base, Clamp(vcpuCount, 1, MAX_VCPUS), DsdtAml(vmbus))
    ensures var n := if vcpuCount == 0 then 1 else if vcpuCount > 32 then 32 else vcpuCount;
            |s| == 4096 && U32At(s, 0x204) == 44 + 16 * n && forall i :: 0 <= i < n ==> MadtEntryIs(s, i)
    ensures DsdtSays(s, vmbus)
  {
    hide MadtOk, DsdtOk, FacsOk, FadtOk, XsdtOk, RsdpOk, DsdtAml, DsdtSays, MadtEntryIs;
    DsdtDeclares(s, vmbus);
    MadtIsComplete(s, Clamp(vcpuCount, 1, MAX_VCPUS));
  }
}
