/** The tables themselves, and the method that builds them all. */
module AcpiTables {
  import opened Acpi
  import opened Aml
  import opened Arith
  import opened Basics

  const PM1A_EVT_PORT := 0x600
  const PM1_EVT_LEN := 4
  const PM1A_CNT_PORT := 0x604
  const PM1_CNT_LEN := 2
  const RESET_PORT := 0x60C
  const RESET_VALUE: byte := 1
  const SCI_IRQ := 9
  const CMOS_CENTURY: byte := 0x32
  const NO_C2_LATENCY := 101
  const NO_C3_LATENCY := 1001
  /** WBINVD, C1, no fixed buttons, no RTC wake status, RESET_REG. */
  const FADT_FLAGS := 1 + 4 + 16 + 32 + 64 + 1024
  /** The checksum's place in the standard header. */
  const SUM := 9

  /** The standard description-table header, but for its checksum byte. */
  function Header(sig: string, length: nat, revision: byte, id: string): seq<Field>
    requires |sig| == 4 && |id| == 8
  {
    [Field(0, Ascii(sig)), Field(4, Le32(length)), Field(8, [revision]), Field(10, Ascii("TINYVM")),
     Field(16, Ascii(id)), Field(24, Le32(1)), Field(28, Ascii("TVMM")), Field(32, Le32(1))]
  }

  function IoGas(port: nat, bits: byte, access: byte): (r: Bytes)
    ensures |r| == 12
  {
    [1, bits, 0, access] + Le64(port)
  }

  function MadtEntry(i: nat): (r: Bytes)
    ensures |r| == MADT_ENTRY_LEN
  {
    [9, MADT_ENTRY_LEN, 0, 0] + Le32(i) + Le32(1) + Le32(i)
  }

  function MadtLen(vcpus: nat): nat { MADT_ENTRIES + vcpus * MADT_ENTRY_LEN }

  function MadtFields(vcpus: nat): seq<Field> {
    [Field(36, Le32(0xFEE0_0000)), Field(40, Le32(1))] +
    seq(vcpus, i requires 0 <= i => Field(MADT_ENTRIES + i * MADT_ENTRY_LEN, MadtEntry(i)))
  }

  function FadtLow(base: nat): seq<Field> {
    [Field(36, Le32(base + FACS)), Field(40, Le32(base + DSDT)), Field(46, Le16(SCI_IRQ)),
     Field(56, Le32(PM1A_EVT_PORT)), Field(64, Le32(PM1A_CNT_PORT)), Field(88, [PM1_EVT_LEN]), Field(89, [PM1_CNT_LEN]),
     Field(96, Le16(NO_C2_LATENCY)), Field(98, Le16(NO_C3_LATENCY)), Field(108, [CMOS_CENTURY]), Field(109, Le16(1))]
  }

  function FadtHigh(base: nat): seq<Field> {
    [Field(112, Le32(FADT_FLAGS)), Field(116, IoGas(RESET_PORT, 8, 1)), Field(128, [RESET_VALUE]),
     Field(140, Le64(base + DSDT)), Field(148, IoGas(PM1A_EVT_PORT, PM1_EVT_LEN * 8, 0)),
     Field(172, IoGas(PM1A_CNT_PORT, PM1_CNT_LEN * 8, 0))]
  }

  function XsdtFields(base: nat): seq<Field> { [Field(36, Le64(base + FADT)), Field(44, Le64(base + MADT))] }

  function FacsFields(): seq<Field> { [Field(0, Ascii("FACS")), Field(4, Le32(FACS_LEN)), Field(32, [2])] }

  function RsdpSignature(): seq<Field> { [Field(0, Ascii("RSD PTR "))] }

  function RsdpFields(base: nat): seq<Field> {
    [Field(9, Ascii("TINYVM")), Field(15, [2]), Field(16, Le32(0)), Field(20, Le32(RSDP_LEN)), Field(24, Le64(base + XSDT))]
  }

  /** Fields away from what changed in the buffer are kept. */
  lemma FieldsKept(before: Bytes, after: Bytes, at: nat, len: nat, fields: seq<Field>, lo: nat, hi: nat)
    requires OnlyWithin(before, after, at + lo, at + hi) && at + len <= |before|
    requires HoldsAll(before[at..at + len], fields)
    requires forall i :: 0 <= i < |fields| ==> fields[i].End() <= lo || hi <= fields[i].off
    ensures HoldsAll(after[at..at + len], fields)
  {
    forall i | 0 <= i < |fields|
      ensures Holds(after[at..at + len], fields[i])
    {
      KeptField(before[at..at + len], after[at..at + len], fields[i], lo, hi);
    }
  }

  lemma SliceKept(before: Bytes, after: Bytes, lo: nat, hi: nat, at: nat, len: nat)
    requires OnlyWithin(before, after, lo, hi) && at + len <= |before| && (at + len <= lo || hi <= at)
    ensures after[at..at + len] == before[at..at + len]
  {
  }

  /** Fields of the header, leaving its checksum byte alone. */
  ghost predicate HeaderFields(h: seq<Field>) {
    Apart(h, 0, HEADER_LEN) && forall i :: 0 <= i < |h| ==> h[i].End() <= SUM || SUM + 1 <= h[i].off
  }

  lemma HeaderApart(sig: string, length: nat, revision: byte, id: string)
    requires |sig| == 4 && |id| == 8
    ensures HeaderFields(Header(sig, length, revision, id))
  {
    hide Ascii, LittleEndian;
  }

  /** Put the header, with a zero checksum for now. */
  method FillHeader(buf: array<byte>, at: nat, len: nat, header: seq<Field>)
    requires HeaderFields(header) && HEADER_LEN <= len && at + len <= buf.Length
    modifies buf
    ensures HoldsAll(buf[at..at + len], header) && buf[at + SUM] == 0
    ensures OnlyWithin(old(buf[..]), buf[..], at, at + HEADER_LEN)
    ensures forall k :: at <= k < at + len && !Covered(header, k - at) && k != at + SUM ==> buf[k] == old(buf[k])
  {
    hide Covered;
    PutAll(buf, at, len, header, 0, HEADER_LEN);
    ghost var before := buf[..];
    buf[at + SUM] := 0;
    FieldsKept(before, buf[..], at, len, header, SUM, SUM + 1);
  }

  /** Bytes of a table that neither its header nor its fields name, but for the checksum, are zero. */
  ghost predicate RestZero(t: Bytes, header: seq<Field>, fields: seq<Field>) {
    forall k :: 0 <= k < |t| && !Covered(header, k) && !Covered(fields, k) && k != SUM ==> t[k] == 0
  }

  /** Put a table's fields after its header and seal it; nothing outside the table changes. */
  method FillTable(buf: array<byte>, at: nat, len: nat, header: seq<Field>, fields: seq<Field>)
    requires HeaderFields(header) && Apart(fields, HEADER_LEN, len) && HEADER_LEN <= len && at + len <= buf.Length
    requires forall k :: at <= k < at + len ==> buf[k] == 0
    modifies buf
    ensures HoldsAll(buf[at..at + len], header) && HoldsAll(buf[at..at + len], fields) && Sealed(buf[at..at + len])
    ensures RestZero(buf[at..at + len], header, fields)
    ensures OnlyWithin(old(buf[..]), buf[..], at, at + len)
  {
    hide Sealed, HoldsAll, Covered;
    FillHeader(buf, at, len, header);
    ghost var s1 := buf[..];
    PutAll(buf, at, len, fields, HEADER_LEN, len);
    ghost var s2 := buf[..];
    FieldsKept(s1, s2, at, len, header, HEADER_LEN, len);
    Seal(buf, at, len, SUM);
    FieldsKept(s2, buf[..], at, len, header, SUM, SUM + 1);
    FieldsKept(s2, buf[..], at, len, fields, SUM, SUM + 1);
    forall k | 0 <= k < len && !Covered(header, k) && !Covered(fields, k) && k != SUM
      ensures buf[at + k] == 0
    {
      assert s1[at + k] == 0 && s2[at + k] == s1[at + k];
    }
  }

  lemma FieldsApart(base: nat, vcpus: nat)
    ensures Apart(FadtLow(base), HEADER_LEN, 112) && Apart(FadtHigh(base), 112, FADT_LEN)
    ensures Apart(XsdtFields(base), HEADER_LEN, XSDT_LEN) && Apart(FacsFields(), 0, FACS_LEN)
    ensures Apart(RsdpSignature(), 0, 8) && Apart(RsdpFields(base), 9, 32) && Apart(MadtFields(vcpus), HEADER_LEN, MadtLen(vcpus))
  {
    hide Ascii, LittleEndian;
  }

  /** Everything `Build` writes with `WriteTable` keeps its fields apart. */
  lemma AllApart(base: nat, vcpus: nat)
    ensures HeaderFields(MadtHeader(vcpus)) && HeaderFields(FadtHeader()) && HeaderFields(XsdtHeader())
    ensures Apart(MadtFields(vcpus), HEADER_LEN, MadtLen(vcpus))
    ensures Apart(FadtFields(base), HEADER_LEN, FADT_LEN)
    ensures Apart(XsdtFields(base), HEADER_LEN, XSDT_LEN) && Apart(FacsFields(), 0, FACS_LEN)
  {
    hide HeaderFields, Apart, Header, FadtLow, FadtHigh, MadtFields, XsdtFields, FacsFields;
    HeaderApart("APIC", MadtLen(vcpus), 5, "MADT    ");
    HeaderApart("FACP", FADT_LEN, 6, "FADT    ");
    HeaderApart("XSDT", XSDT_LEN, 1, "XSDT    ");
    FieldsApart(base, vcpus);
    ApartConcat(FadtLow(base), FadtHigh(base), HEADER_LEN, 112, FADT_LEN);
  }

  lemma DsdtApart(aml: Bytes)
    ensures HeaderFields(DsdtHeader(aml)) && Apart([Field(HEADER_LEN, aml)], HEADER_LEN, HEADER_LEN + |aml|)
  {
    hide HeaderFields, Header;
    HeaderApart("DSDT", HEADER_LEN + |aml|, 2, "DSDT    ");
  }

  lemma ApartConcat(a: seq<Field>, b: seq<Field>, lo: nat, mid: nat, hi: nat)
    requires Apart(a, lo, mid) && Apart(b, mid, hi) && lo <= mid <= hi
    ensures Apart(a + b, lo, hi)
  {
  }

  // ---- Each table, in the finished buffer ----

  /** A sealed table with the standard header and these fields, and nothing more. */
  ghost predicate TableAt(s: Bytes, at: nat, len: nat, header: seq<Field>, fields: seq<Field>) {
    at + len <= |s| && HoldsAll(s[at..at + len], header) && HoldsAll(s[at..at + len], fields) && Sealed(s[at..at + len]) &&
    RestZero(s[at..at + len], header, fields)
  }

  function MadtHeader(vcpus: nat): seq<Field> { Header("APIC", MadtLen(vcpus), 5, "MADT    ") }
  function FadtHeader(): seq<Field> { Header("FACP", FADT_LEN, 6, "FADT    ") }
  function XsdtHeader(): seq<Field> { Header("XSDT", XSDT_LEN, 1, "XSDT    ") }
  function DsdtHeader(aml: Bytes): seq<Field> { Header("DSDT", HEADER_LEN + |aml|, 2, "DSDT    ") }
  function FadtFields(base: nat): seq<Field> { FadtLow(base) + FadtHigh(base) }

  ghost predicate MadtOk(s: Bytes, vcpus: nat) {
    TableAt(s, MADT, MadtLen(vcpus), MadtHeader(vcpus), MadtFields(vcpus))
  }

  ghost predicate DsdtOk(s: Bytes, aml: Bytes) {
    TableAt(s, DSDT, HEADER_LEN + |aml|, DsdtHeader(aml), [Field(HEADER_LEN, aml)])
  }

  ghost predicate FadtOk(s: Bytes, base: nat) { TableAt(s, FADT, FADT_LEN, FadtHeader(), FadtFields(base)) }

  ghost predicate XsdtOk(s: Bytes, base: nat) { TableAt(s, XSDT, XSDT_LEN, XsdtHeader(), XsdtFields(base)) }

  ghost predicate FacsOk(s: Bytes) { FACS + FACS_LEN <= |s| && HoldsAll(s[FACS..FACS + FACS_LEN], FacsFields()) }

  /** Both RSDP sums: of its first 20 bytes, and of all 36. */
  ghost predicate RsdpOk(s: Bytes, base: nat) {
    RSDP_LEN <= |s| && HoldsAll(s[RSDP..RSDP + RSDP_LEN], RsdpSignature()) &&
    HoldsAll(s[RSDP..RSDP + RSDP_LEN], RsdpFields(base)) &&
    Sealed(s[RSDP..RSDP + 20]) && Sealed(s[RSDP..RSDP + RSDP_LEN])
  }

  /** A table away from what changed is kept. */
  lemma TableKept(before: Bytes, after: Bytes, lo: nat, hi: nat, at: nat, len: nat, header: seq<Field>, fields: seq<Field>)
    requires TableAt(before, at, len, header, fields)
    requires OnlyWithin(before, after, lo, hi) && (at + len <= lo || hi <= at)
    ensures TableAt(after, at, len, header, fields)
  {
    hide HoldsAll, Sealed, RestZero;
    SliceKept(before, after, lo, hi, at, len);
  }

  method WriteTable(buf: array<byte>, at: nat, len: nat, header: seq<Field>, fields: seq<Field>)
    requires HeaderFields(header) && Apart(fields, HEADER_LEN, len) && HEADER_LEN <= len && at + len <= buf.Length
    requires forall k :: at <= k < at + len ==> buf[k] == 0
    modifies buf
    ensures TableAt(buf[..], at, len, header, fields)
    ensures OnlyWithin(old(buf[..]), buf[..], at, at + len)
  {
    hide HoldsAll, Sealed, RestZero;
    FillTable(buf, at, len, header, fields);
    assert buf[..][at..at + len] == buf[at..at + len];
  }

  method WriteRsdp(buf: array<byte>, base: nat)
    requires RSDP_LEN <= buf.Length && buf[RSDP + 8] == 0 && buf[RSDP + 32] == 0
    modifies buf
    ensures RsdpOk(buf[..], base) && OnlyWithin(old(buf[..]), buf[..], RSDP, RSDP + RSDP_LEN)
  {
    hide Ascii, LittleEndian, Sealed, HoldsAll;
    FieldsApart(base, 0);
    PutAll(buf, RSDP, RSDP_LEN, RsdpSignature(), 0, 8);
    ghost var s1 := buf[..];
    PutAll(buf, RSDP, RSDP_LEN, RsdpFields(base), 9, 32);
    ghost var s2 := buf[..];
    FieldsKept(s1, s2, RSDP, RSDP_LEN, RsdpSignature(), 9, 32);
    Seal(buf, RSDP, 20, 8);
    ghost var s3 := buf[..];
    Seal(buf, RSDP, RSDP_LEN, 32);
    ghost var s4 := buf[..];
    FieldsKept(s2, s3, RSDP, RSDP_LEN, RsdpSignature(), 8, 9);
    FieldsKept(s2, s3, RSDP, RSDP_LEN, RsdpFields(base), 8, 9);
    FieldsKept(s3, s4, RSDP, RSDP_LEN, RsdpSignature(), 32, 33);
    FieldsKept(s3, s4, RSDP, RSDP_LEN, RsdpFields(base), 32, 33);
    SliceKept(s3, s4, 32, 33, RSDP, 20);
  }

  /** All the tables for a base address, vCPU count and VMBus setting. */
  ghost predicate AllOk(s: Bytes, base: nat, vcpus: nat, aml: Bytes) {
    |s| == FOOTPRINT && MadtOk(s, vcpus) && DsdtOk(s, aml) && FacsOk(s) && FadtOk(s, base) && XsdtOk(s, base) && RsdpOk(s, base)
  }

  function DsdtAml(vmbus: bool): (r: Bytes)
    ensures DSDT + HEADER_LEN + |r| <= FOOTPRINT && ParseTerms(r) == Some(DsdtTerms(vmbus))
  {
    DsdtPrints(vmbus);
    PrintAll(DsdtTerms(vmbus))
  }

  /** Build the tables for a buffer whose first byte is at guest address `base`. */
  method Build(base: nat, vcpuCount: nat, vmbus: bool) returns (buf: array<byte>)
    requires base % 64 == 0 && base + FOOTPRINT <= 0x1_0000_0000
    ensures fresh(buf) && AllOk(buf[..], base, Clamp(vcpuCount, 1, MAX_VCPUS), DsdtAml(vmbus))
    ensures Linked(buf[..], base, Clamp(vcpuCount, 1, MAX_VCPUS), DsdtAml(vmbus))
  {
    hide Ascii, LittleEndian, Sealed, HoldsAll, HeaderFields, Apart, Header, DsdtAml, MadtFields, FadtFields, XsdtFields, TableAt;
    var vcpus := Clamp(vcpuCount, 1, MAX_VCPUS);
    buf := new byte[FOOTPRINT](_ => 0);
    AllApart(base, vcpus);

    WriteTable(buf, MADT, MadtLen(vcpus), MadtHeader(vcpus), MadtFields(vcpus));
    ghost var s1 := buf[..];
    var aml := DsdtAml(vmbus);
    DsdtApart(aml);
    WriteTable(buf, DSDT, HEADER_LEN + |aml|, DsdtHeader(aml), [Field(HEADER_LEN, aml)]);
    ghost var s2 := buf[..];
    PutAll(buf, FACS, FACS_LEN, FacsFields(), 0, FACS_LEN);
    ghost var s3 := buf[..];
    WriteTable(buf, FADT, FADT_LEN, FadtHeader(), FadtFields(base));
    ghost var s4 := buf[..];
    WriteTable(buf, XSDT, XSDT_LEN, XsdtHeader(), XsdtFields(base));
    ghost var s5 := buf[..];
    assert buf[RSDP + 8] == 0 && buf[RSDP + 32] == 0;
    WriteRsdp(buf, base);
    ghost var s6 := buf[..];

    // Each table survives the writes after it, which all lie elsewhere.
    assert OnlyWithin(s2, s6, 0, MADT) && OnlyWithin(s4, s6, 0, FACS);
    TableKept(s1, s2, DSDT, DSDT + HEADER_LEN + |aml|, MADT, MadtLen(vcpus), MadtHeader(vcpus), MadtFields(vcpus));
    TableKept(s2, s6, 0, MADT, MADT, MadtLen(vcpus), MadtHeader(vcpus), MadtFields(vcpus));
    TableKept(s2, s6, 0, MADT, DSDT, HEADER_LEN + |aml|, DsdtHeader(aml), [Field(HEADER_LEN, aml)]);
    SliceKept(s3, s4, FADT, FADT + FADT_LEN, FACS, FACS_LEN);
    SliceKept(s4, s6, 0, FACS, FACS, FACS_LEN);
    TableKept(s4, s6, 0, FACS, FADT, FADT_LEN, FadtHeader(), FadtFields(base));
    TableKept(s5, s6, 0, RSDP_LEN, XSDT, XSDT_LEN, XsdtHeader(), XsdtFields(base));
    assert s3[FACS..FACS + FACS_LEN] == s6[FACS..FACS + FACS_LEN];
    TablesLink(s6, base, vcpus, vmbus);
  }

  // ---- Links ----

  lemma FieldReads32(t: Bytes, fields: seq<Field>, i: nat, v: nat)
    requires HoldsAll(t, fields) && i < |fields| && fields[i].bytes == Le32(v) && v < 0x1_0000_0000
    ensures fields[i].off + 4 <= |t| && U32At(t, fields[i].off) == v
  {
    hide HoldsAll, LittleEndian;
    FieldHeld(t, fields, i);
    Powers();
    LittleEndianRoundTrip(v, 4);
  }

  lemma FieldReads64(t: Bytes, fields: seq<Field>, i: nat, v: nat)
    requires HoldsAll(t, fields) && i < |fields| && fields[i].bytes == Le64(v) && v < 0x1_0000_0000_0000_0000
    ensures fields[i].off + 8 <= |t| && U64At(t, fields[i].off) == v
  {
    hide HoldsAll, LittleEndian;
    FieldHeld(t, fields, i);
    Powers();
    LittleEndianRoundTrip(v, 8);
  }

  lemma FieldHeld(t: Bytes, fields: seq<Field>, i: nat)
    requires HoldsAll(t, fields) && i < |fields|
    ensures Holds(t, fields[i])
  {
  }

  /** The table an address names: the one whose signature and length are there. */
  ghost predicate Names(s: Bytes, base: nat, address: nat, sig: string, len: nat) {
    base <= address && address - base + len <= |s| && len >= 8 && |sig| == 4 &&
    s[address - base..address - base + 4] == Ascii(sig) && U32At(s, address - base + 4) == len
  }

  /** The FADT at `fadt` names the FACS, aligned, and the DSDT, twice over. */
  ghost predicate FadtNames(s: Bytes, base: nat, fadt: nat, aml: Bytes) {
    Names(s, base, fadt, "FACP", FADT_LEN) &&
    var facs, dsdt := U32At(s, fadt - base + 36), U32At(s, fadt - base + 40);
    Names(s, base, facs, "FACS", FACS_LEN) && facs % 64 == 0 &&
    Names(s, base, dsdt, "DSDT", HEADER_LEN + |aml|) && U64At(s, fadt - base + 140) == dsdt &&
    s[dsdt - base + HEADER_LEN..dsdt - base + HEADER_LEN + |aml|] == aml
  }

  /** Following the addresses from the RSDP reaches every other table, inside the buffer. */
  ghost predicate Linked(s: Bytes, base: nat, vcpus: nat, aml: Bytes) {
    |s| >= RSDP_LEN &&
    var xsdt := U64At(s, RSDP + 24);
    Names(s, base, xsdt, "XSDT", XSDT_LEN) &&
    Names(s, base, U64At(s, xsdt - base + 44), "APIC", MadtLen(vcpus)) &&
    FadtNames(s, base, U64At(s, xsdt - base + 36), aml)
  }

  lemma TablesLink(s: Bytes, base: nat, vcpus: nat, vmbus: bool)
    requires base % 64 == 0 && base + FOOTPRINT <= 0x1_0000_0000 && 1 <= vcpus <= MAX_VCPUS
    requires AllOk(s, base, vcpus, DsdtAml(vmbus))
    ensures Linked(s, base, vcpus, DsdtAml(vmbus))
  {
    hide Ascii, LittleEndian, FromLittleEndian, Sealed, HoldsAll, DsdtAml, DsdtTerms, ParseTerms;
    XsdtLinks(s, base);
    FadtLinks(s, base);
    NamesTable(s, base, XSDT, XSDT_LEN, "XSDT", 1, "XSDT    ");
    NamesTable(s, base, FADT, FADT_LEN, "FACP", 6, "FADT    ");
    NamesTable(s, base, MADT, MadtLen(vcpus), "APIC", 5, "MADT    ");
    NamesTable(s, base, DSDT, HEADER_LEN + |DsdtAml(vmbus)|, "DSDT", 2, "DSDT    ");
    NamesFacs(s, base);
    RsdpLinks(s, base);
    DsdtHeld(s, DsdtAml(vmbus));
  }

  lemma U32InTable(s: Bytes, at: nat, len: nat, off: nat)
    requires at + len <= |s| && off + 4 <= len
    ensures U32At(s[at..at + len], off) == U32At(s, at + off)
  {
    SubSlice(s, at, len, off, off + 4);
  }

  lemma U64InTable(s: Bytes, at: nat, len: nat, off: nat)
    requires at + len <= |s| && off + 8 <= len
    ensures U64At(s[at..at + len], off) == U64At(s, at + off)
  {
    SubSlice(s, at, len, off, off + 8);
  }

  lemma NamesTable(s: Bytes, base: nat, at: nat, len: nat, sig: string, revision: byte, id: string)
    requires |sig| == 4 && |id| == 8 && at + len <= |s| && 8 <= len < 0x1_0000_0000
    requires HoldsAll(s[at..at + len], Header(sig, len, revision, id))
    ensures Names(s, base, base + at, sig, len)
  {
    hide Ascii, LittleEndian, FromLittleEndian, HoldsAll;
    var h := Header(sig, len, revision, id);
    FieldHeld(s[at..at + len], h, 0);
    SubSlice(s, at, len, 0, 4);
    FieldReads32(s[at..at + len], h, 1, len);
    U32InTable(s, at, len, 4);
  }

  lemma NamesFacs(s: Bytes, base: nat)
    requires FacsOk(s)
    ensures Names(s, base, base + FACS, "FACS", FACS_LEN)
  {
    hide Ascii, LittleEndian, FromLittleEndian, HoldsAll;
    FieldHeld(s[FACS..FACS + FACS_LEN], FacsFields(), 0);
    SubSlice(s, FACS, FACS_LEN, 0, 4);
    FieldReads32(s[FACS..FACS + FACS_LEN], FacsFields(), 1, FACS_LEN);
    U32InTable(s, FACS, FACS_LEN, 4);
  }

  lemma RsdpLinks(s: Bytes, base: nat)
    requires RsdpOk(s, base) && base + FOOTPRINT <= 0x1_0000_0000
    ensures U64At(s, RSDP + 24) == base + XSDT
  {
    hide Ascii, LittleEndian, FromLittleEndian, HoldsAll, Sealed;
    FieldReads64(s[RSDP..RSDP + RSDP_LEN], RsdpFields(base), 4, base + XSDT);
    U64InTable(s, RSDP, RSDP_LEN, 24);
  }

  lemma XsdtLinks(s: Bytes, base: nat)
    requires XsdtOk(s, base) && base + FOOTPRINT <= 0x1_0000_0000
    ensures U64At(s, XSDT + 36) == base + FADT && U64At(s, XSDT + 44) == base + MADT
  {
    hide Ascii, LittleEndian, FromLittleEndian, HoldsAll, Sealed;
    FieldReads64(s[XSDT..XSDT + XSDT_LEN], XsdtFields(base), 0, base + FADT);
    FieldReads64(s[XSDT..XSDT + XSDT_LEN], XsdtFields(base), 1, base + MADT);
    U64InTable(s, XSDT, XSDT_LEN, 36);
    U64InTable(s, XSDT, XSDT_LEN, 44);
  }

  lemma FadtLinks(s: Bytes, base: nat)
    requires FadtOk(s, base) && base + FOOTPRINT <= 0x1_0000_0000
    ensures U32At(s, FADT + 36) == base + FACS && U32At(s, FADT + 40) == base + DSDT && U64At(s, FADT + 140) == base + DSDT
  {
    hide Ascii, LittleEndian, FromLittleEndian, HoldsAll, Sealed;
    var t, f := s[FADT..FADT + FADT_LEN], FadtFields(base);
    FieldReads32(t, f, 0, base + FACS);
    FieldReads32(t, f, 1, base + DSDT);
    assert f[14] == FadtHigh(base)[3];
    FieldReads64(t, f, 14, base + DSDT);
    U32InTable(s, FADT, FADT_LEN, 36);
    U32InTable(s, FADT, FADT_LEN, 40);
    U64InTable(s, FADT, FADT_LEN, 140);
  }

  lemma DsdtHeld(s: Bytes, aml: Bytes)
    requires DsdtOk(s, aml)
    ensures s[DSDT + HEADER_LEN..DSDT + HEADER_LEN + |aml|] == aml
  {
    FieldHeld(s[DSDT..DSDT + HEADER_LEN + |aml|], [Field(HEADER_LEN, aml)], 0);
    SubSlice(s, DSDT, HEADER_LEN + |aml|, HEADER_LEN, HEADER_LEN + |aml|);
  }
}
