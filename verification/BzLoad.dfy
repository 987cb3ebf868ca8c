/** Writing a bzImage and its boot data into guest RAM. */
module BzLoad {
  import opened Acpi
  import opened AcpiTables
  import opened Aml
  import opened Arith
  import opened Basics
  import opened BzImage
  import opened CopyThreads
  import opened E820
  import opened GuestRam

  const GDT_CODE32 := 0x00CF_9A00_0000_FFFF
  const GDT_DATA32 := 0x00CF_9200_0000_FFFF

  // ---- The zero page ----

  function EntryBytes(e: Entry): (r: Bytes)
    ensures |r| == E820_ENTRY_SIZE
  {
    Le64(e.addr) + Le64(e.size) + Le32(e.kind)
  }

  function MapFields(entries: seq<Entry>): seq<Field> {
    seq(|entries|, i requires 0 <= i < |entries| => Field(E820_TABLE + i * E820_ENTRY_SIZE, EntryBytes(entries[i])))
  }

  /** The fields the loader sets; `Le32` keeps the low 32 bits, as the casts do. */
  function LoaderFields(start: nat, initramfs: Span, entries: byte): seq<Field> {
    [Field(TYPE_OF_LOADER, [LOADER_UNDEFINED]), Field(CODE32_START, Le32(start)),
     Field(RAMDISK_IMAGE, Le32(initramfs.start)), Field(RAMDISK_SIZE, Le32(initramfs.len)),
     Field(EXT_RAMDISK_IMAGE, Le32(initramfs.start / FOUR_GIB)), Field(EXT_RAMDISK_SIZE, Le32(initramfs.len / FOUR_GIB)),
     Field(CMD_LINE_PTR, Le32(CMDLINE_GPA)), Field(EXT_CMD_LINE_PTR, Le32(CMDLINE_GPA / FOUR_GIB)),
     Field(ACPI_RSDP_ADDR, Le64(ACPI_GPA)), Field(E820_ENTRIES, [entries])]
  }

  /** The loader's fields over the image's setup header, and zero everywhere else. */
  ghost predicate ZeroPageOk(zp: Bytes, image: Bytes, headerEnd: nat, start: nat, initramfs: Span, entries: seq<Entry>) {
    |zp| == ZERO_PAGE_SIZE && headerEnd <= |image| && |entries| < 256 &&
    HoldsAll(zp, LoaderFields(start, initramfs, |entries|)) && HoldsAll(zp, MapFields(entries)) &&
    forall k :: 0 <= k < |zp| && !Covered(LoaderFields(start, initramfs, |entries|), k) && !Covered(MapFields(entries), k) ==>
      zp[k] == if SETUP_SECTS <= k < headerEnd then image[k] else 0
  }

  lemma ZeroFieldsApart(start: nat, initramfs: Span, entries: seq<Entry>)
    requires |entries| <= E820_MAX_ENTRIES
    ensures Acpi.Apart(LoaderFields(start, initramfs, |entries|), 0, E820_TABLE)
    ensures Acpi.Apart(MapFields(entries), E820_TABLE, ZERO_PAGE_SIZE)
  {
    hide LittleEndian;
  }

  method ZeroPage(image: Bytes, headerEnd: nat, start: nat, initramfs: Span, entries: seq<Entry>) returns (zp: array<byte>)
    requires SETUP_SECTS <= headerEnd <= HEADER_END_MAX && headerEnd <= |image| && |entries| <= E820_MAX_ENTRIES
    ensures fresh(zp) && ZeroPageOk(zp[..], image, headerEnd, start, initramfs, entries)
  {
    hide HoldsAll, Covered, LoaderFields, MapFields;
    zp := new byte[ZERO_PAGE_SIZE](_ => 0);
    Put(zp, 0, Field(SETUP_SECTS, image[SETUP_SECTS..headerEnd]));
    ghost var s1 := zp[..];
    assert forall k :: SETUP_SECTS <= k < headerEnd ==> s1[k] == image[SETUP_SECTS..headerEnd][k - SETUP_SECTS];
    ZeroFieldsApart(start, initramfs, entries);
    PutAll(zp, 0, ZERO_PAGE_SIZE, LoaderFields(start, initramfs, |entries|), 0, E820_TABLE);
    ghost var s2 := zp[..];
    PutAll(zp, 0, ZERO_PAGE_SIZE, MapFields(entries), E820_TABLE, ZERO_PAGE_SIZE);
    FieldsKept(s2, zp[..], 0, ZERO_PAGE_SIZE, LoaderFields(start, initramfs, |entries|), E820_TABLE, ZERO_PAGE_SIZE);
    assert zp[0..ZERO_PAGE_SIZE] == zp[..] && s2[0..ZERO_PAGE_SIZE] == s2;
    forall k | 0 <= k < ZERO_PAGE_SIZE && !Covered(LoaderFields(start, initramfs, |entries|), k) && !Covered(MapFields(entries), k)
      ensures zp[k] == if SETUP_SECTS <= k < headerEnd then image[k] else 0
    {
      assert !Covered(LoaderFields(start, initramfs, |entries|), k - 0) && !Covered(MapFields(entries), k - 0);
      assert zp[k] == s2[k] == s1[k];
    }
  }

  // ---- What the kernel reads in it ----

  /** The kernel's reading of entry `i`. */
  ghost predicate ReadsEntry(zp: Bytes, i: nat, entry: Entry) {
    var e := 0x2D0 + i * 20;
    e + 20 <= |zp| && entry == Entry(U64At(zp, e), U64At(zp, e + 8), U32At(zp, e + 16))
  }

  lemma EntryReadsBack(zp: Bytes, at: nat, e: Entry)
    requires at + E820_ENTRY_SIZE <= |zp| && zp[at..at + E820_ENTRY_SIZE] == EntryBytes(e)
    requires e.addr < Power256(8) && e.size < Power256(8) && e.kind < Power256(4)
    ensures U64At(zp, at) == e.addr && U64At(zp, at + 8) == e.size && U32At(zp, at + 16) == e.kind
  {
    hide LittleEndian, FromLittleEndian;
    var t := zp[at..at + E820_ENTRY_SIZE];
    SubSlice(zp, at, E820_ENTRY_SIZE, 0, 8);
    SubSlice(zp, at, E820_ENTRY_SIZE, 8, 16);
    SubSlice(zp, at, E820_ENTRY_SIZE, 16, 20);
    assert t[0..8] == Le64(e.addr) && t[8..16] == Le64(e.size) && t[16..20] == Le32(e.kind);
    LittleEndianRoundTrip(e.addr, 8);
    LittleEndianRoundTrip(e.size, 8);
    LittleEndianRoundTrip(e.kind, 4);
  }

  /** The kernel finds the memory map it was given. */
  lemma MapReadsBack(zp: Bytes, image: Bytes, headerEnd: nat, start: nat, initramfs: Span, ramBytes: nat)
    requires ramBytes < Power256(8) && ZeroPageOk(zp, image, headerEnd, start, initramfs, MemoryMap(ramBytes))
    ensures zp[E820_ENTRIES] == |MemoryMap(ramBytes)|
    ensures forall i :: 0 <= i < |MemoryMap(ramBytes)| ==> ReadsEntry(zp, i, MemoryMap(ramBytes)[i])
  {
    hide LittleEndian, FromLittleEndian, EntryBytes, HoldsAll, Covered, MemoryMap;
    var entries := MemoryMap(ramBytes);
    var f := LoaderFields(start, initramfs, |entries|);
    FieldHeld(zp, f, 9);
    assert zp[E820_ENTRIES..E820_ENTRIES + 1][0] == zp[E820_ENTRIES];
    forall i | 0 <= i < |entries|
      ensures ReadsEntry(zp, i, entries[i])
    {
      FieldHeld(zp, MapFields(entries), i);
      EntriesAreSmall(ramBytes, i);
      EntryReadsBack(zp, E820_TABLE + i * E820_ENTRY_SIZE, entries[i]);
    }
  }

  lemma EntriesAreSmall(ramBytes: nat, i: nat)
    requires ramBytes < Power256(8) && i < |MemoryMap(ramBytes)|
    ensures MemoryMap(ramBytes)[i].addr < Power256(8) && MemoryMap(ramBytes)[i].size < Power256(8) && MemoryMap(ramBytes)[i].kind < Power256(4)
  {
    Powers();
  }

  /** The kernel finds its own address, the initramfs, the command line and the RSDP. */
  lemma PointersReadBack(zp: Bytes, image: Bytes, headerEnd: nat, start: nat, initramfs: Span, entries: seq<Entry>)
    requires ZeroPageOk(zp, image, headerEnd, start, initramfs, entries)
    requires start < FOUR_GIB && initramfs.start < FOUR_GIB && initramfs.len < FOUR_GIB
    ensures U32At(zp, CODE32_START) == start && U64At(zp, ACPI_RSDP_ADDR) == ACPI_GPA
    ensures U32At(zp, RAMDISK_IMAGE) == initramfs.start && U32At(zp, EXT_RAMDISK_IMAGE) == 0
    ensures U32At(zp, RAMDISK_SIZE) == initramfs.len && U32At(zp, EXT_RAMDISK_SIZE) == 0
    ensures U32At(zp, CMD_LINE_PTR) == CMDLINE_GPA && U32At(zp, EXT_CMD_LINE_PTR) == 0
  {
    hide LittleEndian, FromLittleEndian, HoldsAll, Covered, MapFields;
    var f := LoaderFields(start, initramfs, |entries|);
    FieldReads32(zp, f, 1, start);
    FieldReads32(zp, f, 2, initramfs.start);
    FieldReads32(zp, f, 3, initramfs.len);
    FieldReads32(zp, f, 4, 0);
    FieldReads32(zp, f, 5, 0);
    FieldReads32(zp, f, 6, CMDLINE_GPA);
    FieldReads32(zp, f, 7, 0);
    FieldReads64(zp, f, 8, ACPI_GPA);
  }

  // ---- Pieces written one after another ----

  ghost predicate Clear(written: seq<Field>, f: Field) {
    forall i :: 0 <= i < |written| ==> written[i].End() <= f.off || f.End() <= written[i].off
  }

  /** What has been written so far reads back, and nothing else has changed. */
  ghost predicate Written(before: Bytes, now: Bytes, written: seq<Field>) {
    HoldsAll(now, written) && OnlyFields(before, now, 0, written)
  }

  lemma WriteOne(before: Bytes, mid: Bytes, now: Bytes, written: seq<Field>, f: Field)
    requires Written(before, mid, written) && Clear(written, f)
    requires f.End() <= |mid| && now == Spliced(mid, f.off, f.bytes)
    ensures Written(before, now, written + [f])
  {
    hide OnlyFields;
    assert now[f.off..f.End()] == f.bytes;
    assert OnlyWithin(mid, now, f.off, f.End());
    OneMoreField(before, mid, now, 0, written, f);
    var more := written + [f];
    forall i | 0 <= i < |more|
      ensures Holds(now, more[i])
    {
      if i < |written| {
        KeptField(mid, now, written[i], f.off, f.End());
      }
    }
  }

  // ---- Loading ----

  datatype BzImageLoad = BzImageLoad(entryPoint: nat, bootParams: nat, version: nat, bytesLoaded: nat, initramfs: Span)

  const NO_INITRAMFS := Span(0, 0)

  function InitramfsSpan(p: Placement): Span { if p.initramfs.Some? then p.initramfs.value else NO_INITRAMFS }

  function SizeOf(initramfs: Option<Bytes>): Option<nat> { if initramfs.Some? then Some(|initramfs.value|) else None }

  /** The kernel and the initramfs, where they are to be. */
  function Images(p: Placement, kernel: Bytes, initramfs: Option<Bytes>): seq<Field> {
    [Field(p.kernel.start, kernel)] +
    (if initramfs.Some? && p.initramfs.Some? then [Field(p.initramfs.value.start, initramfs.value)] else [])
  }

  function Gdt(): (r: Bytes)
    ensures |r| == GDT_LEN
  {
    seq(16, _ => 0) + Le64(GDT_CODE32) + Le64(GDT_DATA32)
  }

  function BootPieces(cmdline: Bytes, acpi: Bytes, zp: Bytes): seq<Field> {
    [Field(GDT_GPA, Gdt()), Field(CMDLINE_GPA, cmdline + [0]), Field(ACPI_GPA, acpi), Field(BOOT_PARAMS_GPA, zp)]
  }

  /** Guest memory as it is allocated, for whatever RAM size. */
  predicate Allocated(ram: GuestMemory) { ram.Valid() && ram.ranges.Built() }

  /** What comes of loading into memory whose first region ends at `low`: a piece beyond it cannot be written. */
  function Outcome(h: Header, kernelLen: nat, cmdlineLen: nat, ramBytes: nat, initramfs: Option<nat>, low: nat): Result<Placement> {
    var place := Place(h, kernelLen, cmdlineLen, ramBytes, initramfs);
    if place == Err(KernelDoesNotFit) || place == Err(CmdlineTooLong) then place
    else if LoadAddress(h) + kernelLen > low then Err(OutOfRange)
    else if place.Ok? && place.value.initramfs.Some? && place.value.initramfs.value.End() > low then Err(OutOfRange)
    else place
  }

  /** Memory of the RAM size `load` is told, or more, takes every piece. */
  lemma EnoughMemory(h: Header, kernelLen: nat, cmdlineLen: nat, ramBytes: nat, initramfs: Option<nat>, low: nat)
    requires LowTop(ramBytes) <= low
    ensures Outcome(h, kernelLen, cmdlineLen, ramBytes, initramfs, low) == Place(h, kernelLen, cmdlineLen, ramBytes, initramfs)
  {
    hide PageDown;
  }

  /** What a failed load leaves behind: the kernel, if it was written before the failure. */
  ghost predicate LeftBehind(before: Bytes, now: Bytes, error: Error, h: Header, kernel: Bytes, low: nat) {
    if error in {InitramfsEmpty, NoRoomForInitramfs} || (error == OutOfRange && LoadAddress(h) + |kernel| <= low)
    then Written(before, now, [Field(LoadAddress(h), kernel)])
    else now == before
  }

  /** The images and boot data in guest RAM, and nothing else changed. */
  ghost predicate Staged(before: Bytes, now: Bytes, image: Bytes, h: Header, p: Placement, cmdline: Bytes, ramBytes: nat,
                         initramfs: Option<Bytes>, vcpus: nat, vmbus: bool) {
    h.setupSize <= |image| && BOOT_PARAMS_GPA + ZERO_PAGE_SIZE <= |now| &&
    var acpi := now[ACPI_GPA..ACPI_GPA + FOOTPRINT];
    var zp := now[BOOT_PARAMS_GPA..BOOT_PARAMS_GPA + ZERO_PAGE_SIZE];
    Written(before, now, Images(p, image[h.setupSize..], initramfs) + BootPieces(cmdline, acpi, zp)) &&
    AllOk(acpi, ACPI_GPA, vcpus, DsdtAml(vmbus)) && Linked(acpi, ACPI_GPA, vcpus, DsdtAml(vmbus)) &&
    ZeroPageOk(zp, image, h.headerEnd, p.work.start, InitramfsSpan(p), MemoryMap(ramBytes))
  }

  /** Write one piece below the top of low RAM, apart from the pieces before it. */
  method WritePiece(ram: GuestMemory, f: Field, ghost before: Bytes, ghost written: seq<Field>)
    requires ram.Valid() && f.bytes != [] && f.End() <= ram.ranges.low
    requires Written(before, ram.store[..], written) && Clear(written, f)
    modifies ram.store
    ensures Written(before, ram.store[..], written + [f])
  {
    hide Written, Clear, Spliced;
    ghost var mid := ram.store[..];
    var ok := ram.WriteAt(f.off, f.bytes);
    WriteOne(before, mid, ram.store[..], written, f);
  }

  lemma ImagesClear(h: Header, kernel: Bytes, cmdlineLen: nat, ramBytes: nat, initramfs: Option<Bytes>, f: Field)
    requires kernel != [] && Place(h, |kernel|, cmdlineLen, ramBytes, SizeOf(initramfs)).Ok? && f.End() <= LEGACY_LOAD_ADDR
    ensures Clear(Images(Place(h, |kernel|, cmdlineLen, ramBytes, SizeOf(initramfs)).value, kernel, initramfs), f)
  {
    hide PageDown;
  }

  /** Copy the kernel, then place and copy the initramfs. */
  method CopyImages(ram: GuestMemory, h: Header, kernel: Bytes, cmdlineLen: nat, ramBytes: nat, initramfs: Option<Bytes>, parallelism: nat)
    returns (r: Result<Placement>)
    requires Allocated(ram) && kernel != []
    modifies ram.store
    ensures r == Outcome(h, |kernel|, cmdlineLen, ramBytes, SizeOf(initramfs), ram.ranges.low)
    ensures r.Ok? ==> Written(old(ram.store[..]), ram.store[..], Images(r.value, kernel, initramfs))
    ensures r.Err? ==> LeftBehind(old(ram.store[..]), ram.store[..], r.error, h, kernel, ram.ranges.low)
  {
    hide PageDown, Spliced;
    ghost var before := ram.store[..];
    var work := WorkArea(h, |kernel|);
    if work.start < LEGACY_LOAD_ADDR || work.End() > LowTop(ramBytes) {
      return Err(KernelDoesNotFit);
    }
    if cmdlineLen > h.cmdlineSize || cmdlineLen + 1 > CMDLINE_MAX {
      return Err(CmdlineTooLong);
    }
    NothingWritten(before);
    var copied := CopyPiece(ram, Field(work.start, kernel), parallelism, before, []);
    if !copied {
      return Err(OutOfRange);
    }
    ghost var first := [Field(work.start, kernel)];
    assert [] + first == first;
    if initramfs.None? {
      assert first + [] == first;
      return Result.Ok(Placement(work, Span(work.start, |kernel|), None));
    }
    if |initramfs.value| == 0 {
      return Err(InitramfsEmpty);
    }
    var gpa := PlaceInitramfs(InitramfsLimit(h, ramBytes), work.End(), |initramfs.value|);
    if gpa.None? {
      return Err(NoRoomForInitramfs);
    }
    copied := CopyPiece(ram, Field(gpa.value, initramfs.value), parallelism, before, first);
    if !copied {
      return Err(OutOfRange);
    }
    r := Result.Ok(Placement(work, Span(work.start, |kernel|), Some(Span(gpa.value, |initramfs.value|))));
  }

  /** Copy a piece that lies below the PCI window, apart from the pieces before it. */
  method CopyPiece(ram: GuestMemory, f: Field, parallelism: nat, ghost before: Bytes, ghost written: seq<Field>) returns (ok: bool)
    requires Allocated(ram) && f.bytes != [] && f.End() <= GuestRam.MMIO_WINDOW_BASE
    requires Clear(written, f) && Written(before, ram.store[..], written)
    modifies ram.store
    ensures ok <==> f.End() <= ram.ranges.low
    ensures if ok then Written(before, ram.store[..], written + [f]) else ram.store[..] == old(ram.store[..])
  {
    hide Written, Clear, Spliced;
    ghost var mid := ram.store[..];
    LowRange(ram.ranges, f.off, |f.bytes|);
    ok := CopyToGuest(ram, f.off, f.bytes, parallelism);
    if ok {
      WriteOne(before, mid, ram.store[..], written, f);
    }
  }

  lemma NothingWritten(mem: Bytes)
    ensures Written(mem, mem, [])
  {
  }

  lemma BootPiecesClear(cmdline: Bytes, acpi: Bytes, zp: Bytes)
    requires |cmdline| + 1 <= CMDLINE_MAX && |acpi| == FOOTPRINT && |zp| == ZERO_PAGE_SIZE
    ensures forall n :: 0 <= n < 4 ==> Clear(BootPieces(cmdline, acpi, zp)[..n], BootPieces(cmdline, acpi, zp)[n])
  {
    hide Gdt;
  }

  lemma ClearOfBoth(a: seq<Field>, b: seq<Field>, f: Field)
    requires Clear(a, f) && Clear(b, f)
    ensures Clear(a + b, f)
  {
  }

  /** Write the GDT, command line, ACPI tables and zero page. */
  method StageBootData(ram: GuestMemory, cmdline: Bytes, acpi: Bytes, zp: Bytes, ghost before: Bytes, ghost images: seq<Field>)
    requires ram.Valid() && LEGACY_LOAD_ADDR <= ram.ranges.low && Written(before, ram.store[..], images)
    requires |cmdline| + 1 <= CMDLINE_MAX && |acpi| == FOOTPRINT && |zp| == ZERO_PAGE_SIZE
    requires forall f :: f in BootPieces(cmdline, acpi, zp) ==> Clear(images, f)
    modifies ram.store
    ensures Written(before, ram.store[..], images + BootPieces(cmdline, acpi, zp))
  {
    hide Written, Clear, Gdt;
    var pieces := BootPieces(cmdline, acpi, zp);
    BootPiecesClear(cmdline, acpi, zp);
    assert images + pieces[..0] == images;
    for n := 0 to 4
      invariant Written(before, ram.store[..], images + pieces[..n])
    {
      assert pieces[n] in pieces;
      ClearOfBoth(images, pieces[..n], pieces[n]);
      WritePiece(ram, pieces[n], before, images + pieces[..n]);
      assert images + pieces[..n + 1] == images + pieces[..n] + [pieces[n]];
    }
    assert pieces[..4] == pieces;
  }

  lemma PieceReads(before: Bytes, now: Bytes, images: seq<Field>, cmdline: Bytes, acpi: Bytes, zp: Bytes)
    requires Written(before, now, images + BootPieces(cmdline, acpi, zp)) && |acpi| == FOOTPRINT && |zp| == ZERO_PAGE_SIZE
    ensures BOOT_PARAMS_GPA + ZERO_PAGE_SIZE <= |now|
    ensures now[ACPI_GPA..ACPI_GPA + FOOTPRINT] == acpi && now[BOOT_PARAMS_GPA..BOOT_PARAMS_GPA + ZERO_PAGE_SIZE] == zp
  {
    hide HoldsAll, OnlyFields;
    var all := images + BootPieces(cmdline, acpi, zp);
    FieldHeld(now, all, |images| + 2);
    FieldHeld(now, all, |images| + 3);
    assert all[|images| + 2] == Field(ACPI_GPA, acpi) && all[|images| + 3] == Field(BOOT_PARAMS_GPA, zp);
  }

  lemma PiecesAreLow(cmdline: Bytes, acpi: Bytes, zp: Bytes, f: Field)
    requires |cmdline| + 1 <= CMDLINE_MAX && |acpi| == FOOTPRINT && |zp| == ZERO_PAGE_SIZE && f in BootPieces(cmdline, acpi, zp)
    ensures f.End() <= LEGACY_LOAD_ADDR
  {
    hide Gdt;
  }

  lemma Lengths(acpi: Bytes, base: nat, vcpus: nat, aml: Bytes, zp: Bytes, image: Bytes, headerEnd: nat, start: nat, initramfs: Span, entries: seq<Entry>)
    requires AllOk(acpi, base, vcpus, aml) && ZeroPageOk(zp, image, headerEnd, start, initramfs, entries)
    ensures |acpi| == FOOTPRINT && |zp| == ZERO_PAGE_SIZE
  {
  }

  /** After the images, everything else. */
  method StageRest(ram: GuestMemory, image: Bytes, h: Header, p: Placement, cmdline: Bytes, ramBytes: nat,
                   initramfs: Option<Bytes>, vcpuCount: nat, vmbus: bool, ghost before: Bytes)
    requires Allocated(ram) && ParseHeader(image) == Result.Ok(h) && p.kernel.End() <= ram.ranges.low
    requires Place(h, |image| - h.setupSize, |cmdline|, ramBytes, SizeOf(initramfs)) == Result.Ok(p)
    requires Written(before, ram.store[..], Images(p, image[h.setupSize..], initramfs))
    modifies ram.store
    ensures Staged(before, ram.store[..], image, h, p, cmdline, ramBytes, initramfs, Clamp(vcpuCount, 1, MAX_VCPUS), vmbus)
  {
    hide Written, Clear, Gdt, AllOk, Linked, ZeroPageOk, DsdtAml, PageDown, BootPieces, Images, MemoryMap, ParseHeader;
    ghost var images := Images(p, image[h.setupSize..], initramfs);
    var tables := Build(ACPI_GPA, vcpuCount, vmbus);
    SortedAndClear(ramBytes);
    var page := ZeroPage(image, h.headerEnd, p.work.start, InitramfsSpan(p), MemoryMap(ramBytes));
    var acpi, zp := tables[..], page[..];
    Lengths(acpi, ACPI_GPA, Clamp(vcpuCount, 1, MAX_VCPUS), DsdtAml(vmbus), zp, image, h.headerEnd, p.work.start, InitramfsSpan(p), MemoryMap(ramBytes));
    forall f | f in BootPieces(cmdline, acpi, zp)
      ensures Clear(images, f)
    {
      PiecesAreLow(cmdline, acpi, zp, f);
      ImagesClear(h, image[h.setupSize..], |cmdline|, ramBytes, initramfs, f);
    }
    StageBootData(ram, cmdline, acpi, zp, before, images);
    PieceReads(before, ram.store[..], images, cmdline, acpi, zp);
  }

  /** The whole load: parse, place, copy, and stage what the kernel is started with. */
  method Load(ram: GuestMemory, image: Bytes, cmdline: Bytes, ramBytes: nat, initramfs: Option<Bytes>, vcpuCount: nat, vmbus: bool, parallelism: nat)
    returns (r: Result<BzImageLoad>)
    requires Allocated(ram)
    modifies ram.store
    ensures ParseHeader(image).Err? ==> r == Err(ParseHeader(image).error) && ram.store[..] == old(ram.store[..])
    ensures ParseHeader(image).Ok? ==>
      var h := ParseHeader(image).value;
      var outcome := Outcome(h, |image| - h.setupSize, |cmdline|, ramBytes, SizeOf(initramfs), ram.ranges.low);
      if outcome.Err? then
        r == Err(outcome.error) &&
        LeftBehind(old(ram.store[..]), ram.store[..], outcome.error, h, image[h.setupSize..], ram.ranges.low)
      else
        r == Result.Ok(BzImageLoad(outcome.value.work.start, BOOT_PARAMS_GPA, h.version, |image| - h.setupSize, InitramfsSpan(outcome.value))) &&
        Staged(old(ram.store[..]), ram.store[..], image, h, outcome.value, cmdline, ramBytes, initramfs, Clamp(vcpuCount, 1, MAX_VCPUS), vmbus)
  {
    hide Written, Clear, Gdt, AllOk, Linked, ZeroPageOk, DsdtAml, PageDown, BootPieces, Staged, Images, MemoryMap, LeftBehind;
    var parsed := ParseHeader(image);
    if parsed.Err? {
      return Err(parsed.error);
    }
    var h := parsed.value;
    var kernel := image[h.setupSize..];
    ghost var before := ram.store[..];
    var placed := CopyImages(ram, h, kernel, |cmdline|, ramBytes, initramfs, parallelism);
    if placed.Err? {
      return Err(placed.error);
    }
    var p := placed.value;
    StageRest(ram, image, h, p, cmdline, ramBytes, initramfs, vcpuCount, vmbus, before);
    DivMod(0, p.work.start, FOUR_GIB, p.work.start);
    r := Result.Ok(BzImageLoad(p.work.start % FOUR_GIB, BOOT_PARAMS_GPA, h.version, |kernel|, InitramfsSpan(p)));
  }

  // ---- What the kernel finds ----

  ghost predicate At(mem: Bytes, gpa: nat, bytes: Bytes) { gpa + |bytes| <= |mem| && mem[gpa..gpa + |bytes|] == bytes }

  /** Following the zero page's pointers: the kernel, the initramfs, the command line, the RSDP and the memory map; and the flat segments of the GDT. */
  ghost predicate Found(mem: Bytes, kernel: Bytes, initramfs: Option<Bytes>, cmdline: Bytes, ramBytes: nat) {
    0x5000 <= |mem| &&
    var zp := mem[0x4000..0x5000];
    At(mem, U32At(zp, 0x214), kernel) &&
    U32At(zp, 0x21C) == (if initramfs.Some? then |initramfs.value| else 0) &&
    (initramfs.Some? ==> At(mem, U32At(zp, 0x218), initramfs.value)) &&
    At(mem, U32At(zp, 0x228), cmdline + [0]) &&
    At(mem, U64At(zp, 0x70), Ascii("RSD PTR ")) &&
    U64At(mem, 0x1010) == 0x00CF_9A00_0000_FFFF && U64At(mem, 0x1018) == 0x00CF_9200_0000_FFFF &&
    zp[0x1E8] == |MemoryMap(ramBytes)| &&
    (forall i :: 0 <= i < |MemoryMap(ramBytes)| ==> ReadsEntry(zp, i, MemoryMap(ramBytes)[i]))
  }

  lemma RsdpFound(mem: Bytes, vcpus: nat, aml: Bytes)
    requires ACPI_GPA + FOOTPRINT <= |mem| && AllOk(mem[ACPI_GPA..ACPI_GPA + FOOTPRINT], ACPI_GPA, vcpus, aml)
    ensures At(mem, ACPI_GPA, Ascii("RSD PTR "))
  {
    hide Ascii, TableAt, Sealed, HoldsAll;
    var acpi := mem[ACPI_GPA..ACPI_GPA + FOOTPRINT];
    FieldHeld(acpi[RSDP..RSDP + RSDP_LEN], RsdpSignature(), 0);
    SubSlice(acpi, RSDP, RSDP_LEN, 0, 8);
    SubSlice(mem, ACPI_GPA, FOOTPRINT, 0, 8);
  }

  lemma PieceAt(before: Bytes, mem: Bytes, written: seq<Field>, i: nat)
    requires Written(before, mem, written) && i < |written|
    ensures At(mem, written[i].off, written[i].bytes)
  {
    hide HoldsAll, OnlyFields;
    FieldHeld(mem, written, i);
  }

  lemma GdtFound(mem: Bytes)
    requires At(mem, GDT_GPA, Gdt())
    ensures 0x1020 <= |mem| && U64At(mem, 0x1010) == 0x00CF_9A00_0000_FFFF && U64At(mem, 0x1018) == 0x00CF_9200_0000_FFFF
  {
    hide LittleEndian, FromLittleEndian;
    var gdt := Gdt();
    assert gdt[16..24] == Le64(GDT_CODE32) && gdt[24..32] == Le64(GDT_DATA32);
    SubSlice(mem, GDT_GPA, GDT_LEN, 16, 24);
    SubSlice(mem, GDT_GPA, GDT_LEN, 24, 32);
    Powers();
    LittleEndianRoundTrip(GDT_CODE32, 8);
    LittleEndianRoundTrip(GDT_DATA32, 8);
  }

  lemma KernelFinds(before: Bytes, mem: Bytes, image: Bytes, h: Header, p: Placement, cmdline: Bytes, ramBytes: nat,
                    initramfs: Option<Bytes>, vcpus: nat, vmbus: bool)
    requires ParseHeader(image) == Result.Ok(h) && ramBytes < Power256(8)
    requires Place(h, |image| - h.setupSize, |cmdline|, ramBytes, SizeOf(initramfs)) == Result.Ok(p)
    requires Staged(before, mem, image, h, p, cmdline, ramBytes, initramfs, vcpus, vmbus)
    ensures Found(mem, image[h.setupSize..], initramfs, cmdline, ramBytes)
  {
    hide Written, AllOk, Linked, ZeroPageOk, DsdtAml, PageDown, MemoryMap, ParseHeader, At, ReadsEntry, Gdt,
      FromLittleEndian, Ascii, Power256;
    var kernel := image[h.setupSize..];
    var acpi := mem[ACPI_GPA..ACPI_GPA + FOOTPRINT];
    var zp := mem[BOOT_PARAMS_GPA..BOOT_PARAMS_GPA + ZERO_PAGE_SIZE];
    var images := Images(p, kernel, initramfs);
    var all := images + BootPieces(cmdline, acpi, zp);
    PieceAt(before, mem, all, 0);
    if initramfs.Some? {
      PieceAt(before, mem, all, 1);
    }
    assert all[|images|] == Field(GDT_GPA, Gdt());
    PieceAt(before, mem, all, |images|);
    GdtFound(mem);
    assert all[|images| + 1] == Field(CMDLINE_GPA, cmdline + [0]);
    PieceAt(before, mem, all, |images| + 1);
    RsdpFound(mem, vcpus, DsdtAml(vmbus));
    PointersReadBack(zp, image, h.headerEnd, p.work.start, InitramfsSpan(p), MemoryMap(ramBytes));
    MapReadsBack(zp, image, h.headerEnd, p.work.start, InitramfsSpan(p), ramBytes);
  }
}
