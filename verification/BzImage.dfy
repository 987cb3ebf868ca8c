/**
 * Loading a bzImage: the setup header, where the kernel and the initramfs go,
 * and the zero page. (The Linux/x86 boot protocol, 2.10 and later.)
 */
module BzImage {
  import opened Acpi
  import opened Aml
  import opened Arith
  import opened Basics
  import opened E820
  import opened GuestRam

  const GDT_GPA := 0x1000
  const GDT_LEN := 32
  const CMDLINE_GPA := 0x2800
  const CMDLINE_MAX := 0x800
  const ACPI_GPA := 0x3000
  const BOOT_PARAMS_GPA := 0x4000
  const ZERO_PAGE_SIZE := 4096

  const SETUP_SECTS := 0x1F1
  const BOOT_FLAG := 0x1FE
  const JUMP_OFFSET := 0x201
  const HEADER_MAGIC := 0x202
  const VERSION := 0x206
  const TYPE_OF_LOADER := 0x210
  const LOADFLAGS := 0x211
  const CODE32_START := 0x214
  const RAMDISK_IMAGE := 0x218
  const RAMDISK_SIZE := 0x21C
  const CMD_LINE_PTR := 0x228
  const INITRD_ADDR_MAX := 0x22C
  const RELOCATABLE_KERNEL := 0x234
  const CMDLINE_SIZE := 0x238
  const PREF_ADDRESS := 0x258
  const INIT_SIZE := 0x260
  const HEADER_END_MAX := 0x290
  const ACPI_RSDP_ADDR := 0x070
  const EXT_RAMDISK_IMAGE := 0x0C0
  const EXT_RAMDISK_SIZE := 0x0C4
  const EXT_CMD_LINE_PTR := 0x0C8
  const E820_ENTRIES := 0x1E8
  const E820_TABLE := 0x2D0
  const E820_MAX_ENTRIES := 128
  const E820_ENTRY_SIZE := 20

  const LOADER_UNDEFINED: byte := 0xFF
  const MIN_VERSION := 0x020A
  const LEGACY_LOAD_ADDR := 0x10_0000
  const FOUR_GIB := 0x1_0000_0000

  // ---- The setup header ----

  datatype Error =
    | NotBzImage
    | NoKernel
    | TooOld
    | NotLoadedHigh
    | KernelDoesNotFit
    | CmdlineTooLong
    | InitramfsEmpty
    | NoRoomForInitramfs
    | OutOfRange

  datatype Result<+T> = Ok(value: T) | Err(error: Error)

  datatype Header = Header(
    setupSize: nat, headerEnd: nat, version: nat, relocatable: bool,
    initrdAddrMax: nat, cmdlineSize: nat, prefAddress: nat, initSize: nat)

  function U16At(s: Bytes, off: nat): nat
    requires off + 2 <= |s|
  {
    FromLittleEndian(s[off..off + 2])
  }

  predicate IsBzImage(image: Bytes) {
    |image| >= HEADER_MAGIC + 4 && image[BOOT_FLAG..BOOT_FLAG + 2] == [0x55, 0xAA] &&
    image[HEADER_MAGIC..HEADER_MAGIC + 4] == Ascii("HdrS")
  }

  function SetupSize(sectors: byte): (n: nat)
    ensures 1024 <= n <= 256 * 512
  {
    ((if sectors == 0 then 4 else sectors as int) + 1) * 512
  }

  /** Every field read lies inside the image, and the header the jump declares inside the setup code. */
  function ParseHeader(image: Bytes): (r: Result<Header>)
    ensures r.Ok? ==>
      1024 <= r.value.setupSize < |image| && HEADER_MAGIC <= r.value.headerEnd <= HEADER_END_MAX
    ensures r.Ok? <==>
      IsBzImage(image) && SetupSize(image[SETUP_SECTS]) < |image| && U16At(image, VERSION) >= MIN_VERSION &&
      image[LOADFLAGS] % 2 == 1
  {
    if !IsBzImage(image) then Err(NotBzImage)
    else if |image| <= SetupSize(image[SETUP_SECTS]) then Err(NoKernel)
    else if U16At(image, VERSION) < MIN_VERSION then Err(TooOld)
    else if image[LOADFLAGS] % 2 == 0 then Err(NotLoadedHigh)
    else Result.Ok(Header(
      SetupSize(image[SETUP_SECTS]), Min(HEADER_MAGIC + image[JUMP_OFFSET], HEADER_END_MAX), U16At(image, VERSION),
      image[RELOCATABLE_KERNEL] != 0, U32At(image, INITRD_ADDR_MAX), U32At(image, CMDLINE_SIZE),
      U64At(image, PREF_ADDRESS), U32At(image, INIT_SIZE)))
  }

  /** What a boot protocol header says. */
  datatype Values = Values(
    setupSects: byte, jump: byte, version: nat, loadFlags: byte, initrdAddrMax: nat,
    relocatable: byte, cmdlineSize: nat, prefAddress: nat, initSize: nat)
  {
    predicate Fit() {
      version < 0x1_0000 && initrdAddrMax < FOUR_GIB && cmdlineSize < FOUR_GIB &&
      prefAddress < 0x1_0000_0000_0000_0000 && initSize < FOUR_GIB
    }
  }

  /** The bytes `bytes` are at `off`. */
  ghost predicate HasAt(image: Bytes, off: nat, bytes: Bytes) {
    off + |bytes| <= |image| && image[off..off + |bytes|] == bytes
  }

  /** An image with these values where the boot protocol has them. */
  ghost predicate LaidOut(image: Bytes, v: Values) {
    HasAt(image, 0x1F1, [v.setupSects]) && HasAt(image, 0x1FE, [0x55, 0xAA]) && HasAt(image, 0x201, [v.jump]) &&
    HasAt(image, 0x202, [0x48, 0x64, 0x72, 0x53]) && HasAt(image, 0x206, Le16(v.version)) && HasAt(image, 0x211, [v.loadFlags]) &&
    HasAt(image, 0x22C, Le32(v.initrdAddrMax)) && HasAt(image, 0x234, [v.relocatable]) && HasAt(image, 0x238, Le32(v.cmdlineSize)) &&
    HasAt(image, 0x258, Le64(v.prefAddress)) && HasAt(image, 0x260, Le32(v.initSize))
  }

  lemma NumberAt(image: Bytes, off: nat, v: nat, n: nat)
    requires HasAt(image, off, LittleEndian(v, n)) && v < Power256(n)
    ensures FromLittleEndian(image[off..off + n]) == v
  {
    hide LittleEndian, FromLittleEndian, Power256;
    LittleEndianRoundTrip(v, n);
  }

  lemma ByteAt(image: Bytes, off: nat, b: byte)
    requires HasAt(image, off, [b])
    ensures image[off] == b
  {
    assert image[off..off + 1][0] == image[off];
  }

  lemma Magic()
    ensures Ascii("HdrS") == [0x48, 0x64, 0x72, 0x53]
  {
  }

  /** Such an image is accepted exactly when it is new enough, loaded high and has a kernel, and its header is those values. */
  lemma HeaderReadsBack(image: Bytes, v: Values)
    requires LaidOut(image, v) && v.Fit()
    ensures var setup := (if v.setupSects == 0 then 5 else v.setupSects + 1) * 512;
            var accepted := |image| > setup && v.version >= 0x20A && v.loadFlags % 2 == 1;
            (ParseHeader(image).Ok? <==> accepted) &&
            (accepted ==>
               ParseHeader(image) == Result.Ok(Header(
                 setup, Min(0x202 + v.jump, 0x290), v.version, v.relocatable != 0, v.initrdAddrMax, v.cmdlineSize, v.prefAddress, v.initSize)))
  {
    hide LittleEndian, FromLittleEndian, Ascii, Power256;
    Magic();
    Powers();
    NumberAt(image, 0x206, v.version, 2);
    NumberAt(image, 0x22C, v.initrdAddrMax, 4);
    NumberAt(image, 0x238, v.cmdlineSize, 4);
    NumberAt(image, 0x258, v.prefAddress, 8);
    NumberAt(image, 0x260, v.initSize, 4);
    ByteAt(image, 0x1F1, v.setupSects);
    ByteAt(image, 0x201, v.jump);
    ByteAt(image, 0x211, v.loadFlags);
    ByteAt(image, 0x234, v.relocatable);
  }

  // ---- Placement ----

  /** A range of guest addresses. */
  datatype Span = Span(start: nat, len: nat) {
    function End(): nat { start + len }

    predicate Apart(other: Span) { End() <= other.start || other.End() <= start }
  }

  /** Where the kernel works, where its file bytes are, and where the initramfs is. */
  datatype Placement = Placement(work: Span, kernel: Span, initramfs: Option<Span>)

  function PageDown(v: nat): (r: nat)
    ensures r % PAGE == 0 && r <= v < r + PAGE
  {
    v / PAGE * PAGE
  }

  function LoadAddress(h: Header): nat { if h.relocatable then h.prefAddress else LEGACY_LOAD_ADDR }

  /** What the decompressor works in. */
  function WorkArea(h: Header, kernelLen: nat): Span { Span(LoadAddress(h), Max(h.initSize, kernelLen)) }

  function InitramfsLimit(h: Header, ramBytes: nat): nat { Min(LowTop(ramBytes), h.initrdAddrMax + 1) }

  /** As high as the kernel allows, in whole pages, above the kernel's work area. */
  function PlaceInitramfs(limit: nat, kernelEnd: nat, size: nat): (r: Option<nat>)
    ensures r.Some? ==> r.value % PAGE == 0 && kernelEnd <= r.value && r.value + size <= limit
  {
    if size <= limit && PageDown(limit - size) >= kernelEnd then Some(PageDown(limit - size)) else None
  }

  /** The initramfs is refused only when no page-aligned place would do, and goes to the highest of them. */
  lemma HighestPlace(limit: nat, kernelEnd: nat, size: nat, other: nat)
    requires other % PAGE == 0 && kernelEnd <= other && other + size <= limit
    ensures PlaceInitramfs(limit, kernelEnd, size).Some? && other <= PlaceInitramfs(limit, kernelEnd, size).value
  {
  }

  /** Decide where everything goes; the checks in the order `load` makes them. */
  function Place(h: Header, kernelLen: nat, cmdlineLen: nat, ramBytes: nat, initramfs: Option<nat>): (r: Result<Placement>) {
    var work := WorkArea(h, kernelLen);
    if work.start < LEGACY_LOAD_ADDR || work.End() > LowTop(ramBytes) then Err(KernelDoesNotFit)
    else if cmdlineLen > h.cmdlineSize || cmdlineLen + 1 > CMDLINE_MAX then Err(CmdlineTooLong)
    else
      var kernel := Span(work.start, kernelLen);
      match initramfs
      case None => Result.Ok(Placement(work, kernel, None))
      case Some(size) =>
        if size == 0 then Err(InitramfsEmpty)
        else
          match PlaceInitramfs(InitramfsLimit(h, ramBytes), work.End(), size)
          case None => Err(NoRoomForInitramfs)
          case Some(gpa) => Result.Ok(Placement(work, kernel, Some(Span(gpa, size))))
  }

  /** Where the parts go, in plain numbers, and when each is refused. */
  lemma PlaceSays(h: Header, kernelLen: nat, cmdlineLen: nat, ramBytes: nat, initramfs: Option<nat>)
    ensures var start := if h.relocatable then h.prefAddress else 0x10_0000;
            var end := start + (if h.initSize >= kernelLen then h.initSize else kernelLen);
            var top := if ramBytes <= 0xE000_0000 then ramBytes else 0xE000_0000;
            var limit := if top <= h.initrdAddrMax + 1 then top else h.initrdAddrMax + 1;
            var place := Place(h, kernelLen, cmdlineLen, ramBytes, initramfs);
            if start < 0x10_0000 || end > top then place == Err(KernelDoesNotFit)
            else if cmdlineLen > h.cmdlineSize || cmdlineLen >= 0x800 then place == Err(CmdlineTooLong)
            else if initramfs.None? then place == Result.Ok(Placement(Span(start, end - start), Span(start, kernelLen), None))
            else if initramfs.value == 0 then place == Err(InitramfsEmpty)
            else if limit < initramfs.value || (limit - initramfs.value) / 4096 * 4096 < end then place == Err(NoRoomForInitramfs)
            else place == Result.Ok(Placement(
              Span(start, end - start), Span(start, kernelLen), Some(Span((limit - initramfs.value) / 4096 * 4096, initramfs.value))))
  {
  }

  function BootData(cmdlineLen: nat): seq<Span> {
    [Span(GDT_GPA, GDT_LEN), Span(CMDLINE_GPA, cmdlineLen + 1), Span(ACPI_GPA, FOOTPRINT), Span(BOOT_PARAMS_GPA, ZERO_PAGE_SIZE)]
  }

  /** Everything that is to stay intact until the kernel takes over. */
  function Spans(p: Placement, cmdlineLen: nat): seq<Span> {
    BootData(cmdlineLen) + [p.work] + (if p.initramfs.Some? then [p.initramfs.value] else [])
  }

  ghost predicate InEntry(ramBytes: nat, s: Span, kind: nat) {
    exists e :: e in MemoryMap(ramBytes) && e.kind == kind && e.addr <= s.start && s.End() <= e.End()
  }

  /** Nothing overlaps, kernel and initramfs are in usable RAM, boot data is in reserved memory. */
  lemma PlacedApart(h: Header, kernelLen: nat, cmdlineLen: nat, ramBytes: nat, initramfs: Option<nat>)
    requires kernelLen > 0 && Place(h, kernelLen, cmdlineLen, ramBytes, initramfs).Ok?
    ensures
      var p := Place(h, kernelLen, cmdlineLen, ramBytes, initramfs).value;
      var spans := Spans(p, cmdlineLen);
      (forall i, j :: 0 <= i < j < |spans| ==> spans[i].Apart(spans[j])) &&
      (forall i :: 0 <= i < 4 ==> InEntry(ramBytes, spans[i], E820_RESERVED)) &&
      (forall i :: 4 <= i < |spans| ==> InEntry(ramBytes, spans[i], E820_RAM)) &&
      p.work.End() <= FOUR_GIB && (p.initramfs.Some? ==> p.initramfs.value.End() <= FOUR_GIB)
  {
    hide PageDown;
    var p := Place(h, kernelLen, cmdlineLen, ramBytes, initramfs).value;
    var spans := Spans(p, cmdlineLen);
    var m := MemoryMap(ramBytes);
    assert m[3] == Entry(ISA_HOLE_END, LowTop(ramBytes) - ISA_HOLE_END, E820_RAM);
    forall i | 0 <= i < 4
      ensures InEntry(ramBytes, spans[i], E820_RESERVED)
    {
      assert m[0] in m && m[0].addr <= spans[i].start && spans[i].End() <= m[0].End();
    }
    forall i | 4 <= i < |spans|
      ensures InEntry(ramBytes, spans[i], E820_RAM)
    {
      assert m[3] in m && m[3].addr <= spans[i].start && spans[i].End() <= m[3].End();
    }
  }
}
