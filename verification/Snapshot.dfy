/** A machine's configuration, and the snapshot header that describes it. */
module Snapshot {
  import opened Arith
  import opened Basics
  import opened Decimal
  import opened HeaderKeys

  const U64_MAX := 0xFFFF_FFFF_FFFF_FFFF
  const U32_SIZE := 0x1_0000_0000

  datatype Result<+T> = Ok(value: T) | Err

  // ---- Configuration ----

  datatype Backend = Loopback | Nat | Smoltcp | Slirp | Gvisor | Wintun

  datatype Nic = Nic(
    backend: Backend, forwards: seq<PortForward>, natWorkers: Option<nat>, natHostLocal: bool,
    wintunName: Option<string>, wintunHost: Option<Ipv4>)

  datatype Drive = Drive(path: string, readonly: bool, iso: bool)

  datatype Share = Share(tag: string, root: string, readonly: bool, uid: nat, gid: nat, metadata: bool, nocase: bool)

  /** The machine itself: its vCPUs and RAM, and what its guest was told it runs on. */
  datatype Machine = Machine(vcpus: nat, ramSize: nat, largePages: bool, hvFeatures: nat, vmbus: bool)

  const MAX_VCPUS := 32
  const MAX_RESTORE_RAM := 0x400_0000_0000

  datatype Config = Config(
    machine: Machine, nics: seq<Nic>, rng: bool, sound: bool, drives: seq<Drive>, input: bool, shares: seq<Share>,
    gpu: bool, gpuWidth: nat, gpuHeight: nat)

  /** What the fields' widths allow, and that installation media is read-only, as the command line makes it. */
  ghost predicate Valid(cfg: Config) {
    1 <= cfg.machine.vcpus <= MAX_VCPUS && 0 < cfg.machine.ramSize <= MAX_RESTORE_RAM && cfg.machine.hvFeatures <= U64_MAX &&
    |cfg.nics| <= U64_MAX && |cfg.drives| <= U64_MAX && |cfg.shares| <= U64_MAX &&
    cfg.gpuWidth < U32_SIZE && cfg.gpuHeight < U32_SIZE &&
    (forall i :: 0 <= i < |cfg.nics| ==>
      |cfg.nics[i].forwards| <= U64_MAX && (cfg.nics[i].natWorkers.Some? ==> cfg.nics[i].natWorkers.value <= U64_MAX)) &&
    (forall i :: 0 <= i < |cfg.drives| && cfg.drives[i].iso ==> cfg.drives[i].readonly) &&
    (forall i :: 0 <= i < |cfg.shares| ==> cfg.shares[i].uid < U32_SIZE && cfg.shares[i].gid < U32_SIZE)
  }

  const GATEWAY_IP: Ipv4 := [172, 29, 255, 1]
  const ADAPTER := "tinyvmm"

  function OrElse<T>(o: Option<T>, d: T): T { if o.Some? then o.value else d }

  /** What a NIC's backend is started with. */
  datatype Settings =
    | LoopbackSettings
    | NatSettings(smoltcp: bool, forwards: seq<PortForward>, hostLocal: bool, workers: Option<nat>)
    | ForwardSettings(gvisor: bool, forwards: seq<PortForward>)
    | WintunSettings(name: string, host: Ipv4)

  function SettingsOf(nic: Nic): Settings {
    match nic.backend
    case Loopback => LoopbackSettings
    case Nat => NatSettings(false, nic.forwards, nic.natHostLocal, nic.natWorkers)
    case Smoltcp => NatSettings(true, nic.forwards, nic.natHostLocal, nic.natWorkers)
    case Slirp => ForwardSettings(false, nic.forwards)
    case Gvisor => ForwardSettings(true, nic.forwards)
    case Wintun => WintunSettings(OrElse(nic.wintunName, ADAPTER), OrElse(nic.wintunHost, GATEWAY_IP))
  }

  // ---- Text and numbers ----

  function BackendText(b: Backend): string {
    match b
    case Loopback => "loopback"
    case Nat => "nat"
    case Smoltcp => "smoltcp"
    case Slirp => "slirp"
    case Gvisor => "gvisor"
    case Wintun => "wintun"
  }

  function ParseBackend(s: string): Option<Backend> {
    if s == "loopback" then Some(Loopback)
    else if s == "nat" then Some(Nat)
    else if s == "smoltcp" then Some(Smoltcp)
    else if s == "slirp" then Some(Slirp)
    else if s == "gvisor" then Some(Gvisor)
    else if s == "wintun" then Some(Wintun)
    else None
  }

  lemma BackendRoundTrip(b: Backend)
    ensures ParseBackend(BackendText(b)) == Some(b)
  {
    assert "gvisor"[0] == 'g' && "wintun"[0] == 'w';
  }

  type Mac = m: seq<byte> | |m| == 6 witness [0, 0, 0, 0, 0, 0]

  function NicMac(index: nat): Mac { [0x52, 0x54, 0x00, 0x12, 0x34, (0x56 + index) % 256] }

  /** The bytes as one number, the first the most significant. */
  function MacNumber(m: seq<byte>): nat {
    if m == [] then 0 else MacNumber(m[..|m| - 1]) * 256 + m[|m| - 1]
  }

  function MacBytes(n: nat): Mac {
    [n / 0x100_0000_0000 % 256, n / 0x1_0000_0000 % 256, n / 0x100_0000 % 256, n / 0x1_0000 % 256, n / 0x100 % 256, n % 256]
  }

  lemma NumberOfLast(m: seq<byte>, n: nat)
    requires n < |m|
    ensures MacNumber(m[..n + 1]) == MacNumber(m[..n]) * 256 + m[n]
  {
    assert m[..n + 1][..n] == m[..n];
  }

  /** Byte `k` of a number of which `high` is what stands above it and `low` below. */
  lemma ByteOf(n: nat, high: nat, b: byte, low: nat, unit: nat)
    requires unit > 0 && low < unit && n == (high * 256 + b) * unit + low
    ensures n / unit % 256 == b
  {
    DivMod(high * 256 + b, low, unit, n);
    DivMod(high, b, 256, high * 256 + b);
  }

  lemma BytesOf(n: nat, a: nat, b: nat, c: nat, d: nat, e: nat, f: nat)
    requires a < 256 && b < 256 && c < 256 && d < 256 && e < 256 && f < 256
    requires n == (((((a * 256 + b) * 256 + c) * 256 + d) * 256 + e) * 256 + f)
    ensures MacBytes(n) == [a, b, c, d, e, f] && n <= U64_MAX
  {
    var hb := a * 256 + b;
    var hc := hb * 256 + c;
    var hd := hc * 256 + d;
    var lowE: nat := e * 0x100 + f;
    var lowD: nat := d * 0x1_0000 + lowE;
    var lowC: nat := c * 0x100_0000 + lowD;
    var lowB: nat := b * 0x1_0000_0000 + lowC;
    ByteOf(n, hd * 256 + e, f, 0, 1);
    ByteOf(n, hd, e, f, 0x100);
    ByteOf(n, hc, d, lowE, 0x1_0000);
    ByteOf(n, hb, c, lowD, 0x100_0000);
    ByteOf(n, a, b, lowC, 0x1_0000_0000);
    ByteOf(n, 0, a, lowB, 0x100_0000_0000);
  }

  lemma MacRoundTrip(m: Mac)
    ensures MacBytes(MacNumber(m)) == m && MacNumber(m) <= U64_MAX
  {
    hide MacNumber, MacBytes;
    NoBytes();
    NumberOfLast(m, 0);
    NumberOfLast(m, 1);
    NumberOfLast(m, 2);
    NumberOfLast(m, 3);
    NumberOfLast(m, 4);
    NumberOfLast(m, 5);
    assert m[..6] == m && m[..0] == [];
    BytesOf(MacNumber(m), m[0], m[1], m[2], m[3], m[4], m[5]);
    assert m == [m[0], m[1], m[2], m[3], m[4], m[5]];
  }

  lemma NoBytes()
    ensures MacNumber([]) == 0
  {
  }

  /** The first byte is the most significant. */
  lemma FirstMac()
    ensures MacNumber(NicMac(0)) == 0x5254_0012_3456
  {
    hide MacNumber;
    var m := NicMac(0);
    NoBytes();
    NumberOfLast(m, 0);
    NumberOfLast(m, 1);
    NumberOfLast(m, 2);
    NumberOfLast(m, 3);
    NumberOfLast(m, 4);
    NumberOfLast(m, 5);
    assert m[..6] == m && m[..0] == [];
  }

  function BoolText(b: bool): string { if b then "true" else "false" }

  function GetBool(h: Header, k: Key): Option<bool> {
    var s := Get(h, k);
    if s == Some("true") then Some(true) else if s == Some("false") then Some(false) else None
  }

  function GetNumber(h: Header, k: Key): (r: Option<nat>)
    ensures r.Some? ==> r.value <= U64_MAX
  {
    var s := Get(h, k);
    if s.Some? then Parse(s.value, U64_MAX) else None
  }

  lemma BoolReads(h: Header, k: Key, b: bool)
    requires Get(h, k) == Some(BoolText(b))
    ensures GetBool(h, k) == Some(b)
  {
    assert "true"[0] != "false"[0];
  }

  lemma NumberReads(h: Header, k: Key, n: nat)
    requires Get(h, k) == Some(Dec(n)) && n <= U64_MAX
    ensures GetNumber(h, k) == Some(n)
  {
    ParseDec(n, U64_MAX);
  }

  // ---- What the header holds ----

  function NicEntry(nic: Nic, index: nat, f: NicField): Option<string> {
    match f
    case Mac => Some(Dec(MacNumber(NicMac(index))))
    case BackendName => Some(BackendText(nic.backend))
    case ForwardCount => Some(Dec(|nic.forwards|))
    case NatWorkers => if nic.natWorkers.Some? then Some(Dec(nic.natWorkers.value)) else None
    case NatHostLocal => if nic.natHostLocal then Some(BoolText(true)) else None
    case WintunName => if nic.backend.Wintun? then Some(OrElse(nic.wintunName, ADAPTER)) else None
    case WintunHost => if nic.backend.Wintun? then Some(Ipv4Text(OrElse(nic.wintunHost, GATEWAY_IP))) else None
  }

  function ForwardEntry(nic: Nic, j: nat): Option<string> {
    if j < |nic.forwards| then Some(EncodePortFwd(nic.forwards[j])) else None
  }

  function DriveEntry(d: Drive, size: nat, f: DriveField): Option<string> {
    match f
    case Path => Some(d.path)
    case Size => Some(Dec(size))
    case Readonly => Some(BoolText(d.readonly))
    case Iso => Some(BoolText(d.iso))
  }

  function ShareEntry(s: Share, f: ShareField): Option<string> {
    match f
    case Tag => Some(s.tag)
    case Root => Some(s.root)
    case ShareReadonly => Some(BoolText(s.readonly))
    case Uid => Some(Dec(s.uid))
    case Gid => Some(Dec(s.gid))
    case Metadata => Some(BoolText(s.metadata))
    case Nocase => Some(BoolText(s.nocase))
  }

  function ScalarEntry(cfg: Config, f: ScalarField): Option<string> {
    match f
    case Phase => Some("rust-1")
    case VcpuCount => Some(Dec(cfg.machine.vcpus))
    case RamSize => Some(Dec(cfg.machine.ramSize))
    case LargePages => Some(BoolText(cfg.machine.largePages))
    case HvFeatures => Some(Dec(cfg.machine.hvFeatures))
    case HideTscDeadline => Some(BoolText(true))
    case Vmbus => Some(BoolText(cfg.machine.vmbus))
    case WithRng => Some(BoolText(cfg.rng))
    case WithGpu => Some(BoolText(cfg.gpu))
    case WithSound => Some(BoolText(cfg.sound))
    case GpuWidth => Some(Dec(cfg.gpuWidth))
    case GpuHeight => Some(Dec(cfg.gpuHeight))
    case WithInput => Some(BoolText(cfg.input))
    case NicCount => Some(Dec(|cfg.nics|))
    case DriveCount => Some(Dec(|cfg.drives|))
    case P9Count => Some(Dec(|cfg.shares|))
    case WithNet => None
  }

  /** The entry under each key, for the first `n` NICs, `d` drives and `s` shares. */
  function Entry(cfg: Config, sizes: seq<nat>, n: nat, d: nat, s: nat, k: Key): Option<string>
    requires n <= |cfg.nics| && d <= |cfg.drives| == |sizes| && s <= |cfg.shares|
  {
    match k
    case Scalar(f) => ScalarEntry(cfg, f)
    case NicKey(o, f) => if o.Numbered? && o.i < n then NicEntry(cfg.nics[o.i], o.i, f) else None
    case ForwardKey(o, j) => if o.Numbered? && o.i < n then ForwardEntry(cfg.nics[o.i], j) else None
    case DriveKey(i, f) => if i < d then DriveEntry(cfg.drives[i], sizes[i], f) else None
    case ShareKey(i, f) => if i < s then ShareEntry(cfg.shares[i], f) else None
  }

  ghost predicate HoldsUpTo(h: Header, cfg: Config, sizes: seq<nat>, n: nat, d: nat, s: nat) {
    n <= |cfg.nics| && d <= |cfg.drives| == |sizes| && s <= |cfg.shares| &&
    forall k :: Get(h, k) == Entry(cfg, sizes, n, d, s, k)
  }

  /** The header describes the configuration: each key its own entry, and no others. */
  ghost predicate Describes(h: Header, cfg: Config, sizes: seq<nat>) {
    HoldsUpTo(h, cfg, sizes, |cfg.nics|, |cfg.drives|, |cfg.shares|)
  }

  // ---- Writing it ----

  predicate IsCount(f: ScalarField) { f.NicCount? || f.DriveCount? || f.P9Count? }

  predicate IsMachine(f: ScalarField) {
    f.Phase? || f.VcpuCount? || f.RamSize? || f.LargePages? || f.HvFeatures? || f.HideTscDeadline? || f.Vmbus?
  }

  predicate IsOptional(f: ScalarField) { f.WithRng? || f.WithGpu? || f.WithSound? }

  predicate IsInterface(f: ScalarField) { f.GpuWidth? || f.GpuHeight? || f.WithInput? }

  lemma EmptyHeader()
    ensures forall k :: Get(map[], k).None?
  {
  }

  method PutMachine(cfg: Config) returns (h: Header)
    ensures forall k :: Get(h, k) == if k.Scalar? && IsMachine(k.scalar) then ScalarEntry(cfg, k.scalar) else None
  {
    hide Text, Get, Dec, BoolText;
    EmptyHeader();
    h := map[];
    h := Put(h, Scalar(Phase), "rust-1");
    h := Put(h, Scalar(VcpuCount), Dec(cfg.machine.vcpus));
    h := Put(h, Scalar(RamSize), Dec(cfg.machine.ramSize));
    h := Put(h, Scalar(LargePages), BoolText(cfg.machine.largePages));
    h := Put(h, Scalar(HvFeatures), Dec(cfg.machine.hvFeatures));
    h := Put(h, Scalar(HideTscDeadline), BoolText(true));
    h := Put(h, Scalar(Vmbus), BoolText(cfg.machine.vmbus));
  }

  method PutOptional(before: Header, cfg: Config) returns (h: Header)
    ensures forall k :: Get(h, k) == if k.Scalar? && IsOptional(k.scalar) then ScalarEntry(cfg, k.scalar) else Get(before, k)
  {
    hide Text, Get, Dec, BoolText;
    h := Put(before, Scalar(WithRng), BoolText(cfg.rng));
    h := Put(h, Scalar(WithGpu), BoolText(cfg.gpu));
    h := Put(h, Scalar(WithSound), BoolText(cfg.sound));
  }

  method PutInterface(before: Header, cfg: Config) returns (h: Header)
    ensures forall k :: Get(h, k) == if k.Scalar? && IsInterface(k.scalar) then ScalarEntry(cfg, k.scalar) else Get(before, k)
  {
    hide Text, Get, Dec, BoolText;
    h := Put(before, Scalar(GpuWidth), Dec(cfg.gpuWidth));
    h := Put(h, Scalar(GpuHeight), Dec(cfg.gpuHeight));
    h := Put(h, Scalar(WithInput), BoolText(cfg.input));
  }

  method PutCounts(before: Header, cfg: Config) returns (h: Header)
    ensures forall k :: Get(h, k) == if k.Scalar? && IsCount(k.scalar) then ScalarEntry(cfg, k.scalar) else Get(before, k)
  {
    hide Text, Get, Dec, BoolText;
    h := Put(before, Scalar(NicCount), Dec(|cfg.nics|));
    h := Put(h, Scalar(DriveCount), Dec(|cfg.drives|));
    h := Put(h, Scalar(P9Count), Dec(|cfg.shares|));
  }

  lemma AllScalars(cfg: Config)
    ensures forall f :: !IsMachine(f) && !IsOptional(f) && !IsInterface(f) && !IsCount(f) ==> ScalarEntry(cfg, f).None?
  {
  }

  predicate Owns(i: nat, k: Key) { (k.NicKey? || k.ForwardKey?) && k.owner == Numbered(i) }

  function OwnEntry(nic: Nic, i: nat, k: Key): Option<string>
    requires Owns(i, k)
  {
    if k.NicKey? then NicEntry(nic, i, k.nic) else ForwardEntry(nic, k.j)
  }

  method PutNic(before: Header, i: nat, nic: Nic) returns (h: Header)
    requires forall k :: Owns(i, k) ==> Get(before, k).None?
    ensures forall k :: Get(h, k) == if Owns(i, k) then OwnEntry(nic, i, k) else Get(before, k)
  {
    hide Text, Get, Dec, BoolText, BackendText, MacNumber, NicMac, Ipv4Text, EncodePortFwd;
    var o := Numbered(i);
    h := Put(before, NicKey(o, Mac), Dec(MacNumber(NicMac(i))));
    h := Put(h, NicKey(o, BackendName), BackendText(nic.backend));
    h := Put(h, NicKey(o, ForwardCount), Dec(|nic.forwards|));
    ghost var start := h;
    for j := 0 to |nic.forwards|
      invariant forall k :: Get(h, k) == if k.ForwardKey? && k.owner == o && k.j < j then ForwardEntry(nic, k.j) else Get(start, k)
    {
      h := Put(h, ForwardKey(o, j), EncodePortFwd(nic.forwards[j]));
    }
    h := PutOptions(h, o, nic);
  }

  predicate IsOption(f: NicField) { f.NatWorkers? || f.NatHostLocal? || f.WintunName? || f.WintunHost? }

  /** The entries a NIC has only when they are set. */
  method PutOptions(before: Header, o: Owner, nic: Nic) returns (h: Header)
    requires Get(before, NicKey(o, NatWorkers)).None? && Get(before, NicKey(o, NatHostLocal)).None?
    requires Get(before, NicKey(o, WintunName)).None? && Get(before, NicKey(o, WintunHost)).None?
    ensures forall k :: Get(h, k) == if k.NicKey? && k.owner == o && IsOption(k.nic) then NicEntry(nic, 0, k.nic) else Get(before, k)
  {
    hide Text, Get, Dec, Ipv4Text, MacNumber, BackendText;
    h := before;
    if nic.natWorkers.Some? {
      h := Put(h, NicKey(o, NatWorkers), Dec(nic.natWorkers.value));
    }
    if nic.natHostLocal {
      h := Put(h, NicKey(o, NatHostLocal), BoolText(true));
    }
    if nic.backend.Wintun? {
      h := Put(h, NicKey(o, WintunName), OrElse(nic.wintunName, ADAPTER));
      h := Put(h, NicKey(o, WintunHost), Ipv4Text(OrElse(nic.wintunHost, GATEWAY_IP)));
    }
  }

  method PutDrive(before: Header, i: nat, d: Drive, size: nat) returns (h: Header)
    ensures forall k :: Get(h, k) == if k.DriveKey? && k.i == i then DriveEntry(d, size, k.drive) else Get(before, k)
  {
    hide Text, Get, Dec, BoolText;
    h := Put(before, DriveKey(i, Path), d.path);
    h := Put(h, DriveKey(i, Size), Dec(size));
    h := Put(h, DriveKey(i, Readonly), BoolText(d.readonly));
    h := Put(h, DriveKey(i, Iso), BoolText(d.iso));
  }

  method PutShare(before: Header, i: nat, s: Share) returns (h: Header)
    ensures forall k :: Get(h, k) == if k.ShareKey? && k.i == i then ShareEntry(s, k.share) else Get(before, k)
  {
    hide Text, Get, Dec, BoolText;
    h := Put(before, ShareKey(i, Tag), s.tag);
    h := Put(h, ShareKey(i, Root), s.root);
    h := Put(h, ShareKey(i, ShareReadonly), BoolText(s.readonly));
    h := Put(h, ShareKey(i, Uid), Dec(s.uid));
    h := Put(h, ShareKey(i, Gid), Dec(s.gid));
    h := Put(h, ShareKey(i, Metadata), BoolText(s.metadata));
    h := Put(h, ShareKey(i, Nocase), BoolText(s.nocase));
  }

  /** Write the header; `sizes` are those of the drives' files. */
  method WriteHeader(cfg: Config, sizes: seq<nat>) returns (h: Header)
    requires |sizes| == |cfg.drives|
    ensures Describes(h, cfg, sizes)
  {
    hide Text, Get, ScalarEntry, NicEntry, ForwardEntry, DriveEntry, ShareEntry;
    h := PutMachine(cfg);
    h := PutOptional(h, cfg);
    h := PutInterface(h, cfg);
    h := PutCounts(h, cfg);
    AllScalars(cfg);
    for i := 0 to |cfg.nics|
      invariant HoldsUpTo(h, cfg, sizes, i, 0, 0)
    {
      h := PutNic(h, i, cfg.nics[i]);
    }
    for i := 0 to |cfg.drives|
      invariant HoldsUpTo(h, cfg, sizes, |cfg.nics|, i, 0)
    {
      h := PutDrive(h, i, cfg.drives[i], sizes[i]);
    }
    for i := 0 to |cfg.shares|
      invariant HoldsUpTo(h, cfg, sizes, |cfg.nics|, |cfg.drives|, i)
    {
      h := PutShare(h, i, cfg.shares[i]);
    }
  }
}
