/** The devices of a run, and the same devices in the same order rebuilt from a snapshot. */
module Restore {
  import opened Arith
  import opened Basics
  import opened Decimal
  import opened HeaderKeys
  import opened Snapshot

  datatype Device =
    | Console
    | Net(nic: Nic, mac: Mac)
    | Rng
    | Sound
    | Block(drive: Drive)
    | Keyboard
    | Tablet
    | P9(share: Share)
    | Gpu(width: nat, height: nat)

  /** Of the same kind, and set up the same way. */
  predicate Same(a: Device, b: Device) {
    if a.Net? && b.Net? then a.mac == b.mac && a.nic.backend == b.nic.backend && SettingsOf(a.nic) == SettingsOf(b.nic)
    else a == b
  }

  function Only<T>(b: bool, s: seq<T>): seq<T> { if b then s else [] }

  /** The order of the devices on the bus. */
  function Assemble(nets: seq<Device>, rng: bool, sound: bool, blocks: seq<Device>, input: bool, shares: seq<Device>, gpu: seq<Device>): seq<Device> {
    [Console] + nets + Only(rng, [Rng]) + Only(sound, [Sound]) + blocks + Only(input, [Keyboard, Tablet]) + shares + gpu
  }

  function Nets(nics: seq<Nic>): (r: seq<Device>)
    ensures |r| == |nics|
  {
    seq(|nics|, i requires 0 <= i < |nics| => Net(nics[i], NicMac(i)))
  }

  function Blocks(drives: seq<Drive>): seq<Device> { seq(|drives|, i requires 0 <= i < |drives| => Block(drives[i])) }

  function Shares(shares: seq<Share>): seq<Device> { seq(|shares|, i requires 0 <= i < |shares| => P9(shares[i])) }

  /** The devices a run has, for its configuration. */
  function Devices(cfg: Config): seq<Device> {
    Assemble(Nets(cfg.nics), cfg.rng, cfg.sound, Blocks(cfg.drives), cfg.input, Shares(cfg.shares),
      Only(cfg.gpu, [Gpu(cfg.gpuWidth, cfg.gpuHeight)]))
  }

  method PushNets(before: seq<Device>, nics: seq<Nic>) returns (devices: seq<Device>)
    ensures devices == before + Nets(nics)
  {
    hide NicMac;
    devices := before;
    for i := 0 to |nics|
      invariant devices == before + Nets(nics)[..i]
    {
      devices := devices + [Net(nics[i], NicMac(i))];
      assert Nets(nics)[..i + 1] == Nets(nics)[..i] + [Nets(nics)[i]];
    }
  }

  method PushBlocks(before: seq<Device>, drives: seq<Drive>) returns (devices: seq<Device>)
    ensures devices == before + Blocks(drives)
  {
    devices := before;
    for i := 0 to |drives|
      invariant devices == before + Blocks(drives)[..i]
    {
      devices := devices + [Block(drives[i])];
      assert Blocks(drives)[..i + 1] == Blocks(drives)[..i] + [Blocks(drives)[i]];
    }
  }

  method PushShares(before: seq<Device>, shares: seq<Share>) returns (devices: seq<Device>)
    ensures devices == before + Shares(shares)
  {
    devices := before;
    for i := 0 to |shares|
      invariant devices == before + Shares(shares)[..i]
    {
      devices := devices + [P9(shares[i])];
      assert Shares(shares)[..i + 1] == Shares(shares)[..i] + [Shares(shares)[i]];
    }
  }

  method PushOnly(before: seq<Device>, b: bool, s: seq<Device>) returns (devices: seq<Device>)
    ensures devices == before + Only(b, s)
  {
    devices := before;
    if b {
      devices := devices + s;
    }
  }

  /** The devices of a fresh run, one after another. */
  method BuildDevices(cfg: Config) returns (devices: seq<Device>)
    ensures devices == Devices(cfg)
  {
    hide Nets, Blocks, Shares, Only;
    devices := [Console];
    devices := PushNets(devices, cfg.nics);
    devices := PushOnly(devices, cfg.rng, [Rng]);
    devices := PushOnly(devices, cfg.sound, [Sound]);
    devices := PushBlocks(devices, cfg.drives);
    devices := PushOnly(devices, cfg.input, [Keyboard, Tablet]);
    devices := PushShares(devices, cfg.shares);
    devices := PushOnly(devices, cfg.gpu, [Gpu(cfg.gpuWidth, cfg.gpuHeight)]);
  }

  function One(b: bool): nat { if b then 1 else 0 }

  lemma BusStart(cfg: Config)
    ensures var d, n := Devices(cfg), 1 + |cfg.nics|;
            |d| >= n + One(cfg.rng) + One(cfg.sound) && d[0] == Console &&
            (forall i :: 0 <= i < |cfg.nics| ==> d[1 + i] == Net(cfg.nics[i], NicMac(i))) &&
            (cfg.rng ==> d[n] == Rng) && (cfg.sound ==> d[n + One(cfg.rng)] == Sound)
  {
    hide NicMac, Blocks, Shares;
    var front := [Console] + Nets(cfg.nics) + Only(cfg.rng, [Rng]) + Only(cfg.sound, [Sound]);
    assert Devices(cfg)[..|front|] == front;
  }

  /** The devices after the sound card. */
  function Tail(cfg: Config): seq<Device> {
    Blocks(cfg.drives) + Only(cfg.input, [Keyboard, Tablet]) + Shares(cfg.shares) + Only(cfg.gpu, [Gpu(cfg.gpuWidth, cfg.gpuHeight)])
  }

  lemma Regroup(a: seq<Device>, b: seq<Device>, c: seq<Device>, d: seq<Device>, e: seq<Device>)
    ensures a + b + c + d + e == a + (b + c + d + e)
  {
  }

  lemma TailIs(cfg: Config)
    ensures var d, b := Devices(cfg), 1 + |cfg.nics| + One(cfg.rng) + One(cfg.sound);
            |d| == b + |Tail(cfg)| && d[b..] == Tail(cfg)
  {
    var rng, sound, input, gpu :=
      Only(cfg.rng, [Rng]), Only(cfg.sound, [Sound]), Only(cfg.input, [Keyboard, Tablet]), Only(cfg.gpu, [Gpu(cfg.gpuWidth, cfg.gpuHeight)]);
    assert |rng| == One(cfg.rng) && |sound| == One(cfg.sound);
    hide Nets, Blocks, Shares, Only;
    var front := [Console] + Nets(cfg.nics) + rng + sound;
    Regroup(front, Blocks(cfg.drives), input, Shares(cfg.shares), gpu);
    assert Devices(cfg) == front + Tail(cfg);
  }

  lemma TailOrder(cfg: Config)
    ensures var d, e := Tail(cfg), |cfg.drives| + 2 * One(cfg.input);
            |d| == e + |cfg.shares| + One(cfg.gpu) &&
            (forall i :: 0 <= i < |cfg.drives| ==> d[i] == Block(cfg.drives[i])) &&
            (cfg.input ==> d[|cfg.drives|] == Keyboard && d[|cfg.drives| + 1] == Tablet) &&
            (forall i :: 0 <= i < |cfg.shares| ==> d[e + i] == P9(cfg.shares[i])) &&
            (cfg.gpu ==> d[e + |cfg.shares|] == Gpu(cfg.gpuWidth, cfg.gpuHeight))
  {
  }

  lemma BusEnd(cfg: Config)
    ensures var d, b := Devices(cfg), 1 + |cfg.nics| + One(cfg.rng) + One(cfg.sound);
            var e := b + |cfg.drives| + 2 * One(cfg.input);
            |d| == e + |cfg.shares| + One(cfg.gpu) &&
            (forall i :: 0 <= i < |cfg.drives| ==> d[b + i] == Block(cfg.drives[i])) &&
            (cfg.input ==> d[b + |cfg.drives|] == Keyboard && d[b + |cfg.drives| + 1] == Tablet) &&
            (forall i :: 0 <= i < |cfg.shares| ==> d[e + i] == P9(cfg.shares[i])) &&
            (cfg.gpu ==> d[e + |cfg.shares|] == Gpu(cfg.gpuWidth, cfg.gpuHeight))
  {
    hide Devices, Tail;
    TailIs(cfg);
    TailOrder(cfg);
    var d, b, tail := Devices(cfg), 1 + |cfg.nics| + One(cfg.rng) + One(cfg.sound), Tail(cfg);
    forall i | 0 <= i < |tail|
      ensures d[b + i] == tail[i]
    {
      assert d[b..][i] == d[b + i];
    }
  }

  /** What is at each place on the bus, and how many devices there are. */
  lemma BusOrder(cfg: Config)
    ensures var d, n := Devices(cfg), 1 + |cfg.nics|;
            var b := n + One(cfg.rng) + One(cfg.sound);
            var e := b + |cfg.drives| + 2 * One(cfg.input);
            |d| == e + |cfg.shares| + One(cfg.gpu) && d[0] == Console &&
            (forall i :: 0 <= i < |cfg.nics| ==> d[1 + i] == Net(cfg.nics[i], NicMac(i))) &&
            (cfg.rng ==> d[n] == Rng) && (cfg.sound ==> d[n + One(cfg.rng)] == Sound) &&
            (forall i :: 0 <= i < |cfg.drives| ==> d[b + i] == Block(cfg.drives[i])) &&
            (cfg.input ==> d[b + |cfg.drives|] == Keyboard && d[b + |cfg.drives| + 1] == Tablet) &&
            (forall i :: 0 <= i < |cfg.shares| ==> d[e + i] == P9(cfg.shares[i])) &&
            (cfg.gpu ==> d[e + |cfg.shares|] == Gpu(cfg.gpuWidth, cfg.gpuHeight))
  {
    hide NicMac, Devices;
    BusStart(cfg);
    BusEnd(cfg);
  }

  /** What the devices are, in any order. */
  lemma DeviceIn(cfg: Config, x: Device)
    ensures x in Devices(cfg) <==>
      x == Console || x in Nets(cfg.nics) || (cfg.rng && x == Rng) || (cfg.sound && x == Sound) || x in Blocks(cfg.drives) ||
      (cfg.input && (x == Keyboard || x == Tablet)) || x in Shares(cfg.shares) || (cfg.gpu && x == Gpu(cfg.gpuWidth, cfg.gpuHeight))
    ensures (x in Nets(cfg.nics) ==> x.Net?) && (x in Blocks(cfg.drives) ==> x.Block?) && (x in Shares(cfg.shares) ==> x.P9?)
  {
    hide NicMac;
  }

  /** Each optional device is there exactly when the configuration has it. */
  lemma OnlyWhatIsAsked(cfg: Config)
    ensures Rng in Devices(cfg) <==> cfg.rng
    ensures Sound in Devices(cfg) <==> cfg.sound
    ensures Keyboard in Devices(cfg) <==> cfg.input
    ensures Tablet in Devices(cfg) <==> cfg.input
    ensures forall w, h :: Gpu(w, h) in Devices(cfg) <==> cfg.gpu && w == cfg.gpuWidth && h == cfg.gpuHeight
  {
    hide Devices, Nets, Blocks, Shares;
    DeviceIn(cfg, Rng);
    DeviceIn(cfg, Sound);
    DeviceIn(cfg, Keyboard);
    DeviceIn(cfg, Tablet);
    forall w, h
      ensures Gpu(w, h) in Devices(cfg) <==> cfg.gpu && w == cfg.gpuWidth && h == cfg.gpuHeight
    {
      DeviceIn(cfg, Gpu(w, h));
    }
  }

  lemma LastByte(i: nat)
    ensures NicMac(i)[5] == if i % 256 < 170 then i % 256 + 86 else i % 256 - 170
  {
    var a, q := i % 256, i / 256;
    if a < 170 {
      DivMod(q, a + 86, 256, 0x56 + i);
    } else {
      DivMod(q + 1, a - 170, 256, 0x56 + i);
    }
  }

  /** MACs are of one vendor prefix, and differ for the first 256 NICs, after which they come round again. */
  lemma MacsDiffer(i: nat, j: nat)
    ensures NicMac(i)[..5] == [0x52, 0x54, 0x00, 0x12, 0x34] && NicMac(0)[5] == 0x56
    ensures NicMac(i) == NicMac(j) <==> i % 256 == j % 256
  {
    LastByte(i);
    LastByte(j);
    SamePrefix(i);
    SamePrefix(j);
    hide NicMac;
    assert NicMac(i) == NicMac(i)[..5] + [NicMac(i)[5]] && NicMac(j) == NicMac(j)[..5] + [NicMac(j)[5]];
  }

  lemma SamePrefix(i: nat)
    ensures NicMac(i)[..5] == [0x52, 0x54, 0x00, 0x12, 0x34] && NicMac(0)[5] == 0x56
  {
  }

  // ---- Reading a configuration back ----

  function RestoreForwards(h: Header, o: Owner, n: nat): seq<PortForward> {
    if n == 0 then []
    else
      var s := Get(h, ForwardKey(o, n - 1));
      var pf := if s.Some? then DecodePortFwd(s.value) else None;
      RestoreForwards(h, o, n - 1) + (if pf.Some? then [pf.value] else [])
  }

  /** One NIC from the header, with defaults for what older snapshots lack. */
  function RestoreNic(h: Header, o: Owner, index: nat): (r: (Nic, Mac)) {
    var backend := Get(h, NicKey(o, BackendName));
    var mac := GetNumber(h, NicKey(o, HeaderKeys.Mac));
    var host := Get(h, NicKey(o, WintunHost));
    (Nic(
       OrElse(if backend.Some? then ParseBackend(backend.value) else None, Nat),
       RestoreForwards(h, o, OrElse(GetNumber(h, NicKey(o, ForwardCount)), 0)),
       GetNumber(h, NicKey(o, NatWorkers)),
       OrElse(GetBool(h, NicKey(o, NatHostLocal)), false),
       Get(h, NicKey(o, WintunName)),
       if host.Some? then ParseIpv4(host.value) else None),
     if mac.Some? then MacBytes(mac.value) else NicMac(index))
  }

  function RestoreNets(h: Header): seq<Device> {
    var count := GetNumber(h, Scalar(NicCount));
    if count.Some? then
      seq(count.value, i requires 0 <= i => var r := RestoreNic(h, Numbered(i), i); Net(r.0, r.1))
    else if OrElse(GetBool(h, Scalar(WithNet)), false) then
      var r := RestoreNic(h, Legacy, 0);
      [Net(r.0, r.1)]
    else []
  }

  /** The host: the size of files that open, whether they hold an ISO 9660 file system, and whether it can run VMBus. */
  datatype Host = Host(open: (string, bool, bool) -> Option<nat>, holdsIso: string -> bool, vmbus: bool)

  /** `--drive` at restore: another path, and perhaps another read-only state. */
  datatype Override = Override(path: string, readonly: Option<bool>)

  function RestoreDrive(h: Header, i: nat, override: Option<Override>, force: bool, host: Host): Result<Drive> {
    var saved := Get(h, DriveKey(i, Path));
    if saved.None? then Err
    else
      var savedRo := OrElse(GetBool(h, DriveKey(i, Readonly)), true);
      var savedSize := OrElse(GetNumber(h, DriveKey(i, Size)), 0);
      var path := if override.Some? then override.value.path else saved.value;
      var ro := if override.Some? then OrElse(override.value.readonly, savedRo) else savedRo;
      var known := Get(h, DriveKey(i, Iso)).Some?;
      if known && GetBool(h, DriveKey(i, Iso)).None? then Err
      else
        var iso := if known then GetBool(h, DriveKey(i, Iso)).value else savedRo && host.holdsIso(path);
        if (ro != savedRo && !force) || (iso && !ro) then Err
        else
          var size := host.open(path, ro, iso);
          if size.None? || (savedSize != 0 && size.value != savedSize && !force) then Err
          else Ok(Drive(path, ro, iso))
  }

  function RestoreShare(h: Header, i: nat): Result<Share> {
    var tag, root := Get(h, ShareKey(i, Tag)), Get(h, ShareKey(i, Root));
    if tag.None? || root.None? then Err
    else Ok(Share(
      tag.value, root.value, OrElse(GetBool(h, ShareKey(i, ShareReadonly)), false),
      OrElse(GetNumber(h, ShareKey(i, Uid)), 0) % U32_SIZE, OrElse(GetNumber(h, ShareKey(i, Gid)), 0) % U32_SIZE,
      OrElse(GetBool(h, ShareKey(i, Metadata)), false), OrElse(GetBool(h, ShareKey(i, Nocase)), true)))
  }

  /** The machine from the header; one this build cannot run is refused. */
  function RestoreMachine(h: Header, host: Host): Result<Machine> {
    var vcpus, ramSize, hvFeatures := GetNumber(h, Scalar(VcpuCount)), GetNumber(h, Scalar(RamSize)), GetNumber(h, Scalar(HvFeatures));
    var vmbus := OrElse(GetBool(h, Scalar(Vmbus)), false);
    if vcpus.None? || !(1 <= vcpus.value % U32_SIZE <= MAX_VCPUS) then Err
    else if ramSize.None? || !(0 < ramSize.value <= MAX_RESTORE_RAM) then Err
    else if hvFeatures.None? || (vmbus && !host.vmbus) then Err
    else Ok(Machine(vcpus.value % U32_SIZE, ramSize.value, OrElse(GetBool(h, Scalar(LargePages)), true), hvFeatures.value, vmbus))
  }

  function OverrideFor(overrides: seq<Override>, i: nat): Option<Override> { if i < |overrides| then Some(overrides[i]) else None }

  function RestoreGpu(h: Header): seq<Device> {
    Only(OrElse(GetBool(h, Scalar(WithGpu)), false),
      [Gpu(OrElse(GetNumber(h, Scalar(GpuWidth)), 1280) % U32_SIZE, OrElse(GetNumber(h, Scalar(GpuHeight)), 800) % U32_SIZE)])
  }

  /** The header has all these drives and shares, as listed, and they can be used. */
  ghost predicate Usable(h: Header, overrides: seq<Override>, force: bool, host: Host, drives: seq<Drive>, shares: seq<Share>) {
    |drives| == OrElse(GetNumber(h, Scalar(DriveCount)), 0) && |shares| == OrElse(GetNumber(h, Scalar(P9Count)), 0) &&
    (forall i :: 0 <= i < |drives| ==> RestoreDrive(h, i, OverrideFor(overrides, i), force, host) == Ok(drives[i])) &&
    (forall i :: 0 <= i < |shares| ==> RestoreShare(h, i) == Ok(shares[i]))
  }

  /** Rebuild the devices from the header, in the order of `BuildDevices`. */
  method RestoreDevices(h: Header, overrides: seq<Override>, force: bool, host: Host) returns (r: Result<seq<Device>>)
    ensures r.Ok? <==> exists drives, shares :: Usable(h, overrides, force, host, drives, shares)
    ensures forall drives, shares :: Usable(h, overrides, force, host, drives, shares) ==>
      r == Ok(Assemble(RestoreNets(h), OrElse(GetBool(h, Scalar(WithRng)), false), OrElse(GetBool(h, Scalar(WithSound)), false),
        Blocks(drives), OrElse(GetBool(h, Scalar(WithInput)), false), Shares(shares), RestoreGpu(h)))
  {
    hide RestoreDrive, RestoreShare, RestoreNets, RestoreGpu, GetNumber, GetBool, Nets, Blocks, Shares, Only;
    var devices := [Console];
    var nets := RestoreNetList(h);
    devices := devices + nets;
    devices := PushOnly(devices, OrElse(GetBool(h, Scalar(WithRng)), false), [Rng]);
    devices := PushOnly(devices, OrElse(GetBool(h, Scalar(WithSound)), false), [Sound]);
    var drives := RestoreDriveList(h, overrides, force, host);
    if drives.Err? {
      return Err;
    }
    devices := PushBlocks(devices, drives.value);
    devices := PushOnly(devices, OrElse(GetBool(h, Scalar(WithInput)), false), [Keyboard, Tablet]);
    var shares := RestoreShareList(h);
    if shares.Err? {
      return Err;
    }
    devices := PushShares(devices, shares.value);
    devices := devices + RestoreGpu(h);
    r := Ok(devices);
    assert Usable(h, overrides, force, host, drives.value, shares.value);
    forall d, s | Usable(h, overrides, force, host, d, s)
      ensures d == drives.value && s == shares.value
    {
      UsableIsUnique(h, overrides, force, host, d, s, drives.value, shares.value);
    }
  }

  method RestoreDriveList(h: Header, overrides: seq<Override>, force: bool, host: Host) returns (r: Result<seq<Drive>>)
    ensures r.Ok? <==> forall i :: 0 <= i < OrElse(GetNumber(h, Scalar(DriveCount)), 0) ==> RestoreDrive(h, i, OverrideFor(overrides, i), force, host).Ok?
    ensures r.Ok? ==> |r.value| == OrElse(GetNumber(h, Scalar(DriveCount)), 0)
    ensures r.Ok? ==> forall i :: 0 <= i < |r.value| ==> RestoreDrive(h, i, OverrideFor(overrides, i), force, host) == Ok(r.value[i])
  {
    hide RestoreDrive, GetNumber;
    var drives: seq<Drive> := [];
    for i := 0 to OrElse(GetNumber(h, Scalar(DriveCount)), 0)
      invariant |drives| == i && forall j :: 0 <= j < i ==> RestoreDrive(h, j, OverrideFor(overrides, j), force, host) == Ok(drives[j])
    {
      var d := RestoreDrive(h, i, OverrideFor(overrides, i), force, host);
      if d.Err? {
        return Err;
      }
      drives := drives + [d.value];
    }
    r := Ok(drives);
  }

  method RestoreShareList(h: Header) returns (r: Result<seq<Share>>)
    ensures r.Ok? <==> forall i :: 0 <= i < OrElse(GetNumber(h, Scalar(P9Count)), 0) ==> RestoreShare(h, i).Ok?
    ensures r.Ok? ==> |r.value| == OrElse(GetNumber(h, Scalar(P9Count)), 0)
    ensures r.Ok? ==> forall i :: 0 <= i < |r.value| ==> RestoreShare(h, i) == Ok(r.value[i])
  {
    hide RestoreShare, GetNumber;
    var shares: seq<Share> := [];
    for i := 0 to OrElse(GetNumber(h, Scalar(P9Count)), 0)
      invariant |shares| == i && forall j :: 0 <= j < i ==> RestoreShare(h, j) == Ok(shares[j])
    {
      var s := RestoreShare(h, i);
      if s.Err? {
        return Err;
      }
      shares := shares + [s.value];
    }
    r := Ok(shares);
  }

  lemma UsableIsUnique(h: Header, overrides: seq<Override>, force: bool, host: Host,
                       drives: seq<Drive>, shares: seq<Share>, drives': seq<Drive>, shares': seq<Share>)
    requires Usable(h, overrides, force, host, drives, shares) && Usable(h, overrides, force, host, drives', shares')
    ensures drives == drives' && shares == shares'
  {
    hide RestoreDrive, RestoreShare, GetNumber;
    forall i | 0 <= i < |drives|
      ensures drives[i] == drives'[i]
    {
      assert RestoreDrive(h, i, OverrideFor(overrides, i), force, host) == Ok(drives[i]);
    }
    forall i | 0 <= i < |shares|
      ensures shares[i] == shares'[i]
    {
      assert RestoreShare(h, i) == Ok(shares[i]);
    }
  }

  method RestoreNetList(h: Header) returns (nets: seq<Device>)
    ensures nets == RestoreNets(h)
  {
    hide RestoreNic, GetNumber, GetBool;
    nets := [];
    var count := GetNumber(h, Scalar(NicCount));
    if count.Some? {
      for i := 0 to count.value
        invariant nets == RestoreNets(h)[..i]
      {
        var nic, mac := RestoreNic(h, Numbered(i), i).0, RestoreNic(h, Numbered(i), i).1;
        nets := nets + [Net(nic, mac)];
      }
    } else if OrElse(GetBool(h, Scalar(WithNet)), false) {
      var nic, mac := RestoreNic(h, Legacy, 0).0, RestoreNic(h, Legacy, 0).1;
      nets := [Net(nic, mac)];
    }
  }

  // ---- Each part reads back ----

  lemma {:induction false} ForwardsRestore(h: Header, o: Owner, nic: Nic, n: nat)
    requires n <= |nic.forwards| && forall j :: 0 <= j < n ==> Get(h, ForwardKey(o, j)) == ForwardEntry(nic, j)
    ensures RestoreForwards(h, o, n) == nic.forwards[..n]
  {
    hide Text, Get, EncodePortFwd, DecodePortFwd;
    if n > 0 {
      ForwardsRestore(h, o, nic, n - 1);
      PortFwdRoundTrip(nic.forwards[n - 1]);
      assert nic.forwards[..n] == nic.forwards[..n - 1] + [nic.forwards[n - 1]];
    }
  }

  /** What of a NIC the header keeps: all that its backend uses. */
  function Kept(nic: Nic): Nic {
    if nic.backend.Wintun? then
      nic.(wintunName := Some(OrElse(nic.wintunName, ADAPTER)), wintunHost := Some(OrElse(nic.wintunHost, GATEWAY_IP)))
    else nic.(wintunName := None, wintunHost := None)
  }

  lemma NicRestores(h: Header, cfg: Config, sizes: seq<nat>, i: nat)
    requires Describes(h, cfg, sizes) && Valid(cfg) && i < |cfg.nics|
    ensures RestoreNic(h, Numbered(i), i) == (Kept(cfg.nics[i]), NicMac(i))
    ensures var nic, back := cfg.nics[i], RestoreNic(h, Numbered(i), i).0;
            back.backend == nic.backend && back.forwards == nic.forwards && back.natWorkers == nic.natWorkers &&
            back.natHostLocal == nic.natHostLocal &&
            (nic.backend.Wintun? ==>
               back.wintunName == Some(if nic.wintunName.Some? then nic.wintunName.value else "tinyvmm") &&
               back.wintunHost == Some(if nic.wintunHost.Some? then nic.wintunHost.value else [172, 29, 255, 1]))
  {
    hide Text, Dec, Ipv4Text, ParseIpv4, BackendText, ParseBackend, MacNumber, MacBytes, NicMac, RestoreForwards, EncodePortFwd, Parse;
    var nic, o := cfg.nics[i], Numbered(i);
    forall f
      ensures Get(h, NicKey(o, f)) == NicEntry(nic, i, f)
    {
    }
    forall j | 0 <= j < |nic.forwards|
      ensures Get(h, ForwardKey(o, j)) == ForwardEntry(nic, j)
    {
    }
    ReadNic(h, o, nic, i);
  }

  lemma ReadNic(h: Header, o: Owner, nic: Nic, i: nat)
    requires forall f :: Get(h, NicKey(o, f)) == NicEntry(nic, i, f)
    requires forall j :: 0 <= j < |nic.forwards| ==> Get(h, ForwardKey(o, j)) == ForwardEntry(nic, j)
    requires |nic.forwards| <= U64_MAX && (nic.natWorkers.Some? ==> nic.natWorkers.value <= U64_MAX)
    ensures RestoreNic(h, o, i) == (Kept(nic), NicMac(i))
  {
    hide Text, Get, Dec, Ipv4Text, ParseIpv4, BackendText, ParseBackend, MacNumber, MacBytes, NicMac, RestoreForwards, EncodePortFwd, Parse;
    BackendRoundTrip(nic.backend);
    ForwardsRestore(h, o, nic, |nic.forwards|);
    assert nic.forwards[..|nic.forwards|] == nic.forwards;
    MacRoundTrip(NicMac(i));
    NumberReads(h, NicKey(o, HeaderKeys.Mac), MacNumber(NicMac(i)));
    NumberReads(h, NicKey(o, ForwardCount), |nic.forwards|);
    if nic.natWorkers.Some? {
      NumberReads(h, NicKey(o, NatWorkers), nic.natWorkers.value);
    }
    if nic.natHostLocal {
      BoolReads(h, NicKey(o, NatHostLocal), true);
    }
    Ipv4RoundTrip(OrElse(nic.wintunHost, GATEWAY_IP));
  }

  lemma KeptIsSame(nic: Nic, mac: Mac)
    ensures Same(Net(nic, mac), Net(Kept(nic), mac))
  {
  }

  /** A drive is restored exactly when its file opens with the saved size, and is never rebuilt as another kind. */
  lemma DriveRestores(h: Header, cfg: Config, sizes: seq<nat>, i: nat, override: Option<Override>, force: bool, host: Host)
    requires Describes(h, cfg, sizes) && Valid(cfg) && i < |cfg.drives| && sizes[i] <= U64_MAX
    ensures
      var d := cfg.drives[i];
      var path := if override.Some? then override.value.path else d.path;
      var ro := if override.Some? then OrElse(override.value.readonly, d.readonly) else d.readonly;
      var size := host.open(path, ro, d.iso);
      RestoreDrive(h, i, override, force, host) ==
      if (force || ro == d.readonly) && (d.iso ==> ro) && size.Some? && (force || sizes[i] == 0 || size.value == sizes[i])
      then Ok(Drive(path, ro, d.iso)) else Err
  {
    hide Text, Dec, BoolText, Parse;
    var d := cfg.drives[i];
    assert Get(h, DriveKey(i, Path)) == DriveEntry(d, sizes[i], Path);
    assert Get(h, DriveKey(i, Readonly)) == DriveEntry(d, sizes[i], Readonly);
    assert Get(h, DriveKey(i, Iso)) == DriveEntry(d, sizes[i], Iso);
    assert Get(h, DriveKey(i, Size)) == DriveEntry(d, sizes[i], Size);
    hide Get;
    BoolReads(h, DriveKey(i, Readonly), d.readonly);
    BoolReads(h, DriveKey(i, Iso), d.iso);
    NumberReads(h, DriveKey(i, Size), sizes[i]);
  }

  lemma ShareRestores(h: Header, cfg: Config, sizes: seq<nat>, i: nat)
    requires Describes(h, cfg, sizes) && Valid(cfg) && i < |cfg.shares|
    ensures RestoreShare(h, i) == Ok(cfg.shares[i])
  {
    hide Text, Dec, BoolText, Parse;
    var s := cfg.shares[i];
    forall f
      ensures Get(h, ShareKey(i, f)) == ShareEntry(s, f)
    {
    }
    hide Get;
    BoolReads(h, ShareKey(i, ShareReadonly), s.readonly);
    BoolReads(h, ShareKey(i, Metadata), s.metadata);
    BoolReads(h, ShareKey(i, Nocase), s.nocase);
    NumberReads(h, ShareKey(i, Uid), s.uid);
    NumberReads(h, ShareKey(i, Gid), s.gid);
  }

  lemma FlagsRestore(h: Header, cfg: Config, sizes: seq<nat>)
    requires Describes(h, cfg, sizes)
    ensures GetBool(h, Scalar(WithRng)) == Some(cfg.rng) && GetBool(h, Scalar(WithSound)) == Some(cfg.sound)
    ensures GetBool(h, Scalar(WithInput)) == Some(cfg.input) && GetBool(h, Scalar(WithGpu)) == Some(cfg.gpu)
  {
    hide Text, Dec, BoolText, Parse, GetBool;
    forall f
      ensures Get(h, Scalar(f)) == ScalarEntry(cfg, f)
    {
    }
    hide Get;
    BoolReads(h, Scalar(WithRng), cfg.rng);
    BoolReads(h, Scalar(WithSound), cfg.sound);
    BoolReads(h, Scalar(WithInput), cfg.input);
    BoolReads(h, Scalar(WithGpu), cfg.gpu);
  }

  lemma CountsRestore(h: Header, cfg: Config, sizes: seq<nat>)
    requires Describes(h, cfg, sizes) && Valid(cfg)
    ensures GetNumber(h, Scalar(GpuWidth)) == Some(cfg.gpuWidth) && GetNumber(h, Scalar(GpuHeight)) == Some(cfg.gpuHeight)
    ensures GetNumber(h, Scalar(NicCount)) == Some(|cfg.nics|)
    ensures GetNumber(h, Scalar(DriveCount)) == Some(|cfg.drives|) && GetNumber(h, Scalar(P9Count)) == Some(|cfg.shares|)
  {
    hide Text, Dec, BoolText, Parse, GetNumber;
    forall f
      ensures Get(h, Scalar(f)) == ScalarEntry(cfg, f)
    {
    }
    hide Get;
    NumberReads(h, Scalar(GpuWidth), cfg.gpuWidth);
    NumberReads(h, Scalar(GpuHeight), cfg.gpuHeight);
    NumberReads(h, Scalar(NicCount), |cfg.nics|);
    NumberReads(h, Scalar(DriveCount), |cfg.drives|);
    NumberReads(h, Scalar(P9Count), |cfg.shares|);
  }

  /** A machine comes back as it was, on a host that can run it, and is refused on any other. */
  lemma MachineRestores(h: Header, cfg: Config, sizes: seq<nat>, host: Host)
    requires Describes(h, cfg, sizes) && Valid(cfg)
    ensures RestoreMachine(h, host) == if cfg.machine.vmbus && !host.vmbus then Err else Ok(cfg.machine)
  {
    hide Text, Dec, BoolText, Parse, GetBool, GetNumber;
    forall f
      ensures Get(h, Scalar(f)) == ScalarEntry(cfg, f)
    {
    }
    hide Get;
    BoolReads(h, Scalar(LargePages), cfg.machine.largePages);
    BoolReads(h, Scalar(Vmbus), cfg.machine.vmbus);
    NumberReads(h, Scalar(VcpuCount), cfg.machine.vcpus);
    NumberReads(h, Scalar(RamSize), cfg.machine.ramSize);
    NumberReads(h, Scalar(HvFeatures), cfg.machine.hvFeatures);
  }

  // ---- The whole machine ----

  ghost predicate AllSame(a: seq<Device>, b: seq<Device>) {
    |a| == |b| && forall i :: 0 <= i < |a| ==> Same(a[i], b[i])
  }

  lemma AllSameConcat(a: seq<Device>, b: seq<Device>, c: seq<Device>, d: seq<Device>)
    requires AllSame(a, b) && AllSame(c, d)
    ensures AllSame(a + c, b + d)
  {
  }

  lemma NetsRestore(h: Header, cfg: Config, sizes: seq<nat>)
    requires Describes(h, cfg, sizes) && Valid(cfg)
    ensures AllSame(Nets(cfg.nics), RestoreNets(h))
  {
    FlagsRestore(h, cfg, sizes);
    CountsRestore(h, cfg, sizes);
    hide Get, Describes, Valid, RestoreNic, GetNumber, Same, Kept, NicMac;
    forall i | 0 <= i < |cfg.nics|
      ensures Same(Nets(cfg.nics)[i], RestoreNets(h)[i])
    {
      NicRestores(h, cfg, sizes, i);
      KeptIsSame(cfg.nics[i], NicMac(i));
    }
  }

  /** The drives' files still open, with the sizes they had. */
  ghost predicate FilesUnchanged(cfg: Config, sizes: seq<nat>, host: Host) {
    |sizes| == |cfg.drives| &&
    forall i :: 0 <= i < |sizes| ==>
      sizes[i] <= U64_MAX && host.open(cfg.drives[i].path, cfg.drives[i].readonly, cfg.drives[i].iso) == Some(sizes[i])
  }

  lemma AllUsable(h: Header, cfg: Config, sizes: seq<nat>, force: bool, host: Host)
    requires Describes(h, cfg, sizes) && Valid(cfg) && FilesUnchanged(cfg, sizes, host)
    ensures Usable(h, [], force, host, cfg.drives, cfg.shares)
  {
    FlagsRestore(h, cfg, sizes);
    CountsRestore(h, cfg, sizes);
    hide Get, RestoreDrive, RestoreShare, GetNumber, GetBool;
    forall i | 0 <= i < |cfg.drives|
      ensures RestoreDrive(h, i, OverrideFor([], i), force, host) == Ok(cfg.drives[i])
    {
      DriveRestores(h, cfg, sizes, i, None, force, host);
    }
    forall i | 0 <= i < |cfg.shares|
      ensures RestoreShare(h, i) == Ok(cfg.shares[i])
    {
      ShareRestores(h, cfg, sizes, i);
    }
  }

  lemma SameAsItself(a: seq<Device>)
    ensures AllSame(a, a)
  {
  }

  lemma AssembledSame(nets: seq<Device>, nets': seq<Device>, rng: bool, sound: bool, blocks: seq<Device>, input: bool,
                      shares: seq<Device>, gpu: seq<Device>)
    requires AllSame(nets, nets')
    ensures AllSame(Assemble(nets, rng, sound, blocks, input, shares, gpu), Assemble(nets', rng, sound, blocks, input, shares, gpu))
  {
    hide AllSame, Only;
    var rest := [Only(rng, [Rng]), Only(sound, [Sound]), blocks, Only(input, [Keyboard, Tablet]), shares, gpu];
    var a, b := [Console] + nets, [Console] + nets';
    SameAsItself([Console]);
    AllSameConcat([Console], [Console], nets, nets');
    for k := 0 to 6
      invariant AllSame(a, b)
      invariant a == Chain([Console] + nets, rest[..k]) && b == Chain([Console] + nets', rest[..k])
    {
      SameAsItself(rest[k]);
      AllSameConcat(a, b, rest[k], rest[k]);
      a, b := a + rest[k], b + rest[k];
      assert rest[..k + 1][..k] == rest[..k];
    }
    ChainOfSix([Console] + nets, rest);
    ChainOfSix([Console] + nets', rest);
    assert rest[..6] == rest;
  }

  function Chain(s: seq<Device>, parts: seq<seq<Device>>): seq<Device> {
    if parts == [] then s else Chain(s, parts[..|parts| - 1]) + parts[|parts| - 1]
  }

  lemma ChainOfSix(s: seq<Device>, p: seq<seq<Device>>)
    requires |p| == 6
    ensures Chain(s, p) == s + p[0] + p[1] + p[2] + p[3] + p[4] + p[5]
  {
    assert p[..5][..4] == p[..4] && p[..4][..3] == p[..3] && p[..3][..2] == p[..2] && p[..2][..1] == p[..1] && p[..1][..0] == [];
    assert Chain(s, p[..1]) == s + p[0];
    assert Chain(s, p[..2]) == s + p[0] + p[1];
    assert Chain(s, p[..3]) == s + p[0] + p[1] + p[2];
    assert Chain(s, p[..4]) == s + p[0] + p[1] + p[2] + p[3];
  }

  lemma SizesMatch(cfg: Config, sizes: seq<nat>, host: Host)
    requires FilesUnchanged(cfg, sizes, host)
    ensures |sizes| == |cfg.drives|
  {
  }

  lemma GpuRestores(h: Header, cfg: Config, sizes: seq<nat>)
    requires Describes(h, cfg, sizes) && Valid(cfg)
    ensures RestoreGpu(h) == Only(cfg.gpu, [Gpu(cfg.gpuWidth, cfg.gpuHeight)])
  {
    hide Get, GetBool, GetNumber, Describes, RestoreGpu, Only;
    FlagsRestore(h, cfg, sizes);
    CountsRestore(h, cfg, sizes);
    GpuReads(h, cfg.gpu, cfg.gpuWidth, cfg.gpuHeight);
  }

  lemma GpuReads(h: Header, gpu: bool, width: nat, height: nat)
    requires GetBool(h, Scalar(WithGpu)) == Some(gpu) && width < U32_SIZE && height < U32_SIZE
    requires GetNumber(h, Scalar(GpuWidth)) == Some(width) && GetNumber(h, Scalar(GpuHeight)) == Some(height)
    ensures RestoreGpu(h) == Only(gpu, [Gpu(width, height)])
  {
    hide GetBool, GetNumber;
    assert width % U32_SIZE == width && height % U32_SIZE == height;
  }

  // ---- Device state ----

  const INDEX_SIZE := 0x1_0000

  /** One section per device, stamped with its 16-bit index. */
  method CaptureSections<S>(states: seq<S>) returns (sections: seq<(nat, S)>)
    ensures |sections| == |states| && forall i :: 0 <= i < |states| ==> sections[i] == (i % INDEX_SIZE, states[i])
  {
    sections := [];
    for i := 0 to |states|
      invariant |sections| == i && forall j :: 0 <= j < i ==> sections[j] == (j % INDEX_SIZE, states[j])
    {
      sections := sections + [(i % INDEX_SIZE, states[i])];
    }
  }

  /** Apply each section to the device its index names; the last one to name it counts. */
  method ApplySections<S>(sections: seq<(nat, S)>, devices: nat) returns (r: Result<seq<Option<S>>>)
    ensures r.Ok? <==> forall i :: 0 <= i < |sections| ==> sections[i].0 < devices
    ensures r.Ok? ==> |r.value| == devices && forall d :: 0 <= d < devices ==> Applied(sections, d, r.value[d])
  {
    var applied := seq(devices, _ => None);
    for i := 0 to |sections|
      invariant |applied| == devices && forall j :: 0 <= j < i ==> sections[j].0 < devices
      invariant forall d :: 0 <= d < devices ==> Applied(sections[..i], d, applied[d])
    {
      var (index, state) := sections[i];
      if index >= devices {
        return Err;
      }
      ghost var before := applied;
      applied := applied[index := Some(state)];
      forall d | 0 <= d < devices
        ensures Applied(sections[..i + 1], d, applied[d])
      {
        OneMoreSection(sections, i, d, before[d]);
      }
    }
    assert sections[..|sections|] == sections;
    r := Ok(applied);
  }

  /** What a device ends up with: the last section for it, or nothing. */
  ghost predicate Applied<S>(sections: seq<(nat, S)>, d: nat, state: Option<S>) {
    match state
    case None => forall i :: 0 <= i < |sections| ==> sections[i].0 != d
    case Some(s) => exists i :: 0 <= i < |sections| && sections[i] == (d, s) && forall j :: i < j < |sections| ==> sections[j].0 != d
  }

  lemma OneMoreSection<S>(sections: seq<(nat, S)>, i: nat, d: nat, state: Option<S>)
    requires i < |sections| && Applied(sections[..i], d, state)
    ensures Applied(sections[..i + 1], d, if sections[i].0 == d then Some(sections[i].1) else state)
  {
    var more := sections[..i + 1];
    if sections[i].0 == d {
      assert more[i] == (d, sections[i].1);
    } else if state.Some? {
      var k :| 0 <= k < i && sections[..i][k] == (d, state.value) && forall j :: k < j < i ==> sections[..i][j].0 != d;
      assert more[k] == (d, state.value);
      assert forall j :: k < j < i ==> more[j] == sections[..i][j];
    } else {
      assert forall j :: 0 <= j < i ==> more[j] == sections[..i][j];
    }
  }

  /** Sections captured in order give each device its own state back, exactly as long as the index can tell them apart. */
  lemma OwnStates<S>(states: seq<S>, sections: seq<(nat, S)>, applied: seq<Option<S>>)
    requires |sections| == |states| == |applied|
    requires forall i :: 0 <= i < |states| ==> sections[i] == (i % INDEX_SIZE, states[i])
    requires forall d :: 0 <= d < |applied| ==> Applied(sections, d, applied[d])
    ensures |states| <= INDEX_SIZE ==> forall d :: 0 <= d < |states| ==> applied[d] == Some(states[d])
    ensures |states| > INDEX_SIZE ==> applied[INDEX_SIZE].None?
  {
    forall d | 0 <= d < |states| && |states| <= INDEX_SIZE
      ensures applied[d] == Some(states[d])
    {
      assert Applied(sections, d, applied[d]);
      assert sections[d].0 == d;
    }
    if |states| > INDEX_SIZE {
      assert Applied(sections, INDEX_SIZE, applied[INDEX_SIZE]);
    }
  }

  /**
   * Save a machine and restore it: the same machine, with the same devices, set
   * up the same, at the same places, each given the state it was saved with.
   */
  method SaveThenRestore<S>(cfg: Config, sizes: seq<nat>, states: seq<S>, host: Host)
    returns (saved: seq<Device>, machine: Result<Machine>, restored: Result<seq<Device>>, applied: Result<seq<Option<S>>>)
    requires Valid(cfg) && FilesUnchanged(cfg, sizes, host) && (cfg.machine.vmbus ==> host.vmbus)
    requires |states| == |Devices(cfg)|
    ensures saved == Devices(cfg) && machine == Ok(cfg.machine)
    ensures restored.Ok? && AllSame(saved, restored.value)
    ensures applied.Ok? && |applied.value| == |restored.value|
    ensures |states| <= INDEX_SIZE ==> forall d :: 0 <= d < |states| ==> applied.value[d] == Some(states[d])
    ensures |states| > INDEX_SIZE ==> applied.value[INDEX_SIZE].None?
  {
    hide Describes, Valid, FilesUnchanged, Assemble, Usable, Nets, Blocks, Shares, RestoreNets, GetBool, GetNumber, Only, Same;
    saved := BuildDevices(cfg);
    var sections := CaptureSections(states);
    SizesMatch(cfg, sizes, host);
    var h := WriteHeader(cfg, sizes);
    machine := RestoreMachine(h, host);
    MachineRestores(h, cfg, sizes, host);
    restored := RestoreDevices(h, [], false, host);
    SameDevices(h, cfg, sizes, host, saved, restored);
    applied := ApplySections(sections, |restored.value|);
    OwnStates(states, sections, applied.value);
  }

  lemma SameDevices(h: Header, cfg: Config, sizes: seq<nat>, host: Host, saved: seq<Device>, restored: Result<seq<Device>>)
    requires Describes(h, cfg, sizes) && Valid(cfg) && FilesUnchanged(cfg, sizes, host) && saved == Devices(cfg)
    requires forall drives, shares :: Usable(h, [], false, host, drives, shares) ==>
      restored == Ok(Assemble(RestoreNets(h), OrElse(GetBool(h, Scalar(WithRng)), false), OrElse(GetBool(h, Scalar(WithSound)), false),
        Blocks(drives), OrElse(GetBool(h, Scalar(WithInput)), false), Shares(shares), RestoreGpu(h)))
    ensures restored.Ok? && AllSame(saved, restored.value)
  {
    hide Describes, Valid, FilesUnchanged, AllSame, Assemble, Usable, Nets, Blocks, Shares, RestoreNets, GetBool, GetNumber, Only;
    AllUsable(h, cfg, sizes, false, host);
    FlagsRestore(h, cfg, sizes);
    CountsRestore(h, cfg, sizes);
    NetsRestore(h, cfg, sizes);
    GpuRestores(h, cfg, sizes);
    AssembledSame(Nets(cfg.nics), RestoreNets(h), cfg.rng, cfg.sound, Blocks(cfg.drives), cfg.input, Shares(cfg.shares), RestoreGpu(h));
  }
}
