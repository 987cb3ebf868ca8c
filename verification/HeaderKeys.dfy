/** The keys of the snapshot header: text built from names and indices, no two of them the same. */
module HeaderKeys {
  import opened Basics
  import opened Decimal

  datatype ScalarField =
    | Phase | VcpuCount | RamSize | LargePages | HvFeatures | HideTscDeadline | Vmbus
    | WithRng | WithGpu | WithSound | GpuWidth | GpuHeight | WithInput
    | NicCount | DriveCount | P9Count | WithNet
  datatype NicField = Mac | BackendName | ForwardCount | NatWorkers | NatHostLocal | WintunName | WintunHost
  datatype DriveField = Path | Size | Readonly | Iso
  datatype ShareField = Tag | Root | ShareReadonly | Uid | Gid | Metadata | Nocase

  /** A NIC's keys start with `nic` and its index, or with `net` in older snapshots of one NIC. */
  datatype Owner = Numbered(i: nat) | Legacy

  datatype Key =
    | Scalar(scalar: ScalarField)
    | NicKey(owner: Owner, nic: NicField)
    | ForwardKey(owner: Owner, j: nat)
    | DriveKey(i: nat, drive: DriveField)
    | ShareKey(i: nat, share: ShareField)

  function ScalarName(f: ScalarField): string {
    match f
    case Phase => "phase"
    case VcpuCount => "vcpu_count"
    case RamSize => "ram_size_bytes"
    case LargePages => "large_pages"
    case HvFeatures => "hv_features"
    case HideTscDeadline => "hide_tsc_deadline"
    case Vmbus => "vmbus"
    case WithRng => "with_rng"
    case WithGpu => "with_gpu"
    case WithSound => "with_sound"
    case GpuWidth => "gpu_width"
    case GpuHeight => "gpu_height"
    case WithInput => "with_input"
    case NicCount => "nic_count"
    case DriveCount => "drive_count"
    case P9Count => "p9_count"
    case WithNet => "with_net"
  }

  function NicName(f: NicField): (s: string)
    ensures EndsNumber(s)
  {
    match f
    case Mac => "_mac"
    case BackendName => "_backend"
    case ForwardCount => "_portfwd_count"
    case NatWorkers => "_nat_workers"
    case NatHostLocal => "_nat_host_local"
    case WintunName => "_wintun_name"
    case WintunHost => "_wintun_host"
  }

  function DriveName(f: DriveField): (s: string)
    ensures EndsNumber(s)
  {
    match f
    case Path => "_path"
    case Size => "_size"
    case Readonly => "_readonly"
    case Iso => "_iso"
  }

  function ShareName(f: ShareField): (s: string)
    ensures EndsNumber(s)
  {
    match f
    case Tag => "_tag"
    case Root => "_root"
    case ShareReadonly => "_readonly"
    case Uid => "_uid"
    case Gid => "_gid"
    case Metadata => "_metadata"
    case Nocase => "_nocase"
  }

  function OwnerName(o: Owner): string { if o.Legacy? then "net" else "nic" + Dec(o.i) }

  function ForwardName(j: nat): (s: string)
    ensures EndsNumber(s)
  {
    "_portfwd" + Dec(j)
  }

  function Text(k: Key): string {
    match k
    case Scalar(f) => ScalarName(f)
    case NicKey(o, f) => OwnerName(o) + NicName(f)
    case ForwardKey(o, j) => OwnerName(o) + ForwardName(j)
    case DriveKey(i, f) => "drive" + Dec(i) + DriveName(f)
    case ShareKey(i, f) => "p9" + Dec(i) + ShareName(f)
  }

  // ---- Different keys have different text ----

  lemma ScalarsDiffer(a: ScalarField, b: ScalarField)
    requires ScalarName(a) == ScalarName(b)
    ensures a == b
  {
    var s, t := ScalarName(a), ScalarName(b);
    assert |s| == |t| && s[0] == t[0] && (|s| > 5 ==> s[5] == t[5]);
  }

  lemma NicNamesDiffer(a: NicField, b: NicField)
    requires NicName(a) == NicName(b)
    ensures a == b
  {
    var s, t := NicName(a), NicName(b);
    assert |s| == |t| && s[1] == t[1] && (|s| > 8 ==> s[8] == t[8]);
  }

  lemma DriveNamesDiffer(a: DriveField, b: DriveField)
    requires DriveName(a) == DriveName(b)
    ensures a == b
  {
    var s, t := DriveName(a), DriveName(b);
    assert s[1] == t[1];
  }

  lemma ShareNamesDiffer(a: ShareField, b: ShareField)
    requires ShareName(a) == ShareName(b)
    ensures a == b
  {
    var s, t := ShareName(a), ShareName(b);
    assert |s| == |t| && s[1] == t[1] && s[2] == t[2];
  }

  lemma ForwardIsNoField(j: nat, f: NicField)
    ensures ForwardName(j) != NicName(f)
  {
    hide Dec;
    var s, t := ForwardName(j), NicName(f);
    assert s[1] == 'p' && s[8] == Dec(j)[0];
  }

  lemma ForwardNamesDiffer(i: nat, j: nat)
    requires ForwardName(i) == ForwardName(j)
    ensures i == j
  {
    hide Dec;
    assert ForwardName(i)[8..] == Dec(i) && ForwardName(j)[8..] == Dec(j);
    assert Dec(i) + "" == Dec(i) && Dec(j) + "" == Dec(j);
    NumberThenText(i, "", j, "");
  }

  /** What follows a NIC's own prefix is never taken for part of it. */
  lemma OwnersDiffer(a: Owner, s: string, b: Owner, t: string)
    requires EndsNumber(s) && EndsNumber(t) && OwnerName(a) + s == OwnerName(b) + t
    ensures a == b && s == t
  {
    hide Dec;
    var x, y := OwnerName(a) + s, OwnerName(b) + t;
    assert x[1] == y[1];
    assert a.Legacy? <==> b.Legacy?;
    if a.Numbered? {
      StripPrefix("nic", Dec(a.i), s, Dec(b.i), t);
      NumberThenText(a.i, s, b.i, t);
    } else {
      assert x[3..] == s && y[3..] == t;
    }
  }

  /** Which family a key's text belongs to. */
  function Family(k: Key): nat {
    match k
    case Scalar(_) => 0
    case NicKey(_, _) => 1
    case ForwardKey(_, _) => 1
    case DriveKey(_, _) => 2
    case ShareKey(_, _) => 3
  }

  /** The family shows in the text: what each starts with, and the digit that comes next. */
  function FamilyOf(s: string): nat {
    if |s| > 3 && s[0] == 'n' && (s[1] == 'e' || IsDigit(s[3])) then 1
    else if |s| > 5 && s[0] == 'd' && IsDigit(s[5]) then 2
    else if |s| > 2 && s[0] == 'p' && IsDigit(s[2]) then 3
    else 0
  }

  lemma FamilyShows(k: Key)
    ensures FamilyOf(Text(k)) == Family(k)
  {
    hide Dec;
    match k
    case Scalar(f) =>
    case NicKey(o, f) => OwnerShows(o, NicName(f));
    case ForwardKey(o, j) => OwnerShows(o, ForwardName(j));
    case DriveKey(i, f) => assert Text(k)[5] == Dec(i)[0];
    case ShareKey(i, f) => assert Text(k)[2] == Dec(i)[0];
  }

  lemma OwnerShows(o: Owner, s: string)
    requires s != ""
    ensures FamilyOf(OwnerName(o) + s) == 1
  {
    hide Dec;
    var t := OwnerName(o) + s;
    assert o.Numbered? ==> t[3] == Dec(o.i)[0];
  }

  /** No two keys share their text, so no entry of the header overwrites another. */
  lemma KeysDiffer(a: Key, b: Key)
    requires Text(a) == Text(b)
    ensures a == b
  {
    FamilyShows(a);
    FamilyShows(b);
    hide Dec, ScalarName, NicName, DriveName, ShareName, OwnerName, ForwardName, FamilyOf;
    match (a, b)
    case (Scalar(f), Scalar(g)) => ScalarsDiffer(f, g);
    case (NicKey(o, f), NicKey(p, g)) =>
      OwnersDiffer(o, NicName(f), p, NicName(g));
      NicNamesDiffer(f, g);
    case (NicKey(o, f), ForwardKey(p, j)) =>
      ForwardIsNoField(j, f);
      OwnersDiffer(o, NicName(f), p, ForwardName(j));
    case (ForwardKey(o, i), NicKey(p, g)) =>
      ForwardIsNoField(i, g);
      OwnersDiffer(o, ForwardName(i), p, NicName(g));
    case (ForwardKey(o, i), ForwardKey(p, j)) =>
      OwnersDiffer(o, ForwardName(i), p, ForwardName(j));
      ForwardNamesDiffer(i, j);
    case (DriveKey(i, f), DriveKey(j, g)) =>
      StripPrefix("drive", Dec(i), DriveName(f), Dec(j), DriveName(g));
      NumberThenText(i, DriveName(f), j, DriveName(g));
      DriveNamesDiffer(f, g);
    case (ShareKey(i, f), ShareKey(j, g)) =>
      StripPrefix("p9", Dec(i), ShareName(f), Dec(j), ShareName(g));
      NumberThenText(i, ShareName(f), j, ShareName(g));
      ShareNamesDiffer(f, g);
    case _ =>
  }

  lemma StripPrefix(prefix: string, a: string, s: string, b: string, t: string)
    requires prefix + a + s == prefix + b + t
    ensures a + s == b + t
  {
    assert (prefix + a + s)[|prefix|..] == a + s && (prefix + b + t)[|prefix|..] == b + t;
  }

  // ---- The header ----

  type Header = map<string, string>

  function Get(h: Header, k: Key): Option<string> { if Text(k) in h then Some(h[Text(k)]) else None }

  function Put(h: Header, k: Key, v: string): (r: Header)
    ensures forall other :: Get(r, other) == if other == k then Some(v) else Get(h, other)
  {
    assert forall other :: Text(other) == Text(k) ==> other == k by {
      forall other | Text(other) == Text(k) ensures other == k { KeysDiffer(other, k); }
    }
    h[Text(k) := v]
  }

  /** The keys' text, as older snapshots have it too. */
  lemma KeyTexts()
    ensures Text(NicKey(Numbered(0), Mac)) == "nic0_mac" && Text(NicKey(Legacy, Mac)) == "net_mac"
    ensures Text(ForwardKey(Numbered(1), 2)) == "nic1_portfwd2" && Text(DriveKey(0, Path)) == "drive0_path"
    ensures Text(ShareKey(1, Tag)) == "p91_tag" && Text(Scalar(VcpuCount)) == "vcpu_count"
  {
    SmallDecimals();
    hide Dec;
  }
}
