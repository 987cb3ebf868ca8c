/** Guest RAM: one host buffer, mapped at guest address 0 and, past the PCI window, at 4 GiB. */
module GuestRam {
  import opened Arith
  import opened Basics

  const MMIO_WINDOW_BASE := 0xE000_0000
  const HIGH_RAM_BASE := 0x1_0000_0000
  const PAGE := 4096

  function AlignUp(v: nat, a: nat): (r: nat)
    requires a > 0
    ensures r % a == 0 && v <= r < v + a
  {
    var k := (v + a - 1) / a;
    DivBounds(v + a - 1, a);
    DivMod(k, 0, a, k * a);
    MulLe(0, k, a);
    k * a
  }

  /** Where guest addresses lie in a host buffer of `size` bytes: the first `low` at 0, the rest at `high`. */
  datatype RamMap = RamMap(size: nat, low: nat, high: nat) {
    predicate Valid() { low <= size && low <= high }

    /** The host offset of [gpa, gpa + len), which must lie in one of the two regions. */
    function Offset(gpa: nat, len: nat): (r: Option<nat>)
      requires Valid()
      ensures r.Some? ==> r.value + len <= size
    {
      if gpa < low then
        if len <= low - gpa then Some(gpa) else None
      else if low < size && gpa >= high && gpa - high < size - low && len <= size - low - (gpa - high) then
        Some(low + (gpa - high))
      else None
    }

    predicate Mapped(gpa: nat)
      requires Valid()
    {
      gpa < low || high <= gpa < high + (size - low)
    }

    ghost predicate AllMapped(gpa: nat, len: nat)
      requires Valid()
    {
      forall a :: gpa <= a < gpa + len ==> Mapped(a)
    }

    /** One region, or two with the PCI window between them: all that is ever allocated. */
    predicate Built() { Valid() && (low == size || (low == MMIO_WINDOW_BASE && high == HIGH_RAM_BASE)) }
  }

  /** RAM of a given size, allocated in whole pages (or large pages) of `granule` bytes. */
  function MapFor(ramBytes: nat, granule: nat): (m: RamMap)
    requires granule > 0
    ensures m.Built()
  {
    var size := AlignUp(ramBytes, granule);
    if ramBytes <= MMIO_WINDOW_BASE then RamMap(size, size, size)
    else RamMap(size, MMIO_WINDOW_BASE, HIGH_RAM_BASE)
  }

  /**
   * A range translates exactly when each of its bytes is mapped and it does not
   * run from one region into the other, which it cannot when there is a hole
   * between them or there is only one.
   */
  lemma RangeIsMapped(m: RamMap, gpa: nat, len: nat)
    requires m.Valid() && len > 0
    ensures m.Offset(gpa, len).Some? <==> m.AllMapped(gpa, len) && (gpa < m.low ==> gpa + len <= m.low)
    ensures (m.low < m.high || m.low == m.size) && m.AllMapped(gpa, len) ==> (gpa < m.low ==> gpa + len <= m.low)
  {
    if m.AllMapped(gpa, len) {
      assert m.Mapped(gpa) && m.Mapped(gpa + len - 1);
      if gpa < m.low < gpa + len {
        assert m.Mapped(m.low);
      }
    }
  }

  /** Below the PCI window, a range is RAM exactly when it ends by the top of the first region. */
  lemma LowRange(m: RamMap, gpa: nat, len: nat)
    requires m.Built() && len > 0 && gpa + len <= MMIO_WINDOW_BASE
    ensures m.Offset(gpa, len) == if gpa + len <= m.low then Some(gpa) else None
  {
  }

  /** RAM beyond the first region is found at 4 GiB, right after it in the host's memory. */
  lemma HighRange(m: RamMap, k: nat, len: nat)
    requires m.Valid() && m.low < m.size && m.low + k + len <= m.size && m.low + k < m.size
    ensures m.Offset(m.high + k, len) == Some(m.low + k)
  {
  }

  /** Part of a range translates to the same part of its host bytes. */
  lemma SubRange(m: RamMap, gpa: nat, len: nat, at: nat, n: nat)
    requires m.Valid() && m.Offset(gpa, len).Some? && at + n <= len && at < len
    ensures m.Offset(gpa + at, n) == Some(m.Offset(gpa, len).value + at)
  {
  }

  /** Different guest bytes have different host bytes. */
  lemma NoAliases(m: RamMap, a: nat, b: nat)
    requires m.Valid() && m.Offset(a, 1).Some? && m.Offset(a, 1) == m.Offset(b, 1)
    ensures a == b
  {
  }

  function Spliced(s: seq<byte>, at: nat, data: seq<byte>): (r: seq<byte>)
    requires at + |data| <= |s|
    ensures |r| == |s|
  {
    s[..at] + data + s[at + |data|..]
  }

  class GuestMemory {
    const store: array<byte>
    const ranges: RamMap

    predicate Valid() { ranges.Valid() && store.Length == ranges.size }

    constructor (ramBytes: nat, granule: nat)
      requires granule > 0
      ensures Valid() && fresh(store) && ranges == MapFor(ramBytes, granule)
    {
      ranges := MapFor(ramBytes, granule);
      store := new byte[AlignUp(ramBytes, granule)](_ => 0);
    }

    /** What is written where the guest sees `gpa`; false when the range is not all RAM. */
    method WriteAt(gpa: nat, src: seq<byte>) returns (ok: bool)
      requires Valid()
      modifies store
      ensures ok <==> src == [] || ranges.Offset(gpa, |src|).Some?
      ensures store[..] ==
        if ok && src != [] then Spliced(old(store[..]), ranges.Offset(gpa, |src|).value, src) else old(store[..])
    {
      if src == [] {
        return true;
      }
      var off := ranges.Offset(gpa, |src|);
      if off.None? {
        return false;
      }
      forall k | off.value <= k < off.value + |src| {
        store[k] := src[k - off.value];
      }
      ok := true;
    }
  }
}
