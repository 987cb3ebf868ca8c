/** The guest's memory map, as its firmware would report it. */
module E820 {
  import opened Arith
  import opened Basics
  import opened GuestRam

  const BOOT_ARTIFACT_END := 0x1_0000
  const ISA_HOLE_START := 0xA_0000
  const ISA_HOLE_END := 0x10_0000
  const E820_RAM := 1
  const E820_RESERVED := 2

  datatype Entry = Entry(addr: nat, size: nat, kind: nat) {
    function End(): nat { addr + size }

    predicate Has(a: nat) { addr <= a < End() }
  }

  function LowTop(ramBytes: nat): nat { Min(ramBytes, MMIO_WINDOW_BASE) }

  function MemoryMap(ramBytes: nat): seq<Entry> {
    [Entry(0, BOOT_ARTIFACT_END, E820_RESERVED),
     Entry(BOOT_ARTIFACT_END, ISA_HOLE_START - BOOT_ARTIFACT_END, E820_RAM),
     Entry(ISA_HOLE_START, ISA_HOLE_END - ISA_HOLE_START, E820_RESERVED)]
    + (if LowTop(ramBytes) > ISA_HOLE_END then [Entry(ISA_HOLE_END, LowTop(ramBytes) - ISA_HOLE_END, E820_RAM)] else [])
    + (if ramBytes > MMIO_WINDOW_BASE then [Entry(HIGH_RAM_BASE, ramBytes - MMIO_WINDOW_BASE, E820_RAM)] else [])
  }

  function Total(entries: seq<Entry>): nat {
    if entries == [] then 0 else Total(entries[..|entries| - 1]) + entries[|entries| - 1].size
  }

  lemma TotalSnoc(entries: seq<Entry>, e: Entry)
    ensures Total(entries + [e]) == Total(entries) + e.size
  {
    assert (entries + [e])[..|entries|] == entries;
  }

  lemma TotalOfThree(a: Entry, b: Entry, c: Entry)
    ensures Total([a, b, c]) == a.size + b.size + c.size
  {
    TotalSnoc([], a);
    TotalSnoc([a], b);
    TotalSnoc([a, b], c);
    assert [a, b] + [c] == [a, b, c] && [a] + [b] == [a, b] && [] + [a] == [a];
  }

  /** The entries add up to the RAM size exactly when there is RAM at least up to 1 MiB. */
  lemma SizesAddUp(ramBytes: nat)
    ensures Total(MemoryMap(ramBytes)) == ramBytes <==> ramBytes >= ISA_HOLE_END
    ensures Total(MemoryMap(ramBytes)) == Max(ramBytes, ISA_HOLE_END)
  {
    hide Total;
    var m := MemoryMap(ramBytes);
    var fixed := m[..3];
    TotalOfThree(m[0], m[1], m[2]);
    assert fixed == [m[0], m[1], m[2]];
    assert Total(fixed) == ISA_HOLE_END;
    if LowTop(ramBytes) > ISA_HOLE_END {
      TotalSnoc(fixed, m[3]);
      assert m[..4] == fixed + [m[3]];
      if ramBytes > MMIO_WINDOW_BASE {
        TotalSnoc(m[..4], m[4]);
        assert m == m[..4] + [m[4]];
      } else {
        assert m == m[..4];
      }
    } else {
      assert m == fixed;
    }
  }

  /** Sorted, apart, not empty, and clear of the window where device registers go. */
  lemma SortedAndClear(ramBytes: nat)
    ensures |MemoryMap(ramBytes)| <= 5
    ensures forall i, j :: 0 <= i < j < |MemoryMap(ramBytes)| ==> MemoryMap(ramBytes)[i].End() <= MemoryMap(ramBytes)[j].addr
    ensures forall e :: e in MemoryMap(ramBytes) ==> e.size > 0 && (e.End() <= MMIO_WINDOW_BASE || HIGH_RAM_BASE <= e.addr)
  {
  }

  ghost predicate ListedAs(ramBytes: nat, a: nat, kind: nat) {
    exists e :: e in MemoryMap(ramBytes) && e.Has(a) && e.kind == kind
  }

  /** What is not for the guest's use: the boot data and the ISA hole. */
  predicate SetAside(a: nat) { a < 0x1_0000 || 0xA_0000 <= a < 0x10_0000 }

  /** Memory allocated beyond the RAM size, when that is not a whole number of granules. */
  predicate Surplus(ramBytes: nat, granule: nat, a: nat)
    requires granule > 0
  {
    var size := AlignUp(ramBytes, granule);
    if ramBytes <= MMIO_WINDOW_BASE then ramBytes <= a < size
    else ramBytes <= a - HIGH_RAM_BASE + MMIO_WINDOW_BASE < size
  }

  /** The map lists as RAM exactly the mapped memory not set aside or in surplus, and as reserved exactly what is set aside. */
  lemma MapIsExact(ramBytes: nat, granule: nat, a: nat)
    requires ramBytes >= ISA_HOLE_END && granule > 0
    ensures ListedAs(ramBytes, a, E820_RAM) <==> MapFor(ramBytes, granule).Mapped(a) && !SetAside(a) && !Surplus(ramBytes, granule, a)
    ensures ListedAs(ramBytes, a, E820_RESERVED) <==> SetAside(a)
    ensures ramBytes % granule == 0 ==> !Surplus(ramBytes, granule, a)
  {
    hide AlignUp;
    if ramBytes % granule == 0 {
      AlignedUp(ramBytes, granule);
    }
    var m := MemoryMap(ramBytes);
    assert forall e :: e in m ==> e == m[0] || e == m[1] || e == m[2] || e.addr >= ISA_HOLE_END;
    if a < BOOT_ARTIFACT_END {
      assert m[0].Has(a);
    } else if a < ISA_HOLE_START {
      assert m[1].Has(a);
    } else if a < ISA_HOLE_END {
      assert m[2].Has(a);
    } else if a < LowTop(ramBytes) {
      assert m[3].Has(a);
    } else if HIGH_RAM_BASE <= a < HIGH_RAM_BASE + (ramBytes - MMIO_WINDOW_BASE) {
      assert m[4].Has(a);
    }
  }

  lemma AlignedUp(v: nat, a: nat)
    requires a > 0 && v % a == 0
    ensures AlignUp(v, a) == v
  {
    var k := v / a;
    assert v == k * a;
    DivMod(k, a - 1, a, v + a - 1);
  }
}
