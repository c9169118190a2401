/**
Page table entries of the SysMMU: encoding (make_sysmmu_pte) and decoding macros of
drivers/iommu/samsung-iommu.h. Entries and addresses are integers; masks are
remainders, and `|` of fields that do not overlap is a sum.
*/
module SysmmuPte {
  import opened Arith
  import opened Common

  const TWO36 := 0x10_0000_0000

  const SECT_SIZE := 0x10_0000
  const LPAGE_SIZE := 0x1_0000
  const SPAGE_SIZE := 0x1000
  const NUM_LV1ENTRIES := 4096
  const NUM_LV2ENTRIES := 256
  const SPAGES_PER_LPAGE := 16

  const SECT_FLAG := 2
  const SLPD_FLAG := 1
  const LPAGE_FLAG := 1
  const SPAGE_FLAG := 2
  const FLPD_SHAREABLE := 64
  const SLPD_SHAREABLE := 16

  predicate IsSection(e: nat) { e % 8 == SECT_FLAG }
  predicate IsPage(e: nat) { e % 8 == SLPD_FLAG }
  predicate IsSmall(e: nat) { e % 4 == SPAGE_FLAG }
  predicate IsLarge(e: nat) { e % 4 == LPAGE_FLAG }
  predicate Lv1Unmapped(e: nat) { e % 8 == 0 }
  predicate Lv2Unmapped(e: nat) { e % 4 == 0 }

  function TableBase(e: nat): nat { (e - e % 64) * 16 }
  function SectionPhys(e: nat): nat { (e - e % 0x1_0000) * 16 }
  function LpagePhys(e: nat): nat { (e - e % 0x1000) * 16 }
  function SpagePhys(e: nat): nat { (e - e % 0x100) * 16 }

  // (sysmmu_pte_t)(paddr >> 4) | flag | attr, for page- or table-aligned addresses.
  function MakePte(paddr: nat, flag: nat, attr: nat): nat {
    paddr / 16 % TWO32 + flag + attr
  }

  // What an entry made for the q-th unit of 16 * unit bytes looks like to the masks.
  lemma EntryBits(unit: nat, q: nat, flag: nat, attr: nat)
    requires unit >= 1 && 16 * (unit * q) < TWO36 && flag + attr < unit
    ensures var e := MakePte(16 * (unit * q), flag, attr);
      e == unit * q + (flag + attr) && e - e % unit == unit * q
  {
    var v := unit * q;
    Peel(0, 16, v);
    Peel(v, TWO32, 0);
    Peel(flag + attr, unit, q);
  }

  lemma FlagBits(k: nat, t: nat, low: nat)
    requires k >= 1
    ensures (k * t + low) % k == low % k
  {
    ModAdd(low, k, t);
  }

  /** A section entry decodes as a section at the address it was made for. */
  lemma SectionRoundTrip(paddr: nat, attr: nat)
    requires paddr % SECT_SIZE == 0 && paddr < TWO36 && (attr == 0 || attr == FLPD_SHAREABLE)
    ensures var e := MakePte(paddr, SECT_FLAG, attr); IsSection(e) && SectionPhys(e) == paddr
  {
    var q := paddr / SECT_SIZE;
    EntryBits(0x1_0000, q, SECT_FLAG, attr);
    FlagBits(8, 0x2000 * q, SECT_FLAG + attr);
  }

  lemma LargeRoundTrip(paddr: nat, attr: nat)
    requires paddr % LPAGE_SIZE == 0 && paddr < TWO36 && (attr == 0 || attr == SLPD_SHAREABLE)
    ensures var e := MakePte(paddr, LPAGE_FLAG, attr); IsLarge(e) && LpagePhys(e) == paddr
  {
    var q := paddr / LPAGE_SIZE;
    EntryBits(0x1000, q, LPAGE_FLAG, attr);
    FlagBits(4, 0x400 * q, LPAGE_FLAG + attr);
  }

  lemma SmallRoundTrip(paddr: nat, attr: nat)
    requires paddr % SPAGE_SIZE == 0 && paddr < TWO36 && (attr == 0 || attr == SLPD_SHAREABLE)
    ensures var e := MakePte(paddr, SPAGE_FLAG, attr); IsSmall(e) && SpagePhys(e) == paddr
  {
    var q := paddr / SPAGE_SIZE;
    EntryBits(0x100, q, SPAGE_FLAG, attr);
    FlagBits(4, 0x40 * q, SPAGE_FLAG + attr);
  }

  /** An entry made for a second-level table decodes to that table. */
  lemma TableRoundTrip(base: nat)
    requires base % 1024 == 0 && base < TWO36
    ensures var e := MakePte(base, SLPD_FLAG, 0); IsPage(e) && TableBase(e) == base
  {
    var q := base / 1024;
    EntryBits(64, q, SLPD_FLAG, 0);
    FlagBits(8, 8 * q, SLPD_FLAG);
  }
}
