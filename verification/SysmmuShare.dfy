/**
The shareable attribute of mappings: the bit of the page table entry that holds a page,
as the SysMMU reads it, after a map request with or without IOMMU_CACHE and IOMMU_PRIV.
*/
module SysmmuShare {
  import opened Arith
  import opened Common
  import opened SysmmuPte
  import opened SysmmuTable
  import opened SysmmuMap

  // The entry that translates a page.
  datatype Holder = Nothing | InSection(e: nat) | InTable(e: nat)

  function LeafHolder(e: nat): Holder { if IsLarge(e) || IsSmall(e) then InTable(e) else Nothing }

  function HolderIn(e: nat, tables: map<nat, seq<nat>>, idx: nat): Holder {
    if IsSection(e) then InSection(e)
    else if IsPage(e) && TableBase(e) in tables && idx < |tables[TableBase(e)]| then
      LeafHolder(tables[TableBase(e)][idx])
    else Nothing
  }

  function HolderOf(pt: Pt, p: nat): Holder {
    if p / 256 < |pt.lv1| then HolderIn(pt.lv1[p / 256], pt.tables, p % 256) else Nothing
  }

  // Bit 6 of a first-level and bit 4 of a second-level entry.
  function Shareable(h: Holder): Option<bool> {
    match h
    case Nothing => None
    case InSection(e) => Some(e / 64 % 2 == 1)
    case InTable(e) => Some(e / 16 % 2 == 1)
  }

  lemma HolderMaps(pt: Pt, p: nat)
    ensures HolderOf(pt, p) == Nothing <==> Translate(pt, p) == None
  {
    hide IsLarge, IsSmall, IsSection, IsPage, TableBase;
  }

  lemma PutTableHolders(pt: Pt, sec: nat, t: seq<nat>, c: int)
    requires Wf(pt) && sec < NUM_LV1ENTRIES && IsPage(pt.lv1[sec]) && |t| == 256
    ensures forall p: nat ::
      HolderOf(PutTable(pt, sec, t, c), p) == if p / 256 == sec then LeafHolder(t[p % 256]) else HolderOf(pt, p)
  {
    FlagsAt(pt.lv1[sec]);
    hide TableOk, Count, TableBase, IsPage, IsSection, LeafHolder;
    var pt' := PutTable(pt, sec, t, c);
    forall p: nat | p / 256 != sec ensures HolderOf(pt', p) == HolderOf(pt, p) {
      if p / 256 < NUM_LV1ENTRIES { assert EntryOk(pt, p / 256); }
    }
  }

  lemma SetSectionHolders(pt: Pt, sec: nat, e: nat)
    requires Wf(pt) && sec < NUM_LV1ENTRIES && IsSection(e)
    ensures forall p: nat ::
      HolderOf(SetSection(pt, sec, e), p) == if p / 256 == sec then InSection(e) else HolderOf(pt, p)
  {
    hide TableOk, Count, TableBase, IsPage, IsSection, LeafHolder;
    var pt' := SetSection(pt, sec, e);
    forall p: nat | p / 256 != sec ensures HolderOf(pt', p) == HolderOf(pt, p) {
      if p / 256 < NUM_LV1ENTRIES { assert EntryOk(pt, p / 256); FlagsAt(pt.lv1[p / 256]); }
    }
  }

  lemma WithTableHolders(pt: Pt, sec: nat, alloc: Option<nat>)
    requires Wf(pt) && sec < NUM_LV1ENTRIES && AllocOk(pt, alloc)
    requires !IsSection(pt.lv1[sec]) && (Lv1Unmapped(pt.lv1[sec]) ==> alloc.Some?)
    ensures var pt1 := WithTable(pt, sec, if alloc.Some? then alloc.value else 0);
      forall p: nat :: HolderOf(pt1, p) == HolderOf(pt, p)
  {
    assert EntryOk(pt, sec);
    FlagsAt(pt.lv1[sec]);
    FlagsDiffer(0);
    if Lv1Unmapped(pt.lv1[sec]) {
      var base := alloc.value;
      TableRoundTrip(base);
      assert LeafHolder(0) == Nothing;
      hide TableOk, Count, TableBase, IsPage, IsSection, LeafHolder, MakePte;
      var pt1 := NewTable(pt, sec, base);
      FlagsAt(pt1.lv1[sec]);
      forall p: nat ensures HolderOf(pt1, p) == HolderOf(pt, p) {
        if p / 256 < NUM_LV1ENTRIES { assert EntryOk(pt, p / 256); FlagsAt(pt.lv1[p / 256]); }
      }
    }
  }

  // pt' has entry h for n pages of section sec from idx on, and pt's entries elsewhere.
  ghost predicate Puts(pt: Pt, pt': Pt, sec: nat, idx: nat, n: nat, h: Holder) {
    forall p: nat :: HolderOf(pt', p) == if p / 256 == sec && idx <= p % 256 < idx + n then h else HolderOf(pt, p)
  }

  lemma MapPagesHolders(pt: Pt, sec: nat, idx: nat, n: nat, e: nat, alloc: Option<nat>)
    requires Wf(pt) && sec < NUM_LV1ENTRIES && idx + n <= 256 && AllocOk(pt, alloc) && (IsSmall(e) || IsLarge(e))
    ensures var (pt', err) := MapPages(pt, sec, idx, n, e, alloc);
      Puts(pt, pt', sec, idx, if err == OK then n else 0, InTable(e))
  {
    assert EntryOk(pt, sec);
    FlagsAt(pt.lv1[sec]);
    if !IsSection(pt.lv1[sec]) && (Lv1Unmapped(pt.lv1[sec]) ==> alloc.Some?) {
      HasTable(pt, sec, alloc);
      WithTableHolders(pt, sec, alloc);
      var pt1 := WithTable(pt, sec, if alloc.Some? then alloc.value else 0);
      hide Wf, TableOk, TableBase, IsPage, IsSection, WithTable, NoLeak, Translate;
      if AllFree(TableOf(pt1, sec), idx, n) {
        SetPagesHolders(pt1, sec, idx, n, e);
      }
      hide SetPages, HolderOf, IsSmall, IsLarge, AllFree;
    }
  }

  lemma SetPagesHolders(pt: Pt, sec: nat, idx: nat, n: nat, e: nat)
    requires Wf(pt) && sec < NUM_LV1ENTRIES && IsPage(pt.lv1[sec]) && TableBase(pt.lv1[sec]) in pt.tables
    requires TableOk(TableOf(pt, sec)) && idx + n <= 256 && (IsSmall(e) || IsLarge(e))
    ensures Puts(pt, SetPages(pt, sec, idx, n, e), sec, idx, n, InTable(e))
  {
    var t := TableOf(pt, sec);
    FlagsAt(pt.lv1[sec]);
    FillAt(t, idx, n, e);
    PutTableHolders(pt, sec, Fill(t, idx, n, e), pt.cnt[sec] + n);
    hide Wf, TableOk, TableBase, IsPage, IsSection, Fill, PutTable, IsSmall, IsLarge;
  }

  // The shareable bit of the entries a map request makes.
  lemma EntryShares(paddr: nat, prot: Prot)
    requires paddr < TWO36
    ensures var coherent := prot.cache && !prot.priv;
      && (paddr % SECT_SIZE == 0 ==>
            var e := MakePte(paddr, SECT_FLAG, Attr(prot, FLPD_SHAREABLE));
            IsSection(e) && Shareable(InSection(e)) == Some(coherent))
      && (paddr % SPAGE_SIZE == 0 ==>
            var e := MakePte(paddr, SPAGE_FLAG, Attr(prot, SLPD_SHAREABLE));
            IsSmall(e) && Shareable(InTable(e)) == Some(coherent))
      && (paddr % LPAGE_SIZE == 0 ==>
            var e := MakePte(paddr, LPAGE_FLAG, Attr(prot, SLPD_SHAREABLE));
            IsLarge(e) && Shareable(InTable(e)) == Some(coherent))
  {
    if paddr % SECT_SIZE == 0 {
      SectionRoundTrip(paddr, Attr(prot, FLPD_SHAREABLE));
      EntryBits(0x1_0000, paddr / SECT_SIZE, SECT_FLAG, Attr(prot, FLPD_SHAREABLE));
      BitOf(64, 0x200 * (paddr / SECT_SIZE), SECT_FLAG, Attr(prot, FLPD_SHAREABLE) / 64);
    }
    if paddr % SPAGE_SIZE == 0 {
      SmallRoundTrip(paddr, Attr(prot, SLPD_SHAREABLE));
      EntryBits(0x100, paddr / SPAGE_SIZE, SPAGE_FLAG, Attr(prot, SLPD_SHAREABLE));
      BitOf(16, 8 * (paddr / SPAGE_SIZE), SPAGE_FLAG, Attr(prot, SLPD_SHAREABLE) / 16);
    }
    if paddr % LPAGE_SIZE == 0 {
      LargeRoundTrip(paddr, Attr(prot, SLPD_SHAREABLE));
      EntryBits(0x1000, paddr / LPAGE_SIZE, LPAGE_FLAG, Attr(prot, SLPD_SHAREABLE));
      BitOf(16, 0x80 * (paddr / LPAGE_SIZE), LPAGE_FLAG, Attr(prot, SLPD_SHAREABLE) / 16);
    }
    hide MakePte, IsSection, IsSmall, IsLarge;
  }

  lemma BitOf(unit: nat, q: nat, low: nat, bit: nat)
    requires low < unit && bit < 2
    ensures (2 * unit * q + low + unit * bit) / unit % 2 == bit
  {
    assert 2 * unit * q + low + unit * bit == low + unit * (2 * q + bit);
    Peel(low, unit, 2 * q + bit);
  }

  /** A map request that succeeds makes every page of its range shareable exactly when it asks for IOMMU_CACHE and
      not for IOMMU_PRIV, and leaves the attribute of every other page; one that fails leaves all. */
  lemma MapShares(pt: Pt, iova: nat, paddr: nat, size: nat, prot: Prot, alloc: Option<nat>)
    requires Wf(pt) && Request(iova, size) && AllocOk(pt, alloc) && paddr % size == 0 && paddr < TWO36
    ensures var (pt', err) := MapOp(pt, iova, paddr, size, prot, alloc);
      forall p: nat :: Shareable(HolderOf(pt', p))
        == if err == OK && InRange(p, iova, size) then Some(prot.cache && !prot.priv) else Shareable(HolderOf(pt, p))
  {
    IovaSplit(iova);
    IdxAligned(iova, size);
    EntryShares(paddr, prot);
    var sec, idx := Sec(iova), Idx(iova);
    var (pt', err) := MapOp(pt, iova, paddr, size, prot, alloc);
    ghost var h;
    if size == SECT_SIZE {
      var e := MakePte(paddr, SECT_FLAG, Attr(prot, FLPD_SHAREABLE));
      SetSectionHolders(pt, sec, e);
      h := InSection(e);
    } else if size == SPAGE_SIZE {
      h := InTable(MakePte(paddr, SPAGE_FLAG, Attr(prot, SLPD_SHAREABLE)));
      MapPagesHolders(pt, sec, idx, 1, h.e, alloc);
    } else {
      h := InTable(MakePte(paddr, LPAGE_FLAG, Attr(prot, SLPD_SHAREABLE)));
      MapPagesHolders(pt, sec, idx, 16, h.e, alloc);
    }
    assert Puts(pt, pt', sec, idx, if err == OK then size / SPAGE_SIZE else 0, h);
    hide MakePte, MapOp, Wf, HolderOf, IsSection, IsSmall, IsLarge, Sec, Idx, InRange;
    forall p: nat ensures Shareable(HolderOf(pt', p))
      == if err == OK && InRange(p, iova, size) then Some(prot.cache && !prot.priv) else Shareable(HolderOf(pt, p))
    {
      RangeInSection(p, iova, size);
    }
  }
}
