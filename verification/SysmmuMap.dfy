/**
map and unmap of a SysMMU domain as functions on the page table, and their
refinement: each has exactly the effect of updating a plain map from IOVA pages to
physical pages.
*/
module SysmmuMap {
  import opened Arith
  import opened Common
  import opened SysmmuPte
  import opened SysmmuTable

  datatype Err = OK | EADDRINUSE | ENOMEM

  predicate PageSize(size: nat) { size == SPAGE_SIZE || size == LPAGE_SIZE || size == SECT_SIZE }

  // An operation on `size` bytes at iova: what the IOMMU core guarantees its driver.
  predicate Request(iova: nat, size: nat) { PageSize(size) && iova % size == 0 && iova < TWO32 }

  function Sec(iova: nat): nat { iova / SECT_SIZE }
  function Idx(iova: nat): nat { iova % SECT_SIZE / SPAGE_SIZE }

  // Page p lies in the `size` bytes at iova.
  predicate InRange(p: nat, iova: nat, size: nat) {
    iova / SPAGE_SIZE <= p < iova / SPAGE_SIZE + size / SPAGE_SIZE
  }

  lemma IovaSplit(iova: nat)
    ensures iova / SPAGE_SIZE == 256 * Sec(iova) + Idx(iova) && Idx(iova) < 256
    ensures iova < TWO32 ==> Sec(iova) < NUM_LV1ENTRIES
  {
    var r := iova % SECT_SIZE;
    Peel(r % SPAGE_SIZE, SPAGE_SIZE, 256 * Sec(iova) + r / SPAGE_SIZE);
  }

  lemma IdxAligned(iova: nat, size: nat)
    requires Request(iova, size)
    ensures size == SECT_SIZE ==> Idx(iova) == 0
    ensures size == LPAGE_SIZE ==> Idx(iova) % 16 == 0 && Idx(iova) + 16 <= 256
  {
    if size == LPAGE_SIZE {
      var q := iova / LPAGE_SIZE;
      assert iova == LPAGE_SIZE * q;
      assert iova % SECT_SIZE == LPAGE_SIZE * (q % 16) by {
        Peel(LPAGE_SIZE * (q % 16), SECT_SIZE, q / 16);
      }
      Peel(0, SPAGE_SIZE, 16 * (q % 16));
      assert Idx(iova) == 16 * (q % 16);
    }
  }

  // A range of at most a section, by section and index.
  lemma RangeInSection(p: nat, iova: nat, size: nat)
    requires Request(iova, size)
    ensures InRange(p, iova, size) <==>
      p / 256 == Sec(iova) && Idx(iova) <= p % 256 < Idx(iova) + size / SPAGE_SIZE
    ensures Idx(iova) + size / SPAGE_SIZE <= 256
  {
    IovaSplit(iova);
    IdxAligned(iova, size);
  }

  // ----- second-level entries -----

  function TableOf(pt: Pt, sec: nat): seq<nat>
    requires sec < |pt.lv1| && TableBase(pt.lv1[sec]) in pt.tables
  {
    pt.tables[TableBase(pt.lv1[sec])]
  }

  predicate AllFree(t: seq<nat>, idx: nat, n: nat)
    requires idx + n <= |t|
  {
    forall i :: idx <= i < idx + n ==> Lv2Unmapped(t[i])
  }

  // The group of a free entry holds no large page.
  lemma FillSmallOk(t: seq<nat>, idx: nat, e: nat)
    requires TableOk(t) && idx < 256 && t[idx] == 0 && IsSmall(e)
    ensures TableOk(Fill(t, idx, 1, e))
  {
    var u := Fill(t, idx, 1, e);
    FillAt(t, idx, 1, e);
    FlagsDiffer(e);
    FlagsDiffer(0);
    hide IsSmall, IsLarge, Fill;
    forall i | 0 <= i < 256 && (IsLarge(u[i]) || IsLarge(u[Leader(i)]))
      ensures u[i] == u[Leader(i)]
    {
      assert Leader(Leader(i)) == Leader(i);
    }
  }

  lemma FillLargeOk(t: seq<nat>, idx: nat, e: nat)
    requires TableOk(t) && idx + 16 <= 256 && idx % 16 == 0 && IsLarge(e)
    ensures TableOk(Fill(t, idx, 16, e))
  {
    var u := Fill(t, idx, 16, e);
    FillAt(t, idx, 16, e);
    hide IsSmall, IsLarge, Fill;
    forall i | 0 <= i < 256 && (IsLarge(u[i]) || IsLarge(u[Leader(i)]))
      ensures u[i] == u[Leader(i)]
    {
      assert idx <= i < idx + 16 <==> idx <= Leader(i) < idx + 16;
    }
  }

  // The range [idx, idx + n) cuts no large page in two.
  ghost predicate CutsNone(t: seq<nat>, idx: nat, n: nat)
    requires |t| == 256 && idx + n <= 256
  {
    forall i :: 0 <= i < 256 && IsLarge(t[i]) ==> (idx <= i < idx + n <==> idx <= Leader(i) < idx + n)
  }

  lemma FillZeroOk(t: seq<nat>, idx: nat, n: nat)
    requires TableOk(t) && idx + n <= 256 && CutsNone(t, idx, n)
    ensures TableOk(Fill(t, idx, n, 0))
  {
    var u := Fill(t, idx, n, 0);
    FillAt(t, idx, n, 0);
    FlagsDiffer(0);
    hide IsSmall, IsLarge, Fill;
    forall i | 0 <= i < 256 && (IsLarge(u[i]) || IsLarge(u[Leader(i)]))
      ensures u[i] == u[Leader(i)]
    {
      assert t[i] == t[Leader(i)];
    }
  }

  // ----- map -----

  // The second-level table for sec, allocated at `base` if there is none yet.
  function WithTable(pt: Pt, sec: nat, base: nat): Pt
    requires sec < |pt.lv1| && sec < |pt.cnt|
  {
    if Lv1Unmapped(pt.lv1[sec]) then NewTable(pt, sec, base) else pt
  }

  // n entries of the table of sec, all free before, set to e and counted.
  function SetPages(pt: Pt, sec: nat, idx: nat, n: nat, e: nat): Pt
    requires sec < |pt.lv1| && sec < |pt.cnt| && TableBase(pt.lv1[sec]) in pt.tables
    requires idx + n <= |TableOf(pt, sec)|
  {
    PutTable(pt, sec, Fill(TableOf(pt, sec), idx, n, e), pt.cnt[sec] + n)
  }

  /** Setting free second-level entries maps exactly those pages and keeps the counter. */
  lemma SetPagesKeeps(pt: Pt, sec: nat, idx: nat, n: nat, e: nat)
    requires Wf(pt) && sec < NUM_LV1ENTRIES && IsPage(pt.lv1[sec]) && e != 0
    requires EntryOk(pt, sec) && TableBase(pt.lv1[sec]) in pt.tables
    requires idx + n <= 256 && |TableOf(pt, sec)| == 256 && AllFree(TableOf(pt, sec), idx, n)
    requires TableOk(Fill(TableOf(pt, sec), idx, n, e))
    ensures Wf(SetPages(pt, sec, idx, n, e)) && SameElsewhere(pt, SetPages(pt, sec, idx, n, e), sec)
    ensures NoLeak(pt) ==> NoLeak(SetPages(pt, sec, idx, n, e))
    ensures forall p: nat :: p / 256 == sec ==>
      Translate(SetPages(pt, sec, idx, n, e), p)
        == if idx <= p % 256 < idx + n then Leaf(e, p % 256) else Translate(pt, p)
  {
    var t := TableOf(pt, sec);
    FlagsAt(pt.lv1[sec]);
    ZeroSlice(t, idx, n);
    CountFill(t, idx, n, e);
    FillAt(t, idx, n, e);
    PutTableKeeps(pt, sec, Fill(t, idx, n, e), pt.cnt[sec] + n);
    hide TableOk, Count, TableBase, IsPage, IsSection, Leaf, Fill, Wf, NoLeak, PutTable;
  }

  lemma ZeroSlice(t: seq<nat>, idx: nat, n: nat)
    requires TableOk(t) && idx + n <= 256 && AllFree(t, idx, n)
    ensures Count(t[idx..idx + n]) == 0
  {
    CountBounds(t[idx..idx + n]);
  }

  ghost predicate AllocOk(pt: Pt, alloc: Option<nat>) {
    alloc.Some? ==> alloc.value % 1024 == 0 && alloc.value < TWO36 && alloc.value !in pt.tables
  }

  // IOMMU_CACHE and IOMMU_PRIV of a request.
  datatype Prot = Prot(cache: bool, priv: bool)

  // A privileged mapping is never coherent.
  function Effective(prot: Prot): Prot { if prot.priv then prot.(cache := false) else prot }

  function Attr(prot: Prot, bit: nat): nat { if Effective(prot).cache then bit else 0 }

  // lv1set_section
  function MapSection(pt: Pt, sec: nat, e: nat): (Pt, Err)
    requires sec < |pt.lv1| && sec < |pt.cnt|
  {
    if IsSection(pt.lv1[sec]) || (IsPage(pt.lv1[sec]) && pt.cnt[sec] != 0) then (pt, EADDRINUSE)
    else (SetSection(pt, sec, e), OK)
  }

  // alloc_lv2entry and lv2set_page
  ghost function MapPages(pt: Pt, sec: nat, idx: nat, n: nat, e: nat, alloc: Option<nat>): (Pt, Err)
    requires Wf(pt) && sec < NUM_LV1ENTRIES && idx + n <= 256 && AllocOk(pt, alloc)
  {
    assert EntryOk(pt, sec);
    if IsSection(pt.lv1[sec]) then (pt, EADDRINUSE)
    else if Lv1Unmapped(pt.lv1[sec]) && alloc.None? then (pt, ENOMEM)
    else
      var pt1 := WithTable(pt, sec, if alloc.Some? then alloc.value else 0);
      HasTable(pt, sec, alloc);
      if AllFree(TableOf(pt1, sec), idx, n) then (SetPages(pt1, sec, idx, n, e), OK) else (pt1, EADDRINUSE)
  }

  lemma HasTable(pt: Pt, sec: nat, alloc: Option<nat>)
    requires Wf(pt) && sec < NUM_LV1ENTRIES && AllocOk(pt, alloc)
    requires !IsSection(pt.lv1[sec]) && (Lv1Unmapped(pt.lv1[sec]) ==> alloc.Some?)
    ensures var pt1 := WithTable(pt, sec, if alloc.Some? then alloc.value else 0);
      && Wf(pt1) && (NoLeak(pt) ==> NoLeak(pt1))
      && IsPage(pt1.lv1[sec]) && TableBase(pt1.lv1[sec]) in pt1.tables && TableOk(TableOf(pt1, sec))
      && forall p: nat :: Translate(pt1, p) == Translate(pt, p)
  {
    assert EntryOk(pt, sec);
    if Lv1Unmapped(pt.lv1[sec]) {
      FlagsAt(pt.lv1[sec]);
      NewTableKeeps(pt, sec, alloc.value);
      EmptyTable();
    }
  }

  ghost function MapOp(pt: Pt, iova: nat, paddr: nat, size: nat, prot: Prot, alloc: Option<nat>): (Pt, Err)
    requires Wf(pt) && Request(iova, size) && AllocOk(pt, alloc)
  {
    IovaSplit(iova);
    IdxAligned(iova, size);
    if size == SECT_SIZE then MapSection(pt, Sec(iova), MakePte(paddr, SECT_FLAG, Attr(prot, FLPD_SHAREABLE)))
    else if size == SPAGE_SIZE then
      MapPages(pt, Sec(iova), Idx(iova), 1, MakePte(paddr, SPAGE_FLAG, Attr(prot, SLPD_SHAREABLE)), alloc)
    else
      MapPages(pt, Sec(iova), Idx(iova), 16, MakePte(paddr, LPAGE_FLAG, Attr(prot, SLPD_SHAREABLE)), alloc)
  }

  // Some page of [idx, idx + n) in section sec is mapped.
  ghost predicate InUse(pt: Pt, sec: nat, idx: nat, n: nat) {
    exists p: nat :: p / 256 == sec && idx <= p % 256 < idx + n && Translate(pt, p).Some?
  }

  lemma InUseAt(pt: Pt, sec: nat, idx: nat, n: nat, i: nat)
    requires idx <= i < idx + n && i < 256 && Translate(pt, 256 * sec + i).Some?
    ensures InUse(pt, sec, idx, n)
  {
    Peel(i, 256, sec);
    var p := 256 * sec + i;
    assert p / 256 == sec && p % 256 == i;
  }

  // Pages of a section with a table are mapped where the table has entries.
  lemma PageMapped(pt: Pt, sec: nat, i: nat)
    requires Wf(pt) && sec < NUM_LV1ENTRIES && IsPage(pt.lv1[sec]) && i < 256
    ensures TableBase(pt.lv1[sec]) in pt.tables && TableOk(TableOf(pt, sec))
    ensures Translate(pt, 256 * sec + i).Some? <==> TableOf(pt, sec)[i] != 0
    ensures TableOf(pt, sec)[i] != 0 <==> !Lv2Unmapped(TableOf(pt, sec)[i])
  {
    assert EntryOk(pt, sec);
    FlagsAt(pt.lv1[sec]);
    Peel(i, 256, sec);
    assert (256 * sec + i) / 256 == sec && (256 * sec + i) % 256 == i;
    assert Leaf(0, i) == None;
    hide Count, TableBase;
  }

  /** Mapping a section fails exactly when some page of it is mapped, and otherwise maps its 256 pages. */
  lemma MapSectionRefines(pt: Pt, sec: nat, e: nat)
    requires Wf(pt) && sec < NUM_LV1ENTRIES && IsSection(e)
    ensures var (pt', err) := MapSection(pt, sec, e);
      && Wf(pt') && (NoLeak(pt) ==> NoLeak(pt')) && SameElsewhere(pt, pt', sec)
      && (err == EADDRINUSE <==> InUse(pt, sec, 0, 256)) && err != ENOMEM
      && (err != OK ==> pt' == pt)
      && (err == OK ==>
            forall p: nat :: p / 256 == sec ==> Translate(pt', p) == Some(SectionPhys(e) + p % 256 * SPAGE_SIZE))
  {
    SetSectionKeeps(pt, sec, e);
    assert EntryOk(pt, sec);
    var c := pt.lv1[sec];
    FlagsAt(c);
    hide SetSection, Wf, NoLeak, SectionPhys;
    if IsSection(c) {
      Peel(0, 256, sec);
      assert (256 * sec) / 256 == sec;
      InUseAt(pt, sec, 0, 256, 0);
    } else if IsPage(c) {
      var t := TableOf(pt, sec);
      CountBounds(t);
      forall i | 0 <= i < 256 ensures Translate(pt, 256 * sec + i).Some? <==> t[i] != 0 {
        PageMapped(pt, sec, i);
      }
      if pt.cnt[sec] != 0 {
        var i :| 0 <= i < 256 && t[i] != 0;
        InUseAt(pt, sec, 0, 256, i);
      } else {
        forall p: nat | p / 256 == sec ensures Translate(pt, p).None? {
          assert p == 256 * sec + p % 256;
        }
      }
    }
  }

  /** Mapping 1 or 16 pages fails exactly when some of them is mapped or a needed table cannot be had; a
      failure, also half-way through a 64K page, changes no translation. */
  lemma MapPagesRefines(pt: Pt, sec: nat, idx: nat, n: nat, e: nat, alloc: Option<nat>)
    requires Wf(pt) && sec < NUM_LV1ENTRIES && idx + n <= 256 && n >= 1 && AllocOk(pt, alloc)
    requires (n == 1 && IsSmall(e)) || (n == 16 && idx % 16 == 0 && IsLarge(e))
    ensures var (pt', err) := MapPages(pt, sec, idx, n, e, alloc);
      && Wf(pt') && (NoLeak(pt) ==> NoLeak(pt')) && SameElsewhere(pt, pt', sec)
      && (err == EADDRINUSE <==> InUse(pt, sec, idx, n))
      && (err == ENOMEM <==> pt.lv1[sec] == 0 && alloc.None?)
      && (forall p: nat :: p / 256 == sec ==>
            Translate(pt', p) == if err == OK && idx <= p % 256 < idx + n then Leaf(e, p % 256) else Translate(pt, p))
  {
    assert EntryOk(pt, sec);
    var c := pt.lv1[sec];
    FlagsAt(c);
    if IsSection(c) {
      Peel(idx, 256, sec);
      InUseAt(pt, sec, idx, n, idx);
    } else if Lv1Unmapped(c) && alloc.None? {
      assert forall p: nat :: p / 256 == sec ==> Translate(pt, p).None?;
    } else {
      HasTable(pt, sec, alloc);
      var pt1 := WithTable(pt, sec, if alloc.Some? then alloc.value else 0);
      TableInUse(pt1, sec, idx, n);
      InUseSame(pt, pt1, sec, idx, n);
      if AllFree(TableOf(pt1, sec), idx, n) {
        assert EntryOk(pt1, sec);
        if n == 1 {
          FillSmallOk(TableOf(pt1, sec), idx, e);
        } else {
          FillLargeOk(TableOf(pt1, sec), idx, e);
        }
        hide IsSmall, IsLarge, Leaf, Lv1Unmapped, WithTable;
        SetPagesKeeps(pt1, sec, idx, n, e);
      }
    }
  }

  lemma InUseSame(pt: Pt, pt1: Pt, sec: nat, idx: nat, n: nat)
    requires forall p: nat :: Translate(pt1, p) == Translate(pt, p)
    ensures InUse(pt, sec, idx, n) == InUse(pt1, sec, idx, n)
  {
    hide Translate;
  }

  lemma TableInUse(pt: Pt, sec: nat, idx: nat, n: nat)
    requires Wf(pt) && sec < NUM_LV1ENTRIES && IsPage(pt.lv1[sec]) && idx + n <= 256
    requires TableBase(pt.lv1[sec]) in pt.tables && |TableOf(pt, sec)| == 256
    ensures InUse(pt, sec, idx, n) <==> !AllFree(TableOf(pt, sec), idx, n)
  {
    var t := TableOf(pt, sec);
    hide Translate, Wf, TableOf, IsPage, TableOk, Lv2Unmapped;
    forall i | 0 <= i < 256 ensures Translate(pt, 256 * sec + i).Some? <==> !Lv2Unmapped(t[i]) {
      PageMapped(pt, sec, i);
    }
    if !AllFree(t, idx, n) {
      var i :| idx <= i < idx + n && !Lv2Unmapped(t[i]);
      InUseAt(pt, sec, idx, n, i);
    }
    if InUse(pt, sec, idx, n) {
      var p: nat :| p / 256 == sec && idx <= p % 256 < idx + n && Translate(pt, p).Some?;
      assert p == 256 * sec + p % 256;
      assert !Lv2Unmapped(t[p % 256]);
    }
  }

  // The pages of a request are in use.
  ghost predicate RangeInUse(pt: Pt, iova: nat, size: nat) {
    exists p: nat :: InRange(p, iova, size) && Translate(pt, p).Some?
  }

  lemma RangeInUseSplit(pt: Pt, iova: nat, size: nat)
    requires Request(iova, size)
    ensures RangeInUse(pt, iova, size) <==> InUse(pt, Sec(iova), Idx(iova), size / SPAGE_SIZE)
  {
    hide Translate, InRange, Sec, Idx;
    forall p: nat ensures InRange(p, iova, size) <==>
      p / 256 == Sec(iova) && Idx(iova) <= p % 256 < Idx(iova) + size / SPAGE_SIZE
    {
      RangeInSection(p, iova, size);
    }
  }

  // pt' is pt with the range mapped to consecutive pages from paddr, when err is OK.
  ghost predicate Maps(pt: Pt, pt': Pt, iova: nat, size: nat, paddr: nat, err: Err) {
    forall p: nat :: Translate(pt', p) ==
      if err == OK && InRange(p, iova, size) then Some(paddr + (p - iova / SPAGE_SIZE) * SPAGE_SIZE)
      else Translate(pt, p)
  }

  /** Refinement of map: it adds exactly the pages of the range, at consecutive addresses decoded from their
      entries, or changes no translation; it reports EADDRINUSE exactly when a page of the range is mapped. */
  lemma MapRefines(pt: Pt, iova: nat, paddr: nat, size: nat, prot: Prot, alloc: Option<nat>)
    requires Wf(pt) && Request(iova, size) && AllocOk(pt, alloc) && paddr % size == 0 && paddr < TWO36
    ensures var (pt', err) := MapOp(pt, iova, paddr, size, prot, alloc);
      && Wf(pt') && (NoLeak(pt) ==> NoLeak(pt'))
      && (err == EADDRINUSE <==> RangeInUse(pt, iova, size))
      && (err == ENOMEM <==> Sec(iova) < |pt.lv1| && pt.lv1[Sec(iova)] == 0 && size != SECT_SIZE && alloc.None?)
      && Maps(pt, pt', iova, size, paddr, err)
  {
    IovaSplit(iova);
    IdxAligned(iova, size);
    RangeInUseSplit(pt, iova, size);
    var sec, idx := Sec(iova), Idx(iova);
    var (pt', err) := MapOp(pt, iova, paddr, size, prot, alloc);
    ghost var e;
    if size == SECT_SIZE {
      e := MakePte(paddr, SECT_FLAG, Attr(prot, FLPD_SHAREABLE));
      SectionRoundTrip(paddr, Attr(prot, FLPD_SHAREABLE));
      MapSectionRefines(pt, sec, e);
    } else if size == SPAGE_SIZE {
      e := MakePte(paddr, SPAGE_FLAG, Attr(prot, SLPD_SHAREABLE));
      SmallRoundTrip(paddr, Attr(prot, SLPD_SHAREABLE));
      MapPagesRefines(pt, sec, idx, 1, e, alloc);
    } else {
      e := MakePte(paddr, LPAGE_FLAG, Attr(prot, SLPD_SHAREABLE));
      LargeRoundTrip(paddr, Attr(prot, SLPD_SHAREABLE));
      MapPagesRefines(pt, sec, idx, 16, e, alloc);
    }
    hide MakePte, MapOp, MapPages, MapSection, Wf, NoLeak, Translate, IsSection, IsSmall, IsLarge, Leaf, Idx, Sec,
      InRange, SectionPhys, LpagePhys, SpagePhys;
    forall p: nat ensures Translate(pt', p) ==
      if err == OK && InRange(p, iova, size) then Some(paddr + (p - iova / SPAGE_SIZE) * SPAGE_SIZE)
      else Translate(pt, p)
    {
      RangeInSection(p, iova, size);
      if InRange(p, iova, size) {
        Consecutive(p, iova, size, e, paddr);
      }
    }
  }

  lemma Consecutive(p: nat, iova: nat, size: nat, e: nat, paddr: nat)
    requires Request(iova, size) && InRange(p, iova, size)
    requires size == SPAGE_SIZE ==> IsSmall(e) && SpagePhys(e) == paddr
    requires size == LPAGE_SIZE ==> IsLarge(e) && LpagePhys(e) == paddr
    requires size == SECT_SIZE ==> SectionPhys(e) == paddr
    ensures p >= iova / SPAGE_SIZE
    ensures var phys := paddr + (p - iova / SPAGE_SIZE) * SPAGE_SIZE;
      if size == SECT_SIZE then SectionPhys(e) + p % 256 * SPAGE_SIZE == phys else Leaf(e, p % 256) == Some(phys)
  {
    RangeInSection(p, iova, size);
    IovaSplit(iova);
    IdxAligned(iova, size);
    FlagsDiffer(e);
    hide IsSmall, IsLarge, SectionPhys, LpagePhys, SpagePhys, Sec, Idx;
  }
}
