/**
unmap, unmap_pages and iova_to_phys of a SysMMU domain as functions on the page
table, and their refinement of a plain map from IOVA pages to physical pages.
*/
module SysmmuUnmap {
  import opened Arith
  import opened Common
  import opened SysmmuPte
  import opened SysmmuTable
  import opened SysmmuMap

  // Enough of Wf for every update to be defined; counters may be off.
  ghost predicate Shape(pt: Pt) {
    && |pt.lv1| == NUM_LV1ENTRIES && |pt.cnt| == NUM_LV1ENTRIES
    && forall i :: 0 <= i < NUM_LV1ENTRIES && IsPage(pt.lv1[i]) ==> HasTableAt(pt, i)
  }

  ghost predicate HasTableAt(pt: Pt, i: nat)
    requires i < |pt.lv1|
  {
    TableBase(pt.lv1[i]) in pt.tables && |pt.tables[TableBase(pt.lv1[i])]| == 256
  }

  lemma WfShape(pt: Pt)
    requires Wf(pt)
    ensures Shape(pt)
  {
    hide TableBase, IsPage, IsSection, Count;
    forall i | 0 <= i < NUM_LV1ENTRIES && IsPage(pt.lv1[i]) ensures HasTableAt(pt, i) {
      assert EntryOk(pt, i);
      FlagsAt(pt.lv1[i]);
    }
  }

  // clear_and_flush_pgtable on a second-level table: n entries cleared, n subtracted.
  function ClearPages(pt: Pt, sec: nat, idx: nat, n: nat): Pt
    requires sec < |pt.lv1| && sec < |pt.cnt| && TableBase(pt.lv1[sec]) in pt.tables
    requires idx + n <= |TableOf(pt, sec)|
  {
    PutTable(pt, sec, Fill(TableOf(pt, sec), idx, n, 0), pt.cnt[sec] - n)
  }

  ghost predicate AllMapped(t: seq<nat>, idx: nat, n: nat)
    requires idx + n <= |t|
  {
    forall i :: idx <= i < idx + n ==> t[i] != 0
  }

  /** The counter of a table is right after clearing n entries exactly when all n were mapped: the driver
      subtracts n without looking. */
  lemma ClearCounterExact(t: seq<nat>, c: int, idx: nat, n: nat)
    requires idx + n <= |t| && c == Count(t)
    ensures c - n == Count(Fill(t, idx, n, 0)) <==> AllMapped(t, idx, n)
  {
    CountFill(t, idx, n, 0);
    SliceCount(t, idx, n);
  }

  lemma SliceCount(t: seq<nat>, idx: nat, n: nat)
    requires idx + n <= |t|
    ensures Count(t[idx..idx + n]) == n <==> AllMapped(t, idx, n)
  {
    var u := t[idx..idx + n];
    CountBounds(u);
    assert forall i :: idx <= i < idx + n ==> t[i] == u[i - idx];
  }

  ghost predicate Clearable(pt: Pt, sec: nat, idx: nat, n: nat) {
    && sec < |pt.lv1| && IsPage(pt.lv1[sec]) && TableBase(pt.lv1[sec]) in pt.tables
    && |TableOf(pt, sec)| == 256 && idx + n <= 256
    && AllMapped(TableOf(pt, sec), idx, n) && CutsNone(TableOf(pt, sec), idx, n)
  }

  /** Clearing mapped second-level entries unmaps exactly those pages. */
  lemma ClearPagesKeeps(pt: Pt, sec: nat, idx: nat, n: nat)
    requires Wf(pt) && sec < NUM_LV1ENTRIES && Clearable(pt, sec, idx, n)
    ensures Wf(ClearPages(pt, sec, idx, n)) && SameElsewhere(pt, ClearPages(pt, sec, idx, n), sec)
    ensures NoLeak(pt) ==> NoLeak(ClearPages(pt, sec, idx, n))
    ensures forall p: nat :: p / 256 == sec ==>
      Translate(ClearPages(pt, sec, idx, n), p) == if idx <= p % 256 < idx + n then None else Translate(pt, p)
  {
    var t := TableOf(pt, sec);
    assert TableOk(t) && pt.cnt[sec] == Count(t) by { assert EntryOk(pt, sec); FlagsAt(pt.lv1[sec]); }
    forall p: nat | p / 256 == sec ensures Translate(pt, p) == Leaf(t[p % 256], p % 256) { TableLeaf(pt, sec, p); }
    LeafZero();
    ClearCounterExact(t, pt.cnt[sec], idx, n);
    FillAt(t, idx, n, 0);
    FillZeroOk(t, idx, n);
    PutTableKeeps(pt, sec, Fill(t, idx, n, 0), pt.cnt[sec] - n);
    hide TableOk, Count, TableBase, IsPage, IsSection, Leaf, Fill, Wf, NoLeak, PutTable, AllMapped, CutsNone, Translate;
  }

  lemma TableLeaf(pt: Pt, sec: nat, p: nat)
    requires sec < |pt.lv1| && IsPage(pt.lv1[sec]) && TableBase(pt.lv1[sec]) in pt.tables
    requires |TableOf(pt, sec)| == 256 && p / 256 == sec
    ensures Translate(pt, p) == Leaf(TableOf(pt, sec)[p % 256], p % 256)
  {
    FlagsAt(pt.lv1[sec]);
    hide TableBase, IsPage, IsSection, Leaf;
  }

  lemma LeafZero()
    ensures forall i: nat :: Leaf(0, i) == None
  {
  }

  // ----- unmap -----

  ghost function UnmapOp(pt: Pt, iova: nat, size: nat): (Pt, nat)
    requires Wf(pt) && Request(iova, size)
  {
    IovaSplit(iova);
    IdxAligned(iova, size);
    var sec, idx := Sec(iova), Idx(iova);
    assert EntryOk(pt, sec);
    if IsSection(pt.lv1[sec]) then (if size < SECT_SIZE then (pt, 0) else (PutEntry(pt, sec, 0), SECT_SIZE))
    else if Lv1Unmapped(pt.lv1[sec]) then (pt, size)
    else
      var e := TableOf(pt, sec)[idx];
      if Lv2Unmapped(e) then (pt, SPAGE_SIZE)
      else if IsSmall(e) then (ClearPages(pt, sec, idx, 1), SPAGE_SIZE)
      else if size < LPAGE_SIZE then (pt, 0)
      else (ClearPages(pt, sec, idx, 16), LPAGE_SIZE)
  }

  // pt' is pt without the pages of `size` bytes at iova.
  ghost predicate Unmaps(pt: Pt, pt': Pt, iova: nat, size: nat) {
    forall p: nat :: Translate(pt', p) == if InRange(p, iova, size) then None else Translate(pt, p)
  }

  lemma SmallClearable(pt: Pt, sec: nat, idx: nat)
    requires Wf(pt) && sec < NUM_LV1ENTRIES && IsPage(pt.lv1[sec]) && idx < 256
    requires TableBase(pt.lv1[sec]) in pt.tables && TableOk(TableOf(pt, sec)) && IsSmall(TableOf(pt, sec)[idx])
    ensures Clearable(pt, sec, idx, 1)
  {
    FlagsDiffer(TableOf(pt, sec)[idx]);
    FlagsDiffer(0);
    hide IsSmall, IsLarge, TableBase, Wf;
  }

  lemma LargeClearable(pt: Pt, sec: nat, idx: nat)
    requires Wf(pt) && sec < NUM_LV1ENTRIES && IsPage(pt.lv1[sec]) && idx + 16 <= 256 && idx % 16 == 0
    requires TableBase(pt.lv1[sec]) in pt.tables && TableOk(TableOf(pt, sec)) && IsLarge(TableOf(pt, sec)[idx])
    ensures Clearable(pt, sec, idx, 16)
  {
    var t := TableOf(pt, sec);
    FlagsDiffer(0);
    hide IsSmall, IsLarge, TableBase, Wf;
    forall i | idx <= i < idx + 16 ensures t[i] != 0 {
      assert Leader(i) == idx;
      assert t[i] == t[Leader(i)];
    }
    forall i | 0 <= i < 256 && IsLarge(t[i]) ensures idx <= i < idx + 16 <==> idx <= Leader(i) < idx + 16 {
    }
  }

  // Dropping n pages from idx on in section sec is dropping the range at iova.
  lemma UnmapsSection(pt: Pt, pt': Pt, iova: nat, size: nat, n: nat)
    requires Request(iova, size) && n * SPAGE_SIZE == size
    requires SameElsewhere(pt, pt', Sec(iova))
    requires forall p: nat :: p / 256 == Sec(iova) ==>
      Translate(pt', p) == if Idx(iova) <= p % 256 < Idx(iova) + n then None else Translate(pt, p)
    ensures Unmaps(pt, pt', iova, size)
  {
    hide Translate, InRange, Sec, Idx;
    forall p: nat ensures Translate(pt', p) == if InRange(p, iova, size) then None else Translate(pt, p) {
      RangeInSection(p, iova, size);
    }
  }

  lemma RequestLess(iova: nat, size: nat, less: nat)
    requires Request(iova, size) && PageSize(less) && less <= size
    ensures Request(iova, less)
  {
    if size == SECT_SIZE {
      assert iova == SECT_SIZE * (iova / SECT_SIZE);
      Peel(0, LPAGE_SIZE, 16 * (iova / SECT_SIZE));
      Peel(0, SPAGE_SIZE, 256 * (iova / SECT_SIZE));
    } else if size == LPAGE_SIZE {
      assert iova == LPAGE_SIZE * (iova / LPAGE_SIZE);
      Peel(0, SPAGE_SIZE, 16 * (iova / LPAGE_SIZE));
    }
  }

  /** Refinement of unmap: it removes exactly the pages of the size it reports, which is a page size of at
      most the requested one; when it reports 0 it changes nothing. */
  lemma UnmapRefines(pt: Pt, iova: nat, size: nat)
    requires Wf(pt) && Request(iova, size)
    ensures var (pt', r) := UnmapOp(pt, iova, size);
      && Wf(pt') && (NoLeak(pt) ==> NoLeak(pt'))
      && (r == 0 ==> pt' == pt && Translate(pt, iova / SPAGE_SIZE).Some?)
      && (r != 0 ==> PageSize(r) && r <= size && Unmaps(pt, pt', iova, r))
  {
    IovaSplit(iova);
    IdxAligned(iova, size);
    var sec, idx := Sec(iova), Idx(iova);
    assert EntryOk(pt, sec);
    FlagsAt(pt.lv1[sec]);
    if IsSection(pt.lv1[sec]) {
      if size == SECT_SIZE {
        ClearEntryKeeps(pt, sec);
        UnmapsSection(pt, PutEntry(pt, sec, 0), iova, SECT_SIZE, 256);
      }
    } else if Lv1Unmapped(pt.lv1[sec]) {
      assert forall p: nat :: p / 256 == sec ==> Translate(pt, p).None?;
      UnmapsSection(pt, pt, iova, size, size / SPAGE_SIZE);
    } else {
      UnmapPageRefines(pt, iova, size);
    }
  }

  lemma UnmapPageRefines(pt: Pt, iova: nat, size: nat)
    requires Wf(pt) && Request(iova, size) && Sec(iova) < NUM_LV1ENTRIES && IsPage(pt.lv1[Sec(iova)])
    ensures var (pt', r) := UnmapOp(pt, iova, size);
      && Wf(pt') && (NoLeak(pt) ==> NoLeak(pt'))
      && (r == 0 ==> pt' == pt && Translate(pt, iova / SPAGE_SIZE).Some?)
      && (r != 0 ==> PageSize(r) && r <= size && Unmaps(pt, pt', iova, r))
  {
    IovaSplit(iova);
    IdxAligned(iova, size);
    var sec, idx := Sec(iova), Idx(iova);
    assert EntryOk(pt, sec);
    FlagsAt(pt.lv1[sec]);
    var t := TableOf(pt, sec);
    var e := t[idx];
    FlagsDiffer(e);
    RequestLess(iova, size, SPAGE_SIZE);
    PageMapped(pt, sec, idx);
    if e == 0 {
      forall p: nat | p / 256 == sec && idx <= p % 256 < idx + 1 ensures Translate(pt, p) == None {
        assert p == 256 * sec + idx;
      }
      UnmapsSection(pt, pt, iova, SPAGE_SIZE, 1);
    } else if IsSmall(e) {
      SmallClearable(pt, sec, idx);
      ClearPagesKeeps(pt, sec, idx, 1);
      hide Wf, Translate, ClearPages, IsSmall, IsLarge;
      UnmapsSection(pt, ClearPages(pt, sec, idx, 1), iova, SPAGE_SIZE, 1);
    } else if size >= LPAGE_SIZE {
      RequestLess(iova, size, LPAGE_SIZE);
      IdxAligned(iova, LPAGE_SIZE);
      LargeClearable(pt, sec, idx);
      ClearPagesKeeps(pt, sec, idx, 16);
      hide Wf, Translate, ClearPages, IsSmall, IsLarge;
      UnmapsSection(pt, ClearPages(pt, sec, idx, 16), iova, LPAGE_SIZE, 16);
    }
  }

  // Size of the mapping that holds an address, 0 if it is not mapped.
  ghost function HeldBy(pt: Pt, iova: nat): nat
    requires Wf(pt) && iova < TWO32
  {
    IovaSplit(iova);
    var e := pt.lv1[Sec(iova)];
    assert EntryOk(pt, Sec(iova));
    if IsSection(e) then SECT_SIZE
    else if !IsPage(e) then 0
    else
      var x := TableOf(pt, Sec(iova))[Idx(iova)];
      if IsLarge(x) then LPAGE_SIZE else if IsSmall(x) then SPAGE_SIZE else 0
  }

  // The section of an address has neither a mapping nor a table.
  predicate EmptyAt(pt: Pt, iova: nat) { Sec(iova) < |pt.lv1| && pt.lv1[Sec(iova)] == 0 }

  /** What unmap reports: 0 exactly when the address lies in a mapping larger than requested; the size of the
      mapping it lies in, all of which it has removed; and where nothing is mapped the size asked for if the
      section is empty, and otherwise one page, so that a caller goes on at the next. */
  lemma UnmapReports(pt: Pt, iova: nat, size: nat)
    requires Wf(pt) && Request(iova, size)
    ensures var r := UnmapOp(pt, iova, size).1;
      && (r == 0 <==> HeldBy(pt, iova) > size)
      && (0 < HeldBy(pt, iova) <= size ==> r == HeldBy(pt, iova))
      && (HeldBy(pt, iova) == 0 ==> r == if EmptyAt(pt, iova) then size else SPAGE_SIZE)
    ensures HeldBy(pt, iova) == 0 <==> Translate(pt, iova / SPAGE_SIZE).None?
  {
    IovaSplit(iova);
    var sec, idx := Sec(iova), Idx(iova);
    assert EntryOk(pt, sec);
    FlagsAt(pt.lv1[sec]);
    if IsPage(pt.lv1[sec]) {
      FlagsDiffer(TableOf(pt, sec)[idx]);
      PageMapped(pt, sec, idx);
    }
    hide TableBase, Count;
  }

  // ----- iova_to_phys -----

  function IovaToPhys(pt: Pt, iova: nat): nat
    requires |pt.lv1| == NUM_LV1ENTRIES && iova < TWO32
  {
    IovaSplit(iova);
    var e := pt.lv1[Sec(iova)];
    if IsSection(e) then SectionPhys(e) + iova % SECT_SIZE
    else if IsPage(e) && TableBase(e) in pt.tables && Idx(iova) < |pt.tables[TableBase(e)]| then
      var x := pt.tables[TableBase(e)][Idx(iova)];
      if IsLarge(x) then LpagePhys(x) + iova % LPAGE_SIZE
      else if IsSmall(x) then SpagePhys(x) + iova % SPAGE_SIZE
      else 0
    else 0
  }

  lemma OffsetSplit(iova: nat)
    ensures iova % SECT_SIZE == Idx(iova) * SPAGE_SIZE + iova % SPAGE_SIZE
    ensures iova % LPAGE_SIZE == Idx(iova) % 16 * SPAGE_SIZE + iova % SPAGE_SIZE
  {
    var q, r := iova / SPAGE_SIZE, iova % SPAGE_SIZE;
    IovaSplit(iova);
    Peel(Idx(iova) * SPAGE_SIZE + r, SECT_SIZE, Sec(iova));
    var i := Idx(iova);
    Peel(i % 16 * SPAGE_SIZE + r, LPAGE_SIZE, 16 * Sec(iova) + i / 16);
  }

  /** iova_to_phys agrees with the abstract translation at every IOVA, offset included; unmapped gives 0. */
  lemma IovaToPhysRefines(pt: Pt, iova: nat)
    requires |pt.lv1| == NUM_LV1ENTRIES && iova < TWO32
    ensures IovaToPhys(pt, iova) ==
            match Translate(pt, iova / SPAGE_SIZE)
            case Some(phys) => phys + iova % SPAGE_SIZE
            case None => 0
  {
    IovaSplit(iova);
    OffsetSplit(iova);
    var p := iova / SPAGE_SIZE;
    Peel(Idx(iova), 256, Sec(iova));
    assert p / 256 == Sec(iova) && p % 256 == Idx(iova);
    hide SectionPhys, LpagePhys, SpagePhys, TableBase, IsSection, IsPage, IsLarge, IsSmall, Sec, Idx;
  }

  // ----- unmap_pages -----

  lemma ClearPagesShape(pt: Pt, sec: nat, idx: nat, n: nat)
    requires Shape(pt) && sec < NUM_LV1ENTRIES && IsPage(pt.lv1[sec]) && idx + n <= 256
    ensures HasTableAt(pt, sec) && Shape(ClearPages(pt, sec, idx, n)) && ClearPages(pt, sec, idx, n).lv1 == pt.lv1
  {
    assert HasTableAt(pt, sec);
    FillAt(TableOf(pt, sec), idx, n, 0);
    hide TableBase, IsPage, Fill;
    var pt' := ClearPages(pt, sec, idx, n);
    forall i | 0 <= i < NUM_LV1ENTRIES && IsPage(pt'.lv1[i]) ensures HasTableAt(pt', i) {
      assert HasTableAt(pt, i);
    }
  }

  // End of the part of pages [p, q) that lies in the section of p.
  function SectionEnd(p: nat, q: nat): nat { Min((p / 256 + 1) * 256, q) }

  // unmap_slpt on pages [p, q): sections without a table are skipped.
  ghost function UnmapSlptOp(pt: Pt, p: nat, q: nat): (r: Pt)
    requires Shape(pt) && q <= PAGES
    ensures Shape(r) && r.lv1 == pt.lv1
    decreases q - p
  {
    if p >= q then pt
    else
      var sec, stop := p / 256, SectionEnd(p, q);
      if !IsPage(pt.lv1[sec]) then UnmapSlptOp(pt, stop, q)
      else
        ClearPagesShape(pt, sec, p % 256, stop - p);
        UnmapSlptOp(ClearPages(pt, sec, p % 256, stop - p), stop, q)
  }

  // Page x is mapped through a table, and its mapping lies inside [p, q).
  ghost predicate Covers(pt: Pt, x: nat, p: nat, q: nat) {
    && x / 256 < |pt.lv1| && IsPage(pt.lv1[x / 256]) && HasTableAt(pt, x / 256)
    && var e := TableOf(pt, x / 256)[x % 256];
       e != 0 && (IsLarge(e) ==> p <= x - x % 16 && x - x % 16 + 16 <= q)
  }

  ghost predicate Covered(pt: Pt, p: nat, q: nat) {
    forall x: nat :: p <= x < q ==> Covers(pt, x, p, q)
  }

  lemma CoveredAt(pt: Pt, sec: nat, i: nat, p: nat, q: nat)
    requires Covered(pt, p, q) && i < 256 && p <= 256 * sec + i < q
    ensures sec < |pt.lv1| && IsPage(pt.lv1[sec]) && HasTableAt(pt, sec)
    ensures var e := TableOf(pt, sec)[i];
      e != 0 && (IsLarge(e) ==> p <= 256 * sec + Leader(i) && 256 * sec + Leader(i) + 16 <= q)
  {
    var x := 256 * sec + i;
    Peel(i, 256, sec);
    assert x / 256 == sec && x % 256 == i;
    ModAdd(i, 16, 16 * sec);
    assert x % 16 == i % 16;
    assert Covers(pt, x, p, q);
  }

  lemma CoveredClearable(pt: Pt, p: nat, q: nat)
    requires Wf(pt) && Covered(pt, p, q) && p < q <= PAGES
    ensures p < SectionEnd(p, q) <= q && p % 256 + (SectionEnd(p, q) - p) <= 256
    ensures Clearable(pt, p / 256, p % 256, SectionEnd(p, q) - p)
  {
    var sec, idx, n := p / 256, p % 256, SectionEnd(p, q) - p;
    CoveredAt(pt, sec, idx, p, q);
    assert EntryOk(pt, sec);
    FlagsAt(pt.lv1[sec]);
    var t := TableOf(pt, sec);
    hide TableBase, IsPage, IsLarge, IsSmall, Covered, Wf;
    forall i | idx <= i < idx + n ensures t[i] != 0 {
      CoveredAt(pt, sec, i, p, q);
    }
    forall i | 0 <= i < 256 && IsLarge(t[i]) ensures idx <= i < idx + n <==> idx <= Leader(i) < idx + n {
      assert t[i] == t[Leader(i)];
      if idx <= i < idx + n {
        CoveredAt(pt, sec, i, p, q);
      }
      if idx <= Leader(i) < idx + n {
        CoveredAt(pt, sec, Leader(i), p, q);
        assert Leader(Leader(i)) == Leader(i);
      }
    }
  }

  // Clearing the pages of one section leaves the tables of the others.
  lemma CoveredRest(pt: Pt, p: nat, q: nat)
    requires Wf(pt) && Covered(pt, p, q) && p < q <= PAGES && Clearable(pt, p / 256, p % 256, SectionEnd(p, q) - p)
    ensures Covered(ClearPages(pt, p / 256, p % 256, SectionEnd(p, q) - p), SectionEnd(p, q), q)
  {
    var sec, stop := p / 256, SectionEnd(p, q);
    var pt' := ClearPages(pt, sec, p % 256, stop - p);
    hide TableBase, IsPage, IsLarge, IsSmall, Fill;
    forall x: nat | stop <= x < q ensures Covers(pt', x, stop, q) {
      assert Covers(pt, x, p, q);
      assert x / 256 != sec;
      assert EntryOk(pt, sec) && EntryOk(pt, x / 256);
      assert TableOf(pt', x / 256) == TableOf(pt, x / 256);
      LeaderBeyond(x, sec + 1);
    }
  }

  lemma LeaderBeyond(x: nat, s: nat)
    requires 256 * s <= x
    ensures 256 * s <= x - x % 16
  {
    var r := x - 256 * s;
    ModAdd(r, 16, 16 * s);
    assert r + 16 * (16 * s) == x;
  }

  /** unmap_slpt over a range that is fully mapped by small and whole large pages, across any number of
      sections, removes exactly that range and keeps every counter. */
  lemma {:induction false} UnmapSlptRefines(pt: Pt, p: nat, q: nat)
    requires Wf(pt) && Covered(pt, p, q) && q <= PAGES
    ensures Shape(pt)
    ensures Wf(UnmapSlptOp(pt, p, q)) && (NoLeak(pt) ==> NoLeak(UnmapSlptOp(pt, p, q)))
    ensures forall x: nat :: Translate(UnmapSlptOp(pt, p, q), x) == if p <= x < q then None else Translate(pt, x)
    decreases q - p
  {
    WfShape(pt);
    if p < q {
      var sec, stop := p / 256, SectionEnd(p, q);
      CoveredClearable(pt, p, q);
      CoveredRest(pt, p, q);
      ClearPagesKeeps(pt, sec, p % 256, stop - p);
      var pt' := ClearPages(pt, sec, p % 256, stop - p);
      UnmapSlptRefines(pt', stop, q);
      hide Wf, NoLeak, Translate, ClearPages, Covered;
      forall x: nat ensures Translate(UnmapSlptOp(pt, p, q), x) == if p <= x < q then None else Translate(pt, x) {
        if x / 256 == sec {
          assert p % 256 <= x % 256 < p % 256 + (stop - p) <==> p <= x < stop;
        }
      }
    }
  }

  // One section of unmap_pages: its table emptied, or its entry cleared.
  ghost function ClearSection(pt: Pt, sec: nat): (r: Pt)
    requires Shape(pt) && sec < NUM_LV1ENTRIES
    ensures Shape(r)
  {
    if IsPage(pt.lv1[sec]) then
      ClearPagesShape(pt, sec, 0, 256);
      ClearPages(pt, sec, 0, 256)
    else
      FlagsDiffer(0);
      PutEntry(pt, sec, 0)
  }

  ghost function ClearSections(pt: Pt, sec: nat, n: nat): (r: Pt)
    requires Shape(pt) && sec + n <= NUM_LV1ENTRIES
    ensures Shape(r)
    decreases n
  {
    if n == 0 then pt else ClearSection(ClearSections(pt, sec, n - 1), sec + n - 1)
  }

  // Sections [sec, sec + n): every table among them is full.
  ghost predicate FullTables(pt: Pt, sec: nat, n: nat) {
    forall i :: sec <= i < sec + n && i < |pt.lv1| && IsPage(pt.lv1[i]) && HasTableAt(pt, i) ==>
      AllMapped(TableOf(pt, i), 0, 256)
  }

  lemma ClearSectionRefines(pt: Pt, sec: nat)
    requires Wf(pt) && sec < NUM_LV1ENTRIES && FullTables(pt, sec, 1)
    ensures Shape(pt) && Wf(ClearSection(pt, sec)) && (NoLeak(pt) ==> NoLeak(ClearSection(pt, sec)))
    ensures SameElsewhere(pt, ClearSection(pt, sec), sec)
    ensures forall p: nat :: p / 256 == sec ==> Translate(ClearSection(pt, sec), p) == None
  {
    WfShape(pt);
    assert EntryOk(pt, sec);
    if IsPage(pt.lv1[sec]) {
      assert HasTableAt(pt, sec);
      assert Clearable(pt, sec, 0, 256);
      ClearPagesKeeps(pt, sec, 0, 256);
      hide Wf, NoLeak, Translate, ClearPages;
    } else {
      ClearEntryKeeps(pt, sec);
    }
  }

  lemma {:induction false} ClearSectionsElsewhere(pt: Pt, sec: nat, n: nat, i: nat)
    requires Wf(pt) && FullTables(pt, sec, n) && sec + n <= i < NUM_LV1ENTRIES
    ensures Shape(pt) && Wf(ClearSections(pt, sec, n)) && (NoLeak(pt) ==> NoLeak(ClearSections(pt, sec, n)))
    ensures ClearSections(pt, sec, n).lv1[i] == pt.lv1[i]
    ensures IsPage(pt.lv1[i]) && HasTableAt(pt, i) ==>
      HasTableAt(ClearSections(pt, sec, n), i) && TableOf(ClearSections(pt, sec, n), i) == TableOf(pt, i)
    decreases n
  {
    WfShape(pt);
    if n > 0 {
      ClearSectionsElsewhere(pt, sec, n - 1, sec + n - 1);
      ClearSectionsElsewhere(pt, sec, n - 1, i);
      var pt1 := ClearSections(pt, sec, n - 1);
      ClearSectionRefines(pt1, sec + n - 1);
      assert EntryOk(pt1, sec + n - 1) && EntryOk(pt1, i);
      FlagsAt(pt1.lv1[sec + n - 1]);
      hide TableBase, IsPage, Fill, Translate, NoLeak;
    }
  }

  /** Clearing whole sections, by entry or by table, unmaps exactly their pages, given that tables among them
      are full. */
  lemma {:induction false} ClearSectionsRefines(pt: Pt, sec: nat, n: nat)
    requires Wf(pt) && sec + n <= NUM_LV1ENTRIES && FullTables(pt, sec, n)
    ensures Shape(pt) && Wf(ClearSections(pt, sec, n)) && (NoLeak(pt) ==> NoLeak(ClearSections(pt, sec, n)))
    ensures forall p: nat ::
      Translate(ClearSections(pt, sec, n), p) == if sec <= p / 256 < sec + n then None else Translate(pt, p)
    decreases n
  {
    WfShape(pt);
    if n > 0 {
      ClearSectionsRefines(pt, sec, n - 1);
      ClearSectionsElsewhere(pt, sec, n - 1, sec + n - 1);
      hide Wf, NoLeak, Translate, TableBase, IsPage, ClearSection;
      ClearSectionRefines(ClearSections(pt, sec, n - 1), sec + n - 1);
    }
  }
}
