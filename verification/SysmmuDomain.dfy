/** A SysMMU domain as an object: the driver's in-place page table updates, each proved equal to its function. */
module SysmmuDomain {
  import opened Arith
  import opened Common
  import opened SysmmuPte
  import opened SysmmuTable
  import opened SysmmuMap
  import opened SysmmuUnmap

  class Domain {
    const lv1: array<nat>
    const cnt: array<int>
    var tables: map<nat, seq<nat>>

    // The page table as a value.
    ghost function T(): Pt
      reads this, lv1, cnt
    {
      Pt(lv1[..], cnt[..], tables)
    }

    ghost predicate Valid()
      reads this, lv1, cnt
    {
      lv1 as object != cnt && Wf(T()) && NoLeak(T())
    }

    constructor ()
      ensures Valid() && fresh(lv1) && fresh(cnt)
      ensures forall p: nat :: Translate(T(), p) == None
    {
      lv1 := new nat[NUM_LV1ENTRIES](_ => 0);
      cnt := new int[NUM_LV1ENTRIES](_ => 0);
      tables := map[];
      new;
      FlagsDiffer(0);
    }

    // alloc_lv2entry: the table for sec, installed if the section is unmapped.
    method AllocLv2Entry(sec: nat, alloc: Option<nat>) returns (err: Err)
      requires lv1 as object != cnt && Shape(T()) && sec < NUM_LV1ENTRIES
      modifies this, lv1, cnt
      ensures err == (if IsSection(old(lv1[sec])) then EADDRINUSE
                      else if Lv1Unmapped(old(lv1[sec])) && alloc.None? then ENOMEM else OK)
      ensures T() == if err != OK then old(T())
                     else WithTable(old(T()), sec, if alloc.Some? then alloc.value else 0)
    {
      if IsSection(lv1[sec]) {
        return EADDRINUSE;
      }
      if Lv1Unmapped(lv1[sec]) {
        if alloc.None? {
          return ENOMEM;
        }
        lv1[sec] := MakePte(alloc.value, SLPD_FLAG, 0);
        cnt[sec] := 0;
        tables := tables[alloc.value := Const(NUM_LV2ENTRIES, 0)];
      }
      err := OK;
    }

    // *pent = e
    method PutLeaf(base: nat, i: nat, e: nat)
      requires base in tables && i < |tables[base]|
      modifies this`tables
      ensures tables == old(tables)[base := SetAt(old(tables)[base], i, e)]
    {
      tables := tables[base := SetAt(tables[base], i, e)];
    }

    // lv2set_page: one small page, or the 16 entries of a large one with roll-back.
    method Lv2SetPage(sec: nat, idx: nat, n: nat, e: nat) returns (err: Err)
      requires lv1 as object != cnt && Shape(T()) && sec < NUM_LV1ENTRIES && IsPage(lv1[sec]) && HasTableAt(T(), sec)
      requires (n == 1 || n == 16) && idx + n <= 256
      requires forall i :: 0 <= i < 256 && Lv2Unmapped(TableOf(T(), sec)[i]) ==> TableOf(T(), sec)[i] == 0
      modifies this, cnt
      ensures lv1[..] == old(lv1[..])
      ensures err == if AllFree(old(TableOf(T(), sec)), idx, n) then OK else EADDRINUSE
      ensures T() == if err == OK then SetPages(old(T()), sec, idx, n, e) else old(T())
    {
      var base := TableBase(lv1[sec]);
      ghost var t := tables[base];
      assert t == TableOf(T(), sec);
      assert forall k :: 0 <= k < 256 && Lv2Unmapped(t[k]) ==> t[k] == 0;
      hide TableBase, IsPage, Lv2Unmapped, Fill;
      if n == 1 {
        if !Lv2Unmapped(tables[base][idx]) {
          return EADDRINUSE;
        }
        PutLeaf(base, idx, e);
        cnt[sec] := cnt[sec] + 1;
        assert Fill(t, idx, 1, e) == SetAt(t, idx, e) by { FillAt(t, idx, 1, e); }
      } else {
        var i := 0;
        FillNothing(t, idx, e);
        while i < SPAGES_PER_LPAGE
          invariant 0 <= i <= 16 && AllFree(t, idx, i)
          invariant base in old(tables) && tables == old(tables)[base := Fill(t, idx, i, e)]
          invariant lv1[..] == old(lv1[..]) && cnt[..] == old(cnt[..])
        {
          FillAt(t, idx, i, e);
          if !Lv2Unmapped(tables[base][idx + i]) {
            // clear what this call wrote
            tables := tables[base := Fill(tables[base], idx, i, 0)];
            FillBack(t, idx, i, e);
            assert tables == old(tables);
            return EADDRINUSE;
          }
          PutLeaf(base, idx + i, e);
          FillMore(t, idx, i, e);
          i := i + 1;
        }
        cnt[sec] := cnt[sec] + SPAGES_PER_LPAGE;
      }
      err := OK;
    }
  
    /** samsung_sysmmu_map. */
    method Map(iova: nat, paddr: nat, size: nat, prot: Prot, alloc: Option<nat>) returns (err: Err)
      requires Valid() && Request(iova, size) && paddr % size == 0 && paddr < TWO36 && AllocOk(T(), alloc)
      modifies this, lv1, cnt
      ensures (T(), err) == MapOp(old(T()), iova, paddr, size, prot, alloc)
      ensures Valid() && Maps(old(T()), T(), iova, size, paddr, err)
      ensures err == EADDRINUSE <==> RangeInUse(old(T()), iova, size)
    {
      IovaSplit(iova);
      IdxAligned(iova, size);
      WfShape(T());
      MapRefines(T(), iova, paddr, size, prot, alloc);
      var eff := if prot.priv then prot.(cache := false) else prot;
      var sec, idx := Sec(iova), Idx(iova);
      if size == SECT_SIZE {
        err := Lv1SetSection(sec, MakePte(paddr, SECT_FLAG, Attr(eff, FLPD_SHAREABLE)));
      } else {
        err := AllocLv2Entry(sec, alloc);
        hide Wf, NoLeak, Translate, Maps, RangeInUse, MakePte, WithTable, SetPages;
        if err == OK {
          HasTable(old(T()), sec, alloc);
          WfShape(T());
          assert HasTableAt(T(), sec);
          if size == SPAGE_SIZE {
            err := Lv2SetPage(sec, idx, 1, MakePte(paddr, SPAGE_FLAG, Attr(eff, SLPD_SHAREABLE)));
          } else {
            err := Lv2SetPage(sec, idx, 16, MakePte(paddr, LPAGE_FLAG, Attr(eff, SLPD_SHAREABLE)));
          }
        }
      }
    }

    // lv1set_section, with the synchronisation of caches left to the caller.
    method Lv1SetSection(sec: nat, e: nat) returns (err: Err)
      requires lv1 as object != cnt && lv1.Length == NUM_LV1ENTRIES == cnt.Length && sec < NUM_LV1ENTRIES
      modifies this, lv1, cnt
      ensures (T(), err) == MapSection(old(T()), sec, e)
    {
      if IsSection(lv1[sec]) {
        return EADDRINUSE;
      }
      var free := None;
      if IsPage(lv1[sec]) {
        if cnt[sec] != 0 {
          return EADDRINUSE;
        }
        free := Some(TableBase(lv1[sec]));
        cnt[sec] := NUM_LV2ENTRIES;
      }
      lv1[sec] := e;
      if free.Some? {
        tables := tables - {free.value};
      }
      err := OK;
    }

    /** samsung_sysmmu_unmap. */
    method Unmap(iova: nat, size: nat) returns (r: nat)
      requires Valid() && Request(iova, size)
      modifies this, lv1, cnt
      ensures (T(), r) == UnmapOp(old(T()), iova, size)
      ensures Valid() && (r == 0 ==> T() == old(T()))
      ensures r != 0 ==> r <= size && Unmaps(old(T()), T(), iova, r)
    {
      IovaSplit(iova);
      IdxAligned(iova, size);
      UnmapRefines(T(), iova, size);
      WfShape(T());
      var sec, idx := Sec(iova), Idx(iova);
      hide Wf, NoLeak, Translate, Unmaps, Fill, Lv2Unmapped, IsSmall;
      if IsSection(lv1[sec]) {
        if size < SECT_SIZE {
          return 0;
        }
        lv1[sec] := 0;
        return SECT_SIZE;
      }
      if Lv1Unmapped(lv1[sec]) {
        return size;
      }
      assert HasTableAt(T(), sec) by { EntryHasTable(T(), sec); }
      var base := TableBase(lv1[sec]);
      var e := tables[base][idx];
      if Lv2Unmapped(e) {
        return SPAGE_SIZE;
      }
      if IsSmall(e) {
        ClearAndFlush(sec, idx, 1);
        return SPAGE_SIZE;
      }
      if size < LPAGE_SIZE {
        return 0;
      }
      ClearAndFlush(sec, idx, 16);
      r := LPAGE_SIZE;
    }

    // clear_and_flush_pgtable on the table of sec.
    method ClearAndFlush(sec: nat, idx: nat, n: nat)
      requires lv1 as object != cnt && sec < lv1.Length && sec < cnt.Length && TableBase(lv1[sec]) in tables
      requires idx + n <= |TableOf(T(), sec)|
      modifies this`tables, cnt
      ensures T() == ClearPages(old(T()), sec, idx, n)
    {
      var base := TableBase(lv1[sec]);
      hide TableBase;
      ghost var t := tables[base];
      var i := 0;
      FillNothing(t, idx, 0);
      assert tables == old(tables)[base := t];
      while i < n
        invariant 0 <= i <= n && base in tables
        invariant tables == old(tables)[base := Fill(t, idx, i, 0)]
        invariant cnt[..] == old(cnt[..])
      {
        FillAt(t, idx, i, 0);
        FillMore(t, idx, i, 0);
        PutLeaf(base, idx + i, 0);
        i := i + 1;
      }
      cnt[sec] := cnt[sec] - n;
    }
  
    /** unmap_slpt: the second-level entries of a range, section by section. */
    method UnmapSlpt(iova0: nat, size: nat, ghost p0: nat, ghost q: nat)
      requires lv1 as object != cnt && Shape(T())
      requires iova0 == SPAGE_SIZE * p0 && iova0 + size == SPAGE_SIZE * q && q <= PAGES
      modifies this`tables, cnt
      ensures Shape(T()) && T() == UnmapSlptOp(old(T()), p0, q)
    {
      hide TableBase, IsPage, ClearPages, UnmapSlptOp, Shape;
      ShapeSizes(T());
      var iova, end := iova0, iova0 + size;
      ghost var p := p0;
      PageSplit(iova, p);
      var sent := Sec(iova);
      while iova < end
        invariant iova == SPAGE_SIZE * p && p0 <= p <= q && Shape(T())
        invariant iova < end ==> sent == p / 256
        invariant UnmapSlptOp(T(), p, q) == UnmapSlptOp(old(T()), p0, q)
        decreases q - p
      {
        ghost var stop := SectionEnd(p, q);
        PageSplit(iova, p);
        SectionEndBytes(iova, end, p, q);
        SlptUnfold(T(), p, q);
        hide SectionEnd, Sec, Idx;
        var sectionEnd := iova + SECT_SIZE - (iova + SECT_SIZE) % SECT_SIZE;
        if end < sectionEnd {
          sectionEnd := end;
        }
        if IsPage(lv1[sent]) {
          var nent := (sectionEnd - iova) / SPAGE_SIZE;
          ClearAndFlush(sent, Idx(iova), nent);
        }
        iova, sent, p := sectionEnd, sent + 1, stop;
        ShapeSizes(T());
      }
      SlptDone(T(), q);
    }

    // clear_and_flush_pgtable on first-level entries.
    method ClearLv1(start: nat, count: nat)
      requires start + count <= lv1.Length
      modifies lv1
      ensures lv1[..] == Fill(old(lv1[..]), start, count, 0)
    {
      var i := 0;
      ghost var s := lv1[..];
      while i < count
        invariant 0 <= i <= count
        invariant forall k :: 0 <= k < lv1.Length ==> lv1[k] == if start <= k < start + i then 0 else s[k]
      {
        lv1[start + i] := 0;
        i := i + 1;
      }
      FillAt(s, start, count, 0);
    }

    /** samsung_sysmmu_unmap_pages on sections: the delayed, batched clearing of first-level entries ends in
        the same table and counters as clearing each section one at a time, whatever the table holds. */
    method UnmapSections(iova0: nat, pgcount: nat)
      requires lv1 as object != cnt && Shape(T())
      requires iova0 % SECT_SIZE == 0 && iova0 / SECT_SIZE + pgcount <= NUM_LV1ENTRIES
      modifies this`tables, lv1, cnt
      ensures Shape(T()) && T() == ClearSections(old(T()), iova0 / SECT_SIZE, pgcount)
    {
      hide TableBase, IsPage, HasTableAt, Fill, ClearPages, ClearSection, Shape;
      var iova := iova0;
      var sent := Sec(iova);
      var flushStart: nat, flushCount: nat, k: nat := sent, 0, 0;
      ghost var pt0 := T();
      ShapeSizes(T());
      FlushNothing(T(), sent);
      while k < pgcount
        invariant 0 <= k <= pgcount && sent == iova0 / SECT_SIZE + k && iova == SECT_SIZE * sent
        invariant flushStart + flushCount == sent && lv1.Length == NUM_LV1ENTRIES
        invariant Shape(T()) && Flushed(T(), flushStart, flushCount) == ClearSections(pt0, iova0 / SECT_SIZE, k)
      {
        ghost var done := ClearSections(pt0, iova0 / SECT_SIZE, k);
        FlushedAt(T(), flushStart, flushCount, sent);
        if IsPage(lv1[sent]) {
          if flushCount != 0 {
            ClearLv1(flushStart, flushCount);
            flushCount := 0;
          } else {
            FlushNothing(T(), flushStart);
          }
          assert T() == done;
          flushStart := sent + 1;
          UnmapSlpt(iova, SECT_SIZE, 256 * sent, 256 * sent + 256);
          OneSection(done, sent);
          ShapeSizes(T());
          FlushNothing(T(), flushStart);
        } else {
          FlushOneMore(T(), flushStart, flushCount, done);
          flushCount := flushCount + 1;
        }
        iova, sent, k := iova + SECT_SIZE, sent + 1, k + 1;
      }
      if flushCount != 0 {
        ClearLv1(flushStart, flushCount);
      } else {
        FlushNothing(T(), flushStart);
      }
    }
  
    /** samsung_sysmmu_unmap_pages on a range that is fully mapped: exactly its pages go, and all counters and
        the ownership of tables stay right. */
    method UnmapPages(iova: nat, pgsize: nat, pgcount: nat) returns (size: nat)
      requires Valid() && PageSize(pgsize) && iova % pgsize == 0 && iova + pgsize * pgcount <= TWO32
      requires if pgsize == SECT_SIZE then FullTables(T(), iova / SECT_SIZE, pgcount)
               else Covered(T(), iova / SPAGE_SIZE, (iova + pgsize * pgcount) / SPAGE_SIZE)
      modifies this`tables, lv1, cnt
      ensures Valid() && size == pgsize * pgcount
      ensures var first, last := iova / SPAGE_SIZE, (iova + size) / SPAGE_SIZE;
        forall p: nat :: Translate(T(), p) == (if first <= p < last then None else Translate(old(T()), p))
    {
      size := pgsize * pgcount;
      WfShape(T());
      PageRange(iova, pgsize, pgcount);
      ghost var p0, q := iova / SPAGE_SIZE, (iova + size) / SPAGE_SIZE;
      if pgsize == SECT_SIZE {
        ClearSectionsRefines(T(), iova / SECT_SIZE, pgcount);
        hide Wf, NoLeak, Translate, Shape, FullTables;
        UnmapSections(iova, pgcount);
      } else {
        UnmapSlptRefines(T(), p0, q);
        hide Wf, NoLeak, Translate, Shape, Covered;
        UnmapSlpt(iova, size, p0, q);
      }
    }

    /** samsung_sysmmu_iova_to_phys. */
    method Phys(iova: nat) returns (phys: nat)
      requires Valid() && iova < TWO32
      ensures phys == match Translate(T(), iova / SPAGE_SIZE) case Some(base) => base + iova % SPAGE_SIZE case None => 0
    {
      IovaSplit(iova);
      IovaToPhysRefines(T(), iova);
      WfShape(T());
      var sec := Sec(iova);
      hide SectionPhys, LpagePhys, SpagePhys, TableBase, IsSection, IsPage, IsLarge, IsSmall, Sec, Idx, Translate, Wf,
        NoLeak;
      var e := lv1[sec];
      phys := 0;
      if IsSection(e) {
        phys := SectionPhys(e) + iova % SECT_SIZE;
      } else if IsPage(e) {
        assert HasTableAt(T(), sec);
        var x := tables[TableBase(e)][Idx(iova)];
        if IsLarge(x) {
          phys := LpagePhys(x) + iova % LPAGE_SIZE;
        } else if IsSmall(x) {
          phys := SpagePhys(x) + iova % SPAGE_SIZE;
        }
      }
    }

    /** samsung_sysmmu_domain_free: every second-level table is freed, and none twice. */
    method Free() returns (freed: seq<nat>)
      requires Valid()
      ensures forall i, j :: 0 <= i < j < |freed| ==> freed[i] != freed[j]
      ensures forall b :: b in freed <==> b in tables
    {
      hide TableBase, IsPage, IsSection, TableOk, Count;
      freed := [];
      ghost var owner: seq<nat> := [];
      var i := 0;
      while i < NUM_LV1ENTRIES
        invariant 0 <= i <= NUM_LV1ENTRIES && |owner| == |freed|
        invariant forall k :: 0 <= k < |freed| ==>
          owner[k] < i && IsPage(lv1[owner[k]]) && freed[k] == TableBase(lv1[owner[k]])
        invariant forall j, k :: 0 <= j < k < |owner| ==> owner[j] < owner[k]
        invariant forall k :: 0 <= k < i && IsPage(lv1[k]) ==> TableBase(lv1[k]) in freed
      {
        var e := lv1[i];
        if IsPage(e) {
          freed := freed + [TableBase(e)];
          owner := owner + [i];
        }
        i := i + 1;
      }
      forall b | b in freed ensures b in tables {
        var k :| 0 <= k < |freed| && freed[k] == b;
        assert EntryOk(T(), owner[k]);
        FlagsAt(lv1[owner[k]]);
      }
      forall b | b in tables ensures b in freed {
        assert Owned(T().lv1, b);
        var k :| 0 <= k < |T().lv1| && IsPage(T().lv1[k]) && TableBase(T().lv1[k]) == b;
        assert T().lv1[k] == lv1[k];
      }
    }
  }

  lemma PageRange(iova: nat, pgsize: nat, pgcount: nat)
    requires PageSize(pgsize) && iova % pgsize == 0 && iova + pgsize * pgcount <= TWO32
    ensures iova == SPAGE_SIZE * (iova / SPAGE_SIZE)
    ensures iova + pgsize * pgcount == SPAGE_SIZE * ((iova + pgsize * pgcount) / SPAGE_SIZE)
    ensures (iova + pgsize * pgcount) / SPAGE_SIZE <= PAGES
    ensures pgsize == SECT_SIZE ==> iova / SECT_SIZE + pgcount <= NUM_LV1ENTRIES
    ensures pgsize == SECT_SIZE ==> iova / SPAGE_SIZE == 256 * (iova / SECT_SIZE)
    ensures pgsize == SECT_SIZE ==> (iova + pgsize * pgcount) / SPAGE_SIZE == 256 * (iova / SECT_SIZE + pgcount)
  {
    var n := pgcount;
    if pgsize == SECT_SIZE {
      var a := iova / SECT_SIZE;
      Peel(0, SPAGE_SIZE, 256 * a);
      Peel(0, SPAGE_SIZE, 256 * (a + n));
    } else if pgsize == LPAGE_SIZE {
      var a := iova / LPAGE_SIZE;
      Peel(0, SPAGE_SIZE, 16 * a);
      Peel(0, SPAGE_SIZE, 16 * (a + n));
    } else {
      Peel(0, SPAGE_SIZE, iova / SPAGE_SIZE + n);
    }
  }

  lemma SlptDone(pt: Pt, q: nat)
    requires Shape(pt) && q <= PAGES
    ensures UnmapSlptOp(pt, q, q) == pt
  {
  }

  lemma SlptUnfold(pt: Pt, p: nat, q: nat)
    requires Shape(pt) && p < q <= PAGES && SectionEnd(p, q) > p && p % 256 + (SectionEnd(p, q) - p) <= 256
    ensures p / 256 < NUM_LV1ENTRIES
    ensures !IsPage(pt.lv1[p / 256]) ==> UnmapSlptOp(pt, p, q) == UnmapSlptOp(pt, SectionEnd(p, q), q)
    ensures IsPage(pt.lv1[p / 256]) ==>
      && HasTableAt(pt, p / 256)
      && var pt' := ClearPages(pt, p / 256, p % 256, SectionEnd(p, q) - p);
         Shape(pt') && UnmapSlptOp(pt, p, q) == UnmapSlptOp(pt', SectionEnd(p, q), q)
  {
    if IsPage(pt.lv1[p / 256]) {
      ClearPagesShape(pt, p / 256, p % 256, SectionEnd(p, q) - p);
    }
    hide ClearPages, IsPage, Shape, HasTableAt;
  }

  // pt with the pending first-level entries cleared.
  function Flushed(pt: Pt, start: nat, count: nat): Pt
    requires start + count <= |pt.lv1|
  {
    pt.(lv1 := Fill(pt.lv1, start, count, 0))
  }

  lemma ShapeSizes(pt: Pt)
    requires Shape(pt)
    ensures |pt.lv1| == NUM_LV1ENTRIES && |pt.cnt| == NUM_LV1ENTRIES
  {
  }

  lemma FlushNothing(pt: Pt, start: nat)
    requires start <= |pt.lv1|
    ensures Flushed(pt, start, 0) == pt
  {
    FillNothing(pt.lv1, start, 0);
  }

  lemma FlushedAt(pt: Pt, start: nat, count: nat, i: nat)
    requires start + count <= i < |pt.lv1|
    ensures |Flushed(pt, start, count).lv1| == |pt.lv1| && Flushed(pt, start, count).lv1[i] == pt.lv1[i]
  {
    FillAt(pt.lv1, start, count, 0);
  }

  // A section without a table joins the pending ones.
  lemma FlushOneMore(pt: Pt, start: nat, count: nat, done: Pt)
    requires start + count < |pt.lv1| == NUM_LV1ENTRIES && done == Flushed(pt, start, count) && Shape(done)
    requires !IsPage(pt.lv1[start + count])
    ensures Flushed(pt, start, count + 1) == ClearSection(done, start + count)
  {
    FillAt(pt.lv1, start, count, 0);
    FillAt(pt.lv1, start, count + 1, 0);
    hide Fill, IsPage, Shape;
    assert Flushed(pt, start, count + 1).lv1 == done.lv1[start + count := 0];
  }

  // unmap_slpt on one whole section with a table.
  lemma OneSection(pt: Pt, sec: nat)
    requires Shape(pt) && sec < NUM_LV1ENTRIES && IsPage(pt.lv1[sec])
    ensures UnmapSlptOp(pt, 256 * sec, 256 * sec + 256) == ClearSection(pt, sec)
    ensures Shape(ClearSection(pt, sec))
  {
    var p, q := 256 * sec, 256 * sec + 256;
    Peel(0, 256, sec);
    assert p / 256 == sec && p % 256 == 0 && SectionEnd(p, q) == q;
    ClearPagesShape(pt, sec, 0, 256);
    hide ClearPages, IsPage, Shape;
    assert UnmapSlptOp(ClearPages(pt, sec, 0, 256), q, q) == ClearPages(pt, sec, 0, 256);
  }

  lemma PageSplit(iova: nat, p: nat)
    requires iova == SPAGE_SIZE * p
    ensures Sec(iova) == p / 256 && Idx(iova) == p % 256
  {
    Peel(0, SPAGE_SIZE, p);
    IovaSplit(iova);
    Peel(Idx(iova), 256, Sec(iova));
  }

  lemma SectionEndBytes(iova: nat, end: nat, p: nat, q: nat)
    requires iova == SPAGE_SIZE * p && end == SPAGE_SIZE * q && p < q
    ensures var bytes := iova + SECT_SIZE - (iova + SECT_SIZE) % SECT_SIZE;
      && (if end < bytes then end else bytes) == SPAGE_SIZE * SectionEnd(p, q)
      && p < SectionEnd(p, q) <= q && p % 256 + (SectionEnd(p, q) - p) <= 256
      && (SPAGE_SIZE * SectionEnd(p, q) - iova) / SPAGE_SIZE == SectionEnd(p, q) - p
      && (SectionEnd(p, q) < q ==> SectionEnd(p, q) / 256 == p / 256 + 1)
  {
    var s := p / 256;
    var r := SPAGE_SIZE * (p - 256 * s);
    Peel(r, SECT_SIZE, s + 1);
    assert iova + SECT_SIZE == r + SECT_SIZE * (s + 1);
    Peel(0, SPAGE_SIZE, SectionEnd(p, q) - p);
    Peel(0, 256, s + 1);
  }

  lemma EntryHasTable(pt: Pt, sec: nat)
    requires Wf(pt) && sec < NUM_LV1ENTRIES && !IsSection(pt.lv1[sec]) && !Lv1Unmapped(pt.lv1[sec])
    ensures IsPage(pt.lv1[sec]) && HasTableAt(pt, sec)
  {
    assert EntryOk(pt, sec);
  }

  lemma FillNothing(t: seq<nat>, idx: nat, e: nat)
    requires idx <= |t|
    ensures Fill(t, idx, 0, e) == t
  {
    FillAt(t, idx, 0, e);
  }

  lemma FillMore(t: seq<nat>, idx: nat, i: nat, e: nat)
    requires idx + i < |t|
    ensures |Fill(t, idx, i, e)| == |t| && SetAt(Fill(t, idx, i, e), idx + i, e) == Fill(t, idx, i + 1, e)
  {
    FillAt(t, idx, i, e);
    FillAt(t, idx, i + 1, e);
    hide Fill;
  }

  lemma FillBack(t: seq<nat>, idx: nat, i: nat, e: nat)
    requires idx + i <= |t| && forall k :: idx <= k < idx + i ==> t[k] == 0
    ensures |Fill(t, idx, i, e)| == |t| && Fill(Fill(t, idx, i, e), idx, i, 0) == t
  {
    FillAt(t, idx, i, e);
    FillAt(Fill(t, idx, i, e), idx, i, 0);
    hide Fill;
  }
}
