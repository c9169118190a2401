/**
Caches of the SysMMUs of one domain against its page table: TLBs and second-level
base buffers (SBB) under table updates, invalidations, power transitions and
hardware walks in any order. A 64K map stores its 16 entries one by one, each visible
at once, and takes them back without an invalidation when it meets a mapped page.
*/
module SysmmuCoherence {
  import opened Common
  import opened SysmmuPte
  import opened SysmmuTable
  import opened SysmmuMap
  import opened SysmmuUnmap

  // A page table walk in flight: it has the base of the second-level table to read, or
  // the entry it has read.
  datatype Walk = AtTable(base: nat) | Got(r: Option<nat>)

  // walks: by page. unsynced: pages unmapped since this SysMMU last invalidated them.
  datatype Mmu = Mmu(
    attached: nat, resumed: bool, tlb: map<nat, nat>, sbb: map<nat, nat>, walks: map<nat, Walk>, unsynced: set<nat>)
  {
    // attached_count && rpm_resume: the SysMMU translates, and is not skipped by a sync.
    predicate Live() { attached > 0 && resumed }

    // __sysmmu_enable: invalidate everything, then translate.
    function Enabled(): Mmu { this.(tlb := map[], sbb := map[], walks := map[], unsynced := {}) }

    // __sysmmu_tlb_invalidate on pages [lo, hi), skipped unless attached and resumed;
    // it also drops walks in flight.
    function Invalidated(lo: nat, hi: nat): Mmu {
      if !Live() then this
      else this.(tlb := map p | p in tlb && !(lo <= p < hi) :: tlb[p],
                 sbb := map s | s in sbb && !Overlaps(s, lo, hi) :: sbb[s],
                 walks := map p | p in walks && !(lo <= p < hi) :: walks[p],
                 unsynced := set p | p in unsynced && !(lo <= p < hi))
    }
  }

  // Section s has a page in [lo, hi).
  predicate Overlaps(s: nat, lo: nat, hi: nat) { 256 * s < hi && lo < 256 * s + 256 }

  predicate AtLeast(p: nat, lo: nat) { lo <= p }

  function Span(lo: nat, hi: nat): (r: set<nat>)
    ensures forall p :: p in r <==> lo <= p < hi
  {
    set p: nat | p < hi && AtLeast(p, lo)
  }

  // A table being replaced by a section entry: not yet freed while SysMMUs outside
  // `done` may still hold it in their SBB.
  datatype Retired = Retired(sec: nat, base: nat, table: seq<nat>, done: set<nat>)

  // A 64K map in progress: n entries e stored so far.
  datatype Large = Large(n: nat, e: nat)

  // pt: the page table without the entries of 64K maps in progress, which are in large,
  // by the first page of their group.
  datatype State = State(pt: Pt, large: map<nat, Large>, mmus: seq<Mmu>, retired: Option<Retired>)

  datatype Action =
    | Map
    | LargeBegin(g: nat, e: nat)
    | LargeStore(g: nat)
    | LargeCommit(g: nat)
    | RollBack(g: nat)
    | Unmap(lo: nat, hi: nat)
    | Retire(sec: nat)
    | RetireSync(k: nat)
    | RetireFree
    | Invalidate(k: nat, lo: nat, hi: nat)
    | Suspend(k: nat)
    | Resume(k: nat)
    | Attach(k: nat)
    | Detach(k: nat)
    | WalkBegin(k: nat, p: nat)
    | WalkRead(k: nat, p: nat)
    | WalkFill(k: nat, p: nat)

  // ----- table updates -----

  ghost predicate KeepsTables(pt: Pt, pt': Pt) {
    && |pt.lv1| == |pt'.lv1|
    && forall i :: 0 <= i < |pt.lv1| && IsPage(pt.lv1[i]) ==> pt'.lv1[i] == pt.lv1[i]
  }

  // Mappings are only added.
  ghost predicate Extends(pt: Pt, pt': Pt) {
    Wf(pt') && KeepsTables(pt, pt') && forall p: nat :: Translate(pt, p).Some? ==> Translate(pt', p) == Translate(pt, p)
  }

  // Exactly the pages [lo, hi) are removed.
  ghost predicate Drops(pt: Pt, pt': Pt, lo: nat, hi: nat) {
    && Wf(pt') && KeepsTables(pt, pt') && pt'.tables.Keys == pt.tables.Keys
    && forall p: nat :: Translate(pt', p) == (if lo <= p < hi then None else Translate(pt, p))
  }

  // The 16 pages from g on are added, with large entry e.
  ghost predicate Commits(pt: Pt, pt': Pt, g: nat, e: nat) {
    && Wf(pt') && KeepsTables(pt, pt') && pt'.tables.Keys == pt.tables.Keys
    && forall p: nat :: Translate(pt', p) == (if g <= p < g + 16 then Leaf(e, p % 256) else Translate(pt, p))
  }

  // ----- what memory holds -----

  function Group(p: nat): nat { p - p % 16 }

  lemma GroupOf(p: nat, g: nat)
    requires g % 16 == 0
    ensures Group(p) / 256 == p / 256
    ensures g <= p < g + 16 <==> Group(p) == g
  {
  }

  // Page p has an entry of a 64K map in progress.
  predicate Half(s: State, p: nat) { Group(p) in s.large && p < Group(p) + s.large[Group(p)].n }

  // The translation of page p that the entries in memory give.
  function Seen(s: State, p: nat): Option<nat> {
    if Half(s, p) then Leaf(s.large[Group(p)].e, p % 256) else Translate(s.pt, p)
  }

  // ----- steps -----

  ghost predicate OneMmu(s: State, s': State, k: nat, m: Mmu) {
    k < |s.mmus| && s' == s.(mmus := s.mmus[k := m])
  }

  // What a walk of page p through the table at `base` may read: the entry in memory if
  // that is the section's table, an entry of the table being retired, or anything.
  ghost predicate Reads(s: State, p: nat, base: nat, r: Option<nat>) {
    var sec, idx := p / 256, p % 256;
    if sec < |s.pt.lv1| && IsPage(s.pt.lv1[sec]) && TableBase(s.pt.lv1[sec]) == base && base in s.pt.tables then
      idx < |s.pt.tables[base]|
      && r == Leaf(if Half(s, p) then s.large[Group(p)].e else s.pt.tables[base][idx], idx)
    else if s.retired.Some? && s.retired.value.base == base then
      idx < |s.retired.value.table| && r == Leaf(s.retired.value.table[idx], idx)
    else true
  }

  // A miss: the walk takes the table base from the SBB, or reads the first-level entry.
  function Began(m: Mmu, e: nat, p: nat): Mmu {
    var sec := p / 256;
    if sec in m.sbb then m.(walks := m.walks[p := AtTable(m.sbb[sec])])
    else if IsPage(e) then
      m.(walks := m.walks[p := AtTable(TableBase(e))], sbb := m.sbb[sec := TableBase(e)])
    else
      m.(walks := m.walks[p := Got(if IsSection(e) then Some(SectionPhys(e) + p % 256 * SPAGE_SIZE) else None)])
  }

  // The walk ends; a valid entry goes to the TLB.
  function Filled(m: Mmu, p: nat, r: Option<nat>): Mmu {
    var m1 := m.(walks := m.walks - {p});
    if r.Some? then m1.(tlb := m.tlb[p := r.value]) else m1
  }

  ghost predicate ReadStep(s: State, s': State, k: nat, p: nat, r: Option<nat>) {
    && k < |s.mmus| && s.mmus[k].Live() && p in s.mmus[k].walks && s.mmus[k].walks[p].AtTable?
    && Reads(s, p, s.mmus[k].walks[p].base, r)
    && OneMmu(s, s', k, s.mmus[k].(walks := s.mmus[k].walks[p := Got(r)]))
  }

  ghost predicate RetireStep(s: State, s': State, sec: nat, e: nat) {
    && s.retired == None && sec < NUM_LV1ENTRIES && IsSection(e)
    && sec < |s.pt.lv1| && sec < |s.pt.cnt| && IsPage(s.pt.lv1[sec]) && s.pt.cnt[sec] == 0
    && TableBase(s.pt.lv1[sec]) in s.pt.tables && (forall g :: g in s.large ==> g / 256 != sec)
    && s' == s.(pt := SetSection(s.pt, sec, e),
                retired := Some(Retired(sec, TableBase(s.pt.lv1[sec]), TableOf(s.pt, sec), {})))
  }

  ghost predicate Next(s: State, s': State, a: Action) {
    match a
    // a map takes only pages that are free in memory, and the allocator does not hand out
    // a table that is not yet freed
    case Map =>
      && Extends(s.pt, s'.pt) && s' == s.(pt := s'.pt) && (forall p: nat :: Half(s, p) ==> Translate(s'.pt, p).None?)
      && (s.retired.Some? ==> s.retired.value.base !in s'.pt.tables)
    case LargeBegin(g, e) =>
      && g !in s.large && g % 16 == 0 && g + 16 <= PAGES && IsLarge(e)
      && g / 256 < |s.pt.lv1| && IsPage(s.pt.lv1[g / 256])
      && s' == s.(large := s.large[g := Large(0, e)])
    // the next entry is free
    case LargeStore(g) =>
      && g in s.large && s.large[g].n < 16 && Translate(s.pt, g + s.large[g].n).None?
      && s' == s.(large := s.large[g := Large(s.large[g].n + 1, s.large[g].e)])
    case LargeCommit(g) =>
      && g in s.large && s.large[g].n == 16 && Commits(s.pt, s'.pt, g, s.large[g].e)
      && s' == s.(pt := s'.pt, large := s.large - {g})
    // the next entry is in use: clear_page_table on those stored, and no invalidation
    case RollBack(g) =>
      && g in s.large && s.large[g].n < 16 && Translate(s.pt, g + s.large[g].n).Some?
      && s' == s.(large := s.large - {g})
    // pages being mapped are not unmapped meanwhile
    case Unmap(lo, hi) =>
      && Drops(s.pt, s'.pt, lo, hi) && |s'.mmus| == |s.mmus| && s'.retired == s.retired && s'.large == s.large
      && (forall p: nat :: Half(s, p) ==> !(lo <= p < hi))
      && forall k :: 0 <= k < |s.mmus| ==>
           s'.mmus[k] == s.mmus[k].(unsynced := s.mmus[k].unsynced + Span(lo, hi))
    case Retire(sec) => exists e: nat :: RetireStep(s, s', sec, e)
    case RetireSync(k) =>
      && s.retired.Some? && k < |s.mmus|
      && var r := s.retired.value;
         s' == s.(mmus := s.mmus[k := s.mmus[k].Invalidated(256 * r.sec, 256 * r.sec + 256)],
                  retired := Some(r.(done := r.done + {k})))
    case RetireFree =>
      s.retired.Some? && (forall k :: 0 <= k < |s.mmus| ==> k in s.retired.value.done) && s' == s.(retired := None)
    case Invalidate(k, lo, hi) => k < |s.mmus| && OneMmu(s, s', k, s.mmus[k].Invalidated(lo, hi))
    case Suspend(k) => k < |s.mmus| && OneMmu(s, s', k, s.mmus[k].(resumed := false))
    case Resume(k) =>
      k < |s.mmus| && var m := s.mmus[k].(resumed := true); OneMmu(s, s', k, if m.attached > 0 then m.Enabled() else m)
    case Attach(k) =>
      && k < |s.mmus|
      && var m := s.mmus[k].(attached := s.mmus[k].attached + 1);
         OneMmu(s, s', k, if s.mmus[k].attached == 0 && m.resumed then m.Enabled() else m)
    case Detach(k) =>
      k < |s.mmus| && s.mmus[k].attached > 0 && OneMmu(s, s', k, s.mmus[k].(attached := s.mmus[k].attached - 1))
    case WalkBegin(k, p) =>
      && k < |s.mmus| && s.mmus[k].Live() && p < PAGES && p / 256 < |s.pt.lv1| && p !in s.mmus[k].tlb
      && OneMmu(s, s', k, Began(s.mmus[k], s.pt.lv1[p / 256], p))
    case WalkRead(k, p) => exists r :: ReadStep(s, s', k, p, r)
    case WalkFill(k, p) =>
      && k < |s.mmus| && s.mmus[k].Live() && p in s.mmus[k].walks && s.mmus[k].walks[p].Got?
      && OneMmu(s, s', k, Filled(s.mmus[k], p, s.mmus[k].walks[p].r))
  }

  // ----- invariant -----

  // Cached translations, and those a walk is about to cache, are current, or unmapped and
  // not yet synced.
  ghost predicate TlbOk(s: State, m: Mmu) {
    m.Live() ==>
      && (forall p :: p in m.tlb && p !in m.unsynced ==> Seen(s, p) == Some(m.tlb[p]))
      && (forall p :: p in m.walks && m.walks[p].Got? && m.walks[p].r.Some? && p !in m.unsynced ==>
            Seen(s, p) == m.walks[p].r)
  }

  // A cached table base is the section's table, or one that is not yet freed because
  // this SysMMU still has to be synced.
  ghost predicate SbbEntryOk(s: State, k: nat, sec: nat, base: nat) {
    || (sec < |s.pt.lv1| && IsPage(s.pt.lv1[sec]) && TableBase(s.pt.lv1[sec]) == base)
    || (s.retired.Some? && s.retired.value.sec == sec && s.retired.value.base == base && k !in s.retired.value.done)
  }

  ghost predicate SbbOk(s: State, k: nat)
    requires k < |s.mmus|
  {
    s.mmus[k].Live() ==> BasesOk(s, k, s.mmus[k])
  }

  // So are the bases of the SBB and of the walks in flight.
  ghost predicate BasesOk(s: State, k: nat, m: Mmu) {
    && (forall sec :: sec in m.sbb ==> SbbEntryOk(s, k, sec, m.sbb[sec]))
    && (forall p :: p in m.walks && m.walks[p].AtTable? ==> p < PAGES && SbbEntryOk(s, k, p / 256, m.walks[p].base))
  }

  // A table being retired is empty and no longer part of the page table.
  ghost predicate RetiredOk(s: State) {
    s.retired.Some? ==>
      var r := s.retired.value;
      && r.base !in s.pt.tables && |r.table| == 256
      && forall i :: 0 <= i < 256 ==> r.table[i] == 0
  }

  // A 64K map in progress has stored large entries where its section's table has none.
  ghost predicate LargeAt(s: State, g: nat)
    requires g in s.large
  {
    && g % 16 == 0 && g + 16 <= PAGES && s.large[g].n <= 16 && IsLarge(s.large[g].e)
    && g / 256 < |s.pt.lv1| && IsPage(s.pt.lv1[g / 256])
    && forall p :: g <= p < g + s.large[g].n ==> Translate(s.pt, p).None?
  }

  ghost predicate LargeOk(s: State) { forall g :: g in s.large ==> LargeAt(s, g) }

  ghost predicate Inv(s: State) {
    && Wf(s.pt) && RetiredOk(s) && LargeOk(s)
    && (forall k :: 0 <= k < |s.mmus| ==> TlbOk(s, s.mmus[k]))
    && (forall k :: 0 <= k < |s.mmus| ==> SbbOk(s, k))
  }

  // ----- preservation -----

  lemma InvalidatedOk(s: State, k: nat, lo: nat, hi: nat)
    requires Inv(s) && k < |s.mmus|
    ensures var m := s.mmus[k].Invalidated(lo, hi);
      TlbOk(s, m) && (m.Live() ==> BasesOk(s, k, m) && forall sec :: sec in m.sbb ==> !Overlaps(sec, lo, hi))
  {
    assert TlbOk(s, s.mmus[k]) && SbbOk(s, k);
    hide Wf, Seen, SbbEntryOk, RetiredOk, LargeOk;
  }

  // Every base that was in order for SysMMU k still is.
  ghost predicate Carries(s: State, s': State, k: nat) {
    forall sec, base :: SbbEntryOk(s, k, sec, base) ==> SbbEntryOk(s', k, sec, base)
  }

  lemma BasesCarry(s: State, s': State, k: nat, m: Mmu)
    requires BasesOk(s, k, m) && Carries(s, s', k)
    ensures BasesOk(s', k, m)
  {
    hide SbbEntryOk;
  }

  // No translation is lost or changed.
  ghost predicate Grows(s: State, s': State) { forall p: nat :: Seen(s, p).Some? ==> Seen(s', p) == Seen(s, p) }

  lemma TlbCarry(s: State, s': State, m: Mmu)
    requires TlbOk(s, m) && Grows(s, s')
    ensures TlbOk(s', m)
  {
    hide Seen;
  }

  // A step of the driver that loses no translation and leaves the SysMMUs alone.
  lemma GrowingKeeps(s: State, s': State)
    requires Inv(s) && s'.mmus == s.mmus && Wf(s'.pt) && RetiredOk(s') && LargeOk(s') && Grows(s, s')
    requires forall k: nat :: Carries(s, s', k)
    ensures Inv(s')
  {
    hide Wf, Grows, Carries, BasesOk, TlbOk, RetiredOk, LargeOk;
    forall k | 0 <= k < |s'.mmus| ensures TlbOk(s', s'.mmus[k]) && SbbOk(s', k) {
      assert TlbOk(s, s.mmus[k]) && SbbOk(s, k);
      TlbCarry(s, s', s.mmus[k]);
      if s'.mmus[k].Live() { BasesCarry(s, s', k, s'.mmus[k]); }
    }
  }

  lemma SameSeen(s: State, s': State)
    requires s'.pt == s.pt && s'.large == s.large
    ensures Grows(s, s') && (LargeOk(s) ==> LargeOk(s'))
  {
    hide Translate, Leaf;
    forall g | g in s.large && LargeAt(s, g) ensures LargeAt(s', g) {
    }
  }

  // A step that changes one SysMMU only, to one whose caches are in order.
  lemma OneMmuKeeps(s: State, s': State, k: nat, m: Mmu)
    requires Inv(s) && OneMmu(s, s', k, m) && TlbOk(s, m) && (m.Live() ==> BasesOk(s, k, m))
    ensures Inv(s')
  {
    SameSeen(s, s');
    hide Wf, Seen, IsPage, TableBase, BasesOk, TlbOk, LargeOk, Grows;
    forall j | 0 <= j < |s'.mmus| ensures TlbOk(s', s'.mmus[j]) && SbbOk(s', j) {
      assert TlbOk(s, s.mmus[j]) && SbbOk(s, j);
      TlbCarry(s, s', s'.mmus[j]);
      if s'.mmus[j].Live() { BasesCarry(s, s', j, s'.mmus[j]); }
    }
  }

  lemma MapKeeps(s: State, s': State)
    requires Inv(s) && Next(s, s', Map)
    ensures Inv(s')
  {
    hide Wf, Translate, IsPage, TableBase, IsLarge, Leaf;
    forall g | g in s'.large ensures LargeAt(s', g) {
      assert LargeAt(s, g);
      forall p | g <= p < g + s'.large[g].n ensures Translate(s'.pt, p).None? { assert Group(p) == g && Half(s, p); }
    }
    assert Grows(s, s');
    hide Grows, LargeAt;
    GrowingKeeps(s, s');
  }

  lemma LargeBeginKeeps(s: State, s': State, g: nat, e: nat)
    requires Inv(s) && Next(s, s', LargeBegin(g, e))
    ensures Inv(s')
  {
    hide Wf, Translate, IsPage, TableBase, IsLarge, Leaf;
    forall h | h in s'.large ensures LargeAt(s', h) {
      if h != g { assert LargeAt(s, h); }
    }
    assert Grows(s, s');
    hide Grows, LargeAt;
    GrowingKeeps(s, s');
  }

  lemma LargeStoreKeeps(s: State, s': State, g: nat)
    requires Inv(s) && Next(s, s', LargeStore(g))
    ensures Inv(s')
  {
    hide Wf, Translate, IsPage, TableBase, IsLarge, Leaf;
    assert LargeAt(s, g);
    forall h | h in s'.large ensures LargeAt(s', h) {
      assert LargeAt(s, h);
    }
    forall p: nat ensures Half(s', p) <==> Half(s, p) || p == g + s.large[g].n {
    }
    assert Grows(s, s');
    hide Grows, LargeAt;
    GrowingKeeps(s, s');
  }

  lemma LargeCommitKeeps(s: State, s': State, g: nat)
    requires Inv(s) && Next(s, s', LargeCommit(g))
    ensures Inv(s')
  {
    hide Wf, Translate, IsPage, TableBase, IsLarge, Leaf;
    assert LargeAt(s, g);
    forall h | h in s'.large ensures LargeAt(s', h) {
      assert LargeAt(s, h);
      assert h != g && h % 16 == 0 && g % 16 == 0;
    }
    forall p: nat ensures Seen(s', p) == Seen(s, p) {
      GroupOf(p, g);
      hide Group;
    }
    assert Grows(s, s');
    hide Grows, LargeAt;
    GrowingKeeps(s, s');
  }

  // A page that the roll-back of group g takes back.
  predicate TakenBack(s: State, g: nat, p: nat) { g in s.large && g <= p < g + s.large[g].n }

  // SysMMU m has that page, outside what it still has to sync.
  predicate Holds(m: Mmu, p: nat) {
    m.Live() && p !in m.unsynced && (p in m.tlb || (p in m.walks && m.walks[p].Got? && m.walks[p].r.Some?))
  }

  // No translating SysMMU has a page that is taken back.
  ghost predicate Harmless(s: State, a: Action) {
    a.RollBack? ==> forall k, p :: 0 <= k < |s.mmus| && TakenBack(s, a.g, p) ==> !Holds(s.mmus[k], p)
  }

  lemma RollBackSeen(s: State, s': State, g: nat)
    requires Inv(s) && Next(s, s', RollBack(g))
    ensures LargeOk(s') && forall p: nat :: Seen(s', p) == if TakenBack(s, g, p) then None else Seen(s, p)
  {
    hide Wf, Translate, IsPage, TableBase, IsLarge, Leaf;
    assert LargeAt(s, g);
    forall h | h in s'.large ensures LargeAt(s', h) {
      assert LargeAt(s, h);
    }
    hide LargeOk;
    forall p: nat ensures Seen(s', p) == if TakenBack(s, g, p) then None else Seen(s, p) {
      GroupOf(p, g);
      hide Group;
    }
  }

  lemma RollBackKeeps(s: State, s': State, g: nat)
    requires Inv(s) && Next(s, s', RollBack(g)) && Harmless(s, RollBack(g))
    ensures Inv(s')
  {
    RollBackSeen(s, s', g);
    hide Wf, Translate, IsPage, TableBase, LargeOk, Seen, BasesOk;
    forall k | 0 <= k < |s'.mmus| ensures TlbOk(s', s'.mmus[k]) && SbbOk(s', k) {
      assert TlbOk(s, s.mmus[k]) && SbbOk(s, k);
      if s'.mmus[k].Live() {
        assert forall p :: TakenBack(s, g, p) ==> !Holds(s.mmus[k], p);
        BasesCarry(s, s', k, s'.mmus[k]);
      }
    }
  }

  // Otherwise that SysMMU is left with a translation that no entry gives.
  lemma RollBackBreaks(s: State, s': State, g: nat)
    requires Inv(s) && Next(s, s', RollBack(g)) && !Harmless(s, RollBack(g))
    ensures exists k :: 0 <= k < |s'.mmus| && !TlbOk(s', s'.mmus[k])
  {
    RollBackSeen(s, s', g);
    var k, p :| 0 <= k < |s.mmus| && TakenBack(s, g, p) && Holds(s.mmus[k], p);
    hide Wf, Inv, Seen, Next, Harmless;
    assert Seen(s', p) == None;
    assert !TlbOk(s', s.mmus[k]);
    assert s'.mmus == s.mmus by { assert Next(s, s', RollBack(g)); }
  }

  lemma UnmapKeeps(s: State, s': State, lo: nat, hi: nat)
    requires Inv(s) && Next(s, s', Unmap(lo, hi))
    ensures Inv(s')
  {
    UnmapSeen(s, s', lo, hi);
    hide Wf, Seen, IsPage, TableBase, LargeOk, Half;
    forall k | 0 <= k < |s'.mmus| ensures TlbOk(s', s'.mmus[k]) && SbbOk(s', k) {
      assert TlbOk(s, s.mmus[k]) && SbbOk(s, k);
      if s'.mmus[k].Live() {
        BasesCarry(s, s', k, s.mmus[k]);
        hide SbbEntryOk;
      }
    }
  }

  lemma UnmapSeen(s: State, s': State, lo: nat, hi: nat)
    requires Inv(s) && Next(s, s', Unmap(lo, hi))
    ensures LargeOk(s') && forall p: nat :: Seen(s', p) == if lo <= p < hi then None else Seen(s, p)
  {
    hide Wf, Translate, IsPage, TableBase, IsLarge, Leaf;
    forall g | g in s'.large ensures LargeAt(s', g) {
      assert LargeAt(s, g);
    }
    hide LargeOk;
    forall p: nat ensures Seen(s', p) == if lo <= p < hi then None else Seen(s, p) {
      assert Half(s', p) == Half(s, p);
    }
  }

  lemma RetireKeeps(s: State, s': State, sec: nat, e: nat)
    requires Inv(s) && RetireStep(s, s', sec, e)
    ensures Inv(s')
  {
    SetSectionKeeps(s.pt, sec, e);
    assert EntryOk(s.pt, sec);
    FlagsAt(s.pt.lv1[sec]);
    FlagsAt(e);
    CountBounds(TableOf(s.pt, sec));
    EmptySection(s.pt, sec);
    hide Wf, Translate, IsPage, IsSection, TableBase, Count, TableOk, IsLarge, Leaf;
    forall g | g in s'.large ensures LargeAt(s', g) {
      assert LargeAt(s, g);
      forall p: nat | g <= p < g + s'.large[g].n ensures Translate(s'.pt, p).None? {
        GroupOf(p, g);
        hide Group;
      }
    }
    forall p: nat | Seen(s, p).Some? ensures Seen(s', p) == Seen(s, p) {
      assert Half(s', p) == Half(s, p);
      hide Half;
    }
    assert Grows(s, s');
    hide Grows, LargeAt, LargeOk;
    GrowingKeeps(s, s');
  }

  // No page of a section with an empty table is mapped.
  lemma EmptySection(pt: Pt, sec: nat)
    requires Wf(pt) && sec < NUM_LV1ENTRIES && IsPage(pt.lv1[sec]) && pt.cnt[sec] == 0
    ensures forall p: nat :: p / 256 == sec ==> Translate(pt, p).None?
  {
    assert EntryOk(pt, sec);
    FlagsAt(pt.lv1[sec]);
    CountBounds(TableOf(pt, sec));
    LeafZero();
    hide TableBase, IsPage, IsSection, Leaf, Count;
  }

  // After the sync of a retired table its SysMMU has no base of that section left.
  lemma SyncedBases(s: State, s': State, k: nat)
    requires Inv(s) && Next(s, s', RetireSync(k)) && s'.mmus[k].Live()
    ensures BasesOk(s', k, s'.mmus[k])
  {
    var r := s.retired.value;
    var lo, m := 256 * r.sec, s'.mmus[k];
    InvalidatedOk(s, k, lo, lo + 256);
    hide Wf, Translate, IsPage, TableBase;
    forall p | p in m.walks && m.walks[p].AtTable? ensures p < PAGES && SbbEntryOk(s', k, p / 256, m.walks[p].base) {
      assert SbbEntryOk(s, k, p / 256, m.walks[p].base);
      assert p / 256 != r.sec;
    }
    forall c | c in m.sbb ensures SbbEntryOk(s', k, c, m.sbb[c]) {
      assert SbbEntryOk(s, k, c, m.sbb[c]) && !Overlaps(c, lo, lo + 256);
    }
  }

  lemma RetireSyncKeeps(s: State, s': State, k: nat)
    requires Inv(s) && Next(s, s', RetireSync(k))
    ensures Inv(s')
  {
    var r := s.retired.value;
    InvalidatedOk(s, k, 256 * r.sec, 256 * r.sec + 256);
    SameSeen(s, s');
    if s'.mmus[k].Live() { SyncedBases(s, s', k); }
    hide Wf, Seen, IsPage, TableBase, Mmu.Invalidated, BasesOk, TlbOk, Grows, LargeOk;
    forall j | 0 <= j < |s'.mmus| ensures TlbOk(s', s'.mmus[j]) && SbbOk(s', j) {
      assert TlbOk(s, s.mmus[j]) && SbbOk(s, j);
      TlbCarry(s, s', s'.mmus[j]);
      if j != k && s'.mmus[j].Live() { BasesCarry(s, s', j, s'.mmus[j]); }
    }
  }

  lemma RetireFreeKeeps(s: State, s': State)
    requires Inv(s) && Next(s, s', RetireFree)
    ensures Inv(s')
  {
    SameSeen(s, s');
    hide Wf, Seen, IsPage, TableBase, BasesOk, TlbOk, Grows, LargeOk;
    forall k | 0 <= k < |s'.mmus| ensures TlbOk(s', s'.mmus[k]) && SbbOk(s', k) {
      assert TlbOk(s, s.mmus[k]) && SbbOk(s, k);
      TlbCarry(s, s', s'.mmus[k]);
      if s'.mmus[k].Live() { BasesCarry(s, s', k, s'.mmus[k]); }
    }
  }

  // What a walk reads through a base that is in order: the current translation, or nothing.
  lemma WalkReads(s: State, k: nat, p: nat, base: nat, r: Option<nat>)
    requires Inv(s) && p < PAGES && SbbEntryOk(s, k, p / 256, base) && Reads(s, p, base, r)
    ensures r.Some? ==> Seen(s, p) == r
  {
    var sec := p / 256;
    LeafZero();
    if IsPage(s.pt.lv1[sec]) && TableBase(s.pt.lv1[sec]) == base {
      assert EntryOk(s.pt, sec);
      FlagsAt(s.pt.lv1[sec]);
      hide TableBase, IsPage, IsSection, Leaf, Count, TableOk;
    }
  }

  lemma SectionSeen(s: State, p: nat)
    requires LargeOk(s) && p / 256 < |s.pt.lv1|
    ensures IsSection(s.pt.lv1[p / 256]) ==> Seen(s, p) == Some(SectionPhys(s.pt.lv1[p / 256]) + p % 256 * SPAGE_SIZE)
  {
    FlagsAt(s.pt.lv1[p / 256]);
    if Group(p) in s.large {
      assert LargeAt(s, Group(p));
      GroupOf(p, Group(p));
    }
    hide Group, IsSection, IsPage, SectionPhys;
  }

  lemma BeginKeeps(s: State, s': State, k: nat, p: nat)
    requires Inv(s) && Next(s, s', WalkBegin(k, p))
    ensures Inv(s')
  {
    var m, sec := s.mmus[k], p / 256;
    var e := s.pt.lv1[sec];
    assert TlbOk(s, m) && SbbOk(s, k);
    FlagsAt(e);
    assert IsSection(e) ==> Seen(s, p) == Some(SectionPhys(e) + p % 256 * SPAGE_SIZE) by { SectionSeen(s, p); }
    assert IsPage(e) ==> SbbEntryOk(s, k, sec, TableBase(e));
    hide Wf, Seen, TableBase, SbbEntryOk, IsPage, IsSection, SectionPhys, RetiredOk, LargeOk;
    assert TlbOk(s, Began(m, e, p));
    assert BasesOk(s, k, Began(m, e, p));
    OneMmuKeeps(s, s', k, Began(m, e, p));
  }

  lemma ReadKeeps(s: State, s': State, k: nat, p: nat, r: Option<nat>)
    requires Inv(s) && ReadStep(s, s', k, p, r)
    ensures Inv(s')
  {
    var m := s.mmus[k];
    assert TlbOk(s, m) && SbbOk(s, k);
    var m' := m.(walks := m.walks[p := Got(r)]);
    WalkReads(s, k, p, m.walks[p].base, r);
    hide Wf, Seen, SbbEntryOk, RetiredOk, Reads, LargeOk;
    assert TlbOk(s, m') && BasesOk(s, k, m');
    OneMmuKeeps(s, s', k, m');
  }

  lemma FillKeeps(s: State, s': State, k: nat, p: nat)
    requires Inv(s) && Next(s, s', WalkFill(k, p))
    ensures Inv(s')
  {
    var m := s.mmus[k];
    assert TlbOk(s, m) && SbbOk(s, k);
    hide Wf, Seen, SbbEntryOk, RetiredOk, LargeOk;
    var m' := Filled(m, p, m.walks[p].r);
    assert TlbOk(s, m') && BasesOk(s, k, m');
    OneMmuKeeps(s, s', k, m');
  }

  /** Every step, of the driver or of the hardware, keeps the caches coherent, except a roll-back of entries
      that a translating SysMMU holds. */
  lemma StepKeeps(s: State, s': State, a: Action)
    requires Inv(s) && Next(s, s', a) && Harmless(s, a)
    ensures Inv(s')
  {
    hide Wf, Seen, Translate, IsPage, TableBase, SbbEntryOk, LargeOk, Harmless;
    match a {
      case Map => MapKeeps(s, s');
      case LargeBegin(g, e) => LargeBeginKeeps(s, s', g, e);
      case LargeStore(g) => LargeStoreKeeps(s, s', g);
      case LargeCommit(g) => LargeCommitKeeps(s, s', g);
      case RollBack(g) => RollBackKeeps(s, s', g);
      case Unmap(lo, hi) => UnmapKeeps(s, s', lo, hi);
      case Retire(sec) =>
        var e: nat :| RetireStep(s, s', sec, e);
        RetireKeeps(s, s', sec, e);
      case RetireSync(k) => RetireSyncKeeps(s, s', k);
      case RetireFree => RetireFreeKeeps(s, s');
      case Invalidate(k, lo, hi) =>
        InvalidatedOk(s, k, lo, hi);
        OneMmuKeeps(s, s', k, s.mmus[k].Invalidated(lo, hi));
      case Suspend(k) => OneMmuKeeps(s, s', k, s'.mmus[k]);
      case Resume(k) => OneMmuKeeps(s, s', k, s'.mmus[k]);
      case Attach(k) =>
        assert TlbOk(s, s.mmus[k]) && SbbOk(s, k);
        OneMmuKeeps(s, s', k, s'.mmus[k]);
      case Detach(k) =>
        assert TlbOk(s, s.mmus[k]) && SbbOk(s, k);
        OneMmuKeeps(s, s', k, s'.mmus[k]);
      case WalkBegin(k, p) => BeginKeeps(s, s', k, p);
      case WalkRead(k, p) =>
        var r :| ReadStep(s, s', k, p, r);
        ReadKeeps(s, s', k, p, r);
      case WalkFill(k, p) => FillKeeps(s, s', k, p);
    }
  }

  // ----- whole runs -----

  ghost predicate IsRun(states: seq<State>, actions: seq<Action>) {
    |states| == |actions| + 1 && forall i :: 0 <= i < |actions| ==> Next(states[i], states[i + 1], actions[i])
  }

  // No SysMMU attached yet, no table being replaced and no 64K map in progress.
  ghost predicate Initial(s: State) {
    && Wf(s.pt) && s.retired == None && s.large == map[]
    && forall k :: 0 <= k < |s.mmus| ==> s.mmus[k].attached == 0
  }

  // No roll-back of the run takes back a page that a translating SysMMU holds.
  ghost predicate AllHarmless(states: seq<State>, actions: seq<Action>, n: nat) {
    |states| == |actions| + 1 && forall i :: 0 <= i < n && i < |actions| ==> Harmless(states[i], actions[i])
  }

  lemma {:induction false} RunKeeps(states: seq<State>, actions: seq<Action>, n: nat)
    requires IsRun(states, actions) && Inv(states[0]) && n < |states| && AllHarmless(states, actions, n)
    ensures Inv(states[n])
  {
    hide Inv, Next, Harmless;
    if n > 0 {
      RunKeeps(states, actions, n - 1);
      StepKeeps(states[n - 1], states[n], actions[n - 1]);
    }
  }

  // The table at this address is not freed: it is in use, or still being retired.
  predicate Unfreed(s: State, base: nat) {
    base in s.pt.tables || (s.retired.Some? && s.retired.value.base == base)
  }

  lemma BaseUnfreed(s: State, k: nat, sec: nat, base: nat)
    requires Wf(s.pt) && SbbEntryOk(s, k, sec, base)
    ensures Unfreed(s, base)
  {
    if sec < |s.pt.lv1| && IsPage(s.pt.lv1[sec]) {
      assert EntryOk(s.pt, sec);
      FlagsAt(s.pt.lv1[sec]);
      hide TableBase, IsPage, IsSection, Count, TableOk;
    }
  }

  // Every attached and resumed SysMMU: its TLB, and what its walks are about to put there,
  // is what memory gives or pages unmapped and not yet synced, and its SBB entries and
  // walks in flight point at tables that are not freed.
  ghost predicate Coherent(s: State) {
    forall k :: 0 <= k < |s.mmus| ==>
      var m := s.mmus[k];
      && TlbOk(s, m)
      && (m.Live() ==>
            && (forall sec :: sec in m.sbb ==> Unfreed(s, m.sbb[sec]))
            && (forall p :: p in m.walks && m.walks[p].AtTable? ==> Unfreed(s, m.walks[p].base)))
  }

  lemma InvCoherent(s: State)
    requires Inv(s)
    ensures Coherent(s)
  {
    hide Wf, Seen, SbbEntryOk, Unfreed, LargeOk, TlbOk;
    forall k | 0 <= k < |s.mmus| && s.mmus[k].Live()
      ensures forall sec :: sec in s.mmus[k].sbb ==> Unfreed(s, s.mmus[k].sbb[sec])
      ensures forall p :: p in s.mmus[k].walks && s.mmus[k].walks[p].AtTable? ==> Unfreed(s, s.mmus[k].walks[p].base)
    {
      var m := s.mmus[k];
      assert SbbOk(s, k);
      forall sec | sec in m.sbb ensures Unfreed(s, m.sbb[sec]) { BaseUnfreed(s, k, sec, m.sbb[sec]); }
      forall p | p in m.walks && m.walks[p].AtTable? ensures Unfreed(s, m.walks[p].base) {
        BaseUnfreed(s, k, p / 256, m.walks[p].base);
      }
    }
  }

  lemma InitialInv(s: State)
    requires Initial(s)
    ensures Inv(s)
  {
    hide Wf, Seen;
  }

  // While all states are coherent, no roll-back takes back a page that is held.
  lemma {:induction false} CoherentHarmless(states: seq<State>, actions: seq<Action>, n: nat)
    requires IsRun(states, actions) && Inv(states[0]) && n < |states|
    requires forall i :: 0 <= i < |states| ==> Coherent(states[i])
    ensures AllHarmless(states, actions, n)
  {
    if n > 0 {
      CoherentHarmless(states, actions, n - 1);
      RunKeeps(states, actions, n - 1);
      var s, s', a := states[n - 1], states[n], actions[n - 1];
      assert Next(s, s', a) && Coherent(s');
      if !Harmless(s, a) { RollBackBreaks(s, s', a.g); }
      hide Inv, Next, Harmless, Coherent;
    }
  }

  /** Cache coherence over whole runs: every state of a run is coherent exactly when no failing 64K map of the
      run takes back an entry while a translating SysMMU holds its page in the TLB or in a walk. */
  lemma CachesCoherent(states: seq<State>, actions: seq<Action>)
    requires IsRun(states, actions) && Initial(states[0])
    ensures (forall n :: 0 <= n < |states| ==> Coherent(states[n])) <==> AllHarmless(states, actions, |actions|)
  {
    InitialInv(states[0]);
    hide Inv, Next, Harmless, Coherent, Initial;
    if AllHarmless(states, actions, |actions|) {
      forall n | 0 <= n < |states| ensures Coherent(states[n]) {
        RunKeeps(states, actions, n);
        InvCoherent(states[n]);
      }
    }
    if forall n :: 0 <= n < |states| ==> Coherent(states[n]) { CoherentHarmless(states, actions, |actions|); }
  }

  // ----- synchronisation -----

  // SysMMU k has no page of [lo, hi) left to sync, or does not translate.
  ghost predicate Clean(s: State, k: nat, lo: nat, hi: nat) {
    k < |s.mmus| && (s.mmus[k].Live() ==> forall p :: p in s.mmus[k].unsynced ==> !(lo <= p < hi))
  }

  ghost predicate Leaves(a: Action, lo: nat, hi: nat) {
    a.Unmap? ==> a.hi <= lo || hi <= a.lo
  }

  lemma CleanKept(s: State, s': State, a: Action, k: nat, lo: nat, hi: nat)
    requires Next(s, s', a) && Leaves(a, lo, hi) && Clean(s, k, lo, hi)
    ensures Clean(s', k, lo, hi)
  {
    hide Wf, Translate, IsPage, TableBase, Reads, Half;
    match a {
      case Retire(sec) => var e: nat :| RetireStep(s, s', sec, e);
      case WalkRead(j, p) => var r :| ReadStep(s, s', j, p, r);
      case _ =>
    }
  }

  lemma CleanAfterInvalidate(s: State, s': State, k: nat, lo: nat, hi: nat)
    requires Next(s, s', Invalidate(k, lo, hi))
    ensures Clean(s', k, lo, hi)
  {
  }

  lemma {:induction false} CleanFrom(states: seq<State>, actions: seq<Action>, k: nat, i: nat, n: nat, lo: nat, hi: nat)
    requires IsRun(states, actions) && i < n < |states| && actions[i] == Invalidate(k, lo, hi)
    requires forall j :: i < j < n ==> Leaves(actions[j], lo, hi)
    ensures Clean(states[n], k, lo, hi)
    decreases n
  {
    hide Next, Clean, Leaves;
    if n == i + 1 {
      CleanAfterInvalidate(states[i], states[n], k, lo, hi);
    } else {
      CleanFrom(states, actions, k, i, n - 1, lo, hi);
      CleanKept(states[n - 1], states[n], actions[n - 1], k, lo, hi);
    }
  }

  /** A sync is complete: once SysMMU k has been told to invalidate [lo, hi), and whatever happens afterwards
      short of unmapping there again, it holds no stale page of the range while it translates. A SysMMU that
      was suspended or detached at its turn was skipped; it is covered because it invalidates everything
      before it translates again. */
  lemma SyncComplete(states: seq<State>, actions: seq<Action>, lo: nat, hi: nat, i: nat, n: nat, k: nat, p: nat)
    requires IsRun(states, actions) && Initial(states[0]) && i < n < |states| && k < |states[n].mmus|
    requires AllHarmless(states, actions, n) && actions[i] == Invalidate(k, lo, hi)
    requires forall j :: i < j < n ==> Leaves(actions[j], lo, hi)
    requires states[n].mmus[k].Live() && lo <= p < hi && p in states[n].mmus[k].tlb
    ensures Seen(states[n], p) == Some(states[n].mmus[k].tlb[p])
  {
    InitialInv(states[0]);
    RunKeeps(states, actions, n);
    CleanFrom(states, actions, k, i, n, lo, hi);
    assert TlbOk(states[n], states[n].mmus[k]);
    hide Wf, Seen, Next;
  }
}
