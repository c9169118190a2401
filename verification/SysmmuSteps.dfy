/**
The driver's map and unmap operations are steps of the cache coherence protocol:
what SysmmuCoherence assumes of a table update holds of each of them.
*/
module SysmmuSteps {
  import opened Common
  import opened SysmmuPte
  import opened SysmmuTable
  import opened SysmmuMap
  import opened SysmmuUnmap
  import opened SysmmuCoherence

  // The request replaces an empty second-level table by a section.
  ghost predicate Replaces(pt: Pt, iova: nat, size: nat) {
    size == SECT_SIZE && Sec(iova) < |pt.lv1| && IsPage(pt.lv1[Sec(iova)])
  }

  lemma MapPagesKeepsTables(pt: Pt, sec: nat, idx: nat, n: nat, e: nat, alloc: Option<nat>)
    requires Wf(pt) && sec < NUM_LV1ENTRIES && idx + n <= 256 && AllocOk(pt, alloc)
    ensures KeepsTables(pt, MapPages(pt, sec, idx, n, e, alloc).0)
    ensures MapPages(pt, sec, idx, n, e, alloc).0.tables.Keys <=
      pt.tables.Keys + (if alloc.Some? then {alloc.value} else {})
  {
    assert EntryOk(pt, sec);
    FlagsAt(pt.lv1[sec]);
    if !IsSection(pt.lv1[sec]) && (Lv1Unmapped(pt.lv1[sec]) ==> alloc.Some?) {
      HasTable(pt, sec, alloc);
      hide Fill, Leaf, Count, TableOk, Wf, NoLeak, Translate, TableBase, IsPage, IsSection, AllFree;
    }
  }

  lemma Append(states: seq<State>, actions: seq<Action>, a: Action, s': State)
    requires IsRun(states, actions) && Next(states[|actions|], s', a)
    ensures IsRun(states + [s'], actions + [a])
  {
    hide Next;
    var r, b := states + [s'], actions + [a];
    forall i | 0 <= i < |b| ensures Next(r[i], r[i + 1], b[i]) {
      if i < |actions| {
        assert r[i] == states[i] && r[i + 1] == states[i + 1] && b[i] == actions[i];
      } else {
        assert r[i] == states[|actions|] && r[i + 1] == s' && b[i] == a;
      }
    }
  }

  // What the driver's lock and its callers guarantee of a map: no other map writes in its
  // range, no other table replacement is in progress if it is one, and the allocator does
  // not hand out a table that is not freed.
  ghost predicate MayMap(s: State, iova: nat, size: nat, alloc: Option<nat>) {
    && Wf(s.pt) && LargeOk(s) && Request(iova, size) && AllocOk(s.pt, alloc)
    && (s.retired.Some? ==> s.retired.value.base !in s.pt.tables && alloc != Some(s.retired.value.base))
    && (forall p: nat :: InRange(p, iova, size) ==> !Half(s, p))
    && (size == LPAGE_SIZE ==> iova / SPAGE_SIZE !in s.large)
    && (Replaces(s.pt, iova, size) ==> s.retired == None && forall g :: g in s.large ==> g / 256 != Sec(iova))
  }

  // A map that leaves alone what others are writing is a Map step.
  lemma ExtendsIsMap(s: State, pt': Pt, alloc: Option<nat>)
    requires Wf(s.pt) && LargeOk(s) && Extends(s.pt, pt') && AllocOk(s.pt, alloc)
    requires s.retired.Some? ==> s.retired.value.base !in s.pt.tables && alloc != Some(s.retired.value.base)
    requires pt'.tables.Keys <= s.pt.tables.Keys + (if alloc.Some? then {alloc.value} else {})
    requires forall p: nat :: Half(s, p) ==> Translate(pt', p) == Translate(s.pt, p)
    ensures Next(s, s.(pt := pt'), Map)
  {
    hide Wf, Translate, IsPage, IsLarge, Extends;
    forall p: nat | Half(s, p) ensures Translate(pt', p).None? {
      var g := Group(p);
      assert LargeAt(s, g);
    }
  }

  // Maps of 4K and 1M that do not replace a table.
  lemma PlainMapIsStep(s: State, iova: nat, paddr: nat, size: nat, prot: Prot, alloc: Option<nat>)
    requires MayMap(s, iova, size, alloc) && paddr % size == 0 && paddr < TWO36
    requires var err := MapOp(s.pt, iova, paddr, size, prot, alloc).1;
      if size == SECT_SIZE then err != OK || !Replaces(s.pt, iova, size)
      else size == SPAGE_SIZE || err == ENOMEM || (Sec(iova) < |s.pt.lv1| && IsSection(s.pt.lv1[Sec(iova)]))
    ensures Next(s, s.(pt := MapOp(s.pt, iova, paddr, size, prot, alloc).0), Map)
  {
    var pt := s.pt;
    var (pt', err) := MapOp(pt, iova, paddr, size, prot, alloc);
    MapRefines(pt, iova, paddr, size, prot, alloc);
    IovaSplit(iova);
    IdxAligned(iova, size);
    var sec := Sec(iova);
    assert EntryOk(pt, sec);
    FlagsAt(pt.lv1[sec]);
    assert err == OK ==> forall p: nat :: InRange(p, iova, size) ==> Translate(pt, p).None?;
    hide Translate, Count, TableOk, Wf, NoLeak, TableBase, IsPage, IsSection, Leaf, SpagePhys, LpagePhys, SectionPhys;
    assert KeepsTables(pt, pt') && pt'.tables.Keys <= pt.tables.Keys + (if alloc.Some? then {alloc.value} else {}) by {
      if size == SPAGE_SIZE {
        MapPagesKeepsTables(pt, sec, Idx(iova), 1, MakePte(paddr, SPAGE_FLAG, Attr(prot, SLPD_SHAREABLE)), alloc);
      }
    }
    assert Extends(pt, pt');
    assert forall p: nat :: Half(s, p) ==> Translate(pt', p) == Translate(pt, p);
    hide MapOp, Maps, Extends, LargeOk, InRange, Half;
    ExtendsIsMap(s, pt', alloc);
  }

  // A 1M map over an empty table.
  lemma ReplacingMapIsStep(s: State, iova: nat, paddr: nat, prot: Prot, alloc: Option<nat>) returns (s': State)
    requires MayMap(s, iova, SECT_SIZE, alloc) && paddr % SECT_SIZE == 0 && paddr < TWO36
    requires Replaces(s.pt, iova, SECT_SIZE) && MapOp(s.pt, iova, paddr, SECT_SIZE, prot, alloc).1 == OK
    ensures Next(s, s', Retire(Sec(iova))) && s'.mmus == s.mmus && s'.large == s.large
    ensures s'.pt == MapOp(s.pt, iova, paddr, SECT_SIZE, prot, alloc).0
  {
    IovaSplit(iova);
    var pt, sec := s.pt, Sec(iova);
    assert EntryOk(pt, sec);
    FlagsAt(pt.lv1[sec]);
    SectionRoundTrip(paddr, Attr(prot, FLPD_SHAREABLE));
    hide Translate, Count, TableOk, Wf, NoLeak, TableBase, IsPage, IsSection, Leaf, SectionPhys;
    var e := MakePte(paddr, SECT_FLAG, Attr(prot, FLPD_SHAREABLE));
    s' := s.(pt := SetSection(pt, sec, e),
             retired := Some(Retired(sec, TableBase(pt.lv1[sec]), TableOf(pt, sec), {})));
    assert RetireStep(s, s', sec, e);
  }

  lemma WithTableExtends(pt: Pt, sec: nat, alloc: Option<nat>)
    requires Wf(pt) && sec < NUM_LV1ENTRIES && AllocOk(pt, alloc)
    requires !IsSection(pt.lv1[sec]) && (Lv1Unmapped(pt.lv1[sec]) ==> alloc.Some?)
    ensures var pt1 := WithTable(pt, sec, if alloc.Some? then alloc.value else 0);
      Extends(pt, pt1) && pt1.tables.Keys <= pt.tables.Keys + (if alloc.Some? then {alloc.value} else {})
  {
    HasTable(pt, sec, alloc);
    assert EntryOk(pt, sec);
    FlagsAt(pt.lv1[sec]);
    hide Translate, Count, TableOk, Wf, NoLeak, TableBase, IsPage, IsSection, Leaf, MakePte;
  }

  // The final step of a 64K map.
  lemma SetLargeCommits(pt: Pt, sec: nat, idx: nat, e: nat)
    requires Wf(pt) && sec < NUM_LV1ENTRIES && IsPage(pt.lv1[sec]) && TableBase(pt.lv1[sec]) in pt.tables
    requires idx + 16 <= 256 && idx % 16 == 0 && IsLarge(e) && TableOk(TableOf(pt, sec))
    requires AllFree(TableOf(pt, sec), idx, 16)
    ensures Commits(pt, SetPages(pt, sec, idx, 16, e), 256 * sec + idx, e)
  {
    assert EntryOk(pt, sec);
    FlagsDiffer(e);
    FlagsDiffer(0);
    FillLargeOk(TableOf(pt, sec), idx, e);
    SetPagesKeeps(pt, sec, idx, 16, e);
    var pt' := SetPages(pt, sec, idx, 16, e);
    hide Count, TableOk, Wf, NoLeak, TableBase, IsPage, IsSection, IsLarge, Leaf, Fill, Translate;
    forall p: nat
      ensures Translate(pt', p)
        == (if 256 * sec + idx <= p < 256 * sec + idx + 16 then Leaf(e, p % 256) else Translate(pt, p))
    {
      assert p == 256 * (p / 256) + p % 256;
      assert 256 * sec + idx <= p < 256 * sec + idx + 16 <==> p / 256 == sec && idx <= p % 256 < idx + 16;
    }
  }

  ghost predicate Unmapped(pt: Pt, g: nat, n: nat) { forall p: nat :: g <= p < g + n ==> Translate(pt, p).None? }

  // Storing the first n entries of a 64K map.
  lemma {:induction false} LargeStores(s: State, g: nat, e: nat, n: nat)
    returns (states: seq<State>, actions: seq<Action>)
    requires g !in s.large && g % 16 == 0 && g + 16 <= PAGES && IsLarge(e)
    requires g / 256 < |s.pt.lv1| && IsPage(s.pt.lv1[g / 256])
    requires n <= 16 && Unmapped(s.pt, g, n)
    ensures IsRun(states, actions) && states[0] == s && |actions| == n + 1 && actions[0] == LargeBegin(g, e)
    ensures states[n + 1] == s.(large := s.large[g := Large(n, e)])
    ensures forall i :: 0 < i < |actions| ==> actions[i] == LargeStore(g)
  {
    var next := s.(large := s.large[g := Large(n, e)]);
    if n == 0 {
      states, actions := [s, next], [LargeBegin(g, e)];
    } else {
      states, actions := LargeStores(s, g, e, n - 1);
      assert Translate(s.pt, g + (n - 1)).None?;
      hide IsRun, Translate, IsPage, IsLarge, Unmapped;
      assert Next(states[n], next, LargeStore(g));
      Append(states, actions, LargeStore(g), next);
      states, actions := states + [next], actions + [LargeStore(g)];
      assert states[0] == s by { hide Next; }
    }
  }

  // How many entries are free before the first that is in use.
  lemma FirstUsed(t: seq<nat>, idx: nat) returns (n: nat)
    requires idx + 16 <= |t|
    ensures n <= 16 && AllFree(t, idx, n) && (n < 16 ==> !Lv2Unmapped(t[idx + n]))
    ensures n == 16 <==> AllFree(t, idx, 16)
  {
    n := 0;
    while n < 16 && Lv2Unmapped(t[idx + n])
      invariant n <= 16 && AllFree(t, idx, n)
    {
      n := n + 1;
    }
  }

  lemma FreeUnmapped(pt: Pt, sec: nat, idx: nat, n: nat)
    requires Wf(pt) && sec < NUM_LV1ENTRIES && IsPage(pt.lv1[sec]) && idx + n <= 256
    ensures TableBase(pt.lv1[sec]) in pt.tables && TableOk(TableOf(pt, sec))
    ensures AllFree(TableOf(pt, sec), idx, n) ==> Unmapped(pt, 256 * sec + idx, n)
  {
    if n > 0 { PageMapped(pt, sec, idx); } else { PageMapped(pt, sec, 0); }
    if AllFree(TableOf(pt, sec), idx, n) {
      forall p: nat | 256 * sec + idx <= p < 256 * sec + idx + n ensures Translate(pt, p).None? {
        PageMapped(pt, sec, p - 256 * sec);
      }
    }
  }

  // The actions of a 64K map of group g after its table is there.
  ghost predicate LargeActions(actions: seq<Action>, g: nat, e: nat, ok: bool) {
    && |actions| >= 2 && actions[0] == LargeBegin(g, e)
    && actions[|actions| - 1] == (if ok then LargeCommit(g) else RollBack(g))
    && forall i :: 0 < i < |actions| - 1 ==> actions[i] == LargeStore(g)
  }

  // The last of them, after n stores.
  lemma LargeLast(s: State, sec: nat, idx: nat, e: nat, n: nat)
    requires Wf(s.pt) && sec < NUM_LV1ENTRIES && IsPage(s.pt.lv1[sec]) && IsLarge(e) && n <= 16
    requires idx + 16 <= 256 && idx % 16 == 0 && 256 * sec + idx !in s.large
    requires TableBase(s.pt.lv1[sec]) in s.pt.tables && TableOk(TableOf(s.pt, sec))
    requires n < 16 ==> !Lv2Unmapped(TableOf(s.pt, sec)[idx + n])
    requires n == 16 ==> AllFree(TableOf(s.pt, sec), idx, 16)
    ensures var g := 256 * sec + idx;
      Next(s.(large := s.large[g := Large(n, e)]), s.(pt := if n == 16 then SetPages(s.pt, sec, idx, 16, e) else s.pt),
           if n == 16 then LargeCommit(g) else RollBack(g))
  {
    var g := 256 * sec + idx;
    if n < 16 {
      PageMapped(s.pt, sec, idx + n);
      assert g + n == 256 * sec + (idx + n);
    } else {
      SetLargeCommits(s.pt, sec, idx, e);
    }
    assert s.large[g := Large(n, e)] - {g} == s.large;
    hide Wf, Translate, IsPage, IsLarge, TableBase, TableOk, AllFree, Lv2Unmapped, Commits, SetPages;
  }

  lemma GroupAt(sec: nat, idx: nat)
    requires sec < NUM_LV1ENTRIES && idx + 16 <= 256 && idx % 16 == 0
    ensures var g := 256 * sec + idx; g % 16 == 0 && g / 256 == sec && g + 16 <= PAGES
  {
  }

  // From a table for the section on, a 64K map stores entries until one is in use or all
  // are stored.
  lemma LargeMapRuns(s: State, sec: nat, idx: nat, e: nat) returns (states: seq<State>, actions: seq<Action>)
    requires Wf(s.pt) && sec < NUM_LV1ENTRIES && IsPage(s.pt.lv1[sec]) && IsLarge(e)
    requires idx + 16 <= 256 && idx % 16 == 0 && 256 * sec + idx !in s.large
    ensures TableBase(s.pt.lv1[sec]) in s.pt.tables && TableOk(TableOf(s.pt, sec))
    ensures IsRun(states, actions) && states[0] == s
    ensures var ok := AllFree(TableOf(s.pt, sec), idx, 16);
      && states[|actions|] == s.(pt := if ok then SetPages(s.pt, sec, idx, 16, e) else s.pt)
      && LargeActions(actions, 256 * sec + idx, e, ok)
  {
    var g := 256 * sec + idx;
    FreeUnmapped(s.pt, sec, idx, 16);
    var n := FirstUsed(TableOf(s.pt, sec), idx);
    FreeUnmapped(s.pt, sec, idx, n);
    LargeLast(s, sec, idx, e, n);
    GroupAt(sec, idx);
    hide Wf, Translate, IsPage, IsLarge, TableBase, TableOk, AllFree, Lv2Unmapped, SetPages, Unmapped, Next;
    states, actions := LargeStores(s, g, e, n);
    var next := s.(pt := if n == 16 then SetPages(s.pt, sec, idx, 16, e) else s.pt);
    var last := if n == 16 then LargeCommit(g) else RollBack(g);
    Append(states, actions, last, next);
    hide IsRun;
    states, actions := states + [next], actions + [last];
  }

  // What a map is in the protocol: the replacement of an empty table by a section; for
  // 64K, once there is a table, storing entries and committing or rolling them back; and
  // otherwise one step that only adds translations.
  ghost predicate IsMap(s: State, iova: nat, size: nat, err: Err, e: nat, actions: seq<Action>) {
    var sec, g := Sec(iova), iova / SPAGE_SIZE;
    if err == OK && Replaces(s.pt, iova, size) then actions == [Retire(sec)]
    else if size == LPAGE_SIZE && err != ENOMEM && sec < |s.pt.lv1| && !IsSection(s.pt.lv1[sec]) then
      |actions| > 0 && actions[0] == Map && LargeActions(actions[1..], g, e, err == OK)
    else actions == [Map]
  }

  // The whole of a 64K map, from table pt to pt1 with the section's table and on.
  lemma LargeMapSteps(s: State, pt1: Pt, sec: nat, idx: nat, e: nat) returns (states: seq<State>, actions: seq<Action>)
    requires Next(s, s.(pt := pt1), Map) && Wf(pt1) && sec < NUM_LV1ENTRIES && IsPage(pt1.lv1[sec]) && IsLarge(e)
    requires idx + 16 <= 256 && idx % 16 == 0 && 256 * sec + idx !in s.large
    ensures TableBase(pt1.lv1[sec]) in pt1.tables && TableOk(TableOf(pt1, sec))
    ensures IsRun(states, actions) && states[0] == s && |actions| > 0 && actions[0] == Map
    ensures var ok := AllFree(TableOf(pt1, sec), idx, 16);
      && states[|actions|] == s.(pt := if ok then SetPages(pt1, sec, idx, 16, e) else pt1)
      && LargeActions(actions[1..], 256 * sec + idx, e, ok)
  {
    hide Wf, Next, SetPages, TableBase, IsPage, TableOk, IsRun, AllFree, IsLarge, LargeActions;
    var rest, acts := LargeMapRuns(s.(pt := pt1), sec, idx, e);
    assert |rest| == |acts| + 1 by { assert IsRun(rest, acts); RunLength(rest, acts); }
    Prepend(s, Map, rest, acts);
    states, actions := [s] + rest, [Map] + acts;
    assert states[|actions|] == rest[|acts|] && actions[1..] == acts;
  }

  lemma RunLength(states: seq<State>, actions: seq<Action>)
    requires IsRun(states, actions)
    ensures |states| == |actions| + 1
  {
    hide Next;
  }

  lemma LargeMapIsRun(s: State, iova: nat, paddr: nat, prot: Prot, alloc: Option<nat>)
    returns (states: seq<State>, actions: seq<Action>)
    requires MayMap(s, iova, LPAGE_SIZE, alloc) && paddr % LPAGE_SIZE == 0 && paddr < TWO36
    requires Sec(iova) < |s.pt.lv1| && !IsSection(s.pt.lv1[Sec(iova)])
    requires MapOp(s.pt, iova, paddr, LPAGE_SIZE, prot, alloc).1 != ENOMEM
    ensures IsRun(states, actions) && states[0] == s && |states| == |actions| + 1
    ensures var (pt', err) := MapOp(s.pt, iova, paddr, LPAGE_SIZE, prot, alloc);
      && states[|actions|] == s.(pt := pt') && |actions| > 0 && actions[0] == Map
      && LargeActions(actions[1..], iova / SPAGE_SIZE, MakePte(paddr, LPAGE_FLAG, Attr(prot, SLPD_SHAREABLE)),
                      err == OK)
  {
    hide Wf, Translate, SetPages, TableBase, IsPage, TableOk, Next, MapOp, AllFree, MakePte, IsSection, IsLarge, Sec,
      Idx, LargeActions, IsRun, Attr, LargeOk, Half, AllocOk, Replaces, InRange;
    IovaSplit(iova);
    var e := MakePte(paddr, LPAGE_FLAG, Attr(prot, SLPD_SHAREABLE));
    LargeEntry(paddr, prot);
    assert iova / SPAGE_SIZE !in s.large;
    hide MayMap;
    var pt1 := LargeTableStep(s, iova, paddr, prot, alloc);
    states, actions := LargeMapSteps(s, pt1, Sec(iova), Idx(iova), e);
    RunLength(states, actions);
  }

  lemma LargeEntry(paddr: nat, prot: Prot)
    requires paddr % LPAGE_SIZE == 0 && paddr < TWO36
    ensures IsLarge(MakePte(paddr, LPAGE_FLAG, Attr(prot, SLPD_SHAREABLE)))
  {
    LargeRoundTrip(paddr, Attr(prot, SLPD_SHAREABLE));
  }

  // Finding or installing the table of a 64K map is a Map step.
  lemma LargeTableStep(s: State, iova: nat, paddr: nat, prot: Prot, alloc: Option<nat>) returns (pt1: Pt)
    requires MayMap(s, iova, LPAGE_SIZE, alloc)
    requires Sec(iova) < |s.pt.lv1| && !IsSection(s.pt.lv1[Sec(iova)])
    requires MapOp(s.pt, iova, paddr, LPAGE_SIZE, prot, alloc).1 != ENOMEM
    ensures Next(s, s.(pt := pt1), Map) && Wf(pt1) && Sec(iova) < NUM_LV1ENTRIES && IsPage(pt1.lv1[Sec(iova)])
    ensures Idx(iova) % 16 == 0 && Idx(iova) + 16 <= 256
    ensures TableBase(pt1.lv1[Sec(iova)]) in pt1.tables && TableOk(TableOf(pt1, Sec(iova)))
    ensures var e := MakePte(paddr, LPAGE_FLAG, Attr(prot, SLPD_SHAREABLE));
      MapOp(s.pt, iova, paddr, LPAGE_SIZE, prot, alloc)
      == if AllFree(TableOf(pt1, Sec(iova)), Idx(iova), 16) then (SetPages(pt1, Sec(iova), Idx(iova), 16, e), OK)
         else (pt1, EADDRINUSE)
  {
    hide Wf, Translate, Extends, LargeOk, Half, SetPages, TableBase, IsPage, TableOk, Next, MapOp, AllFree, MakePte,
      IsSection, Sec, Idx, InRange;
    pt1 := LargeTable(s.pt, iova, paddr, prot, alloc);
    ExtendsIsMap(s, pt1, alloc);
  }

  // The table that a 64K map finds or installs, and what it leaves.
  lemma LargeTable(pt: Pt, iova: nat, paddr: nat, prot: Prot, alloc: Option<nat>) returns (pt1: Pt)
    requires Wf(pt) && Request(iova, LPAGE_SIZE) && AllocOk(pt, alloc)
    requires Sec(iova) < |pt.lv1| && !IsSection(pt.lv1[Sec(iova)])
    requires MapOp(pt, iova, paddr, LPAGE_SIZE, prot, alloc).1 != ENOMEM
    ensures Wf(pt1) && Extends(pt, pt1) && Sec(iova) < NUM_LV1ENTRIES && IsPage(pt1.lv1[Sec(iova)])
    ensures pt1.tables.Keys <= pt.tables.Keys + (if alloc.Some? then {alloc.value} else {})
    ensures forall p: nat :: Translate(pt1, p) == Translate(pt, p)
    ensures Idx(iova) % 16 == 0 && Idx(iova) + 16 <= 256
    ensures TableBase(pt1.lv1[Sec(iova)]) in pt1.tables && TableOk(TableOf(pt1, Sec(iova)))
    ensures var e := MakePte(paddr, LPAGE_FLAG, Attr(prot, SLPD_SHAREABLE));
      MapOp(pt, iova, paddr, LPAGE_SIZE, prot, alloc)
      == if AllFree(TableOf(pt1, Sec(iova)), Idx(iova), 16) then (SetPages(pt1, Sec(iova), Idx(iova), 16, e), OK)
         else (pt1, EADDRINUSE)
  {
    IovaSplit(iova);
    IdxAligned(iova, LPAGE_SIZE);
    HasTable(pt, Sec(iova), alloc);
    WithTableExtends(pt, Sec(iova), alloc);
    pt1 := WithTable(pt, Sec(iova), if alloc.Some? then alloc.value else 0);
    hide Wf, Translate, Extends, SetPages, TableBase, IsPage, TableOk, WithTable, AllFree, MakePte, IsSection, NoLeak;
  }

  lemma Prepend(s: State, a: Action, states: seq<State>, actions: seq<Action>)
    requires IsRun(states, actions) && Next(s, states[0], a)
    ensures IsRun([s] + states, [a] + actions)
  {
    hide Next;
    var r, b := [s] + states, [a] + actions;
    forall i | 0 <= i < |b| ensures Next(r[i], r[i + 1], b[i]) {
      if i > 0 { assert r[i] == states[i - 1] && r[i + 1] == states[i] && b[i] == actions[i - 1]; }
    }
  }

  /** Every map is a sequence of steps of the protocol that ends in the page table it leaves, with the other
      maps in progress and the SysMMUs as they were. A 64K map that fails on a mapped page is the stores before
      it and their roll-back. */
  lemma MapIsRun(s: State, iova: nat, paddr: nat, size: nat, prot: Prot, alloc: Option<nat>)
    returns (states: seq<State>, actions: seq<Action>)
    requires MayMap(s, iova, size, alloc) && paddr % size == 0 && paddr < TWO36
    ensures IsRun(states, actions) && states[0] == s
    ensures var (pt', err) := MapOp(s.pt, iova, paddr, size, prot, alloc);
      var s' := states[|actions|];
      && s'.pt == pt' && s'.large == s.large && s'.mmus == s.mmus
      && IsMap(s, iova, size, err, MakePte(paddr, LPAGE_FLAG, Attr(prot, SLPD_SHAREABLE)), actions)
  {
    IovaSplit(iova);
    var (pt', err) := MapOp(s.pt, iova, paddr, size, prot, alloc);
    var sec := Sec(iova);
    hide Wf, Translate, LargeOk, Half, Next, MapOp, MakePte;
    if err == OK && Replaces(s.pt, iova, size) {
      var s' := ReplacingMapIsStep(s, iova, paddr, prot, alloc);
      states, actions := [s, s'], [Retire(sec)];
    } else if size == LPAGE_SIZE && err != ENOMEM && !IsSection(s.pt.lv1[sec]) {
      states, actions := LargeMapIsRun(s, iova, paddr, prot, alloc);
    } else {
      PlainMapIsStep(s, iova, paddr, size, prot, alloc);
      states, actions := [s, s.(pt := pt')], [Map];
    }
  }

  // The state after pages [lo, hi) are unmapped, which leaves page table pt.
  ghost function AfterUnmap(s: State, pt: Pt, lo: nat, hi: nat): State {
    s.(pt := pt, mmus := seq(|s.mmus|, k requires 0 <= k < |s.mmus| =>
                               s.mmus[k].(unsynced := s.mmus[k].unsynced + Span(lo, hi))))
  }

  // No 64K map in progress has a page of [lo, hi).
  ghost predicate NotHalf(s: State, lo: nat, hi: nat) { forall p: nat :: Half(s, p) ==> !(lo <= p < hi) }

  lemma DropsIsUnmap(s: State, pt: Pt, lo: nat, hi: nat)
    requires Drops(s.pt, pt, lo, hi) && NotHalf(s, lo, hi)
    ensures Next(s, AfterUnmap(s, pt, lo, hi), Unmap(lo, hi))
  {
    hide Drops, Half;
  }

  /** unmap, also while 64K maps are in progress elsewhere, is an Unmap step of exactly the pages it reports. */
  lemma UnmapIsStep(s: State, iova: nat, size: nat)
    requires Wf(s.pt) && Request(iova, size) && NotHalf(s, iova / SPAGE_SIZE, iova / SPAGE_SIZE + size / SPAGE_SIZE)
    ensures var (pt', r) := UnmapOp(s.pt, iova, size);
      var lo, hi := iova / SPAGE_SIZE, iova / SPAGE_SIZE + r / SPAGE_SIZE;
      Next(s, AfterUnmap(s, pt', lo, hi), Unmap(lo, hi))
  {
    hide Next, Wf, UnmapOp, Half;
    UnmapDrops(s.pt, iova, size);
    var (pt', r) := UnmapOp(s.pt, iova, size);
    DropsIsUnmap(s, pt', iova / SPAGE_SIZE, iova / SPAGE_SIZE + r / SPAGE_SIZE);
  }

  lemma UnmapDrops(pt: Pt, iova: nat, size: nat)
    requires Wf(pt) && Request(iova, size)
    ensures var (pt', r) := UnmapOp(pt, iova, size);
      r <= size && Drops(pt, pt', iova / SPAGE_SIZE, iova / SPAGE_SIZE + r / SPAGE_SIZE)
  {
    UnmapRefines(pt, iova, size);
    IovaSplit(iova);
    IdxAligned(iova, size);
    var sec := Sec(iova);
    assert EntryOk(pt, sec);
    FlagsAt(pt.lv1[sec]);
    hide Translate, Count, TableOk, Wf, NoLeak, TableBase, IsPage, IsSection, Leaf, Fill;
  }

  lemma {:induction false} UnmapSlptKeepsTables(pt: Pt, p: nat, q: nat)
    requires Shape(pt) && q <= PAGES
    ensures UnmapSlptOp(pt, p, q).tables.Keys == pt.tables.Keys
    decreases q - p
  {
    if p < q {
      var sec, stop := p / 256, SectionEnd(p, q);
      if !IsPage(pt.lv1[sec]) {
        UnmapSlptKeepsTables(pt, stop, q);
      } else {
        ClearPagesShape(pt, sec, p % 256, stop - p);
        UnmapSlptKeepsTables(ClearPages(pt, sec, p % 256, stop - p), stop, q);
      }
    }
  }

  /** So is unmap_slpt on a fully mapped range. */
  lemma UnmapSlptIsStep(s: State, p: nat, q: nat)
    requires Wf(s.pt) && Covered(s.pt, p, q) && q <= PAGES && NotHalf(s, p, q)
    ensures Shape(s.pt) && Next(s, AfterUnmap(s, UnmapSlptOp(s.pt, p, q), p, q), Unmap(p, q))
  {
    UnmapSlptRefines(s.pt, p, q);
    UnmapSlptKeepsTables(s.pt, p, q);
    hide Translate, Wf, Shape, Covered, Next, UnmapSlptOp, Half;
    DropsIsUnmap(s, UnmapSlptOp(s.pt, p, q), p, q);
  }

  lemma {:induction false} ClearSectionsKeepsTables(pt: Pt, sec: nat, n: nat)
    requires Shape(pt) && sec + n <= NUM_LV1ENTRIES
    ensures KeepsTables(pt, ClearSections(pt, sec, n))
    ensures ClearSections(pt, sec, n).tables.Keys == pt.tables.Keys
    decreases n
  {
    if n > 0 {
      ClearSectionsKeepsTables(pt, sec, n - 1);
      var pt1 := ClearSections(pt, sec, n - 1);
      assert IsPage(pt1.lv1[sec + n - 1]) ==> HasTableAt(pt1, sec + n - 1);
      hide IsPage, TableBase, Fill;
    }
  }

  /** So is clearing whole sections. */
  lemma ClearSectionsIsStep(s: State, sec: nat, n: nat)
    requires Wf(s.pt) && sec + n <= NUM_LV1ENTRIES && FullTables(s.pt, sec, n)
    requires NotHalf(s, 256 * sec, 256 * (sec + n))
    ensures Shape(s.pt)
    ensures var lo, hi := 256 * sec, 256 * (sec + n);
      Next(s, AfterUnmap(s, ClearSections(s.pt, sec, n), lo, hi), Unmap(lo, hi))
  {
    ClearSectionsRefines(s.pt, sec, n);
    ClearSectionsKeepsTables(s.pt, sec, n);
    hide Translate, Wf, Shape, FullTables, KeepsTables, Next, ClearSections, Half;
    DropsIsUnmap(s, ClearSections(s.pt, sec, n), 256 * sec, 256 * (sec + n));
  }
}
