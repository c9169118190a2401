/**
A run in which a failing 64K map leaves a stale translation: the exception in the
coherence theorem is not empty.
*/
module SysmmuRollBack {
  import opened Common
  import opened SysmmuPte
  import opened SysmmuTable
  import opened SysmmuMap
  import opened SysmmuCoherence
  import opened SysmmuSteps

  // A SysMMU attached and resumed, with empty caches.
  const CLEAR := Mmu(1, true, map[], map[], map[], {})

  // That SysMMU alone on page table pt.
  function Alone(pt: Pt): State { State(pt, map[], [CLEAR], None) }

  lemma BeginStep(s: State, g: nat, base: nat)
    requires s.mmus == [CLEAR] && g < PAGES && g / 256 < |s.pt.lv1|
    requires IsPage(s.pt.lv1[g / 256]) && TableBase(s.pt.lv1[g / 256]) == base
    ensures var m := CLEAR.(walks := map[g := AtTable(base)], sbb := map[g / 256 := base]);
      Next(s, s.(mmus := [m]), WalkBegin(0, g))
  {
    hide IsPage, TableBase, IsSection;
    var m := CLEAR.(walks := map[g := AtTable(base)], sbb := map[g / 256 := base]);
    assert Began(CLEAR, s.pt.lv1[g / 256], g) == m;
    assert s.mmus[0 := m] == [m];
  }

  lemma ReadNext(s: State, m: Mmu, g: nat, base: nat, r: Option<nat>)
    requires s.mmus == [m] && m.Live() && m.walks == map[g := AtTable(base)] && Reads(s, g, base, r)
    ensures Next(s, s.(mmus := [m.(walks := map[g := Got(r)])]), WalkRead(0, g))
  {
    hide Reads;
    var m1 := m.(walks := map[g := Got(r)]);
    assert m.walks[g := Got(r)] == m1.walks && s.mmus[0 := m1] == [m1];
    assert ReadStep(s, s.(mmus := [m1]), 0, g, r);
  }

  lemma FillNext(s: State, m: Mmu, g: nat, r: nat)
    requires s.mmus == [m] && m.Live() && m.walks == map[g := Got(Some(r))]
    ensures Next(s, s.(mmus := [m.(walks := map[], tlb := m.tlb[g := r])]), WalkFill(0, g))
  {
    var m1 := m.(walks := map[], tlb := m.tlb[g := r]);
    assert m.walks - {g} == map[] && Filled(m, g, Some(r)) == m1;
    assert s.mmus[0 := m1] == [m1];
  }

  // What a walk of a stored page reads.
  lemma ReadsStored(s: State, g: nat, n: nat, e: nat)
    requires Wf(s.pt) && g % 16 == 0 && g < PAGES && IsLarge(e) && n > 0 && s.large == map[g := Large(n, e)]
    requires g / 256 < |s.pt.lv1| && IsPage(s.pt.lv1[g / 256])
    ensures Reads(s, g, TableBase(s.pt.lv1[g / 256]), Leaf(e, g % 256)) && Leaf(e, g % 256).Some?
  {
    assert EntryOk(s.pt, g / 256);
    FlagsAt(s.pt.lv1[g / 256]);
    assert Group(g) == g && Half(s, g);
    hide TableBase, IsPage, IsSection, Count, Wf;
  }

  function Walks(p: nat): seq<Action> { [WalkBegin(0, p), WalkRead(0, p), WalkFill(0, p)] }

  // The SysMMU walks page g, which a 64K map has just stored.
  lemma WalkStored(s: State, g: nat, n: nat, e: nat) returns (states: seq<State>, actions: seq<Action>, m: Mmu)
    requires s.mmus == [CLEAR] && Wf(s.pt) && g % 16 == 0 && g < PAGES && IsLarge(e) && n > 0
    requires s.large == map[g := Large(n, e)] && g / 256 < |s.pt.lv1| && IsPage(s.pt.lv1[g / 256])
    ensures IsRun(states, actions) && actions == Walks(g) && states[0] == s && states[3] == s.(mmus := [m])
    ensures m.Live() && m.unsynced == {} && g in m.tlb
  {
    var base, r := TableBase(s.pt.lv1[g / 256]), Leaf(e, g % 256);
    hide Wf, Leaf, TableBase, IsPage, IsLarge, Next, Reads;
    var m1 := CLEAR.(walks := map[g := AtTable(base)], sbb := map[g / 256 := base]);
    var s1 := s.(mmus := [m1]);
    BeginStep(s, g, base);
    ReadsStored(s1, g, n, e);
    var m2 := m1.(walks := map[g := Got(r)]);
    var s2 := s.(mmus := [m2]);
    ReadNext(s1, m1, g, base, r);
    m := m2.(walks := map[], tlb := m2.tlb[g := r.value]);
    FillNext(s2, m2, g, r.value);
    states, actions := [s, s1, s2, s.(mmus := [m])], Walks(g);
    ThreeSteps(states, actions);
  }

  lemma ThreeSteps(states: seq<State>, actions: seq<Action>)
    requires |states| == 4 && |actions| == 3
    requires Next(states[0], states[1], actions[0]) && Next(states[1], states[2], actions[1])
    requires Next(states[2], states[3], actions[2])
    ensures IsRun(states, actions)
  {
    hide Next;
  }

  lemma Joined(s1: seq<State>, a1: seq<Action>, s2: seq<State>, a2: seq<Action>)
    requires IsRun(s1, a1) && IsRun(s2, a2) && s1[|a1|] == s2[0]
    ensures IsRun(s1 + s2[1..], a1 + a2)
  {
    hide Next;
    var r, b := s1 + s2[1..], a1 + a2;
    forall i | 0 <= i < |b| ensures Next(r[i], r[i + 1], b[i]) {
      if i < |a1| {
        assert r[i] == s1[i] && r[i + 1] == s1[i + 1] && b[i] == a1[i];
      } else {
        var j := i - |a1|;
        assert r[i] == s2[j] && r[i + 1] == s2[j + 1] && b[i] == a2[j];
      }
    }
  }

  // A 64K map of group g that meets a mapped page after n stores, with a walk in between.
  lemma StaleRun(pt: Pt, sec: nat, idx: nat, e: nat, n: nat) returns (states: seq<State>, actions: seq<Action>)
    requires Wf(pt) && sec < NUM_LV1ENTRIES && IsPage(pt.lv1[sec]) && IsLarge(e) && idx + 16 <= 256 && idx % 16 == 0
    requires 0 < n < 16 && Unmapped(pt, 256 * sec + idx, n) && Translate(pt, 256 * sec + idx + n).Some?
    ensures IsRun(states, actions) && |actions| == n + 5 && states[0] == Alone(pt)
    ensures states[n + 5].pt == pt && states[n + 5].large == map[] && !Coherent(states[n + 5])
    ensures actions[..n + 1] == [LargeBegin(256 * sec + idx, e)] + seq(n, _ => LargeStore(256 * sec + idx))
    ensures actions[n + 1..] == Walks(256 * sec + idx) + [RollBack(256 * sec + idx)]
  {
    var g, s := 256 * sec + idx, Alone(pt);
    GroupAt(sec, idx);
    assert Translate(pt, g).None?;
    hide Wf, IsPage, IsLarge, Unmapped, IsRun, Coherent, Translate;
    var st1, ac1 := LargeStores(s, g, e, n);
    RunLength(st1, ac1);
    var s1 := st1[n + 1];
    assert s1.large == map[g := Large(n, e)];
    var st2, ac2, m := WalkStored(s1, g, n, e);
    RunLength(st2, ac2);
    Joined(st1, ac1, st2, ac2);
    var s2, s3 := s1.(mmus := [m]), Alone(pt).(mmus := [m]);
    states, actions := st1 + st2[1..], ac1 + ac2;
    assert states[|actions|] == s2 && states[0] == s;
    assert s2.large - {g} == map[];
    assert Next(s2, s3, RollBack(g));
    Append(states, actions, RollBack(g), s3);
    states, actions := states + [s3], actions + [RollBack(g)];
    assert !Coherent(s3) by { NotCoherent(s3, m, g); }
    assert states[n + 5] == s3;
  }

  lemma NotCoherent(s: State, m: Mmu, g: nat)
    requires s.mmus == [m] && m.Live() && m.unsynced == {} && g in m.tlb && s.large == map[] && Translate(s.pt, g).None?
    ensures !Coherent(s)
  {
    hide Translate;
    assert Seen(s, g) == None;
    assert !TlbOk(s, s.mmus[0]);
  }

  // ----- at one input -----

  const PLAIN := Prot(false, false)

  const EMPTY := Pt(Const(NUM_LV1ENTRIES, 0), seq(NUM_LV1ENTRIES, _ => 0), map[])

  // The SysMMU before it is attached.
  const DETACHED := CLEAR.(attached := 0)

  lemma EmptyWf()
    ensures Wf(EMPTY) && forall p: nat :: Translate(EMPTY, p).None?
  {
    FlagsDiffer(0);
  }

  // 4K mapped at 0x3000 of an empty page table; a 64K map at 0 then fails.
  lemma PageThree() returns (pt: Pt)
    ensures Wf(EMPTY) && MapOp(EMPTY, 0x3000, 0x7000, SPAGE_SIZE, PLAIN, Some(0x40_0000)) == (pt, OK)
    ensures Wf(pt) && IsPage(pt.lv1[0]) && forall p: nat :: Translate(pt, p).Some? <==> p == 3
  {
    EmptyWf();
    MapRefines(EMPTY, 0x3000, 0x7000, SPAGE_SIZE, PLAIN, Some(0x40_0000));
    pt := MapOp(EMPTY, 0x3000, 0x7000, SPAGE_SIZE, PLAIN, Some(0x40_0000)).0;
    hide MapOp, MapPages;
    assert InRange(3, 0x3000, SPAGE_SIZE);
    assert Translate(pt, 3).Some? && Translate(pt, 0).None?;
    assert EntryOk(pt, 0);
  }

  lemma Refused(pt: Pt)
    requires Wf(pt) && IsPage(pt.lv1[0]) && Translate(pt, 3).Some?
    ensures MapOp(pt, 0, 0x10_0000, LPAGE_SIZE, PLAIN, None) == (pt, EADDRINUSE)
  {
    assert InRange(3, 0, LPAGE_SIZE);
    assert RangeInUse(pt, 0, LPAGE_SIZE) by { hide Translate; }
    MapRefines(pt, 0, 0x10_0000, LPAGE_SIZE, PLAIN, None);
    hide Translate, Wf, SetPages, AllFree, RangeInUse, Maps, TableBase;
  }

  lemma AttachNext(s: State)
    requires s.mmus == [DETACHED]
    ensures Next(s, s.(mmus := [CLEAR]), Attach(0))
  {
    assert CLEAR.Enabled() == CLEAR && s.mmus[0 := CLEAR] == [CLEAR];
  }

  lemma FirstMapNext(s: State)
    requires s.pt == EMPTY && Wf(EMPTY) && s.large == map[] && s.retired == None
    ensures Next(s, s.(pt := MapOp(EMPTY, 0x3000, 0x7000, SPAGE_SIZE, PLAIN, Some(0x40_0000)).0), Map)
  {
    hide Wf, Translate, MapOp;
    PlainMapIsStep(s, 0x3000, 0x7000, SPAGE_SIZE, PLAIN, Some(0x40_0000));
  }

  /** A run from an empty page table that does not stay coherent: 4K is mapped at 0x3000 and a SysMMU attached;
      64K is asked for at 0, which is refused and leaves the page table as it was. A walk of page 0 between its
      stores and their roll-back leaves page 0 in the TLB, neither mapped nor waiting for a sync. */
  lemma RollBackLeavesStale() returns (pt: Pt, states: seq<State>, actions: seq<Action>)
    ensures Wf(EMPTY) && MapOp(EMPTY, 0x3000, 0x7000, SPAGE_SIZE, PLAIN, Some(0x40_0000)) == (pt, OK)
    ensures Wf(pt) && MapOp(pt, 0, 0x10_0000, LPAGE_SIZE, PLAIN, None) == (pt, EADDRINUSE)
    ensures IsRun(states, actions) && Initial(states[0]) && states[0].pt == EMPTY
    ensures actions == [Map, Attach(0), LargeBegin(0, 0x1_0001), LargeStore(0), LargeStore(0), LargeStore(0),
                        WalkBegin(0, 0), WalkRead(0, 0), WalkFill(0, 0), RollBack(0)]
    ensures states[10].pt == pt && states[10].large == map[] && !Coherent(states[10])
  {
    pt := PageThree();
    assert Unmapped(pt, 0, 3);
    Refused(pt);
    hide Wf, Translate, MapOp, Coherent, IsPage, Unmapped, Next;
    var s0 := State(EMPTY, map[], [DETACHED], None);
    var s1 := s0.(pt := pt);
    FirstMapNext(s0);
    AttachNext(s1);
    states, actions := StaleRun(pt, 0, 0, 0x1_0001, 3);
    hide IsRun;
    Prepend(s1, Attach(0), states, actions);
    Prepend(s0, Map, [s1] + states, [Attach(0)] + actions);
    states, actions := [s0] + ([s1] + states), [Map] + ([Attach(0)] + actions);
  }
}
