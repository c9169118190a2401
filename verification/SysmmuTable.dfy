/**
The two-level page table of a SysMMU domain as a value: first-level entries, entry
counters and second-level tables by address; its translation of IOVA pages, its
invariant, and the updates the driver makes to it.
*/
module SysmmuTable {
  import opened Common
  import opened SysmmuPte

  // lv1: first-level entries; cnt: lv2entcnt; tables: second-level tables by physical address.
  datatype Pt = Pt(lv1: seq<nat>, cnt: seq<int>, tables: map<nat, seq<nat>>)

  const PAGES := 0x10_0000

  // ----- translation -----

  function Leaf(e: nat, idx: nat): Option<nat> {
    if IsLarge(e) then Some(LpagePhys(e) + idx % 16 * SPAGE_SIZE)
    else if IsSmall(e) then Some(SpagePhys(e))
    else None
  }

  // Physical address of the idx-th page of a section with first-level entry e.
  function Lookup(e: nat, tables: map<nat, seq<nat>>, idx: nat): Option<nat> {
    if IsSection(e) then Some(SectionPhys(e) + idx * SPAGE_SIZE)
    else if IsPage(e) && TableBase(e) in tables && idx < |tables[TableBase(e)]| then
      Leaf(tables[TableBase(e)][idx], idx)
    else None
  }

  // Physical address of IOVA page p, if mapped.
  function Translate(pt: Pt, p: nat): Option<nat> {
    if p / 256 < |pt.lv1| then Lookup(pt.lv1[p / 256], pt.tables, p % 256) else None
  }

  // ----- invariant -----

  function Count(t: seq<nat>): nat {
    if |t| == 0 then 0 else Count(t[..|t| - 1]) + (if t[|t| - 1] != 0 then 1 else 0)
  }

  // Index of the first entry of the 64K group that holds entry i.
  function Leader(i: nat): nat { i - i % 16 }

  // Entries are zero, small or large; a large entry fills its aligned group of 16.
  ghost predicate TableOk(t: seq<nat>) {
    && |t| == 256
    && (forall i :: 0 <= i < 256 ==> t[i] == 0 || IsSmall(t[i]) || IsLarge(t[i]))
    && (forall i :: 0 <= i < 256 && (IsLarge(t[i]) || IsLarge(t[Leader(i)])) ==> t[i] == t[Leader(i)])
  }

  // First-level entry i is zero, a section, or points to a table it alone owns and counts.
  ghost predicate EntryOk(pt: Pt, i: nat)
    requires i < |pt.lv1| && i < |pt.cnt|
  {
    var e := pt.lv1[i];
    || e == 0
    || IsSection(e)
    || (IsPage(e) && TableBase(e) in pt.tables && TableOk(pt.tables[TableBase(e)])
        && pt.cnt[i] == Count(pt.tables[TableBase(e)]))
  }

  ghost predicate Wf(pt: Pt) {
    && |pt.lv1| == NUM_LV1ENTRIES && |pt.cnt| == NUM_LV1ENTRIES
    && (forall i :: 0 <= i < NUM_LV1ENTRIES ==> EntryOk(pt, i))
    && (forall i, j :: 0 <= i < j < NUM_LV1ENTRIES && IsPage(pt.lv1[i]) && IsPage(pt.lv1[j])
          ==> TableBase(pt.lv1[i]) != TableBase(pt.lv1[j]))
  }

  // Every table in memory is owned: nothing is leaked.
  ghost predicate NoLeak(pt: Pt) {
    forall b :: b in pt.tables ==> Owned(pt.lv1, b)
  }

  ghost predicate Owned(lv1: seq<nat>, b: nat) {
    exists i :: 0 <= i < |lv1| && IsPage(lv1[i]) && TableBase(lv1[i]) == b
  }

  lemma FlagsDiffer(e: nat)
    ensures !(IsSection(e) && IsPage(e)) && !(IsSmall(e) && IsLarge(e))
    ensures e == 0 ==> !IsSection(e) && !IsPage(e) && !IsSmall(e) && !IsLarge(e)
  {
  }

  // ----- counting -----

  lemma {:induction false} CountConcat(a: seq<nat>, b: seq<nat>)
    ensures Count(a + b) == Count(a) + Count(b)
    decreases |b|
  {
    if b == [] {
      assert a + b == a;
    } else {
      assert (a + b)[..|a + b| - 1] == a + b[..|b| - 1];
      CountConcat(a, b[..|b| - 1]);
    }
  }

  lemma {:induction false} CountBounds(t: seq<nat>)
    ensures Count(t) <= |t|
    ensures Count(t) == 0 <==> forall i :: 0 <= i < |t| ==> t[i] == 0
    ensures Count(t) == |t| <==> forall i :: 0 <= i < |t| ==> t[i] != 0
    decreases |t|
  {
    if |t| > 0 {
      var u := t[..|t| - 1];
      CountBounds(u);
      assert forall i :: 0 <= i < |u| ==> u[i] == t[i];
    }
  }

  function Const(n: nat, e: nat): (r: seq<nat>)
    ensures |r| == n && forall i :: 0 <= i < n ==> r[i] == e
  {
    seq(n, _ => e)
  }

  // Table t with n entries from idx on set to e.
  function Fill(t: seq<nat>, idx: nat, n: nat, e: nat): seq<nat>
    requires idx + n <= |t|
  {
    t[..idx] + Const(n, e) + t[idx + n..]
  }

  lemma FillAt(t: seq<nat>, idx: nat, n: nat, e: nat)
    requires idx + n <= |t|
    ensures |Fill(t, idx, n, e)| == |t|
    ensures forall i :: 0 <= i < |t| ==> Fill(t, idx, n, e)[i] == if idx <= i < idx + n then e else t[i]
  {
  }

  lemma CountThree(a: seq<nat>, b: seq<nat>, c: seq<nat>)
    ensures Count(a + b + c) == Count(a) + Count(b) + Count(c)
  {
    CountConcat(a + b, c);
    CountConcat(a, b);
  }

  lemma CountConst(n: nat, e: nat)
    ensures Count(Const(n, e)) == if e == 0 then 0 else n
  {
    CountBounds(Const(n, e));
  }

  lemma SplitThree(t: seq<nat>, idx: nat, n: nat)
    requires idx + n <= |t|
    ensures t == t[..idx] + t[idx..idx + n] + t[idx + n..]
  {
  }

  lemma CountFill(t: seq<nat>, idx: nat, n: nat, e: nat)
    requires idx + n <= |t|
    ensures Count(Fill(t, idx, n, e)) == Count(t) - Count(t[idx..idx + n]) + (if e == 0 then 0 else n)
  {
    hide Count, Const;
    CountConst(n, e);
    SplitThree(t, idx, n);
    CountThree(t[..idx], t[idx..idx + n], t[idx + n..]);
    CountThree(t[..idx], Const(n, e), t[idx + n..]);
  }

  // ----- updates -----

  // The second-level table of section sec replaced, with its counter.
  function PutTable(pt: Pt, sec: nat, t: seq<nat>, c: int): Pt
    requires sec < |pt.lv1| && sec < |pt.cnt|
  {
    pt.(tables := pt.tables[TableBase(pt.lv1[sec]) := t], cnt := pt.cnt[sec := c])
  }

  // First-level entry sec replaced.
  function PutEntry(pt: Pt, sec: nat, e: nat): Pt
    requires sec < |pt.lv1|
  {
    pt.(lv1 := pt.lv1[sec := e])
  }

  ghost predicate SameElsewhere(pt: Pt, pt': Pt, sec: nat) {
    forall p: nat :: p / 256 != sec ==> Translate(pt', p) == Translate(pt, p)
  }

  /** Replacing a section's second-level table changes that section's pages and no others. */
  lemma PutTableKeeps(pt: Pt, sec: nat, t: seq<nat>, c: int)
    requires Wf(pt) && sec < NUM_LV1ENTRIES && IsPage(pt.lv1[sec]) && TableOk(t) && c == Count(t)
    ensures Wf(PutTable(pt, sec, t, c)) && SameElsewhere(pt, PutTable(pt, sec, t, c), sec)
    ensures NoLeak(pt) ==> NoLeak(PutTable(pt, sec, t, c))
    ensures forall p: nat :: p / 256 == sec ==> Translate(PutTable(pt, sec, t, c), p) == Leaf(t[p % 256], p % 256)
  {
    assert |t| == 256;
    hide TableOk, Count, TableBase, IsPage, IsSection, Leaf;
    var pt' := PutTable(pt, sec, t, c);
    assert EntryOk(pt, sec);
    FlagsAt(pt.lv1[sec]);
    forall i | 0 <= i < NUM_LV1ENTRIES ensures EntryOk(pt', i) {
      assert EntryOk(pt, i);
    }
    forall p: nat | p / 256 != sec ensures Translate(pt', p) == Translate(pt, p) {
      if p / 256 < NUM_LV1ENTRIES { assert EntryOk(pt, p / 256); }
    }
  }

  lemma FlagsAt(e: nat)
    ensures IsPage(e) ==> !IsSection(e) && e != 0
    ensures IsSection(e) ==> !IsPage(e) && e != 0
  {
  }

  // lv1set_section: an empty table it replaces is freed and its counter left full.
  function SetSection(pt: Pt, sec: nat, e: nat): Pt
    requires sec < |pt.lv1| && sec < |pt.cnt|
  {
    if IsPage(pt.lv1[sec]) then
      Pt(pt.lv1[sec := e], pt.cnt[sec := NUM_LV2ENTRIES], pt.tables - {TableBase(pt.lv1[sec])})
    else PutEntry(pt, sec, e)
  }

  function NewTable(pt: Pt, sec: nat, base: nat): Pt
    requires sec < |pt.lv1| && sec < |pt.cnt|
  {
    Pt(pt.lv1[sec := MakePte(base, SLPD_FLAG, 0)], pt.cnt[sec := 0], pt.tables[base := Const(NUM_LV2ENTRIES, 0)])
  }

  /** A section entry over an unmapped section or an empty table: the table goes, other sections keep theirs. */
  lemma SetSectionKeeps(pt: Pt, sec: nat, e: nat)
    requires Wf(pt) && sec < NUM_LV1ENTRIES && IsSection(e)
    ensures Wf(SetSection(pt, sec, e)) && SameElsewhere(pt, SetSection(pt, sec, e), sec)
    ensures NoLeak(pt) ==> NoLeak(SetSection(pt, sec, e))
    ensures var pt', over := SetSection(pt, sec, e), IsPage(pt.lv1[sec]);
      && pt'.tables.Keys == pt.tables.Keys - (if over then {TableBase(pt.lv1[sec])} else {})
      && pt'.cnt[sec] == if over then 256 else pt.cnt[sec]
    ensures forall p: nat :: p / 256 == sec ==>
      Translate(SetSection(pt, sec, e), p) == Some(SectionPhys(e) + p % 256 * SPAGE_SIZE)
  {
    hide TableOk, Count, TableBase, IsPage, IsSection, Leaf, SectionPhys;
    var pt' := SetSection(pt, sec, e);
    FlagsAt(e);
    forall i | 0 <= i < NUM_LV1ENTRIES ensures EntryOk(pt', i) {
      assert EntryOk(pt, i);
      FlagsAt(pt.lv1[i]);
    }
    forall p: nat | p / 256 != sec ensures Translate(pt', p) == Translate(pt, p) {
      if p / 256 < NUM_LV1ENTRIES { assert EntryOk(pt, p / 256); FlagsAt(pt.lv1[p / 256]); }
    }
    if NoLeak(pt) {
      forall b | b in pt'.tables ensures Owned(pt'.lv1, b) {
        var i :| 0 <= i < |pt.lv1| && IsPage(pt.lv1[i]) && TableBase(pt.lv1[i]) == b;
        assert pt'.lv1[i] == pt.lv1[i];
      }
    }
  }

  /** Clearing a first-level entry that holds no table unmaps that section only. */
  lemma ClearEntryKeeps(pt: Pt, sec: nat)
    requires Wf(pt) && sec < NUM_LV1ENTRIES && !IsPage(pt.lv1[sec])
    ensures Wf(PutEntry(pt, sec, 0)) && SameElsewhere(pt, PutEntry(pt, sec, 0), sec)
    ensures NoLeak(pt) ==> NoLeak(PutEntry(pt, sec, 0))
    ensures forall p: nat :: p / 256 == sec ==> Translate(PutEntry(pt, sec, 0), p) == None
  {
    FlagsDiffer(0);
    hide TableOk, Count, TableBase, IsPage, IsSection, Leaf, SectionPhys;
    var pt' := PutEntry(pt, sec, 0);
    forall i | 0 <= i < NUM_LV1ENTRIES ensures EntryOk(pt', i) {
      assert EntryOk(pt, i);
    }
    if NoLeak(pt) {
      forall b | b in pt'.tables ensures Owned(pt'.lv1, b) {
        var i :| 0 <= i < |pt.lv1| && IsPage(pt.lv1[i]) && TableBase(pt.lv1[i]) == b;
        assert pt'.lv1[i] == pt.lv1[i];
      }
    }
  }

  lemma EmptyTable()
    ensures TableOk(Const(NUM_LV2ENTRIES, 0)) && Count(Const(NUM_LV2ENTRIES, 0)) == 0
  {
    CountConst(NUM_LV2ENTRIES, 0);
    FlagsDiffer(0);
  }

  /** Installing a fresh, empty second-level table changes no translation. */
  lemma NewTableKeeps(pt: Pt, sec: nat, base: nat)
    requires Wf(pt) && sec < NUM_LV1ENTRIES && pt.lv1[sec] == 0
    requires base % 1024 == 0 && base < TWO36 && base !in pt.tables
    ensures Wf(NewTable(pt, sec, base)) && (NoLeak(pt) ==> NoLeak(NewTable(pt, sec, base)))
    ensures IsPage(NewTable(pt, sec, base).lv1[sec]) && TableBase(NewTable(pt, sec, base).lv1[sec]) == base
    ensures forall p: nat :: Translate(NewTable(pt, sec, base), p) == Translate(pt, p)
  {
    TableRoundTrip(base);
    EmptyTable();
    FlagsDiffer(0);
    assert Leaf(0, 0) == None;
    hide TableOk, Count, TableBase, IsPage, IsSection, SectionPhys, MakePte;
    var pt' := NewTable(pt, sec, base);
    FlagsAt(pt'.lv1[sec]);
    forall i | 0 <= i < NUM_LV1ENTRIES ensures EntryOk(pt', i) {
      assert EntryOk(pt, i);
    }
    forall i, j | 0 <= i < j < NUM_LV1ENTRIES && IsPage(pt'.lv1[i]) && IsPage(pt'.lv1[j])
      ensures TableBase(pt'.lv1[i]) != TableBase(pt'.lv1[j])
    {
      assert EntryOk(pt, i) && EntryOk(pt, j);
      FlagsAt(pt.lv1[i]);
      FlagsAt(pt.lv1[j]);
    }
    forall p: nat ensures Translate(pt', p) == Translate(pt, p) {
      if p / 256 < NUM_LV1ENTRIES { assert EntryOk(pt, p / 256); FlagsAt(pt.lv1[p / 256]); }
    }
    if NoLeak(pt) {
      forall b | b in pt'.tables ensures Owned(pt'.lv1, b) {
        if b == base {
          assert IsPage(pt'.lv1[sec]) && TableBase(pt'.lv1[sec]) == b;
        } else {
          var i :| 0 <= i < |pt.lv1| && IsPage(pt.lv1[i]) && TableBase(pt.lv1[i]) == b;
          FlagsAt(pt.lv1[i]);
          assert pt'.lv1[i] == pt.lv1[i];
        }
      }
    }
  }
}
