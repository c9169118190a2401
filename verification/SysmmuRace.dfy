/**
Map and unmap calls that race in one section: looking for the second-level table,
allocating one, publishing it or freeing it again under the lock, resetting the entry
counter, writing entries and updating the counter are separate steps of any number of
callers.
*/
module SysmmuRace {
  // The first-level entry of the section.
  datatype Slot = Empty | Section | Table(base: nat)

  // Where a call is. Missing: it saw an empty entry. Holding: it has allocated a table.
  // Published: it has stored the first-level entry and not yet reset the counter, and has
  // pgtablelock. Found: it knows that there is a table. Storing: it has written `done`
  // entries of the table and not counted them. Cleared: it has unmapped its entries and
  // not counted them.
  datatype Pc = Entered | Missing | Holding(base: nat) | Published | Found | Storing(base: nat, done: nat) | Cleared

  // A call works on n entries from lo on.
  datatype Call = Idle | Call(lo: nat, n: nat, pc: Pc)

  // heap: the tables allocated and not freed, by address, each with the indices of its
  // entries in use. got, freed: all allocations and frees so far.
  datatype State = State(
    slot: Slot, cnt: int, heap: map<nat, set<nat>>, calls: seq<Call>, got: multiset<nat>, freed: multiset<nat>)

  datatype Action =
    | MapCall(c: nat, lo: nat, n: nat)
    | Look(c: nat)
    | Alloc(c: nat, base: nat)
    | AllocFails(c: nat)
    | Publish(c: nat)
    | Reset(c: nat)
    | Discard(c: nat)
    | Enter(c: nat)
    | Store(c: nat)
    | RollBack(c: nat)
    | Count(c: nat)
    | Clear(c: nat, lo: nat, n: nat)
    | Uncount(c: nat)
    | MapSection
    | UnmapSection

  function Range(lo: nat, n: nat): (r: set<nat>)
    ensures forall i :: i in r <==> lo <= i < lo + n
  {
    if n == 0 then {} else Range(lo, n - 1) + {lo + n - 1}
  }

  predicate Apart(a: Call, b: Call) {
    a.Idle? || b.Idle? || a.lo + a.n <= b.lo || b.lo + b.n <= a.lo
  }

  // ----- steps -----

  // Caller c is at pc.
  predicate At(s: State, c: nat, pc: Pc) { c < |s.calls| && s.calls[c].Call? && s.calls[c].pc == pc }

  function Moved(s: State, c: nat, pc: Pc): State
    requires c < |s.calls| && s.calls[c].Call?
  {
    s.(calls := s.calls[c := s.calls[c].(pc := pc)])
  }

  function Ended(s: State, c: nat): State
    requires c < |s.calls|
  {
    s.(calls := s.calls[c := Idle])
  }

  function Freed(s: State, base: nat): State { s.(heap := s.heap - {base}, freed := s.freed + multiset{base}) }

  // The IOMMU core's callers work on ranges that do not overlap.
  ghost predicate Enters(s: State, c: nat, lo: nat, n: nat) {
    && c < |s.calls| && s.calls[c].Idle? && lo + n <= 256
    && forall i :: 0 <= i < |s.calls| ==> Apart(Call(lo, n, Entered), s.calls[i])
  }

  ghost predicate Quiet(s: State) { forall i :: 0 <= i < |s.calls| ==> s.calls[i].Idle? }

  predicate IsPublished(k: Call) { k.Call? && k.pc.Published? }

  // A call has published a table and not yet reset the counter.
  ghost predicate Window(s: State) { exists i :: 0 <= i < |s.calls| && IsPublished(s.calls[i]) }

  predicate HoldsTable(s: State, c: nat) { c < |s.calls| && s.calls[c].Call? && s.calls[c].pc.Holding? }

  // Caller c is writing entries into a table.
  predicate Writes(s: State, c: nat) {
    && c < |s.calls| && s.calls[c].Call? && s.calls[c].pc.Storing? && s.calls[c].pc.base in s.heap
  }

  ghost predicate Next(s: State, s': State, a: Action) {
    match a
    case MapCall(c, lo, n) => Enters(s, c, lo, n) && s' == s.(calls := s.calls[c := Call(lo, n, Entered)])
    // lv1ent_section is an error; lv1ent_unmapped needs a table
    case Look(c) =>
      At(s, c, Entered)
      && s' == (match s.slot
                case Section => Ended(s, c)
                case Empty => Moved(s, c, Missing)
                case Table(_) => Moved(s, c, Found))
    case Alloc(c, base) =>
      && At(s, c, Missing) && base !in s.heap
      && s' == Moved(s, c, Holding(base)).(heap := s.heap[base := {}], got := s.got + multiset{base})
    case AllocFails(c) => At(s, c, Missing) && s' == Ended(s, c)
    // under pgtablelock the entry is looked at again, and then either the table is made the
    // section's and the counter reset, or the table is freed
    case Publish(c) =>
      && HoldsTable(s, c) && !Window(s) && s.slot.Empty?
      && s' == Moved(s, c, Published).(slot := Table(s.calls[c].pc.base))
    case Reset(c) => At(s, c, Published) && s' == Moved(s, c, Found).(cnt := 0)
    case Discard(c) =>
      && HoldsTable(s, c) && !Window(s) && !s.slot.Empty? && s' == Freed(Moved(s, c, Found), s.calls[c].pc.base)
    case Enter(c) => At(s, c, Found) && s.slot.Table? && s' == Moved(s, c, Storing(s.slot.base, 0))
    case Store(c) =>
      && Writes(s, c)
      && var k := s.calls[c];
         && k.pc.done < k.n && k.lo + k.pc.done !in s.heap[k.pc.base]
         && s' == Moved(s, c, Storing(k.pc.base, k.pc.done + 1))
                    .(heap := s.heap[k.pc.base := s.heap[k.pc.base] + {k.lo + k.pc.done}])
    // an entry is in use: those written are cleared again
    case RollBack(c) =>
      && Writes(s, c)
      && var k := s.calls[c];
         && k.pc.done < k.n && k.lo + k.pc.done in s.heap[k.pc.base]
         && s' == Ended(s, c).(heap := s.heap[k.pc.base := s.heap[k.pc.base] - Range(k.lo, k.pc.done)])
    case Count(c) =>
      Writes(s, c) && s.calls[c].pc.done == s.calls[c].n && s' == Ended(s, c).(cnt := s.cnt + s.calls[c].n)
    // unmap of entries that are in use
    case Clear(c, lo, n) =>
      && Enters(s, c, lo, n) && s.slot.Table? && s.slot.base in s.heap && Range(lo, n) <= s.heap[s.slot.base]
      && s' == s.(calls := s.calls[c := Call(lo, n, Cleared)],
                  heap := s.heap[s.slot.base := s.heap[s.slot.base] - Range(lo, n)])
    case Uncount(c) => At(s, c, Cleared) && s' == Ended(s, c).(cnt := s.cnt - s.calls[c].n)
    // a section takes the whole range; its map looks at the counter only
    case MapSection =>
      && Quiet(s)
      && s' == (match s.slot
                case Empty => s.(slot := Section)
                case Section => s
                case Table(base) => if s.cnt != 0 then s else Freed(s, base).(slot := Section, cnt := 256))
    case UnmapSection => Quiet(s) && s.slot.Section? && s' == s.(slot := Empty)
  }

  // ----- invariant -----

  // What call k has changed in the table and not yet in the counter.
  function Weight(k: Call): int {
    if k.Idle? then 0 else if k.pc.Storing? then k.pc.done else if k.pc.Cleared? then 0 - k.n as int else 0
  }

  function Pending(calls: seq<Call>): int {
    if calls == [] then 0 else Pending(calls[..|calls| - 1]) + Weight(calls[|calls| - 1])
  }

  lemma {:induction false} PendingSet(calls: seq<Call>, c: nat, k: Call)
    requires c < |calls|
    ensures Pending(calls[c := k]) == Pending(calls) - Weight(calls[c]) + Weight(k)
    decreases |calls|
  {
    var n := |calls| - 1;
    if c < n {
      PendingSet(calls[..n], c, k);
      assert calls[c := k][..n] == calls[..n][c := k];
    } else {
      assert calls[c := k][..n] == calls[..n];
    }
  }

  lemma {:induction false} PendingZero(calls: seq<Call>)
    requires forall i :: 0 <= i < |calls| ==> Weight(calls[i]) == 0
    ensures Pending(calls) == 0
    decreases |calls|
  {
    hide Weight;
    if calls != [] { PendingZero(calls[..|calls| - 1]); }
  }

  // Call k, which holds a table of its own if it is Holding.
  ghost predicate CallOk(s: State, k: Call) {
    k.Call? ==>
      && k.lo + k.n <= 256
      && (k.pc.Missing? || k.pc.Holding? ==> !s.slot.Section?)
      && (k.pc.Holding? ==> k.pc.base in s.heap && s.heap[k.pc.base] == {} && s.slot != Table(k.pc.base))
      && (k.pc.Published? || k.pc.Found? || k.pc.Storing? || k.pc.Cleared? ==> s.slot.Table?)
      && (k.pc.Storing? ==>
            && s.slot == Table(k.pc.base) && k.pc.base in s.heap
            && k.pc.done <= k.n && Range(k.lo, k.pc.done) <= s.heap[k.pc.base])
  }

  predicate Holds(k: Call, b: nat) { k.Call? && k.pc == Holding(b) }

  // Table b is the section's, or that of a call.
  ghost predicate Owned(s: State, b: nat) {
    s.slot == Table(b) || exists i :: 0 <= i < |s.calls| && Holds(s.calls[i], b)
  }

  // The section's table has d entries in use but for what calls have yet to count.
  ghost predicate Balanced(s: State, d: int) {
    s.slot.Table? ==>
      s.slot.base in s.heap && s.heap[s.slot.base] <= Range(0, 256) && d + Pending(s.calls) == |s.heap[s.slot.base]|
  }

  // So does the counter say.
  ghost predicate Counted(s: State) { Balanced(s, s.cnt) }

  // Counts less uncounts since the section's table was published, d of them before step a.
  function NetAfter(s: State, a: Action, d: int): int {
    match a
    case Publish(_) => 0
    case Count(c) => if c < |s.calls| && s.calls[c].Call? then d + s.calls[c].n else d
    case Uncount(c) => if c < |s.calls| && s.calls[c].Call? then d - s.calls[c].n else d
    case _ => d
  }

  ghost predicate Conserved(s: State) {
    forall b :: s.got[b] == s.freed[b] + if b in s.heap then 1 else 0
  }

  ghost predicate AllApart(calls: seq<Call>) { forall i, j :: 0 <= i < j < |calls| ==> Apart(calls[i], calls[j]) }

  ghost predicate OneHolder(calls: seq<Call>) {
    forall i, j, b :: 0 <= i < j < |calls| && Holds(calls[i], b) ==> !Holds(calls[j], b)
  }

  ghost predicate CallsOk(s: State) { forall i :: 0 <= i < |s.calls| ==> CallOk(s, s.calls[i]) }

  ghost predicate AllOwned(s: State) { forall b :: b in s.heap ==> Owned(s, b) }

  ghost predicate Inv(s: State, d: int) {
    CallsOk(s) && AllApart(s.calls) && OneHolder(s.calls) && AllOwned(s) && Balanced(s, d) && Conserved(s)
  }

  // ----- preservation -----

  lemma {:induction false} RangeSize(lo: nat, n: nat)
    ensures |Range(lo, n)| == n
  {
    if n > 0 { RangeSize(lo, n - 1); }
  }

  lemma RangeTaken(t: set<nat>, lo: nat, n: nat)
    requires Range(lo, n) <= t
    ensures |t - Range(lo, n)| == |t| - n
  {
    RangeSize(lo, n);
    assert t * Range(lo, n) == Range(lo, n);
  }

  // No call but c holds a table that k holds.
  ghost predicate Fresh(calls: seq<Call>, c: nat, k: Call) {
    forall i, b :: 0 <= i < |calls| && i != c && Holds(k, b) ==> !Holds(calls[i], b)
  }

  lemma CallsSet(calls: seq<Call>, c: nat, k: Call)
    requires AllApart(calls) && OneHolder(calls) && c < |calls| && Fresh(calls, c, k)
    requires forall i :: 0 <= i < |calls| && i != c ==> Apart(k, calls[i])
    ensures AllApart(calls[c := k]) && OneHolder(calls[c := k])
  {
    hide Holds;
  }

  // A call keeps its range while it moves on, and gives it up when it ends.
  lemma RangeKept(calls: seq<Call>, c: nat, k: Call)
    requires AllApart(calls) && c < |calls|
    requires k.Idle? || (calls[c].Call? && k.lo == calls[c].lo && k.n == calls[c].n)
    ensures forall i :: 0 <= i < |calls| && i != c ==> Apart(k, calls[i])
  {
    forall i | 0 <= i < |calls| && i != c ensures Apart(k, calls[i]) {
      if i < c { assert Apart(calls[i], calls[c]); } else { assert Apart(calls[c], calls[i]); }
    }
  }

  // Every table that call c does not hold stays owned.
  lemma OwnedElsewhere(s: State, s': State, c: nat, k: Call)
    requires AllOwned(s) && c < |s.calls| && s'.calls == s.calls[c := k]
    requires s.slot.Table? ==> s'.slot == s.slot
    ensures forall b :: b in s.heap && !Holds(s.calls[c], b) ==> Owned(s', b)
  {
    forall b | b in s.heap && !Holds(s.calls[c], b) ensures Owned(s', b) {
      assert Owned(s, b);
      if s.slot != Table(b) {
        var i :| 0 <= i < |s.calls| && Holds(s.calls[i], b);
        assert Holds(s'.calls[i], b);
      }
    }
  }

  // A step of call c that changes neither the tables nor the first-level entry.
  lemma MoveKeeps(s: State, s': State, d: int, d': int, c: nat, k: Call)
    requires Inv(s, d) && c < |s.calls| && s' == s.(calls := s.calls[c := k], cnt := s'.cnt)
    requires forall i :: 0 <= i < |s.calls| && i != c ==> Apart(k, s.calls[i])
    requires CallOk(s, k) && (forall b :: !Holds(k, b) && !Holds(s.calls[c], b))
    requires d' - d == Weight(s.calls[c]) - Weight(k) || !s.slot.Table?
    ensures Inv(s', d')
  {
    CallsSet(s.calls, c, k);
    PendingSet(s.calls, c, k);
    OwnedElsewhere(s, s', c, k);
    hide Holds, Pending, Weight, AllApart, OneHolder, Owned, Range;
    assert CallOk(s', k);
    forall i | 0 <= i < |s'.calls| ensures CallOk(s', s'.calls[i]) {
      assert i != c ==> CallOk(s, s.calls[i]);
    }
  }

  ghost predicate NoneHolds(calls: seq<Call>, c: nat, b: nat) {
    forall i :: 0 <= i < |calls| && i != c ==> !Holds(calls[i], b)
  }

  // A step of call c that adds or frees a table which is neither the section's nor held by
  // another call.
  lemma OthersOk(s: State, s': State, c: nat, k: Call, base: nat)
    requires CallsOk(s) && c < |s.calls| && s'.calls == s.calls[c := k] && CallOk(s', k)
    requires s'.slot == s.slot && s.slot != Table(base) && NoneHolds(s.calls, c, base)
    requires forall b :: b in s.heap && b != base ==> b in s'.heap && s'.heap[b] == s.heap[b]
    ensures CallsOk(s')
  {
    hide Range;
    forall i | 0 <= i < |s'.calls| && i != c ensures CallOk(s', s'.calls[i]) {
      assert CallOk(s, s.calls[i]) && !Holds(s.calls[i], base);
    }
  }

  lemma AllocKeeps(s: State, s': State, d: int, c: nat, base: nat)
    requires Inv(s, d) && Next(s, s', Alloc(c, base))
    ensures Inv(s', d)
  {
    var k := s'.calls[c];
    assert CallOk(s, s.calls[c]);
    RangeKept(s.calls, c, k);
    PendingSet(s.calls, c, k);
    OwnedElsewhere(s, s', c, k);
    assert Holds(s'.calls[c], base);
    assert AllOwned(s');
    assert NoneHolds(s.calls, c, base) by {
      forall i | 0 <= i < |s.calls| ensures !Holds(s.calls[i], base) { assert CallOk(s, s.calls[i]); }
    }
    CallsSet(s.calls, c, k);
    hide Pending, AllApart, OneHolder, AllOwned, Range, CallsOk, NoneHolds, Owned;
    OthersOk(s, s', c, k, base);
  }

  lemma OnlyHolder(calls: seq<Call>, c: nat, base: nat)
    requires OneHolder(calls) && c < |calls| && Holds(calls[c], base)
    ensures NoneHolds(calls, c, base)
  {
    hide Holds;
  }

  // The first to take the lock: its table becomes the section's.
  lemma PublishKeeps(s: State, s': State, d: int, c: nat)
    requires Inv(s, d) && Next(s, s', Publish(c))
    ensures Inv(s', 0)
  {
    var base, k := s.calls[c].pc.base, s'.calls[c];
    assert CallOk(s, s.calls[c]);
    RangeKept(s.calls, c, k);
    CallsSet(s.calls, c, k);
    OwnedElsewhere(s, s', c, k);
    assert AllOwned(s');
    OnlyHolder(s.calls, c, base);
    hide Pending, AllApart, OneHolder, AllOwned, Range, Owned;
    forall i | 0 <= i < |s'.calls| ensures CallOk(s', s'.calls[i]) && Weight(s'.calls[i]) == 0 {
      assert CallOk(s, s.calls[i]);
    }
    PendingZero(s'.calls);
  }

  // Any other: it frees its own table and uses the installed one.
  lemma DiscardKeeps(s: State, s': State, d: int, c: nat)
    requires Inv(s, d) && Next(s, s', Discard(c))
    ensures Inv(s', d) && s.calls[c].pc.base in s.heap && s'.heap == s.heap - {s.calls[c].pc.base}
  {
    var base, k := s.calls[c].pc.base, s'.calls[c];
    assert CallOk(s, s.calls[c]);
    RangeKept(s.calls, c, k);
    CallsSet(s.calls, c, k);
    PendingSet(s.calls, c, k);
    OwnedElsewhere(s, s', c, k);
    assert AllOwned(s');
    OnlyHolder(s.calls, c, base);
    hide Pending, AllApart, OneHolder, AllOwned, Range, Owned, CallsOk, NoneHolds, Holds;
    OthersOk(s, s', c, k, base);
  }

  // Of the entries in u, those in the ranges of calls other than c are also in t.
  ghost predicate Spares(calls: seq<Call>, c: nat, u: set<nat>, t: set<nat>) {
    forall i :: 0 <= i < |calls| && i != c ==> SparesOne(calls[i], u, t)
  }

  ghost predicate SparesOne(k: Call, u: set<nat>, t: set<nat>) {
    forall x :: k.Call? && x in u && k.lo <= x < k.lo + k.n ==> x in t
  }

  lemma TakenSpares(calls: seq<Call>, c: nat, k: Call, u: set<nat>, n: nat)
    requires k.Call? && n <= k.n && forall i :: 0 <= i < |calls| && i != c ==> Apart(k, calls[i])
    ensures Spares(calls, c, u, u - Range(k.lo, n))
  {
    forall i | 0 <= i < |calls| && i != c ensures SparesOne(calls[i], u, u - Range(k.lo, n)) {
      assert Apart(k, calls[i]);
    }
  }

  lemma SparedOk(s: State, s': State, k: Call, t: set<nat>)
    requires CallOk(s, k) && s.slot.Table? && s.slot.base in s.heap && SparesOne(k, s.heap[s.slot.base], t)
    requires s'.slot == s.slot && s'.heap == s.heap[s.slot.base := t]
    ensures CallOk(s', k)
  {
  }

  // A step of call c that changes the entries of the section's table to t.
  lemma EntriesKeep(s: State, s': State, d: int, c: nat, k: Call, t: set<nat>)
    requires Inv(s, d) && c < |s.calls| && s.slot.Table? && s.slot.base in s.heap
    requires s' == s.(calls := s.calls[c := k], heap := s.heap[s.slot.base := t])
    requires forall i :: 0 <= i < |s.calls| && i != c ==> Apart(k, s.calls[i])
    requires CallOk(s', k) && (forall b :: !Holds(k, b) && !Holds(s.calls[c], b))
    requires Spares(s.calls, c, s.heap[s.slot.base], t)
    requires |t| - |s.heap[s.slot.base]| == Weight(k) - Weight(s.calls[c]) && t <= Range(0, 256)
    ensures Inv(s', d)
  {
    CallsSet(s.calls, c, k);
    PendingSet(s.calls, c, k);
    OwnedElsewhere(s, s', c, k);
    assert AllOwned(s');
    hide Holds, Pending, Weight, AllApart, OneHolder, Owned, AllOwned, CallOk, SparesOne;
    forall i | 0 <= i < |s'.calls| ensures CallOk(s', s'.calls[i]) {
      if i != c { SparedOk(s, s', s.calls[i], t); }
    }
  }

  lemma StoredOk(s: State, s': State, c: nat)
    requires Next(s, s', Store(c)) && CallOk(s, s.calls[c])
    ensures CallOk(s', s'.calls[c])
  {
    hide Range, Apart;
  }

  lemma StoreKeeps(s: State, s': State, d: int, c: nat)
    requires Inv(s, d) && Next(s, s', Store(c))
    ensures Inv(s', d)
  {
    hide AllApart, OneHolder, AllOwned, Pending, Conserved, Range, Apart;
    var k := s.calls[c];
    assert CallOk(s, k);
    RangeKept(s.calls, c, s'.calls[c]);
    StoredOk(s, s', c);
    hide CallsOk;
    var t := s.heap[k.pc.base] + {k.lo + k.pc.done};
    assert Spares(s.calls, c, s.heap[k.pc.base], t);
    hide CallOk, Spares, Inv;
    EntriesKeep(s, s', d, c, s'.calls[c], t);
  }

  lemma RollBackKeeps(s: State, s': State, d: int, c: nat)
    requires Inv(s, d) && Next(s, s', RollBack(c))
    ensures Inv(s', d)
  {
    var k := s.calls[c];
    assert CallOk(s, k);
    RangeKept(s.calls, c, Idle);
    RangeKept(s.calls, c, k);
    RangeTaken(s.heap[k.pc.base], k.lo, k.pc.done);
    TakenSpares(s.calls, c, k, s.heap[k.pc.base], k.pc.done);
    hide AllApart, OneHolder, AllOwned, Pending, Conserved, CallsOk, Spares, Apart;
    EntriesKeep(s, s', d, c, Idle, s.heap[k.pc.base] - Range(k.lo, k.pc.done));
  }

  lemma ClearKeeps(s: State, s': State, d: int, c: nat, lo: nat, n: nat)
    requires Inv(s, d) && Next(s, s', Clear(c, lo, n))
    ensures Inv(s', d)
  {
    var k := s'.calls[c];
    RangeTaken(s.heap[s.slot.base], lo, n);
    hide AllApart, OneHolder, AllOwned, Pending, Conserved, CallsOk;
    forall i | 0 <= i < |s.calls| ensures Apart(k, s.calls[i]) {
      assert Apart(Call(lo, n, Entered), s.calls[i]);
    }
    TakenSpares(s.calls, c, k, s.heap[s.slot.base], n);
    hide Spares, Apart;
    EntriesKeep(s, s', d, c, k, s.heap[s.slot.base] - Range(lo, n));
  }

  lemma QuietOwned(s: State)
    requires AllOwned(s) && Quiet(s)
    ensures forall b :: b in s.heap ==> s.slot == Table(b)
  {
    forall b | b in s.heap ensures s.slot == Table(b) { assert Owned(s, b); }
  }

  // With no other call in the section its table is the only one, and everything is counted.
  lemma QuietCounts(s: State, d: int)
    requires Inv(s, d) && Quiet(s) && s.slot.Table?
    ensures s.slot.base in s.heap && d == |s.heap[s.slot.base]| && s.heap.Keys == {s.slot.base}
  {
    PendingZero(s.calls);
    QuietOwned(s);
  }

  lemma MapSectionKeeps(s: State, s': State, d: int)
    requires Inv(s, d) && Next(s, s', MapSection)
    ensures Inv(s', d)
  {
    QuietOwned(s);
    hide Pending, Range, AllApart, OneHolder, Apart, Holds;
  }

  lemma UnmapSectionKeeps(s: State, s': State, d: int)
    requires Inv(s, d) && Next(s, s', UnmapSection)
    ensures Inv(s', d)
  {
    QuietOwned(s);
    hide Pending, Range;
  }

  lemma MovesKeep(s: State, s': State, a: Action, d: int, c: nat)
    requires Inv(s, d) && Next(s, s', a) && c < |s.calls|
    requires a == Look(c) || a == AllocFails(c) || a == Reset(c) || a == Enter(c)
    ensures Inv(s', d)
  {
    assert CallOk(s, s.calls[c]);
    RangeKept(s.calls, c, s'.calls[c]);
    hide AllApart, OneHolder, AllOwned, Pending, Conserved, Range, CallsOk, Apart, Inv;
    MoveKeeps(s, s', d, d, c, s'.calls[c]);
  }

  lemma CountsKeep(s: State, s': State, a: Action, d: int, c: nat)
    requires Inv(s, d) && Next(s, s', a) && c < |s.calls| && (a == Count(c) || a == Uncount(c))
    ensures Inv(s', NetAfter(s, a, d))
  {
    assert CallOk(s, s.calls[c]);
    RangeKept(s.calls, c, s'.calls[c]);
    hide AllApart, OneHolder, AllOwned, Pending, Conserved, Range, CallsOk, Apart, Inv;
    MoveKeeps(s, s', d, NetAfter(s, a, d), c, s'.calls[c]);
  }

  lemma MapCallKeeps(s: State, s': State, d: int, c: nat, lo: nat, n: nat)
    requires Inv(s, d) && Next(s, s', MapCall(c, lo, n))
    ensures Inv(s', d)
  {
    hide AllApart, OneHolder, AllOwned, Pending, Conserved, Range, CallsOk;
    MoveKeeps(s, s', d, d, c, s'.calls[c]);
  }

  /** Every step of every call keeps each table owned once, and the entries in use those counted since the
      section's table was published and those still to be counted. */
  lemma StepKeeps(s: State, s': State, a: Action, d: int)
    requires Inv(s, d) && Next(s, s', a)
    ensures Inv(s', NetAfter(s, a, d))
  {
    hide Inv;
    match a {
      case MapCall(c, lo, n) => MapCallKeeps(s, s', d, c, lo, n);
      case Look(c) => MovesKeep(s, s', a, d, c);
      case Alloc(c, base) => AllocKeeps(s, s', d, c, base);
      case AllocFails(c) => MovesKeep(s, s', a, d, c);
      case Publish(c) => PublishKeeps(s, s', d, c);
      case Reset(c) => MovesKeep(s, s', a, d, c);
      case Discard(c) => DiscardKeeps(s, s', d, c);
      case Enter(c) => MovesKeep(s, s', a, d, c);
      case Store(c) => StoreKeeps(s, s', d, c);
      case RollBack(c) => RollBackKeeps(s, s', d, c);
      case Count(c) => CountsKeep(s, s', a, d, c);
      case Clear(c, lo, n) => ClearKeeps(s, s', d, c, lo, n);
      case Uncount(c) => CountsKeep(s, s', a, d, c);
      case MapSection => MapSectionKeeps(s, s', d);
      case UnmapSection => UnmapSectionKeeps(s, s', d);
    }
  }

  // ----- the counter -----

  // pgtablelock: one call at a time is between publishing and resetting.
  ghost predicate OneLock(calls: seq<Call>) {
    forall i, j :: 0 <= i < j < |calls| && IsPublished(calls[i]) ==> !IsPublished(calls[j])
  }

  // Outside a window the counter is d, short of what its last reset lost.
  ghost predicate ShortBy(s: State, d: int, lost: int) { s.slot.Table? && !Window(s) ==> s.cnt == d - lost }

  // A reset loses what was counted since the table was published.
  function LostAfter(a: Action, d: int, lost: int): int { if a.Reset? then d else lost }

  lemma LockKept(s: State, s': State, a: Action)
    requires Next(s, s', a) && OneLock(s.calls)
    ensures OneLock(s'.calls) && (a.Reset? ==> !Window(s'))
  {
    hide Range, Apart;
  }

  // Only the holder of the lock leaves the window.
  lemma WindowKept(s: State, s': State, a: Action)
    requires Next(s, s', a) && Window(s) && !a.Reset?
    ensures Window(s')
  {
    var i :| 0 <= i < |s.calls| && IsPublished(s.calls[i]);
    hide Range, Apart, Window;
    assert IsPublished(s'.calls[i]);
    assert Window(s') by { assert IsPublished(s'.calls[i]); }
  }

  lemma ShortKept(s: State, s': State, a: Action, d: int, lost: int)
    requires Next(s, s', a) && ShortBy(s, d, lost)
    ensures ShortBy(s', NetAfter(s, a, d), LostAfter(a, d, lost))
  {
    if a.Publish? {
      assert IsPublished(s'.calls[a.c]);
    } else if Window(s) && !a.Reset? {
      WindowKept(s, s', a);
    }
  }

  // ----- whole runs -----

  ghost predicate IsRun(states: seq<State>, actions: seq<Action>) {
    |states| == |actions| + 1 && forall i :: 0 <= i < |actions| ==> Next(states[i], states[i + 1], actions[i])
  }

  ghost predicate Initial(s: State) {
    s.slot == Empty && s.heap == map[] && s.got == multiset{} && s.freed == multiset{} && Quiet(s)
  }

  // Counts less uncounts since the last Publish before step n.
  function Net(states: seq<State>, actions: seq<Action>, n: nat): int
    requires n <= |actions| < |states|
  {
    if n == 0 then 0 else NetAfter(states[n - 1], actions[n - 1], Net(states, actions, n - 1))
  }

  // That number at the last Reset before step n.
  function Lost(states: seq<State>, actions: seq<Action>, n: nat): int
    requires n <= |actions| < |states|
  {
    if n == 0 then 0 else LostAfter(actions[n - 1], Net(states, actions, n - 1), Lost(states, actions, n - 1))
  }

  lemma InitialInv(s: State)
    requires Initial(s)
    ensures Inv(s, 0) && OneLock(s.calls) && ShortBy(s, 0, 0)
  {
  }

  lemma {:induction false} RunKeeps(states: seq<State>, actions: seq<Action>, n: nat)
    requires IsRun(states, actions) && Initial(states[0]) && n < |states|
    ensures Inv(states[n], Net(states, actions, n)) && OneLock(states[n].calls)
    ensures ShortBy(states[n], Net(states, actions, n), Lost(states, actions, n))
  {
    hide Next, Inv, OneLock, ShortBy, NetAfter, LostAfter, Initial;
    if n == 0 {
      InitialInv(states[0]);
    } else {
      RunKeeps(states, actions, n - 1);
      var s, s', a, d := states[n - 1], states[n], actions[n - 1], Net(states, actions, n - 1);
      StepKeeps(s, s', a, d);
      LockKept(s, s', a);
      ShortKept(s, s', a, d, Lost(states, actions, n - 1));
    }
  }

  // Table b is the section's or that of exactly one call, and not both.
  ghost predicate OneOwner(s: State, b: nat) {
    if s.slot == Table(b) then NoneHolds(s.calls, |s.calls|, b)
    else exists i :: 0 <= i < |s.calls| && Holds(s.calls[i], b) && NoneHolds(s.calls, i, b)
  }

  lemma OwnerUnique(s: State, d: int, b: nat)
    requires Inv(s, d) && b in s.heap
    ensures OneOwner(s, b)
  {
    assert Owned(s, b);
    if s.slot == Table(b) {
      forall i | 0 <= i < |s.calls| ensures !Holds(s.calls[i], b) { assert CallOk(s, s.calls[i]); }
    } else {
      var i :| 0 <= i < |s.calls| && Holds(s.calls[i], b);
      OnlyHolder(s.calls, i, b);
    }
  }

  /** However calls interleave: a table that is allocated and not freed is the section's or that of exactly one
      call, every allocation of an address but a live one is matched by one free, all calls write into the
      section's table, and its entries in use are those counted since it was published and those still to be
      counted. Between calls the section's table is the only one left. */
  lemma TablesConserved(states: seq<State>, actions: seq<Action>, n: nat)
    requires IsRun(states, actions) && Initial(states[0]) && n < |states|
    ensures var s := states[n];
      && (forall b :: b in s.heap ==> OneOwner(s, b)) && Conserved(s) && Balanced(s, Net(states, actions, n))
      && (forall i :: 0 <= i < |s.calls| && Writes(s, i) ==> s.slot == Table(s.calls[i].pc.base))
      && (Quiet(s) ==> if s.slot.Table? then s.heap.Keys == {s.slot.base} else s.heap == map[])
  {
    RunKeeps(states, actions, n);
    var s, d := states[n], Net(states, actions, n);
    forall b | b in s.heap ensures OneOwner(s, b) { OwnerUnique(s, d, b); }
    forall i | 0 <= i < |s.calls| && Writes(s, i) ensures s.slot == Table(s.calls[i].pc.base) {
      assert CallOk(s, s.calls[i]);
    }
    if Quiet(s) {
      QuietOwned(s);
      if s.slot.Table? { QuietCounts(s, d); }
    }
  }

  // Outside a window the counter is right exactly when the last reset lost nothing.
  lemma CountedWhen(states: seq<State>, actions: seq<Action>, n: nat)
    requires IsRun(states, actions) && Initial(states[0]) && n < |states| && !Window(states[n])
    ensures Counted(states[n]) <==> states[n].slot.Table? ==> Lost(states, actions, n) == 0
  {
    RunKeeps(states, actions, n);
    hide CallsOk, AllApart, OneHolder, AllOwned, Conserved, Pending, Net, Lost, IsRun, Initial, Range, Window;
  }

  // A table that is published and not reset is still the section's at its reset.
  lemma AfterReset(states: seq<State>, actions: seq<Action>, n: nat)
    requires IsRun(states, actions) && Initial(states[0]) && n < |actions| && actions[n].Reset?
    ensures states[n + 1].slot.Table? && !Window(states[n + 1])
    ensures Lost(states, actions, n + 1) == Net(states, actions, n)
  {
    RunKeeps(states, actions, n);
    var s, s', a := states[n], states[n + 1], actions[n];
    assert Next(s, s', a) && CallOk(s, s.calls[a.c]);
    LockKept(s, s', a);
    hide Window, Inv, OneLock, IsRun;
  }

  // At every reset before step n the counts and uncounts since the table was published sum to 0.
  ghost predicate ResetsClean(states: seq<State>, actions: seq<Action>, n: nat)
    requires n <= |actions| < |states|
  {
    forall i :: 0 <= i < n && actions[i].Reset? ==> Net(states, actions, i) == 0
  }

  lemma {:induction false} NothingLost(states: seq<State>, actions: seq<Action>, n: nat)
    requires n <= |actions| < |states| && ResetsClean(states, actions, n)
    ensures Lost(states, actions, n) == 0
  {
    hide Net;
    if n > 0 { NothingLost(states, actions, n - 1); }
  }

  /** The counter over whole runs: at every state at which no call is between publishing a table and resetting the
      counter, it is the number of entries in use but for what calls have yet to count, exactly when at every
      reset of the run the counts and uncounts since the table was published sum to 0. */
  lemma CounterExact(states: seq<State>, actions: seq<Action>)
    requires IsRun(states, actions) && Initial(states[0])
    ensures (forall n :: 0 <= n < |states| && !Window(states[n]) ==> Counted(states[n]))
      <==> ResetsClean(states, actions, |actions|)
  {
    hide Next, Window, Counted, Net, Lost, Initial;
    if forall n :: 0 <= n < |states| && !Window(states[n]) ==> Counted(states[n]) {
      forall n | 0 <= n < |actions| && actions[n].Reset? ensures Net(states, actions, n) == 0 {
        AfterReset(states, actions, n);
        CountedWhen(states, actions, n + 1);
      }
    }
    if ResetsClean(states, actions, |actions|) {
      forall n | 0 <= n < |states| && !Window(states[n]) ensures Counted(states[n]) {
        NothingLost(states, actions, n);
        CountedWhen(states, actions, n);
      }
    }
  }

  /** A 1M map looks at the counter only: over every run, it replaces and frees the section's table exactly when
      that has as many entries in use as the last reset lost. So it replaces exactly an empty table when the
      resets lost nothing; in general it frees no table in use and refuses no empty one exactly when the last
      reset lost nothing, or the table has entries in use and not that many. */
  lemma ReplacesEmptyTable(states: seq<State>, actions: seq<Action>, n: nat)
    requires IsRun(states, actions) && Initial(states[0]) && n < |actions| && actions[n] == MapSection
    requires states[n].slot.Table?
    ensures var s, s', lost := states[n], states[n + 1], Lost(states, actions, n);
      && s.slot.base in s.heap
      && var used := s.heap[s.slot.base];
         && (if |used| == lost then s'.slot == Section && s'.heap == map[] else s' == s)
         && (ResetsClean(states, actions, n) ==> (s'.slot == Section <==> used == {}))
         && ((s'.slot == Section <==> used == {}) <==> lost == 0 || (used != {} && |used| != lost))
  {
    RunKeeps(states, actions, n);
    if ResetsClean(states, actions, n) { NothingLost(states, actions, n); }
    var s, d := states[n], Net(states, actions, n);
    assert Next(s, states[n + 1], MapSection);
    assert !Window(s);
    hide Inv, IsRun, Window, Net, Lost;
    QuietCounts(s, d);
    assert |s.heap[s.slot.base]| == 0 <==> s.heap[s.slot.base] == {};
  }

  /** The table that wins the race stays the section's until a 1M map replaces it. */
  lemma {:induction false} OneTable(states: seq<State>, actions: seq<Action>, i: nat, n: nat)
    requires IsRun(states, actions) && i <= n < |states| && states[i].slot.Table?
    requires forall j :: i <= j < n ==> actions[j] != MapSection
    ensures states[n].slot == states[i].slot
    decreases n
  {
    if i < n {
      OneTable(states, actions, i, n - 1);
      assert Next(states[n - 1], states[n], actions[n - 1]);
    }
  }
}
