/**
A run in which a count is lost between publishing a second-level table and resetting its
counter, and what a 1M map does then.
*/
module SysmmuLostCount {
  import opened SysmmuRace

  // Two callers and the table at 1 with entries t in use.
  function Two(slot: Slot, cnt: int, t: set<nat>, a: Call, b: Call): State {
    State(slot, cnt, map[1 := t], [a, b], multiset{1}, multiset{})
  }

  // Caller 0 maps entry 0, caller 1 maps entry 5.
  function A(pc: Pc): Call { Call(0, 1, pc) }
  function B(pc: Pc): Call { Call(5, 1, pc) }

  const START := State(Empty, 0, map[], [Idle, Idle], multiset{}, multiset{})

  lemma OneEntry(i: nat)
    ensures Range(i, 1) == {i}
  {
    assert Range(i, 0) == {};
  }

  // Caller c stores its one entry.
  lemma StoreNext(cnt: int, t: set<nat>, a: Call, b: Call, c: nat)
    requires c < 2
    requires var k := if c == 0 then a else b; k.Call? && k.n == 1 && k.pc == Storing(1, 0) && k.lo !in t
    ensures var k := if c == 0 then a else b;
      var k' := k.(pc := Storing(1, 1));
      Next(Two(Table(1), cnt, t, a, b),
           Two(Table(1), cnt, t + {k.lo}, if c == 0 then k' else a, if c == 1 then k' else b), Store(c))
  {
    var k := if c == 0 then a else b;
    var s := Two(Table(1), cnt, t, a, b);
    assert s.heap[1 := t + {k.lo}] == map[1 := t + {k.lo}];
    TwoSet(Table(1), cnt, t + {k.lo}, a, b, k.(pc := Storing(1, 1)));
  }

  lemma CallNext(s: State, c: nat, k: Call)
    requires c < |s.calls| && s.calls[c].Idle? && k.Call? && k.pc == Entered && k.lo + k.n <= 256
    requires forall i :: 0 <= i < |s.calls| ==> Apart(k, s.calls[i])
    ensures Next(s, s.(calls := s.calls[c := k]), MapCall(c, k.lo, k.n))
  {
  }

  lemma TwoSet(slot: Slot, cnt: int, t: set<nat>, a: Call, b: Call, k: Call)
    ensures var s := Two(slot, cnt, t, a, b);
      && s.(calls := s.calls[0 := k]) == Two(slot, cnt, t, k, b)
      && s.(calls := s.calls[1 := k]) == Two(slot, cnt, t, a, k)
  {
  }

  // Caller 0 publishes the table.
  lemma Publishes() returns (states: seq<State>, actions: seq<Action>)
    ensures actions == [MapCall(0, 0, 1), Look(0), Alloc(0, 1), Publish(0)]
    ensures IsRun(states, actions) && states[0] == START && states[4] == Two(Table(1), 0, {}, A(Published), Idle)
  {
    actions := [MapCall(0, 0, 1), Look(0), Alloc(0, 1), Publish(0)];
    var s1 := START.(calls := [A(Entered), Idle]);
    var s2 := START.(calls := [A(Missing), Idle]);
    var s3, s4 := Two(Empty, 0, {}, A(Holding(1)), Idle), Two(Table(1), 0, {}, A(Published), Idle);
    states := [START, s1, s2, s3, s4];
    assert [Idle, Idle][0 := A(Entered)] == s1.calls && s1.calls[0 := A(Missing)] == s2.calls;
    assert Next(START, s1, actions[0]) && Next(s1, s2, actions[1]);
    assert s2.calls[0 := A(Holding(1))] == s3.calls && s3.calls[0 := A(Published)] == s4.calls;
    assert Next(s2, s3, actions[2]) && Next(s3, s4, actions[3]);
    hide Next;
  }

  lemma CountNext(cnt: int, t: set<nat>, a: Call, b: Call, c: nat)
    requires c < 2
    requires var k := if c == 0 then a else b; k.Call? && k.n == 1 && k.pc == Storing(1, 1)
    ensures Next(Two(Table(1), cnt, t, a, b),
                 Two(Table(1), cnt + 1, t, if c == 0 then Idle else a, if c == 1 then Idle else b), Count(c))
  {
    TwoSet(Table(1), cnt, t, a, b, Idle);
  }

  // Entry x of caller c, and no other call in progress.
  lemma UnmapNext(cnt: int, t: set<nat>, x: nat, c: nat) returns (s: State)
    requires c < 2 && x in t && x < 256
    ensures Next(Two(Table(1), cnt, t, Idle, Idle), s, Clear(c, x, 1))
    ensures Next(s, Two(Table(1), cnt - 1, t - {x}, Idle, Idle), Uncount(c))
  {
    OneEntry(x);
    hide Range;
    var k, s0 := Call(x, 1, Cleared), Two(Table(1), cnt, t, Idle, Idle);
    TwoSet(Table(1), cnt, t - {x}, Idle, Idle, k);
    s := s0.(calls := s0.calls[c := k], heap := s0.heap[1 := t - {x}]);
    assert s0.heap[1 := t - {x}] == map[1 := t - {x}];
    assert s.calls[c := Idle] == [Idle, Idle];
  }

  // Caller 1 finds the table, stores its entry and counts it, and then the counter is reset.
  lemma CountsThenResets() returns (states: seq<State>, actions: seq<Action>)
    ensures actions == [MapCall(1, 5, 1), Look(1), Enter(1), Store(1), Count(1), Reset(0)]
    ensures IsRun(states, actions) && states[0] == Two(Table(1), 0, {}, A(Published), Idle)
    ensures states[6] == Two(Table(1), 0, {5}, A(Found), Idle)
  {
    actions := [MapCall(1, 5, 1), Look(1), Enter(1), Store(1), Count(1), Reset(0)];
    var p := A(Published);
    var s0, s1 := Two(Table(1), 0, {}, p, Idle), Two(Table(1), 0, {}, p, B(Entered));
    var s2, s3 := Two(Table(1), 0, {}, p, B(Found)), Two(Table(1), 0, {}, p, B(Storing(1, 0)));
    FindsTable();
    StoreNext(0, {}, p, B(Storing(1, 0)), 1);
    CountNext(0, {5}, p, B(Storing(1, 1)), 1);
    ResetNext();
    hide Next;
    assert {} + {5} == {5};
    states := [s0, s1, s2, s3, Two(Table(1), 0, {5}, p, B(Storing(1, 1))), Two(Table(1), 1, {5}, p, Idle),
               Two(Table(1), 0, {5}, A(Found), Idle)];
  }

  lemma FindsTable()
    ensures var p := A(Published);
      && Next(Two(Table(1), 0, {}, p, Idle), Two(Table(1), 0, {}, p, B(Entered)), MapCall(1, 5, 1))
      && Next(Two(Table(1), 0, {}, p, B(Entered)), Two(Table(1), 0, {}, p, B(Found)), Look(1))
      && Next(Two(Table(1), 0, {}, p, B(Found)), Two(Table(1), 0, {}, p, B(Storing(1, 0))), Enter(1))
  {
    var p := A(Published);
    CallNext(Two(Table(1), 0, {}, p, Idle), 1, B(Entered));
    TwoSet(Table(1), 0, {}, p, Idle, B(Entered));
    TwoSet(Table(1), 0, {}, p, B(Entered), B(Found));
    TwoSet(Table(1), 0, {}, p, B(Found), B(Storing(1, 0)));
  }

  lemma ResetNext()
    ensures Next(Two(Table(1), 1, {5}, A(Published), Idle), Two(Table(1), 0, {5}, A(Found), Idle), Reset(0))
  {
    TwoSet(Table(1), 1, {5}, A(Published), Idle, A(Found));
  }

  lemma EnterNext()
    ensures Next(Two(Table(1), 0, {5}, A(Found), Idle), Two(Table(1), 0, {5}, A(Storing(1, 0)), Idle), Enter(0))
  {
    TwoSet(Table(1), 0, {5}, A(Found), Idle, A(Storing(1, 0)));
  }

  // Caller 0 maps its entry and unmaps it again.
  lemma MapsAndUnmaps() returns (states: seq<State>, actions: seq<Action>)
    ensures actions == [Enter(0), Store(0), Count(0), Clear(0, 0, 1), Uncount(0)]
    ensures IsRun(states, actions) && states[0] == Two(Table(1), 0, {5}, A(Found), Idle)
    ensures states[5] == Two(Table(1), 0, {5}, Idle, Idle)
  {
    actions := [Enter(0), Store(0), Count(0), Clear(0, 0, 1), Uncount(0)];
    EnterNext();
    StoreNext(0, {5}, A(Storing(1, 0)), Idle, 0);
    CountNext(0, {0, 5}, A(Storing(1, 1)), Idle, 0);
    var s := UnmapNext(1, {0, 5}, 0, 0);
    hide Next;
    assert {5} + {0} == {0, 5} && {0, 5} - {0} == {5};
    states := [Two(Table(1), 0, {5}, A(Found), Idle), Two(Table(1), 0, {5}, A(Storing(1, 0)), Idle),
               Two(Table(1), 0, {0, 5}, A(Storing(1, 1)), Idle), Two(Table(1), 1, {0, 5}, Idle, Idle), s,
               Two(Table(1), 0, {5}, Idle, Idle)];
  }

  // Caller 1 unmaps its entry.
  lemma UnmapsOther() returns (states: seq<State>, actions: seq<Action>)
    ensures actions == [Clear(1, 5, 1), Uncount(1)]
    ensures IsRun(states, actions) && states[0] == Two(Table(1), 0, {5}, Idle, Idle)
    ensures states[2] == Two(Table(1), -1, {}, Idle, Idle)
  {
    var s := UnmapNext(0, {5}, 5, 1);
    hide Next;
    assert {5} - {5} == {};
    actions := [Clear(1, 5, 1), Uncount(1)];
    states := [Two(Table(1), 0, {5}, Idle, Idle), s, Two(Table(1), -1, {}, Idle, Idle)];
  }

  lemma Joined(s1: seq<State>, a1: seq<Action>, s2: seq<State>, a2: seq<Action>)
    requires IsRun(s1, a1) && IsRun(s2, a2) && s1[|a1|] == s2[0]
    ensures IsRun(s1 + s2[1..], a1 + a2)
  {
    hide Next;
    var r, b := s1 + s2[1..], a1 + a2;
    forall i | 0 <= i < |b| ensures Next(r[i], r[i + 1], b[i]) {
      if i < |a1| {
        assert r[i] == s1[i] && r[i + 1] == s1[i + 1] && b[i] == a1[i];
      } else {
        var j := i - |a1|;
        assert r[i] == s2[j] && r[i + 1] == s2[j + 1] && b[i] == a2[j];
      }
    }
  }

  /** Caller 0 publishes a table; caller 1 maps a page in it and counts it; caller 0 resets the counter, maps its
      own page and unmaps it again. The counter is now 0 with caller 1's entry in use, and a 1M map replaces and
      frees the table in use. If caller 1 unmaps first, the counter is -1 and a 1M map over the empty table is
      refused. */
  lemma CountLost() returns (states: seq<State>, actions: seq<Action>, more: seq<State>, acts: seq<Action>)
    ensures IsRun(states, actions) && Initial(states[0])
    ensures actions == [MapCall(0, 0, 1), Look(0), Alloc(0, 1), Publish(0)]
                       + [MapCall(1, 5, 1), Look(1), Enter(1), Store(1), Count(1), Reset(0)]
                       + [Enter(0), Store(0), Count(0), Clear(0, 0, 1), Uncount(0)]
    ensures var s := states[15];
      && s == Two(Table(1), 0, {5}, Idle, Idle) && !Counted(s)
      && Next(s, State(Section, 256, map[], [Idle, Idle], multiset{1}, multiset{1}), MapSection)
    ensures IsRun(more, acts) && more[0] == states[15] && acts == [Clear(1, 5, 1), Uncount(1)]
    ensures var s := more[2]; s == Two(Table(1), -1, {}, Idle, Idle) && !Counted(s) && Next(s, s, MapSection)
  {
    LostStates();
    hide Next, IsRun, Counted, Two;
    var s1, a1 := Publishes();
    var s2, a2 := CountsThenResets();
    var s3, a3 := MapsAndUnmaps();
    more, acts := UnmapsOther();
    Lengths(s1, a1);
    Lengths(s2, a2);
    Lengths(s3, a3);
    Joined(s1, a1, s2, a2);
    Joined(s1 + s2[1..], a1 + a2, s3, a3);
    states, actions := s1 + s2[1..] + s3[1..], a1 + a2 + a3;
  }

  lemma Lengths(states: seq<State>, actions: seq<Action>)
    requires IsRun(states, actions)
    ensures |states| == |actions| + 1
  {
    hide Next;
  }

  lemma LostStates()
    ensures Initial(START)
    ensures var s := Two(Table(1), 0, {5}, Idle, Idle);
      !Counted(s) && Next(s, State(Section, 256, map[], [Idle, Idle], multiset{1}, multiset{1}), MapSection)
    ensures var s := Two(Table(1), -1, {}, Idle, Idle); !Counted(s) && Next(s, s, MapSection)
  {
    PendingZero([Idle, Idle]);
    var s, t := Two(Table(1), 0, {5}, Idle, Idle), Two(Table(1), -1, {}, Idle, Idle);
    assert s.heap - {1} == map[] && Quiet(s) && Quiet(t);
  }
}
