/**
The two request slots of a PL330 channel thread over whole runs: pl330_submit_req,
_start and _trigger, the hardware raising its event and stopping, and the event part
of pl330_update, each a step of its own.
*/
module Pl330Queue {
  import opened Common
  import opened Pl330Microcode
  import opened Pl330Ccr

  datatype Desc = Desc(cfg: ReqCfg, dir: Direction, peri: nat, src: nat, dst: nat, bytes: nat)

  // Bits 32-35 of an address, which go to the address wrapper.
  function High(addr: nat): nat { addr / TWO32 % 16 }

  // ----- the slots -----

  // lstenq: slot of the last enqueued request; running: slot last started, or -1.
  datatype Slots = Slots(req: seq<Option<Desc>>, lstenq: nat, running: int) {
    predicate Valid() { |req| == 2 && lstenq < 2 && -1 <= running < 2 }
    predicate Full() requires Valid() { req[0].Some? && req[1].Some? }

    // The queued requests, oldest first.
    function Queued(): seq<Desc>
      requires Valid()
    {
      var older, newer := req[1 - lstenq], req[lstenq];
      (if older.Some? then [older.value] else []) + (if newer.Some? then [newer.value] else [])
    }

    function FreeSlot(): nat requires Valid() { if req[0].None? then 0 else 1 }

    function Submit(d: Desc): Slots
      requires Valid() && !Full()
    {
      this.(req := req[FreeSlot() := Some(d)], lstenq := FreeSlot())
    }

    // The slot _trigger would start.
    function Next(): Option<nat>
      requires Valid()
    {
      if req[1 - lstenq].Some? then Some(1 - lstenq)
      else if req[lstenq].Some? then Some(lstenq)
      else None
    }

    function Release(): Slots
      requires Valid() && running != -1
    {
      this.(req := req[running := None])
    }
  }

  const INITIAL := Slots([None, None], 1, -1)

  lemma SubmitQueues(s: Slots, d: Desc)
    requires s.Valid() && !s.Full()
    ensures s.Submit(d).Valid() && s.Submit(d).Queued() == s.Queued() + [d]
    ensures s.Submit(d).running == s.running
    ensures s.Queued() != [] ==> s.Submit(d).Next() == s.Next()
    ensures s.running != -1 && s.req[s.running].Some? ==> s.Submit(d).req[s.running] == s.req[s.running]
  {
  }

  lemma ReleaseDequeues(s: Slots)
    requires s.Valid() && s.running != -1 && s.Next() == Some(s.running)
    ensures s.Queued() != [] && s.Release().Valid() && s.Release().Queued() == s.Queued()[1..]
  {
  }

  lemma NextIsOldest(s: Slots)
    requires s.Valid()
    ensures s.Next().None? <==> s.Queued() == []
    ensures s.Next().Some? ==> s.Next().value < 2 && s.req[s.Next().value] == Some(s.Queued()[0])
  {
  }

  // ----- runs -----

  // Idle: the hardware thread is stopped. Busy: it executes a request. Ending: it has
  // raised its event but not reached DMAEND.
  datatype Hardware = Idle | Busy | Ending

  // Requests are numbered in the order of submission; tag gives the number of the
  // request whose code is in each slot's half-buffer, also after it is detached.
  // pending: the event is raised and pl330_update has not handled it. fault:
  // pl330_update found no request in the running slot.
  datatype Run = Run(
    s: Slots, tag: seq<nat>, hw: Hardware, pending: bool, fault: bool, arWrapper: nat, awWrapper: nat,
    submitted: seq<Desc>, started: seq<nat>, raised: seq<nat>, completed: seq<nat>)
  {
    predicate Shaped() { s.Valid() && |tag| == 2 }

    // The number of the request last started.
    function Current(): nat requires started != [] { started[|started| - 1] }
  }

  datatype Action = Submit(d: Desc) | Start | Raise | Stop | Handle

  const BEGIN := Run(INITIAL, [0, 0], Idle, false, false, 0, 0, [], [], [], [])

  // _start; only a stopped thread is given work.
  function DoStart(r: Run): (r': Run)
    requires r.Shaped()
    ensures r'.Shaped()
  {
    if r.hw != Idle then r
    else match r.s.Next()
      case None => r
      case Some(i) => r.(s := r.s.(running := i), hw := Busy, started := r.started + [r.tag[i]])
  }

  // The event part of pl330_update.
  function DoHandle(r: Run): (r': Run)
    requires r.Shaped()
    ensures r'.Shaped()
  {
    var r1, active := r.(pending := false), r.s.running;
    if active == -1 then r1
    else if r.s.req[active].None? then r1.(fault := true)
    else DoStart(r1.(s := r.s.Release(), completed := r.completed + [r.tag[active]]))
  }

  function Do(r: Run, a: Action): (r': Run)
    requires r.Shaped()
    ensures r'.Shaped()
  {
    if r.fault then r
    else match a
      case Submit(d) =>
        if r.s.Full() then r
        else
          r.(s := r.s.Submit(d), tag := SetAt(r.tag, r.s.FreeSlot(), |r.submitted|), submitted := r.submitted + [d],
             arWrapper := High(d.src), awWrapper := High(d.dst))
      case Start => DoStart(r)
      case Raise =>
        if r.hw != Busy || r.started == [] then r
        else r.(hw := Ending, pending := true, raised := r.raised + [r.Current()])
      case Stop => if r.hw == Ending then r.(hw := Idle) else r
      case Handle => if r.pending then DoHandle(r) else r
  }

  function DoAll(r: Run, actions: seq<Action>): (r': Run)
    requires r.Shaped()
    ensures r'.Shaped()
    decreases |actions|
  {
    if actions == [] then r else DoAll(Do(r, actions[0]), actions[1..])
  }

  // ----- order -----

  function Range(a: nat, b: nat): (r: seq<nat>)
    requires a <= b
    ensures |r| == b - a && forall i :: 0 <= i < |r| ==> r[i] == a + i
  {
    seq(b - a, i requires 0 <= i => a + i)
  }

  function Upto(n: nat): seq<nat> { Range(0, n) }

  lemma UptoNext(n: nat)
    ensures Upto(n) + [n] == Upto(n + 1)
  {
  }

  // Requests start, raise their event and are credited in submission order, each once, a
  // request being credited after it ran and started after it was submitted; and up to its
  // event the request that executes is still in the running slot, so its code stays.
  ghost predicate Fifo(r: Run) {
    && r.Shaped() && !r.fault
    && r.started == Upto(|r.started|) && r.raised == Upto(|r.raised|) && r.completed == Upto(|r.completed|)
    && |r.completed| <= |r.raised| <= |r.started| <= |r.submitted|
    && (r.hw == Busy ==>
          && r.started != [] && r.Current() < |r.submitted| && r.s.running != -1
          && r.s.req[r.s.running] == Some(r.submitted[r.Current()]) && r.tag[r.s.running] == r.Current())
  }

  // A start attempt finds the thread stopped and its event not yet handled.
  predicate Early(r: Run, a: Action) { a.Start? && r.hw == Idle && r.pending }

  predicate NoneEarly(r: Run, actions: seq<Action>)
    requires r.Shaped()
    decreases |actions|
  {
    actions == [] || (!Early(r, actions[0]) && NoneEarly(Do(r, actions[0]), actions[1..]))
  }

  // Numbers of the queued requests, oldest first.
  function Tags(r: Run): seq<nat>
    requires r.Shaped()
  {
    var o, n := 1 - r.s.lstenq, r.s.lstenq;
    (if r.s.req[o].Some? then [r.tag[o]] else []) + (if r.s.req[n].Some? then [r.tag[n]] else [])
  }

  // The oldest queued request is started and not yet credited.
  predicate InFlight(r: Run) { r.hw == Busy || r.pending }

  ghost predicate Inv(r: Run) {
    && r.Shaped() && !r.fault && |r.completed| <= |r.submitted|
    && var m, n := |r.completed|, |r.submitted|;
       && r.s.Queued() == r.submitted[m..] && Tags(r) == Range(m, n) && r.completed == Upto(m)
       && !(r.hw == Busy && r.pending)
       && r.started == Upto(if InFlight(r) then m + 1 else m)
       && r.raised == Upto(if r.pending then m + 1 else m)
       && (InFlight(r) ==> m < n && r.s.running != -1 && r.s.Next() == Some(r.s.running))
  }

  lemma NextTag(r: Run)
    requires r.Shaped()
    ensures r.s.Next().Some? ==> Tags(r) != [] && r.tag[r.s.Next().value] == Tags(r)[0]
    ensures |Tags(r)| == |r.s.Queued()|
  {
  }

  lemma InvFifo(r: Run)
    requires Inv(r)
    ensures Fifo(r)
  {
    NextIsOldest(r.s);
    NextTag(r);
    hide Slots.Queued, Slots.Next, Tags;
  }

  lemma StartKeeps(r: Run)
    requires Inv(r) && !(r.hw == Idle && r.pending)
    ensures Inv(DoStart(r))
  {
    NextIsOldest(r.s);
    NextTag(r);
    UptoNext(|r.completed|);
    if r.hw == Idle && r.s.Next().Some? {
      var s' := r.s.(running := r.s.Next().value);
      assert s'.Queued() == r.s.Queued() && s'.Next() == r.s.Next();
      assert Tags(DoStart(r)) == Tags(r);
      hide Slots.Queued, Slots.Next, Tags;
    }
  }

  lemma SubmitKeeps(r: Run, d: Desc)
    requires Inv(r) && !r.s.Full()
    ensures Inv(Do(r, Submit(d)))
  {
    var r', m := Do(r, Submit(d)), |r.completed|;
    SubmitQueues(r.s, d);
    assert Tags(r') == Tags(r) + [|r.submitted|];
    NextIsOldest(r.s);
    hide Slots.Queued, Slots.Next, Slots.Submit, Tags;
    assert (r.submitted + [d])[m..] == r.submitted[m..] + [d];
    assert Range(m, |r.submitted|) + [|r.submitted|] == Range(m, |r.submitted| + 1);
  }

  lemma HandleKeeps(r: Run)
    requires Inv(r) && r.pending
    ensures Inv(DoHandle(r))
  {
    var m, n := |r.completed|, |r.submitted|;
    ReleaseDequeues(r.s);
    NextIsOldest(r.s);
    NextTag(r);
    var r1 := r.(pending := false, s := r.s.Release(), completed := r.completed + [r.tag[r.s.running]]);
    assert Tags(r1) == Tags(r)[1..];
    UptoNext(m);
    assert Range(m, n)[1..] == Range(m + 1, n);
    assert r.submitted[m..][1..] == r.submitted[m + 1..];
    assert DoHandle(r) == DoStart(r1);
    hide Slots.Queued, Slots.Next, Slots.Release, Tags, DoStart;
    StartKeeps(r1);
  }

  lemma RaiseKeeps(r: Run)
    requires Inv(r) && r.hw == Busy
    ensures Inv(Do(r, Raise))
  {
    UptoNext(|r.completed|);
    assert Tags(Do(r, Raise)) == Tags(r);
    hide Slots.Queued, Slots.Next, Tags;
  }

  lemma StepKeeps(r: Run, a: Action)
    requires Inv(r) && !Early(r, a)
    ensures Inv(Do(r, a))
  {
    match a {
      case Submit(d) => if !r.s.Full() { SubmitKeeps(r, d); }
      case Start => StartKeeps(r);
      case Raise => if r.hw == Busy { RaiseKeeps(r); }
      case Stop => assert Tags(Do(r, Stop)) == Tags(r);
      case Handle => if r.pending { HandleKeeps(r); }
    }
  }

  lemma StartedGrows(r: Run, a: Action)
    requires r.Shaped()
    ensures r.started <= Do(r, a).started
  {
    hide Slots.Next;
  }

  lemma {:induction false} StartedStays(r: Run, actions: seq<Action>)
    requires r.Shaped()
    ensures r.started <= DoAll(r, actions).started
    decreases |actions|
  {
    if actions != [] {
      StartedGrows(r, actions[0]);
      hide Do;
      StartedStays(Do(r, actions[0]), actions[1..]);
    }
  }

  // An early start runs the request in flight a second time.
  lemma EarlyRestarts(r: Run, a: Action)
    requires Inv(r) && Early(r, a)
    ensures Do(r, a).started == Upto(|r.completed| + 1) + [|r.completed|] && Do(r, a).hw == Busy
  {
    NextTag(r);
    hide Slots.Queued, Tags;
  }

  lemma {:induction false} FifoFrom(r: Run, actions: seq<Action>)
    requires Inv(r)
    ensures Fifo(DoAll(r, actions)) <==> NoneEarly(r, actions)
    decreases |actions|
  {
    if actions == [] {
      InvFifo(r);
    } else if Early(r, actions[0]) {
      var m, r1 := |r.completed|, Do(r, actions[0]);
      EarlyRestarts(r, actions[0]);
      StartedStays(r1, actions[1..]);
      assert r1.started[m + 1] == m;
      hide Inv, Do;
    } else {
      StepKeeps(r, actions[0]);
      hide Inv, Do, Fifo, Early;
      FifoFrom(Do(r, actions[0]), actions[1..]);
    }
  }

  /** First in, first out, over every run of submissions, start attempts, events, stops and event handling:
      requests start in submission order, each once, every completion is credited to the request that ran,
      and the code under execution stays up to its event, exactly when no start attempt of the run finds the
      thread stopped with its event not yet handled. */
  lemma FirstInFirstOut(actions: seq<Action>)
    ensures Fifo(DoAll(BEGIN, actions)) <==> NoneEarly(BEGIN, actions)
  {
    assert Inv(BEGIN);
    FifoFrom(BEGIN, actions);
  }

  lemma {:induction false} RunKeeps(r: Run, actions: seq<Action>)
    requires Inv(r) && NoneEarly(r, actions)
    ensures Inv(DoAll(r, actions))
    decreases |actions|
  {
    if actions != [] {
      StepKeeps(r, actions[0]);
      hide Inv, Do, Early;
      RunKeeps(Do(r, actions[0]), actions[1..]);
    }
  }

  /** In such a run at most one request is in flight: the next starts only after the last is credited. */
  lemma OneInFlight(actions: seq<Action>)
    requires NoneEarly(BEGIN, actions)
    ensures var r := DoAll(BEGIN, actions); |r.started| == |r.completed| + if InFlight(r) then 1 else 0
  {
    assert Inv(BEGIN);
    RunKeeps(BEGIN, actions);
    hide DoAll, NoneEarly;
  }

  // ----- progress -----

  lemma HandledStarts(r: Run)
    requires Inv(r) && r.pending && r.hw == Idle
    ensures var r', m := Do(r, Handle), |r.completed|;
      && r'.completed == r.completed + [m] && !r'.pending && !r'.fault
      && if |r.submitted| > m + 1 then r'.hw == Busy && r'.started == r.started + [m + 1]
         else r'.hw == Idle && r'.started == r.started
  {
    HandleKeeps(r);
    NextIsOldest(r.s);
    NextTag(r);
    ReleaseDequeues(r.s);
    var r1 := r.(pending := false, s := r.s.Release(), completed := r.completed + [r.tag[r.s.running]]);
    NextIsOldest(r1.s);
    UptoNext(|r.completed| + 1);
    hide Slots.Queued, Slots.Next, Slots.Release, Tags;
  }

  /** The handling of an event credits the request that ran and, if the thread has stopped, starts the next one at
      once: after it the thread is idle only if nothing is queued. */
  lemma HandlingStartsNext(actions: seq<Action>)
    requires NoneEarly(BEGIN, actions) && DoAll(BEGIN, actions).pending && DoAll(BEGIN, actions).hw == Idle
    ensures var r := DoAll(BEGIN, actions);
      var r', m := Do(r, Handle), |r.completed|;
      && r'.completed == r.completed + [m]
      && if |r.submitted| > m + 1 then r'.hw == Busy && r'.started == r.started + [m + 1]
         else r'.hw == Idle && r'.started == r.started
  {
    assert Inv(BEGIN);
    RunKeeps(BEGIN, actions);
    hide Do, Inv;
    HandledStarts(DoAll(BEGIN, actions));
  }

  // ----- the code up to DMAEND -----

  // Unless the thread is stopped, the half-buffer it executes from holds the code of the
  // request last started.
  predicate InPlace(r: Run) {
    r.Shaped() && (r.hw != Idle ==> r.started != [] && r.s.running != -1 && r.tag[r.s.running] == r.Current())
  }

  ghost predicate AllInPlace(r: Run, actions: seq<Action>)
    requires r.Shaped()
    decreases |actions|
  {
    InPlace(r) && (actions == [] || AllInPlace(Do(r, actions[0]), actions[1..]))
  }

  // A submission goes to the running slot, which is free, while DMAEND is still to be fetched from there.
  predicate Overwrites(r: Run, a: Action)
    requires r.Shaped()
  {
    a.Submit? && !r.fault && !r.s.Full() && r.hw == Ending && r.s.FreeSlot() == r.s.running
  }

  predicate NoneOverwrites(r: Run, actions: seq<Action>)
    requires r.Shaped()
    decreases |actions|
  {
    actions == [] || (!Overwrites(r, actions[0]) && NoneOverwrites(Do(r, actions[0]), actions[1..]))
  }

  lemma FlightInPlace(r: Run)
    requires Inv(r) && InFlight(r)
    ensures InPlace(r)
  {
    NextTag(r);
    hide Slots.Queued, Slots.Next, Tags;
  }

  lemma StepInPlace(r: Run, a: Action)
    requires Inv(r) && InPlace(r) && !Early(r, a)
    ensures InPlace(Do(r, a)) <==> !Overwrites(r, a)
  {
    StepKeeps(r, a);
    var r' := Do(r, a);
    if InFlight(r') {
      FlightInPlace(r');
      if InFlight(r) { NextIsOldest(r.s); }
    }
    hide Slots.Queued, Tags;
  }

  lemma {:induction false} InPlaceFrom(r: Run, actions: seq<Action>)
    requires Inv(r) && InPlace(r) && NoneEarly(r, actions)
    ensures AllInPlace(r, actions) <==> NoneOverwrites(r, actions)
    decreases |actions|
  {
    if actions != [] {
      StepKeeps(r, actions[0]);
      StepInPlace(r, actions[0]);
      hide Inv, Do, InPlace, Overwrites, Early;
      if !Overwrites(r, actions[0]) {
        InPlaceFrom(Do(r, actions[0]), actions[1..]);
      }
    }
  }

  /** The code of a request up to its DMAEND, which it executes after its event: over every run, requests are in
      order as above and at every moment the half-buffer of a thread that has not stopped holds the code that
      it executes, exactly when no start attempt is early and no submission goes to the running slot between
      the handling of its event and its DMAEND. */
  lemma CodeStaysToEnd(actions: seq<Action>)
    ensures Fifo(DoAll(BEGIN, actions)) && AllInPlace(BEGIN, actions)
      <==> NoneEarly(BEGIN, actions) && NoneOverwrites(BEGIN, actions)
  {
    assert Inv(BEGIN) && InPlace(BEGIN);
    FirstInFirstOut(actions);
    if NoneEarly(BEGIN, actions) { InPlaceFrom(BEGIN, actions); }
  }

  // ----- what an early start leads to -----

  lemma DoAllCons(r: Run, a: Action, rest: seq<Action>)
    requires r.Shaped()
    ensures DoAll(r, [a] + rest) == DoAll(Do(r, a), rest)
    ensures NoneEarly(r, [a] + rest) <==> !Early(r, a) && NoneEarly(Do(r, a), rest)
  {
    assert ([a] + rest)[1..] == rest;
  }

  lemma DoAllNil(r: Run)
    requires r.Shaped()
    ensures DoAll(r, []) == r && NoneEarly(r, [])
  {
  }

  // Request a ran and stopped, b was submitted meanwhile, the event is not handled.
  function Unhandled(a: Desc, b: Desc): Run {
    Run(Slots([Some(a), Some(b)], 1, 0), [0, 1], Idle, true, false, High(b.src), High(b.dst), [a, b], [0], [0], [])
  }

  lemma UnhandledReached(a: Desc, b: Desc, rest: seq<Action>)
    ensures Unhandled(a, b).Shaped()
    ensures DoAll(BEGIN, [Submit(a)] + ([Start] + ([Submit(b)] + ([Raise] + ([Stop] + rest)))))
      == DoAll(Unhandled(a, b), rest)
  {
    var r1 := Run(Slots([Some(a), None], 0, -1), [0, 0], Idle, false, false, High(a.src), High(a.dst), [a], [], [], []);
    var r2 := r1.(s := r1.s.(running := 0), hw := Busy, started := [0]);
    var r3 := Unhandled(a, b).(hw := Busy, pending := false, raised := []);
    var r4 := Unhandled(a, b).(hw := Ending);
    assert Do(BEGIN, Submit(a)) == r1 && Do(r1, Start) == r2;
    assert Do(r2, Submit(b)) == r3 && Do(r3, Raise) == r4 && Do(r4, Stop) == Unhandled(a, b);
    hide Do, DoAll;
    DoAllCons(BEGIN, Submit(a), [Start] + ([Submit(b)] + ([Raise] + ([Stop] + rest))));
    DoAllCons(r1, Start, [Submit(b)] + ([Raise] + ([Stop] + rest)));
    DoAllCons(r2, Submit(b), [Raise] + ([Stop] + rest));
    DoAllCons(r3, Raise, [Stop] + rest);
    DoAllCons(r4, Stop, rest);
  }

  // After the early start and the handling of the first event: a executes again from a
  // slot that counts as free.
  function Detached(a: Desc, b: Desc): Run {
    Unhandled(a, b)
      .(s := Slots([None, Some(b)], 1, 0), hw := Busy, pending := false, started := [0, 0], completed := [0])
  }

  lemma EarlyDetaches(a: Desc, b: Desc, rest: seq<Action>)
    ensures Detached(a, b).Shaped() && Unhandled(a, b).Shaped()
    ensures DoAll(Unhandled(a, b), [Start] + ([Handle] + rest)) == DoAll(Detached(a, b), rest)
  {
    var r1 := Unhandled(a, b).(hw := Busy, started := [0, 0]);
    assert Do(Unhandled(a, b), Start) == r1 && Do(r1, Handle) == Detached(a, b);
    hide Do, DoAll;
    DoAllCons(Unhandled(a, b), Start, [Handle] + rest);
    DoAllCons(r1, Handle, rest);
  }

  /** A start attempt between the end of a request and the handling of its event, with another request queued:
      the first request runs again before the second. Its second event then finds no request to credit, or
      credits one submitted meanwhile, whose code was written over the code under execution. */
  lemma EarlyStartRuns(a: Desc, b: Desc, c: Desc)
    ensures var run := [Submit(a), Start, Submit(b), Raise, Stop, Start]; DoAll(BEGIN, run).started == [0, 0]
    ensures DoAll(BEGIN, [Submit(a), Start, Submit(b), Raise, Stop, Start, Handle, Raise, Handle]).fault
    ensures var r := DoAll(BEGIN, [Submit(a), Start, Submit(b), Raise, Stop, Start, Handle, Submit(c), Raise, Handle]);
      r.completed == [0, 2] && r.raised == [0, 0] && r.s.req[0] == None
  {
    hide Detached, Unhandled;
    RestartedRun(a, b);
    FaultingRun(a, b);
    MiscreditingRun(a, b, c);
  }

  lemma RestartedRun(a: Desc, b: Desc)
    ensures DoAll(BEGIN, [Submit(a), Start, Submit(b), Raise, Stop, Start]).started == [0, 0]
  {
    var r := Unhandled(a, b).(hw := Busy, started := [0, 0]);
    assert Do(Unhandled(a, b), Start) == r;
    hide Do, DoAll;
    UnhandledReached(a, b, [Start] + []);
    DoAllCons(Unhandled(a, b), Start, []);
    DoAllNil(r);
    assert [Submit(a)] + ([Start] + ([Submit(b)] + ([Raise] + ([Stop] + ([Start] + [])))))
        == [Submit(a), Start, Submit(b), Raise, Stop, Start];
  }

  lemma FaultingRun(a: Desc, b: Desc)
    ensures DoAll(BEGIN, [Submit(a), Start, Submit(b), Raise, Stop, Start, Handle, Raise, Handle]).fault
  {
    var r := Detached(a, b).(hw := Ending, pending := true, raised := [0, 0]);
    var r' := r.(pending := false, fault := true);
    assert Do(Detached(a, b), Raise) == r && Do(r, Handle) == r';
    hide Do, DoAll;
    var tail := [Raise] + ([Handle] + []);
    UnhandledReached(a, b, [Start] + ([Handle] + tail));
    EarlyDetaches(a, b, tail);
    DoAllCons(Detached(a, b), Raise, [Handle] + []);
    DoAllCons(r, Handle, []);
    DoAllNil(r');
    assert [Submit(a)] + ([Start] + ([Submit(b)] + ([Raise] + ([Stop] + ([Start] + ([Handle] + tail))))))
        == [Submit(a), Start, Submit(b), Raise, Stop, Start, Handle, Raise, Handle];
  }

  // Then c is submitted into that slot while a executes.
  function Resubmitted(a: Desc, b: Desc, c: Desc): Run {
    Detached(a, b).(s := Slots([Some(c), Some(b)], 0, 0), tag := [2, 1], submitted := [a, b, c],
                    arWrapper := High(c.src), awWrapper := High(c.dst))
  }

  // The second event of a is handled as that of c.
  function Miscredited(a: Desc, b: Desc, c: Desc): Run {
    Resubmitted(a, b, c)
      .(s := Slots([None, Some(b)], 0, 0), hw := Ending, raised := [0, 0], completed := [0, 2])
  }

  lemma MiscreditingSteps(a: Desc, b: Desc, c: Desc)
    ensures Detached(a, b).Shaped() && Resubmitted(a, b, c).Shaped()
    ensures Do(Detached(a, b), Submit(c)) == Resubmitted(a, b, c)
    ensures var r := Resubmitted(a, b, c).(hw := Ending, pending := true, raised := [0, 0]);
      r.Shaped() && Do(Resubmitted(a, b, c), Raise) == r && Do(r, Handle) == Miscredited(a, b, c)
  {
    var r := Resubmitted(a, b, c).(hw := Ending, pending := true, raised := [0, 0]);
    assert Do(r, Handle) == Miscredited(a, b, c);
    hide DoHandle, DoStart;
  }

  lemma MiscreditingRun(a: Desc, b: Desc, c: Desc)
    ensures var r := DoAll(BEGIN, [Submit(a), Start, Submit(b), Raise, Stop, Start, Handle, Submit(c), Raise, Handle]);
      r.completed == [0, 2] && r.raised == [0, 0] && r.s.req[0] == None
  {
    MiscreditingSteps(a, b, c);
    var r0, r1, r3 := Detached(a, b), Resubmitted(a, b, c), Miscredited(a, b, c);
    var r2 := r1.(hw := Ending, pending := true, raised := [0, 0]);
    hide Do, DoAll, High, Detached, Resubmitted;
    var tail := [Submit(c)] + ([Raise] + ([Handle] + []));
    UnhandledReached(a, b, [Start] + ([Handle] + tail));
    EarlyDetaches(a, b, tail);
    DoAllCons(r0, Submit(c), [Raise] + ([Handle] + []));
    DoAllCons(r1, Raise, [Handle] + []);
    DoAllCons(r2, Handle, []);
    DoAllNil(r3);
    assert [Submit(a)] + ([Start] + ([Submit(b)] + ([Raise] + ([Stop] + ([Start] + ([Handle] + tail))))))
        == [Submit(a), Start, Submit(b), Raise, Stop, Start, Handle, Submit(c), Raise, Handle];
  }

  /** A submission between the handling of an event and DMAEND: the thread has raised its event for request 0 and
      not stopped, and the half-buffer it executes from holds the code of request 1. */
  lemma EndOverwritten(a: Desc, c: Desc)
    ensures var run := [Submit(a), Start, Raise, Handle, Submit(c)];
      && NoneEarly(BEGIN, run) && Fifo(DoAll(BEGIN, run))
      && var r := DoAll(BEGIN, run);
         r.hw == Ending && r.started == [0] && r.s.running == 0 && r.s.req[0] == Some(c) && r.tag[0] == 1 && !InPlace(r)
  {
    var r1, r2, r3, r4, r5 := EndingSteps(a, c);
    hide Do, DoAll, NoneEarly, High, Fifo, Early;
    DoAllCons(BEGIN, Submit(a), [Start] + ([Raise] + ([Handle] + ([Submit(c)] + []))));
    DoAllCons(r1, Start, [Raise] + ([Handle] + ([Submit(c)] + [])));
    DoAllCons(r2, Raise, [Handle] + ([Submit(c)] + []));
    DoAllCons(r3, Handle, [Submit(c)] + []);
    DoAllCons(r4, Submit(c), []);
    DoAllNil(r5);
    assert [Submit(a)] + ([Start] + ([Raise] + ([Handle] + ([Submit(c)] + []))))
        == [Submit(a), Start, Raise, Handle, Submit(c)];
    FirstInFirstOut([Submit(a), Start, Raise, Handle, Submit(c)]);
  }

  lemma EndingSteps(a: Desc, c: Desc) returns (r1: Run, r2: Run, r3: Run, r4: Run, r5: Run)
    ensures r1.Shaped() && r2.Shaped() && r3.Shaped() && r4.Shaped() && r5.Shaped()
    ensures Do(BEGIN, Submit(a)) == r1 && Do(r1, Start) == r2 && Do(r2, Raise) == r3
    ensures Do(r3, Handle) == r4 && Do(r4, Submit(c)) == r5
    ensures !Early(BEGIN, Submit(a)) && !Early(r1, Start) && !Early(r2, Raise) && !Early(r3, Handle)
    ensures !Early(r4, Submit(c)) && r5.hw == Ending && r5.started == [0] && r5.s.running == 0
    ensures r5.s.req[0] == Some(c) && r5.tag[0] == 1
  {
    r1 := Run(Slots([Some(a), None], 0, -1), [0, 0], Idle, false, false, High(a.src), High(a.dst), [a], [], [], []);
    r2 := r1.(s := r1.s.(running := 0), hw := Busy, started := [0]);
    r3 := r2.(hw := Ending, pending := true, raised := [0]);
    r4 := r3.(s := Slots([None, None], 0, 0), pending := false, completed := [0]);
    r5 := r4.(s := Slots([Some(c), None], 0, 0), tag := [1, 0], submitted := [a, c],
              arWrapper := High(c.src), awWrapper := High(c.dst));
    hide High;
  }

  // ----- the address wrapper -----

  // The wrappers hold the upper address bits of request d.
  predicate WrapperFor(r: Run, d: Desc) { r.arWrapper == High(d.src) && r.awWrapper == High(d.dst) }

  predicate SameWindows(d: Desc, e: Desc) { High(d.src) == High(e.src) && High(d.dst) == High(e.dst) }

  // The wrappers are those of the request submitted last.
  ghost predicate WrapperInv(r: Run) {
    && r.Shaped()
    && (forall i :: 0 <= i < 2 && r.s.req[i].Some? ==> r.tag[i] < |r.submitted|)
    && (forall i :: 0 <= i < |r.started| ==> r.started[i] < |r.submitted|)
    && (r.hw == Busy ==> r.started != [])
    && (r.submitted != [] ==> WrapperFor(r, r.submitted[|r.submitted| - 1]))
  }

  lemma StartKeepsWrapper(r: Run)
    requires WrapperInv(r)
    ensures WrapperInv(DoStart(r))
  {
    NextIsOldest(r.s);
    hide Slots.Queued;
  }

  lemma HandleKeepsWrapper(r: Run)
    requires WrapperInv(r)
    ensures WrapperInv(DoHandle(r))
  {
    if r.s.running != -1 && r.s.req[r.s.running].Some? {
      StartKeepsWrapper(r.(pending := false, s := r.s.Release(), completed := r.completed + [r.tag[r.s.running]]));
      hide DoStart;
    }
  }

  lemma StepKeepsWrapper(r: Run, a: Action)
    requires WrapperInv(r)
    ensures WrapperInv(Do(r, a))
  {
    match a {
      case Start => StartKeepsWrapper(r);
      case Handle => HandleKeepsWrapper(r);
      case _ =>
    }
  }

  lemma {:induction false} RunKeepsWrapper(r: Run, actions: seq<Action>)
    requires WrapperInv(r)
    ensures WrapperInv(DoAll(r, actions))
    decreases |actions|
  {
    if actions != [] {
      StepKeepsWrapper(r, actions[0]);
      hide WrapperInv, Do;
      RunKeepsWrapper(Do(r, actions[0]), actions[1..]);
    }
  }

  /** The address wrappers are written when a request is submitted, not when it starts. Over every run, while a
      request executes they hold its upper address bits exactly when the request submitted last uses the same
      4 GiB windows for source and destination. */
  lemma WrapperFollowsSubmission(actions: seq<Action>)
    ensures var r := DoAll(BEGIN, actions);
      r.hw == Busy ==>
        && r.started != [] && r.Current() < |r.submitted|
        && (WrapperFor(r, r.submitted[r.Current()]) <==>
            SameWindows(r.submitted[r.Current()], r.submitted[|r.submitted| - 1]))
  {
    RunKeepsWrapper(BEGIN, actions);
    hide DoAll, High;
  }

  /** So submitting a request for another window while one executes takes the wrapper from under it. */
  lemma WrapperTaken(a: Desc, b: Desc)
    requires High(a.src) != High(b.src) || High(a.dst) != High(b.dst)
    ensures var r := DoAll(BEGIN, [Submit(a), Start, Submit(b)]);
      r.hw == Busy && r.started == [0] && r.submitted == [a, b] && !WrapperFor(r, a)
    ensures NoneEarly(BEGIN, [Submit(a), Start, Submit(b)])
  {
    var r1, r2 := Do(BEGIN, Submit(a)), Do(Do(BEGIN, Submit(a)), Start);
    var r3 := Do(r2, Submit(b));
    assert r2.hw == Busy && r2.started == [0] && r2.submitted == [a] && !r2.s.Full();
    assert r3.hw == Busy && r3.started == [0] && r3.submitted == [a, b] && WrapperFor(r3, b);
    assert !Early(BEGIN, Submit(a)) && !Early(r1, Start) && !Early(r2, Submit(b));
    hide Do, High, DoAll, NoneEarly, Early;
    DoAllCons(BEGIN, Submit(a), [Start, Submit(b)]);
    DoAllCons(r1, Start, [Submit(b)]);
    DoAllCons(r2, Submit(b), []);
    DoAllNil(r3);
    assert [Submit(a)] + [Start, Submit(b)] == [Submit(a), Start, Submit(b)];
    assert [Start] + [Submit(b)] == [Start, Submit(b)] && [Submit(b)] + [] == [Submit(b)];
  }
}
