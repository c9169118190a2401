/**
The key combo input handler: key events that queue and cancel work on an ordered
workqueue, and the callbacks that the workqueue then runs.
*/
module KeyCombo {

  const KEY_MAX := 0x2ff
  const EV_KEY := 1

  // Tracked keys, those of them that must be up, and how many others must be down.
  datatype Config = Config(keybit: set<nat>, upbit: set<nat>, target: nat)

  datatype Work = DownWork | UpWork

  datatype Event = DownStarts | DownReturns | UpStarts | UpReturns

  // timer: the delayed key-down work waits for its delay. queue: pending work in order.
  // trace: starts and returns of the callbacks so far.
  datatype State = State(
    key: set<nat>, keyDown: int, keyUp: int, keyIsDown: bool,
    timer: bool, queue: seq<Work>, running: bool, trace: seq<Event>,
    heldAwake: bool, upAwake: bool)

  const INITIAL := State({}, 0, 0, false, false, [], false, [], false, false)

  // ----- workqueue -----

  predicate DownPending(s: State) { s.timer || DownWork in s.queue }

  function QueueDown(s: State): State { if DownPending(s) then s else s.(timer := true) }

  function NoDown(q: seq<Work>): seq<Work> {
    if q == [] then [] else (if q[0] == DownWork then [] else [q[0]]) + NoDown(q[1..])
  }

  lemma {:induction false} NothingToCancel(q: seq<Work>)
    requires DownWork !in q
    ensures NoDown(q) == q
  {
    if q != [] { NothingToCancel(q[1..]); }
  }

  function CancelDown(s: State): State { s.(timer := false, queue := NoDown(s.queue)) }

  function QueueUp(s: State): State { if UpWork in s.queue then s else s.(queue := s.queue + [UpWork]) }

  // The delay of the key-down work has passed.
  predicate CanExpire(s: State) { s.timer }
  function Expire(s: State): State { s.(timer := false, queue := s.queue + [DownWork]) }

  // The worker takes the next work: one at a time, in order.
  predicate CanBegin(s: State) { !s.running && s.queue != [] }
  function Begin(s: State): State
    requires CanBegin(s)
  {
    s.(running := true, queue := s.queue[1..],
       trace := s.trace + [if s.queue[0] == DownWork then DownStarts else UpStarts])
  }

  // The callback returns; do_key_up then drops its wake source.
  predicate CanReturn(s: State) { s.running && s.trace != [] && s.trace[|s.trace| - 1] in {DownStarts, UpStarts} }
  function Return(s: State): State
    requires CanReturn(s)
  {
    if s.trace[|s.trace| - 1] == DownStarts then s.(running := false, trace := s.trace + [DownReturns])
    else s.(running := false, trace := s.trace + [UpReturns], upAwake := false)
  }

  // ----- key events -----

  function Flip(key: set<nat>, code: nat): set<nat> { if code in key then key - {code} else key + {code} }

  function Change(c: Config, s: State, code: nat, value: int): State {
    var d := if value != 0 then 1 else -1;
    var s1 := s.(key := Flip(s.key, code));
    if code in c.upbit then s1.(keyUp := s.keyUp + d) else s1.(keyDown := s.keyDown + d)
  }

  predicate Satisfied(c: Config, s: State) { s.keyDown == c.target && s.keyUp == 0 }

  function React(c: Config, s: State): State {
    if Satisfied(c, s) then QueueDown(s.(heldAwake := true, keyIsDown := true))
    else if s.keyIsDown then
      var s1 := if DownPending(s) then CancelDown(s) else QueueUp(s.(upAwake := true));
      s1.(heldAwake := false, keyIsDown := false)
    else s
  }

  // keycombo_event
  function KeyEvent(c: Config, s: State, typ: int, code: nat, value: int): State {
    if typ != EV_KEY || code >= KEY_MAX || code !in c.keybit || (code in s.key <==> value != 0) then s
    else React(c, Change(c, s, code, value))
  }

  // ----- runs -----

  datatype Action = Key(typ: int, code: nat, value: int) | Expiry | Start | Done

  predicate Enabled(s: State, a: Action) {
    match a
    case Key(_, _, _) => true
    case Expiry => CanExpire(s)
    case Start => CanBegin(s)
    case Done => CanReturn(s)
  }

  function Next(c: Config, s: State, a: Action): State
    requires Enabled(s, a)
  {
    match a
    case Key(typ, code, value) => KeyEvent(c, s, typ, code, value)
    case Expiry => Expire(s)
    case Start => Begin(s)
    case Done => Return(s)
  }

  ghost predicate IsRun(c: Config, states: seq<State>, actions: seq<Action>) {
    && |states| == |actions| + 1 && states[0] == INITIAL
    && forall i :: 0 <= i < |actions| ==>
         Enabled(states[i], actions[i]) && states[i + 1] == Next(c, states[i], actions[i])
  }

  // ----- invariant -----

  // Down starts, down returns, up starts, up returns, down starts, ...
  function Turn(i: nat): Event {
    match i % 4 case 0 => DownStarts case 1 => DownReturns case 2 => UpStarts case _ => UpReturns
  }

  ghost predicate Alternates(trace: seq<Event>) { forall i :: 0 <= i < |trace| ==> trace[i] == Turn(i) }

  function Phase(trace: seq<Event>): nat { |trace| % 4 }

  // A key-down callback has started and its key-up callback has not.
  predicate Open(s: State) { Phase(s.trace) == 1 || Phase(s.trace) == 2 }

  predicate UpPending(s: State) { s.queue != [] && s.queue[0] == UpWork }

  ghost predicate Counts(c: Config, s: State) {
    s.key <= c.keybit && s.keyDown == |s.key - c.upbit| && s.keyUp == |s.key * c.upbit|
  }

  predicate QueueOk(q: seq<Work>) { q == [] || q == [UpWork] || q == [DownWork] || q == [UpWork, DownWork] }

  // The combo held now, if any, has its key-down either pending or started and open; an
  // earlier one that is open has its key-up queued ahead.
  ghost predicate Protocol(s: State) {
    && Alternates(s.trace)
    && s.running == (Phase(s.trace) == 1 || Phase(s.trace) == 3)
    && QueueOk(s.queue)
    && (UpPending(s) ==> Open(s))
    && !(s.timer && DownWork in s.queue)
    && (if s.keyIsDown then DownPending(s) <==> (Open(s) ==> UpPending(s))
        else !DownPending(s) && (Open(s) ==> UpPending(s)))
    && s.heldAwake == s.keyIsDown
    && s.upAwake == (UpPending(s) || Phase(s.trace) == 3)
  }

  // A combo that is held was satisfied by the last key change.
  ghost predicate Inv(c: Config, s: State) {
    Counts(c, s) && Protocol(s) && (s.keyIsDown ==> Satisfied(c, s))
  }

  lemma FlipSize(key: set<nat>, code: nat)
    ensures |Flip(key, code)| == |key| + if code in key then -1 else 1
  {
  }

  lemma FlipParts(key: set<nat>, upbit: set<nat>, code: nat)
    ensures Flip(key, code) - upbit == if code in upbit then key - upbit else Flip(key - upbit, code)
    ensures Flip(key, code) * upbit == if code in upbit then Flip(key * upbit, code) else key * upbit
  {
  }

  lemma ChangeKeepsCounts(c: Config, s: State, code: nat, value: int)
    requires Counts(c, s) && code in c.keybit && (code in s.key <==> value == 0)
    ensures Counts(c, Change(c, s, code, value))
    ensures Satisfied(c, s) ==> !Satisfied(c, Change(c, s, code, value))
  {
    FlipParts(s.key, c.upbit, code);
    FlipSize(s.key - c.upbit, code);
    FlipSize(s.key * c.upbit, code);
    assert Flip(s.key, code) <= c.keybit;
    assert code in s.key - c.upbit <==> code in s.key && code !in c.upbit;
    assert code in s.key * c.upbit <==> code in s.key && code in c.upbit;
    hide Flip;
  }

  lemma ChangeKeepsRest(c: Config, s: State, code: nat, value: int)
    ensures Protocol(s) ==> Protocol(Change(c, s, code, value))
    ensures Change(c, s, code, value).keyIsDown == s.keyIsDown
  {
  }

  lemma NoDownOk(q: seq<Work>)
    requires QueueOk(q)
    ensures NoDown(q) == if q != [] && q[0] == UpWork then [UpWork] else []
  {
    assert [UpWork, DownWork][1..] == [DownWork] && [DownWork][1..] == [];
  }

  lemma ReactKeeps(c: Config, s: State)
    requires Counts(c, s) && Protocol(s) && (s.keyIsDown ==> !Satisfied(c, s))
    ensures Inv(c, React(c, s))
  {
    NoDownOk(s.queue);
    hide Alternates, NoDown;
  }

  lemma TraceGrows(trace: seq<Event>, e: Event)
    requires Alternates(trace) && e == Turn(Phase(trace))
    ensures Alternates(trace + [e]) && Phase(trace + [e]) == if Phase(trace) == 3 then 0 else Phase(trace) + 1
    ensures Phase(trace) != 0 ==> trace != [] && trace[|trace| - 1] == Turn(Phase(trace) - 1)
  {
    if trace != [] { assert trace[|trace| - 1] == Turn(|trace| - 1); }
  }

  lemma ExpireKeeps(s: State)
    requires Protocol(s) && CanExpire(s)
    ensures Protocol(Expire(s))
  {
    assert [UpWork] + [DownWork] == [UpWork, DownWork];
    hide Alternates;
  }

  lemma BeginKeeps(s: State)
    requires Protocol(s) && CanBegin(s)
    ensures Protocol(Begin(s))
  {
    TraceGrows(s.trace, Turn(Phase(s.trace)));
    assert [UpWork, DownWork][1..] == [DownWork];
    hide Alternates, Phase;
  }

  lemma ReturnKeeps(s: State)
    requires Protocol(s) && CanReturn(s)
    ensures Protocol(Return(s))
  {
    TraceGrows(s.trace, Turn(Phase(s.trace)));
    hide Alternates, Phase;
  }

  lemma WorkKeepsKeys(c: Config, s: State)
    ensures Counts(c, s) ==>
      Counts(c, Expire(s)) && Expire(s).keyIsDown == s.keyIsDown && (Satisfied(c, s) ==> Satisfied(c, Expire(s)))
    ensures CanBegin(s) && Counts(c, s) ==>
      Counts(c, Begin(s)) && Begin(s).keyIsDown == s.keyIsDown && (Satisfied(c, s) ==> Satisfied(c, Begin(s)))
    ensures CanReturn(s) && Counts(c, s) ==>
      Counts(c, Return(s)) && Return(s).keyIsDown == s.keyIsDown && (Satisfied(c, s) ==> Satisfied(c, Return(s)))
  {
  }

  /** Every key event, delay expiry and workqueue step keeps the protocol. */
  lemma StepKeeps(c: Config, s: State, a: Action)
    requires Inv(c, s) && Enabled(s, a)
    ensures Inv(c, Next(c, s, a))
  {
    hide Protocol, Counts, React, Change, Expire, Begin, Return;
    match a {
      case Key(typ, code, value) =>
        if !(typ != EV_KEY || code >= KEY_MAX || code !in c.keybit || (code in s.key <==> value != 0)) {
          ChangeKeepsCounts(c, s, code, value);
          ChangeKeepsRest(c, s, code, value);
          ReactKeeps(c, Change(c, s, code, value));
        }
      case Expiry =>
        ExpireKeeps(s);
        WorkKeepsKeys(c, s);
      case Start =>
        BeginKeeps(s);
        WorkKeepsKeys(c, s);
      case Done =>
        ReturnKeeps(s);
        WorkKeepsKeys(c, s);
    }
  }

  lemma {:induction false} RunKeeps(c: Config, states: seq<State>, actions: seq<Action>, n: nat)
    requires IsRun(c, states, actions) && n < |states|
    ensures Inv(c, states[n])
  {
    if n == 0 {
      assert Inv(c, INITIAL);
    } else {
      hide Inv, Next, Enabled;
      RunKeeps(c, states, actions, n - 1);
      StepKeeps(c, states[n - 1], actions[n - 1]);
    }
  }

  /** In every run the callbacks alternate, down first, each returning before the next starts; the counters
      are the numbers of pressed keys; once the combo is released and the workqueue is idle every key-down
      call has had its key-up call, and once nothing is pending for a combo that is held its key-down call has
      started; and the system is held awake exactly while the combo is held or a key-up
      call is still to return. */
  lemma CallbacksAlternate(c: Config, states: seq<State>, actions: seq<Action>, n: nat)
    requires IsRun(c, states, actions) && n < |states|
    ensures var s := states[n];
      && Alternates(s.trace)
      && s.keyDown == |s.key - c.upbit| && s.keyUp == |s.key * c.upbit|
      && (!s.keyIsDown && !s.running && s.queue == [] ==> Phase(s.trace) == 0)
      && (s.keyIsDown && !s.timer && s.queue == [] ==> Open(s))
      && (s.heldAwake <==> s.keyIsDown)
      && (s.upAwake <==> UpWork in s.queue || Phase(s.trace) == 3)
  {
    RunKeeps(c, states, actions, n);
  }

  // ----- when the combo is held -----

  // The last report of key `code` among the actions says that it is pressed.
  predicate Pressed(actions: seq<Action>, code: nat) {
    actions != [] &&
    var n := |actions| - 1;
    match actions[n]
    case Key(typ, k, value) => if typ == EV_KEY && k == code then value != 0 else Pressed(actions[..n], code)
    case _ => Pressed(actions[..n], code)
  }

  predicate Tracked(c: Config, code: nat) { code in c.keybit && code < KEY_MAX }

  // Some action before n changed the set of pressed keys.
  ghost predicate Touched(states: seq<State>, n: nat) {
    exists i :: 0 <= i < n && i + 1 < |states| && states[i].key != states[i + 1].key
  }

  // A key event takes over what it says of a tracked key, and nothing else.
  lemma EventKeys(c: Config, s: State, typ: int, code: nat, value: int)
    ensures var s' := KeyEvent(c, s, typ, code, value);
      && (forall k: nat :: k in s'.key <==>
            if typ == EV_KEY && k == code && Tracked(c, k) then value != 0 else k in s.key)
      && (s'.key != s.key ==> (s'.keyIsDown <==> Satisfied(c, s')))
      && (s'.key == s.key ==> s' == s)
  {
    var s1 := Change(c, s, code, value);
    assert React(c, s1).key == s1.key && React(c, s1).keyDown == s1.keyDown && React(c, s1).keyUp == s1.keyUp
        && (React(c, s1).keyIsDown <==> Satisfied(c, s1)) by { hide Change, NoDown; }
    hide React;
  }

  /** Over every run, the keys recorded as pressed are the tracked keys that were last reported so. */
  lemma {:induction false} KeysFollow(c: Config, states: seq<State>, actions: seq<Action>, n: nat)
    requires IsRun(c, states, actions) && n < |states|
    ensures forall code: nat :: code in states[n].key <==> Tracked(c, code) && Pressed(actions[..n], code)
  {
    if n > 0 {
      KeysFollow(c, states, actions, n - 1);
      var a := actions[n - 1];
      assert actions[..n][..n - 1] == actions[..n - 1] && actions[..n][n - 1] == a;
      assert states[n] == Next(c, states[n - 1], a);
      if a.Key? { EventKeys(c, states[n - 1], a.typ, a.code, a.value); }
      hide KeyEvent, Tracked;
    }
  }

  /** Over every run, the combo is held exactly when the pressed keys satisfy it and some key has changed since
      the handler was set up. */
  lemma {:induction false} HeldExact(c: Config, states: seq<State>, actions: seq<Action>, n: nat)
    requires IsRun(c, states, actions) && n < |states|
    ensures states[n].keyIsDown <==> Satisfied(c, states[n]) && Touched(states, n)
    ensures c.target > 0 && Satisfied(c, states[n]) ==> Touched(states, n)
  {
    if n > 0 {
      HeldExact(c, states, actions, n - 1);
      var s, s', a := states[n - 1], states[n], actions[n - 1];
      assert Enabled(s, a) && s' == Next(c, s, a);
      hide Next, Enabled, Satisfied, IsRun, Touched;
      StepHeld(c, s, a);
      TouchedNext(states, n - 1);
    }
  }

  lemma StepHeld(c: Config, s: State, a: Action)
    requires Enabled(s, a)
    ensures var s' := Next(c, s, a);
      && (s'.key != s.key ==> (s'.keyIsDown <==> Satisfied(c, s')))
      && (s'.key == s.key ==> s'.keyIsDown == s.keyIsDown && Satisfied(c, s') == Satisfied(c, s))
  {
    if a.Key? {
      EventKeys(c, s, a.typ, a.code, a.value);
      hide KeyEvent;
    }
  }

  lemma TouchedNext(states: seq<State>, n: nat)
    requires n + 1 < |states|
    ensures Touched(states, n + 1) <==> Touched(states, n) || states[n].key != states[n + 1].key
  {
  }

  lemma ReactQueues(c: Config, s: State)
    requires Protocol(s) && !s.keyIsDown && React(c, s).keyIsDown
    ensures var s' := React(c, s); s'.timer && s'.queue == s.queue && s'.trace == s.trace
  {
    hide Alternates, Phase;
  }

  /** The step that makes the combo held starts the delay of its key-down callback. */
  lemma HoldingQueuesDown(c: Config, states: seq<State>, actions: seq<Action>, n: nat)
    requires IsRun(c, states, actions) && n < |actions| && !states[n].keyIsDown && states[n + 1].keyIsDown
    ensures var s, s' := states[n], states[n + 1]; s'.timer && s'.queue == s.queue && s'.trace == s.trace
  {
    RunKeeps(c, states, actions, n);
    var s, a := states[n], actions[n];
    assert states[n + 1] == Next(c, s, a);
    hide Protocol, Counts, React, Flip, Expire, Begin, Return, Satisfied;
    match a {
      case Key(typ, code, value) =>
        ChangeKeepsRest(c, s, code, value);
        ReactQueues(c, Change(c, s, code, value));
      case _ => WorkKeepsKeys(c, s);
    }
  }

  // What ending a held combo does to the workqueue.
  ghost predicate Released(s: State, s': State) {
    && !DownPending(s')
    && (if DownPending(s) then !Open(s) || UpPending(s) else Open(s) && s.queue == [])
    && s'.queue == if DownPending(s) then (if UpPending(s) then [UpWork] else []) else [UpWork]
  }

  lemma ReactReleases(c: Config, s: State)
    requires Protocol(s) && s.keyIsDown && !React(c, s).keyIsDown
    ensures Released(s, React(c, s))
  {
    NoDownOk(s.queue);
    hide Alternates, Phase, NoDown;
  }

  /** A step that ends a held combo queues the key-up work exactly when the key-down callback of that combo
      has started; otherwise it takes the pending key-down back. */
  lemma UpIffDownStarted(c: Config, states: seq<State>, actions: seq<Action>, n: nat)
    requires IsRun(c, states, actions) && n < |actions| && states[n].keyIsDown && !states[n + 1].keyIsDown
    ensures Released(states[n], states[n + 1])
  {
    RunKeeps(c, states, actions, n);
    var s, a := states[n], actions[n];
    hide Protocol, Counts, React, Released, Flip, Expire, Begin, Return, Satisfied;
    match a {
      case Key(typ, code, value) =>
        ChangeKeepsRest(c, s, code, value);
        ReactReleases(c, Change(c, s, code, value));
        SameQueue(s, Change(c, s, code, value), states[n + 1]);
      case _ => WorkKeepsKeys(c, s);
    }
  }

  lemma SameQueue(s: State, s1: State, s': State)
    requires Released(s1, s') && s.timer == s1.timer && s.queue == s1.queue && s.trace == s1.trace
    ensures Released(s, s')
  {
  }
}
