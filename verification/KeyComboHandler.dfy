/**
The key combo handler as the driver keeps it: the key sets read from the platform
data, and the event handler on its fields.
*/
module KeyComboHandler {
  import opened Common
  import opened KeyCombo

  // ----- key sets -----

  // The keys of a zero-terminated list that are below KEY_MAX.
  function Listed(keys: seq<nat>): seq<nat> {
    if keys == [] || keys[0] == 0 then []
    else (if keys[0] < KEY_MAX then [keys[0]] else []) + Listed(keys[1..])
  }

  function ToSet(l: seq<nat>): set<nat> { set x | x in l }

  function ConfigOf(down: seq<nat>, up: seq<nat>): Config {
    Config(ToSet(Listed(down)) + ToSet(Listed(up)), ToSet(Listed(up)), |Listed(down)|)
  }

  lemma ListedPrefix(keys: seq<nat>, i: nat)
    requires i < |keys| && 0 !in keys[..i + 1]
    ensures Listed(keys[..i + 1]) == Listed(keys[..i]) + (if keys[i] < KEY_MAX then [keys[i]] else [])
    decreases i
  {
    if i > 0 {
      assert keys[..i + 1][0] != 0 && keys[..i + 1][1..] == keys[1..][..i] && keys[..i][1..] == keys[1..][..i - 1];
      ListedPrefix(keys[1..], i - 1);
    } else {
      assert keys[..1] == [keys[0]] && keys[0] != 0;
    }
  }

  lemma ListedStops(keys: seq<nat>, i: nat)
    requires i < |keys| && keys[i] == 0 && 0 !in keys[..i]
    ensures Listed(keys) == Listed(keys[..i])
    decreases i
  {
    if i > 0 {
      assert keys[..i][0] != 0 && keys[..i][1..] == keys[1..][..i - 1];
      ListedStops(keys[1..], i - 1);
    }
  }

  /** The loops of keycombo_probe over the two zero-terminated key lists; the second may be missing. */
  method Setup(down: seq<nat>, up: seq<nat>) returns (c: Config)
    requires 0 in down && (0 in up || up == [])
    ensures c == ConfigOf(down, up)
  {
    var target, keybit, i := 0, {}, 0;
    while down[i] != 0
      invariant i < |down| && 0 !in down[..i]
      invariant target == |Listed(down[..i])| && keybit == ToSet(Listed(down[..i]))
      decreases |down| - i
    {
      ListedPrefix(down, i);
      if down[i] < KEY_MAX { target, keybit := target + 1, keybit + {down[i]}; }
      assert 0 in down && 0 !in down[..i + 1];
      i := i + 1;
    }
    ListedStops(down, i);
    var upbit := {};
    if up != [] {
      i := 0;
      while up[i] != 0
        invariant i < |up| && 0 !in up[..i]
        invariant upbit == ToSet(Listed(up[..i]))
        decreases |up| - i
      {
        ListedPrefix(up, i);
        if up[i] < KEY_MAX { upbit := upbit + {up[i]}; }
        assert 0 in up && 0 !in up[..i + 1];
        i := i + 1;
      }
      ListedStops(up, i);
    }
    c := Config(keybit + upbit, upbit, target);
  }

  lemma {:induction false} SetSize(l: seq<nat>)
    ensures |ToSet(l)| <= |l| && (|ToSet(l)| == |l| <==> Distinct(l))
    decreases |l|
  {
    if l != [] {
      var n := |l| - 1;
      var m := l[..n];
      SetSize(m);
      assert forall x :: x in l <==> x in m || x == l[n];
      assert ToSet(l) == ToSet(m) + {l[n]};
      if l[n] in m {
        assert ToSet(l) == ToSet(m);
        var i :| 0 <= i < n && m[i] == l[n];
        assert l[i] == l[n] && !Distinct(l);
      } else {
        assert Distinct(l) <==> Distinct(m) by {
          assert forall i :: 0 <= i < n ==> l[i] == m[i] && l[i] != l[n];
        }
      }
    }
  }

  lemma SubsetSize(a: set<nat>, b: set<nat>)
    requires a <= b
    ensures |a| <= |b| && (|a| == |b| ==> a == b)
  {
    var rest := b - a;
    assert b == a + rest && |b| == |a| + |rest|;
  }

  // Every key to press is listed once and none of them is also to be released.
  ghost predicate Sensible(down: seq<nat>, up: seq<nat>) {
    Distinct(Listed(down)) && ToSet(Listed(down)) !! ToSet(Listed(up))
  }

  /** What the counters decide: with sensible key lists the combo is satisfied exactly when all keys to press
      and no key to release are pressed; with any other lists it never is. */
  lemma ComboExact(down: seq<nat>, up: seq<nat>, s: State)
    requires Counts(ConfigOf(down, up), s)
    ensures Satisfied(ConfigOf(down, up), s) <==> Sensible(down, up) && s.key == ToSet(Listed(down))
  {
    var d, u := ToSet(Listed(down)), ToSet(Listed(up));
    SetSize(Listed(down));
    SubsetSize(s.key - u, d - u);
    SubsetSize(d - u, d);
    hide Listed, Distinct, ToSet;
    assert s.key * u == {} <==> |s.key * u| == 0;
    if Satisfied(ConfigOf(down, up), s) {
      assert s.key == s.key - u;
      assert d - u == d;
    }
    if Sensible(down, up) {
      assert d - u == d && d * u == {};
    }
  }

  /** Over every run of a handler for two key lists: the combo is held exactly when the lists are sensible, of all
      tracked keys just those to press were last reported as pressed, and some key has changed at all. */
  lemma ComboHeld(down: seq<nat>, up: seq<nat>, states: seq<State>, actions: seq<Action>, n: nat)
    requires IsRun(ConfigOf(down, up), states, actions) && n < |states|
    ensures states[n].keyIsDown <==>
      && Sensible(down, up) && Touched(states, n)
      && forall code: nat :: code in Listed(down) || code in Listed(up) ==>
           (Pressed(actions[..n], code) <==> code in Listed(down))
  {
    var c, s := ConfigOf(down, up), states[n];
    RunKeeps(c, states, actions, n);
    HeldExact(c, states, actions, n);
    KeysFollow(c, states, actions, n);
    ComboExact(down, up, s);
    ListedBelow(down);
    ListedBelow(up);
    hide Listed, Pressed, Touched, Sensible, IsRun, Protocol, Satisfied;
    assert forall code: nat :: Tracked(c, code) <==> code in Listed(down) || code in Listed(up);
    assert s.key == ToSet(Listed(down)) <==> forall code: nat :: code in s.key <==> code in Listed(down);
  }

  lemma {:induction false} ListedBelow(keys: seq<nat>)
    ensures forall x :: x in Listed(keys) ==> x < KEY_MAX
  {
    if keys != [] { ListedBelow(keys[1..]); }
  }

  // Key x stands at position i of the list, before its end.
  ghost predicate StandsAt(keys: seq<nat>, x: nat, i: nat) {
    i < |keys| && keys[i] == x && forall j :: 0 <= j <= i ==> keys[j] != 0
  }

  /** A key is taken from a list exactly when it stands before the first zero and is below KEY_MAX. */
  lemma {:induction false} ListedExact(keys: seq<nat>, x: nat)
    ensures x in Listed(keys) <==> x < KEY_MAX && exists i: nat :: StandsAt(keys, x, i)
  {
    if keys != [] && keys[0] != 0 {
      var rest := keys[1..];
      ListedExact(rest, x);
      if i: nat :| StandsAt(rest, x, i) { assert StandsAt(keys, x, i + 1); }
      if keys[0] == x { assert StandsAt(keys, x, 0); }
      if i: nat :| StandsAt(keys, x, i) {
        if i > 0 { assert StandsAt(rest, x, i - 1); }
      }
    }
  }

  // ----- handler -----

  class Handler {
    const config: Config
    var key: set<nat>
    var keyDown: int
    var keyUp: int
    var keyIsDown: bool
    var heldAwake: bool
    var upAwake: bool
    // The workqueue.
    var timer: bool
    var queue: seq<Work>
    var running: bool
    var trace: seq<Event>

    ghost function Abstract(): State
      reads this
    {
      State(key, keyDown, keyUp, keyIsDown, timer, queue, running, trace, heldAwake, upAwake)
    }

    constructor (config: Config)
      ensures Abstract() == INITIAL && this.config == config
    {
      this.config := config;
      key, keyDown, keyUp, keyIsDown := {}, 0, 0, false;
      heldAwake, upAwake, timer, queue, running, trace := false, false, false, [], false, [];
    }

    // queue_delayed_work
    method QueueDelayedWork()
      modifies `timer
      ensures Abstract() == QueueDown(old(Abstract()))
    {
      if !timer && DownWork !in queue { timer := true; }
    }

    // cancel_delayed_work
    method CancelDelayedWork() returns (pending: bool)
      modifies `timer, `queue
      ensures pending == old(DownPending(Abstract())) && Abstract() == CancelDown(old(Abstract()))
      ensures !pending ==> Abstract() == old(Abstract())
    {
      pending := timer || DownWork in queue;
      if !pending { NothingToCancel(queue); }
      timer, queue := false, NoDown(queue);
    }

    // queue_work
    method QueueUpWork()
      modifies `queue
      ensures Abstract() == QueueUp(old(Abstract()))
    {
      if UpWork !in queue { queue := queue + [UpWork]; }
    }

    method ChangeKey(code: nat, value: int)
      requires code in key <==> value == 0
      modifies `key, `keyDown, `keyUp
      ensures Abstract() == Change(config, old(Abstract()), code, value)
    {
      if code in key { key := key - {code}; } else { key := key + {code}; }
      if code in config.upbit {
        if value != 0 { keyUp := keyUp + 1; } else { keyUp := keyUp - 1; }
      } else {
        if value != 0 { keyDown := keyDown + 1; } else { keyDown := keyDown - 1; }
      }
    }

    /** keycombo_event on the driver's fields. */
    method KeycomboEvent(typ: int, code: nat, value: int)
      modifies this
      ensures Abstract() == KeyEvent(config, old(Abstract()), typ, code, value)
    {
      if typ != EV_KEY { return; }
      if code >= KEY_MAX { return; }
      if code !in config.keybit { return; }
      if (code !in key) == (value == 0) { return; }
      ChangeKey(code, value);
      hide Change, NoDown;
      if keyDown == config.target && keyUp == 0 {
        heldAwake := true;
        keyIsDown := true;
        QueueDelayedWork();
      } else if keyIsDown {
        var cancelled := CancelDelayedWork();
        if !cancelled {
          upAwake := true;
          QueueUpWork();
        }
        heldAwake := false;
        keyIsDown := false;
      }
    }
  }
}
