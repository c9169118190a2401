/**
Channels of a Trusty IPC device: their states, the address table and their reference
counts, under API calls, control messages, going offline and destruction in any order.
*/
module TrustyIpcChan {
  import opened Common

  const MIN_LOCAL_ADDR := 1024
  const INT_MAX := 0x7fff_ffff

  datatype ChanState = Disconnected | Connecting | Connected | Stale

  datatype Error = OK | ENOTCONN | ESHUTDOWN | EALREADY | EISCONN | ENODEV

  datatype Msg = ConnReq(src: nat, name: string) | DiscReq(src: nat, target: nat) | Data(src: nat, dst: nat)

  datatype Chan = Chan(state: ChanState, local: nat, remote: nat, name: string, refs: nat)

  // What a call does: the channel afterwards, its result, and the message it queued.
  datatype Call = Call(chan: Chan, err: Error, msg: Option<Msg>)

  // tipc_chan_connect, with a buffer in hand
  function Connect(c: Chan, name: string, online: bool): Call {
    match c.state
    case Disconnected =>
      var c1 := c.(name := name);
      if online then Call(c1.(state := Connecting), OK, Some(ConnReq(c.local, name))) else Call(c1, ENODEV, None)
    case Connecting => Call(c, if c.name == name then OK else EALREADY, None)
    case Connected => Call(c, if c.name == name then OK else EISCONN, None)
    case Stale => Call(c, ESHUTDOWN, None)
  }

  // tipc_chan_shutdown, with a buffer in hand
  function Shutdown(c: Chan, online: bool): Call {
    var c1 := c.(state := Stale);
    if c.state == Connected || c.state == Connecting then
      if online then Call(c1, OK, Some(DiscReq(c.local, c.remote))) else Call(c1, ENODEV, None)
    else Call(c1, ENOTCONN, None)
  }

  // tipc_chan_queue_msg
  function QueueMsg(c: Chan, online: bool): Call {
    match c.state
    case Connected => if online then Call(c, OK, Some(Data(c.local, c.remote))) else Call(c, ENODEV, None)
    case Stale => Call(c, ESHUTDOWN, None)
    case _ => Call(c, ENOTCONN, None)
  }

  // _handle_conn_rsp, _handle_disc_req and _go_offline on a channel they looked up
  function ConnRsp(c: Chan, status: nat, remote: nat): Chan {
    if c.state != Connecting then c
    else if status == 0 then c.(state := Connected, remote := remote)
    else c.(state := Disconnected, remote := 0)
  }

  function DiscRequested(c: Chan): Chan {
    if c.state == Connected || c.state == Connecting then c.(state := Disconnected, remote := 0) else c
  }

  function WentOffline(c: Chan): Chan { c.(state := Stale, remote := 0) }

  // ----- the device -----

  // table: addr_idr. creators: channels whose creator has not dropped them. held:
  // references of lookups not yet put. sent: messages queued. made: channels ever made.
  datatype Device = Device(
    online: bool, chans: map<nat, Chan>, table: map<nat, nat>, creators: set<nat>, held: multiset<nat>,
    sent: seq<Msg>, made: nat)

  const INITIAL := Device(false, map[], map[], {}, multiset{}, [], 0)

  datatype Action =
    | GoOnline
    | GoOffline
    | Create(addr: nat)
    | DoConnect(ch: nat, name: string)
    | DoShutdown(ch: nat)
    | DoQueue(ch: nat)
    | Lookup(addr: nat)
    | Rsp(ch: nat, status: nat, remote: nat)
    | Disc(ch: nat)
    | SetStale(ch: nat)
    | Put(ch: nat)
    | Del(ch: nat)
    | Drop(ch: nat)

  // Calls are made by the creator of a channel until it destroys it, which removes the
  // channel and then drops it; handlers act on channels they have looked up.
  predicate Enabled(d: Device, a: Action) {
    match a
    case DoConnect(ch, _) => ch in d.creators
    case DoShutdown(ch) => ch in d.creators
    case DoQueue(ch) => ch in d.creators && (ch in d.chans ==> d.chans[ch].local != 0)
    case Rsp(ch, _, _) => ch in d.held
    case Disc(ch) => ch in d.held
    case SetStale(ch) => ch in d.held
    case Put(ch) => ch in d.held
    case Del(ch) => ch in d.creators
    case Drop(ch) => ch in d.creators && (ch in d.chans ==> d.chans[ch].local == 0)
    case _ => true
  }

  // The channel a step touches has not been freed.
  predicate Alive(d: Device, a: Action) {
    match a
    case Lookup(addr) => addr in d.table ==> d.table[addr] in d.chans
    case GoOnline => true
    case GoOffline => true
    case Create(_) => true
    case _ => a.ch in d.chans
  }

  function Set(d: Device, ch: nat, c: Chan): Device { d.(chans := d.chans[ch := c]) }

  function Called(d: Device, ch: nat, r: Call): Device {
    Set(d, ch, r.chan).(sent := if r.msg.Some? then d.sent + [r.msg.value] else d.sent)
  }

  // kref_put: the last reference frees the channel.
  function Release(d: Device, ch: nat): Device
    requires ch in d.chans
  {
    if d.chans[ch].refs <= 1 then d.(chans := d.chans - {ch})
    else Set(d, ch, d.chans[ch].(refs := d.chans[ch].refs - 1))
  }

  // vds_create_channel and vds_add_channel
  function Created(d: Device, addr: nat): Device {
    if !d.online || addr in d.table || !(MIN_LOCAL_ADDR <= addr <= INT_MAX) then d
    else Set(d, d.made, Chan(Disconnected, addr, 0, "", 2)).(
           table := d.table[addr := d.made], creators := d.creators + {d.made}, made := d.made + 1)
  }

  // vds_lookup_channel
  function LookedUp(d: Device, addr: nat): Device
    requires addr in d.table ==> d.table[addr] in d.chans
  {
    if addr !in d.table then d
    else
      var ch := d.table[addr];
      Set(d, ch, d.chans[ch].(refs := d.chans[ch].refs + 1)).(held := d.held + multiset{ch})
  }

  // vds_del_channel
  function Deleted(d: Device, ch: nat): Device
    requires ch in d.chans
  {
    var c := d.chans[ch];
    if c.local == 0 then d
    else Release(Set(d, ch, c.(local := 0, remote := 0)).(table := d.table - {c.local}), ch)
  }

  function Next(d: Device, a: Action): Device
    requires Alive(d, a)
  {
    match a
    case GoOnline => d.(online := true)
    case GoOffline => d.(online := false)
    case Create(addr) => Created(d, addr)
    case DoConnect(ch, name) => Called(d, ch, Connect(d.chans[ch], name, d.online))
    case DoShutdown(ch) => Called(d, ch, Shutdown(d.chans[ch], d.online))
    case DoQueue(ch) => Called(d, ch, QueueMsg(d.chans[ch], d.online))
    case Lookup(addr) => LookedUp(d, addr)
    case Rsp(ch, status, remote) => Set(d, ch, ConnRsp(d.chans[ch], status, remote))
    case Disc(ch) => Set(d, ch, DiscRequested(d.chans[ch]))
    case SetStale(ch) => Set(d, ch, WentOffline(d.chans[ch]))
    case Put(ch) => Release(d.(held := d.held - multiset{ch}), ch)
    case Del(ch) => Deleted(d, ch)
    case Drop(ch) => Release(d.(creators := d.creators - {ch}), ch)
  }

  // Touching a freed channel may do anything.
  ghost predicate Step(d: Device, d': Device, a: Action) {
    Enabled(d, a) && (Alive(d, a) ==> d' == Next(d, a))
  }

  // ----- references -----

  function One(b: bool): nat { if b then 1 else 0 }

  // Its creator's reference, the address table's, and those of lookups.
  function Count(d: Device, ch: nat): nat
    requires ch in d.chans
  {
    One(ch in d.creators) + One(d.chans[ch].local != 0) + d.held[ch]
  }

  ghost predicate RefsOk(d: Device, ch: nat) {
    ch in d.chans ==>
      var c := d.chans[ch];
      && c.refs == Count(d, ch) > 0
      && (c.local != 0 ==> c.local in d.table && d.table[c.local] == ch)
  }

  // Whoever can reach a channel has it counted: nothing reachable has been freed.
  ghost predicate Inv(d: Device) {
    && (forall ch :: RefsOk(d, ch))
    && (forall ch :: ch in d.creators || ch in d.held ==> ch in d.chans)
    && (forall a :: a in d.table ==> a != 0 && d.table[a] in d.chans && d.chans[d.table[a]].local == a)
    && (forall ch :: ch in d.chans ==> ch < d.made)
  }

  // A step that changes neither the address of a channel nor its count.
  lemma SetKeeps(d: Device, ch: nat, c: Chan, sent: seq<Msg>)
    requires Inv(d) && ch in d.chans && c.local == d.chans[ch].local && c.refs == d.chans[ch].refs
    ensures Inv(Set(d, ch, c).(sent := sent))
  {
    var d' := Set(d, ch, c).(sent := sent);
    forall x ensures RefsOk(d', x) { assert RefsOk(d, x); }
  }

  lemma CreatedKeeps(d: Device, addr: nat)
    requires Inv(d)
    ensures Inv(Created(d, addr))
  {
    var d' := Created(d, addr);
    forall x ensures RefsOk(d', x) { assert RefsOk(d, x); }
  }

  lemma LookedUpKeeps(d: Device, addr: nat)
    requires Inv(d)
    ensures addr in d.table ==> d.table[addr] in d.chans
    ensures Inv(LookedUp(d, addr))
  {
    var d' := LookedUp(d, addr);
    forall x ensures RefsOk(d', x) { assert RefsOk(d, x); }
  }

  // As Inv, but one reference of ch is no longer anybody's.
  ghost predicate Owes(d: Device, ch: nat) {
    && ch in d.chans && d.chans[ch].refs == Count(d, ch) + 1
    && (d.chans[ch].local != 0 ==> d.chans[ch].local in d.table && d.table[d.chans[ch].local] == ch)
    && (forall x :: x != ch ==> RefsOk(d, x))
    && (forall x :: x in d.creators || x in d.held ==> x in d.chans)
    && (forall a :: a in d.table ==> a != 0 && d.table[a] in d.chans && d.chans[d.table[a]].local == a)
    && (forall x :: x in d.chans ==> x < d.made)
  }

  lemma ReleaseKeeps(d: Device, ch: nat)
    requires Owes(d, ch)
    ensures Inv(Release(d, ch))
  {
    var d' := Release(d, ch);
    forall x ensures RefsOk(d', x) {
      if x != ch { assert RefsOk(d, x); }
    }
  }

  lemma PutKeeps(d: Device, ch: nat)
    requires Inv(d) && ch in d.held
    ensures ch in d.chans && Inv(Release(d.(held := d.held - multiset{ch}), ch))
  {
    var d1 := d.(held := d.held - multiset{ch});
    assert RefsOk(d, ch);
    forall x | x != ch ensures RefsOk(d1, x) { assert RefsOk(d, x); }
    ReleaseKeeps(d1, ch);
  }

  lemma DropKeeps(d: Device, ch: nat)
    requires Inv(d) && ch in d.creators
    ensures ch in d.chans && Inv(Release(d.(creators := d.creators - {ch}), ch))
  {
    var d1 := d.(creators := d.creators - {ch});
    assert RefsOk(d, ch);
    forall x | x != ch ensures RefsOk(d1, x) { assert RefsOk(d, x); }
    ReleaseKeeps(d1, ch);
  }

  lemma DeletedKeeps(d: Device, ch: nat)
    requires Inv(d) && ch in d.creators
    ensures ch in d.chans && Inv(Deleted(d, ch))
  {
    var c := d.chans[ch];
    assert RefsOk(d, ch);
    if c.local != 0 {
      var d1 := Set(d, ch, c.(local := 0, remote := 0)).(table := d.table - {c.local});
      forall x | x != ch ensures RefsOk(d1, x) { assert RefsOk(d, x); }
      ReleaseKeeps(d1, ch);
    }
  }

  lemma CallsKeep(c: Chan, name: string, online: bool)
    ensures Connect(c, name, online).chan.local == c.local && Connect(c, name, online).chan.refs == c.refs
    ensures Shutdown(c, online).chan.local == c.local && Shutdown(c, online).chan.refs == c.refs
    ensures QueueMsg(c, online).chan == c
  {
  }

  /** No step touches a freed channel, and every step keeps the counts exact. */
  lemma StepKeeps(d: Device, d': Device, a: Action)
    requires Inv(d) && Step(d, d', a)
    ensures Alive(d, a) && Inv(d')
  {
    if a.DoConnect? || a.DoShutdown? || a.DoQueue? {
      CallsKeep(d.chans[a.ch], if a.DoConnect? then a.name else "", d.online);
    }
    hide RefsOk, Connect, Shutdown, QueueMsg, Created, LookedUp, Deleted, Release;
    match a {
      case GoOnline => OnlineKeeps(d, true);
      case GoOffline => OnlineKeeps(d, false);
      case Create(addr) => CreatedKeeps(d, addr);
      case DoConnect(ch, name) => SetKeeps(d, ch, Connect(d.chans[ch], name, d.online).chan, d'.sent);
      case DoShutdown(ch) => SetKeeps(d, ch, Shutdown(d.chans[ch], d.online).chan, d'.sent);
      case DoQueue(ch) => SetKeeps(d, ch, QueueMsg(d.chans[ch], d.online).chan, d'.sent);
      case Lookup(addr) => LookedUpKeeps(d, addr);
      case Rsp(ch, status, remote) => SetKeeps(d, ch, ConnRsp(d.chans[ch], status, remote), d.sent);
      case Disc(ch) => SetKeeps(d, ch, DiscRequested(d.chans[ch]), d.sent);
      case SetStale(ch) => SetKeeps(d, ch, WentOffline(d.chans[ch]), d.sent);
      case Put(ch) => PutKeeps(d, ch);
      case Del(ch) => DeletedKeeps(d, ch);
      case Drop(ch) => DropKeeps(d, ch);
    }
  }

  lemma OnlineKeeps(d: Device, online: bool)
    requires Inv(d)
    ensures Inv(d.(online := online))
  {
    forall x ensures RefsOk(d.(online := online), x) { assert RefsOk(d, x); }
  }

  // ----- runs -----

  ghost predicate IsRun(states: seq<Device>, actions: seq<Action>) {
    && |states| == |actions| + 1 && states[0] == INITIAL
    && forall i :: 0 <= i < |actions| ==> Step(states[i], states[i + 1], actions[i])
  }

  lemma {:induction false} RunKeeps(states: seq<Device>, actions: seq<Action>, n: nat)
    requires IsRun(states, actions) && n < |states|
    ensures Inv(states[n])
  {
    if n == 0 {
      assert forall ch :: RefsOk(INITIAL, ch);
    } else {
      hide Inv, Step;
      RunKeeps(states, actions, n - 1);
      StepKeeps(states[n - 1], states[n], actions[n - 1]);
    }
  }

  /** In every run the reference count of a channel is its creator's reference, one for being in the address
      table and one for each lookup not yet put; so no channel is freed while its creator, the table or a
      lookup can reach it, and no step touches a freed one. */
  lemma ReferencesExact(states: seq<Device>, actions: seq<Action>, n: nat)
    requires IsRun(states, actions) && n < |states|
    ensures var d := states[n];
      && (forall ch :: ch in d.chans ==> d.chans[ch].refs == Count(d, ch))
      && (forall ch :: ch in d.creators || ch in d.held || ch in d.table.Values ==> ch in d.chans)
      && (forall a :: a in d.table ==> d.table[a] in d.chans && d.chans[d.table[a]].local == a)
    ensures n < |actions| ==> Alive(states[n], actions[n])
  {
    RunKeeps(states, actions, n);
    var d := states[n];
    forall ch | ch in d.chans ensures d.chans[ch].refs == Count(d, ch) {
      assert RefsOk(d, ch);
    }
    if n < |actions| { StepKeeps(d, states[n + 1], actions[n]); }
  }

  // The state of channel ch after a step.
  function StateAfter(d: Device, st: ChanState, a: Action, ch: nat): ChanState {
    match a
    case DoConnect(x, _) => if x == ch && d.online && st == Disconnected then Connecting else st
    case DoShutdown(x) => if x == ch then Stale else st
    case Rsp(x, status, _) =>
      if x != ch || st != Connecting then st else if status == 0 then Connected else Disconnected
    case Disc(x) => if x == ch && (st == Connecting || st == Connected) then Disconnected else st
    case SetStale(x) => if x == ch then Stale else st
    case _ => st
  }

  // What a step does to a channel: its next state, and the remote address that a response
  // gives it and that it then keeps until it is destroyed or no longer connected.
  ghost predicate Moves(d: Device, c: Chan, c': Chan, a: Action, ch: nat) {
    && c'.state == StateAfter(d, c.state, a, ch)
    && (c.state == Connected == c'.state && c'.local != 0 ==> c'.remote == c.remote && c'.local == c.local)
    && (c.state == Connecting && c'.state == Connected ==> a.Rsp? && c'.remote == a.remote)
    && (c.state != Disconnected && c'.state == Disconnected ==> c'.remote == 0)
    && (a == SetStale(ch) ==> c'.remote == 0)
  }

  lemma ReleaseSame(d: Device, ch: nat, x: nat)
    requires ch in d.chans && x in d.chans && x in Release(d, ch).chans
    ensures Release(d, ch).chans[x].(refs := 0) == d.chans[x].(refs := 0)
  {
  }

  lemma ChanMoves(d: Device, a: Action, ch: nat)
    requires ch in d.chans
    ensures var c := d.chans[ch];
      match a
      case DoConnect(x, name) => x == ch ==> Moves(d, c, Connect(c, name, d.online).chan, a, ch)
      case DoShutdown(x) => x == ch ==> Moves(d, c, Shutdown(c, d.online).chan, a, ch)
      case DoQueue(x) => x == ch ==> Moves(d, c, QueueMsg(c, d.online).chan, a, ch)
      case Rsp(x, status, remote) => x == ch ==> Moves(d, c, ConnRsp(c, status, remote), a, ch)
      case Disc(x) => x == ch ==> Moves(d, c, DiscRequested(c), a, ch)
      case SetStale(x) => x == ch ==> Moves(d, c, WentOffline(c), a, ch)
      case _ => true
  {
  }

  /** Every step has exactly its effect on every channel: only a connect request of a disconnected channel makes it
      connecting, only the response to that connected or disconnected again, a disconnect request disconnected,
      and a shutdown or the loss of the device stale. */
  lemma StateMoves(d: Device, d': Device, a: Action, ch: nat)
    requires Inv(d) && Step(d, d', a) && ch in d.chans && ch in d'.chans
    ensures Moves(d, d.chans[ch], d'.chans[ch], a, ch)
  {
    StepKeeps(d, d', a);
    assert ch < d.made;
    ChanMoves(d, a, ch);
    hide Inv, RefsOk, Release, Connect, Shutdown, QueueMsg, ConnRsp, DiscRequested, WentOffline, Moves, StateAfter;
    if !Acts(a, ch) {
      match a {
        case Put(x) => ReleaseSame(d.(held := d.held - multiset{x}), x, ch);
        case Drop(x) => ReleaseSame(d.(creators := d.creators - {x}), x, ch);
        case Del(x) =>
          var c := d.chans[x];
          if c.local != 0 {
            ReleaseSame(Set(d, x, c.(local := 0, remote := 0)).(table := d.table - {c.local}), x, ch);
          }
        case _ =>
      }
      Untouched(d, d.chans[ch], d'.chans[ch], a, ch);
    }
  }

  // A call, or a handler, on channel ch.
  predicate Acts(a: Action, ch: nat) {
    (a.DoConnect? || a.DoShutdown? || a.DoQueue? || a.Rsp? || a.Disc? || a.SetStale?) && a.ch == ch
  }

  lemma Untouched(d: Device, c: Chan, c': Chan, a: Action, ch: nat)
    requires !Acts(a, ch) && c'.state == c.state
    requires c'.local != 0 ==> c'.local == c.local && c'.remote == c.remote
    ensures Moves(d, c, c', a, ch)
  {
  }

  /** Stale is final: a channel once stale is stale for as long as it exists. */
  lemma {:induction false} StaleIsFinal(states: seq<Device>, actions: seq<Action>, m: nat, n: nat, ch: nat)
    requires IsRun(states, actions) && m <= n < |states| && ch in states[m].chans && states[m].chans[ch].state == Stale
    requires forall k :: m <= k <= n ==> ch in states[k].chans
    ensures states[n].chans[ch].state == Stale
    decreases n - m
  {
    if m < n {
      StaleIsFinal(states, actions, m, n - 1, ch);
      RunKeeps(states, actions, n - 1);
      hide Inv, Step;
      StateMoves(states[n - 1], states[n], actions[n - 1], ch);
    }
  }

  // The channel exists and is in this state from step i to step n.
  ghost predicate During(states: seq<Device>, i: nat, n: nat, ch: nat, st: ChanState) {
    n < |states| && forall m :: i <= m <= n ==> ch in states[m].chans && states[m].chans[ch].state == st
  }

  // Step i queued a connect request of the channel, and it has been connecting up to n.
  ghost predicate Requested(states: seq<Device>, actions: seq<Action>, i: nat, n: nat, ch: nat) {
    && i < n <= |actions| && |states| == |actions| + 1
    && actions[i].DoConnect? && actions[i].ch == ch
    && states[i].online && ch in states[i].chans
    && |states[i + 1].sent| > 0
    && states[i + 1].sent[|states[i + 1].sent| - 1] == ConnReq(states[i].chans[ch].local, actions[i].name)
    && During(states, i + 1, n, ch, Connecting)
  }

  // Step j answered that request with status 0, and the channel has been connected up to n.
  ghost predicate Answered(states: seq<Device>, actions: seq<Action>, i: nat, j: nat, n: nat, ch: nat) {
    && Requested(states, actions, i, j, ch) && j < n <= |actions|
    && actions[j].Rsp? && actions[j].ch == ch && actions[j].status == 0
    && During(states, j + 1, n, ch, Connected)
    && (states[n].chans[ch].local != 0 ==> states[n].chans[ch].remote == actions[j].remote)
  }

  lemma Born(d: Device, d': Device, a: Action, ch: nat)
    requires Inv(d) && Step(d, d', a) && ch !in d.chans && ch in d'.chans
    ensures d'.chans[ch].state == Disconnected && a.Create? && ch == d.made
  {
    StepKeeps(d, d', a);
    hide Inv, RefsOk;
  }

  // A channel can be made at this address.
  predicate CanMake(d: Device, addr: nat) { d.online && addr !in d.table && 1024 <= addr <= 0x7fff_ffff }

  /** Channels come from creation only, and creation makes one exactly when the device is online and the address is
      free and in the range of local addresses; the channel is new, disconnected, found under its address, and
      has one reference for its creator and one for the address table. */
  lemma ChannelsBorn(states: seq<Device>, actions: seq<Action>, n: nat)
    requires IsRun(states, actions) && n < |actions|
    ensures var d, d', a := states[n], states[n + 1], actions[n];
      && (forall ch :: ch !in d.chans && ch in d'.chans ==> a.Create? && CanMake(d, a.addr) && ch == d.made)
      && (a.Create? && !CanMake(d, a.addr) ==> d' == d)
      && (a.Create? && CanMake(d, a.addr) ==>
            && d.made in d'.chans && d'.chans[d.made] == Chan(Disconnected, a.addr, 0, "", 2)
            && d'.table == d.table[a.addr := d.made] && d'.creators == d.creators + {d.made})
  {
    RunKeeps(states, actions, n);
    var d, d', a := states[n], states[n + 1], actions[n];
    assert Step(d, d', a);
    hide Inv, IsRun;
    forall ch | ch !in d.chans && ch in d'.chans ensures a.Create? && ch == d.made { Born(d, d', a, ch); }
  }

  lemma ConnectQueues(d: Device, d': Device, a: Action, ch: nat)
    requires Inv(d) && Step(d, d', a) && a.DoConnect? && a.ch == ch && d.online && ch in d.chans && ch in d'.chans
    requires d.chans[ch].state == Disconnected
    ensures |d'.sent| > 0 && d'.sent[|d'.sent| - 1] == ConnReq(d.chans[ch].local, a.name)
  {
    StepKeeps(d, d', a);
    hide Inv, RefsOk;
  }

  lemma {:induction false} ConnectingSince(states: seq<Device>, actions: seq<Action>, n: nat, ch: nat) returns (i: nat)
    requires IsRun(states, actions) && n < |states| && ch in states[n].chans && states[n].chans[ch].state == Connecting
    ensures Requested(states, actions, i, n, ch)
  {
    var d, a := states[n - 1], actions[n - 1];
    RunKeeps(states, actions, n - 1);
    hide Inv, Step;
    if ch !in d.chans {
      Born(d, states[n], a, ch);
      assert false;
    } else {
      StateMoves(d, states[n], a, ch);
      if d.chans[ch].state == Connecting {
        i := ConnectingSince(states, actions, n - 1, ch);
      } else {
        ConnectQueues(d, states[n], a, ch);
        i := n - 1;
      }
    }
  }

  /** In every run a connected channel has queued a connect request, was connecting until a status-0 response
      for it, and has been connected since; unless it is being destroyed, its remote address is the one the
      response gave. */
  lemma {:induction false} ConnectedSince(states: seq<Device>, actions: seq<Action>, n: nat, ch: nat)
    returns (i: nat, j: nat)
    requires IsRun(states, actions) && n < |states| && ch in states[n].chans && states[n].chans[ch].state == Connected
    ensures Answered(states, actions, i, j, n, ch)
  {
    var d, a := states[n - 1], actions[n - 1];
    RunKeeps(states, actions, n - 1);
    hide Inv, Step, Requested;
    if ch !in d.chans {
      Born(d, states[n], a, ch);
      assert false;
    } else {
      StateMoves(d, states[n], a, ch);
      if d.chans[ch].state == Connected {
        i, j := ConnectedSince(states, actions, n - 1, ch);
      } else {
        i := ConnectingSince(states, actions, n - 1, ch);
        j := n - 1;
      }
    }
  }

  // The action takes channel ch out of the connected state.
  predicate Ends(a: Action, ch: nat) { (a.Disc? || a.SetStale? || a.DoShutdown?) && a.ch == ch }

  /** And a status-0 response to a connecting channel connects it to the remote address that it gives, until the
      channel is disconnected, shut down, stale or gone. */
  lemma {:induction false} ConnectedUntil(states: seq<Device>, actions: seq<Action>, j: nat, n: nat, ch: nat)
    requires IsRun(states, actions) && j < n < |states| && forall k :: j <= k <= n ==> ch in states[k].chans
    requires states[j].chans[ch].state == Connecting
    requires actions[j].Rsp? && actions[j].ch == ch && actions[j].status == 0
    requires forall k :: j < k < n ==> !Ends(actions[k], ch)
    ensures During(states, j + 1, n, ch, Connected)
    ensures states[n].chans[ch].local != 0 ==> states[n].chans[ch].remote == actions[j].remote
    decreases n
  {
    RunKeeps(states, actions, n - 1);
    assert Step(states[n - 1], states[n], actions[n - 1]);
    hide Inv, Step, IsRun;
    if n > j + 1 { ConnectedUntil(states, actions, j, n - 1, ch); }
    StateMoves(states[n - 1], states[n], actions[n - 1], ch);
  }

  /** In every run a data message is queued only by a connected channel: it goes from its local address to the
      remote address of the status-0 response to its connect request. */
  lemma DataIsAddressed(states: seq<Device>, actions: seq<Action>, n: nat, src: nat, dst: nat) returns (i: nat, j: nat)
    requires IsRun(states, actions) && n < |actions| && states[n + 1].sent == states[n].sent + [Data(src, dst)]
    ensures actions[n].DoQueue?
    ensures Answered(states, actions, i, j, n, actions[n].ch) && dst == actions[j].remote
    ensures src in states[n].table && states[n].table[src] == actions[n].ch
  {
    RunKeeps(states, actions, n);
    DataQueued(states[n], states[n + 1], actions[n], src, dst);
    hide Inv, Step;
    i, j := ConnectedSince(states, actions, n, actions[n].ch);
  }

  /** A disconnect request is queued only by shutting down a channel that is connecting or connected; it names that
      channel's own address, and once it is connected the remote address of its connection. */
  lemma DisconnectIsAddressed(states: seq<Device>, actions: seq<Action>, n: nat, src: nat, target: nat)
    requires IsRun(states, actions) && n < |actions| && states[n + 1].sent == states[n].sent + [DiscReq(src, target)]
    ensures actions[n].DoShutdown? && actions[n].ch in states[n].chans
    ensures var c := states[n].chans[actions[n].ch];
      && (c.state == Connected || c.state == Connecting) && src == c.local && target == c.remote
      && (c.state == Connected && c.local != 0 ==>
            exists i: nat, j: nat :: Answered(states, actions, i, j, n, actions[n].ch) && target == actions[j].remote)
  {
    RunKeeps(states, actions, n);
    DiscQueued(states[n], states[n + 1], actions[n], src, target);
    hide Inv, Step, IsRun;
    var ch := actions[n].ch;
    var c := states[n].chans[ch];
    if c.state == Connected && c.local != 0 {
      var i, j := ConnectedSince(states, actions, n, ch);
      assert Answered(states, actions, i, j, n, ch);
    }
  }

  lemma DiscQueued(d: Device, d': Device, a: Action, src: nat, target: nat)
    requires Inv(d) && Step(d, d', a) && d'.sent == d.sent + [DiscReq(src, target)]
    ensures a.DoShutdown? && a.ch in d.chans
    ensures var c := d.chans[a.ch];
      (c.state == Connected || c.state == Connecting) && src == c.local && target == c.remote
  {
    assert d' == Next(d, a) by { StepKeeps(d, d', a); }
    assert d'.sent[|d.sent|] == DiscReq(src, target);
    hide Inv, ConnRsp, DiscRequested, WentOffline;
  }

  lemma DataQueued(d: Device, d': Device, a: Action, src: nat, dst: nat)
    requires Inv(d) && Step(d, d', a) && d'.sent == d.sent + [Data(src, dst)]
    ensures a.DoQueue? && a.ch in d.chans && d.chans[a.ch].state == Connected
    ensures d.chans[a.ch].local == src != 0 && d.chans[a.ch].remote == dst
    ensures src in d.table && d.table[src] == a.ch
  {
    assert d' == Next(d, a) by { StepKeeps(d, d', a); }
    assert d'.sent[|d.sent|] == Data(src, dst);
    assert a.DoQueue? ==> RefsOk(d, a.ch);
    hide Inv, ConnRsp, DiscRequested, WentOffline;
  }
}
