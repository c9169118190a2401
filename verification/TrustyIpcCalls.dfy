/**
The channel API of Trusty IPC on a channel object and the transmit buffers of its
device: what each call does to the channel, and that it loses no buffer.
*/
module TrustyIpcCalls {
  import Tx = TrustyIpcTx
  import opened TrustyIpcChan

  const MAX_SRV_NAME_LEN := 256

  // strncpy of a service name, with a terminator
  function SrvName(name: string): (r: string)
    ensures r <= name && |r| <= 255 && (|name| <= 255 ==> r == name) && (|name| > 255 ==> |r| == 255)
  {
    if |name| < MAX_SRV_NAME_LEN then name else name[..MAX_SRV_NAME_LEN - 1]
  }

  // A buffer for a call; the device may go offline before the call uses it.
  method Borrow(pool: Tx.TxPool, alloc: bool) returns (r: Tx.Result)
    requires pool.Valid()
    modifies pool
    ensures pool.Valid() && (r.Err? ==> unchanged(pool))
    ensures r.Ok? ==> old(pool.state) == Tx.Online && pool.ring == old(pool.ring) && r.buf !in pool.ring
    ensures r.Ok? ==> r.buf !in old(pool.hands) && pool.hands == old(pool.hands) + {r.buf}
  {
    hide Tx.Conserved;
    r := pool.GetTxbuf(alloc);
    if r.Ok? {
      if * { pool.SetState(Tx.Offline); }
    }
  }

  // What connecting reports of a channel that was in this state, for the same service or not.
  predicate Reported(st: ChanState, same: bool, online: bool, err: Error) {
    && (err == ENODEV <==> st == Disconnected && !online) && (err == ESHUTDOWN <==> st == Stale)
    && (err == EALREADY <==> st == Connecting && !same) && (err == EISCONN <==> st == Connected && !same)
    && err != ENOTCONN
  }

  lemma ConnectReports(c: Chan, srv: string)
    ensures forall online: bool ::
      var r := TrustyIpcChan.Connect(c, srv, online);
      && Reported(c.state, c.name == srv, online, r.err) && (r.msg.Some? <==> c.state == Disconnected && online)
      && (c.state == Disconnected ==> r.chan.name == srv)
  {
  }

  class Channel {
    var state: ChanState
    var local: nat
    var remote: nat
    var name: string
    var refs: nat

    ghost function Value(): Chan
      reads this
    {
      Chan(state, local, remote, name, refs)
    }

    // vds_create_channel, with the address it was given
    constructor (local: nat)
      ensures Value() == Chan(Disconnected, local, 0, "", 2)
    {
      state, this.local, remote, name, refs := Disconnected, local, 0, "", 2;
    }

    // A call under the channel lock, with buffer b: what it did to channel and buffer.
    twostate predicate Did(pool: Tx.TxPool, b: nat, err: Error, r: Call)
      reads this, pool
    {
      && Value() == r.chan && err == r.err && pool.state == old(pool.state)
      && (if r.msg.Some? then pool.ring == old(pool.ring) + {b} && pool.hands == old(pool.hands) - {b}
          else pool.ring == old(pool.ring) && pool.hands == old(pool.hands))
    }

    method ConnectLocked(pool: Tx.TxPool, srv: string, b: nat) returns (queued: bool, err: Error)
      requires pool.Valid() && b in pool.hands
      modifies this, pool
      ensures pool.Valid() && (queued <==> b !in pool.hands)
      ensures Did(pool, b, err, TrustyIpcChan.Connect(old(Value()), SrvName(srv), pool.state == Tx.Online))
    {
      hide Tx.Conserved, SrvName;
      queued := false;
      match state {
        case Disconnected =>
          name := SrvName(srv);
          var e := pool.QueueTxbuf(b);
          if e == Tx.OK {
            state, err, queued := Connecting, OK, true;
          } else {
            err := ENODEV;
          }
        case Connecting => err := if name == SrvName(srv) then OK else EALREADY;
        case Connected => err := if name == SrvName(srv) then OK else EISCONN;
        case Stale => err := ESHUTDOWN;
      }
    }

    method ShutdownLocked(pool: Tx.TxPool, b: nat) returns (err: Error)
      requires pool.Valid() && b in pool.hands
      modifies this, pool
      ensures pool.Valid()
      ensures Did(pool, b, err, TrustyIpcChan.Shutdown(old(Value()), pool.state == Tx.Online))
      ensures err == OK <==> b !in pool.hands
    {
      hide Tx.Conserved;
      if state == Connected || state == Connecting {
        var e := pool.QueueTxbuf(b);
        err := if e == Tx.OK then OK else ENODEV;
      } else {
        err := ENOTCONN;
      }
      state := Stale;
    }

    /** tipc_chan_connect: a buffer it takes ends up in the tx ring exactly when the connect request is queued,
        and is put back otherwise; the device may go offline in between. */
    method Connect(pool: Tx.TxPool, srv: string, alloc: bool) returns (got: bool, err: Error, ghost b: nat)
      requires pool.Valid()
      modifies this, pool
      ensures pool.Valid() && pool.hands == old(pool.hands) && (got ==> old(pool.state) == Tx.Online)
      ensures !got ==> unchanged(this) && unchanged(pool)
      ensures got ==>
        var r := TrustyIpcChan.Connect(old(Value()), SrvName(srv), pool.state == Tx.Online);
        && Value() == r.chan && err == r.err && b !in old(pool.ring)
        && pool.ring == if r.msg.Some? then old(pool.ring) + {b} else old(pool.ring)
      ensures got ==> Reported(old(state), old(name) == SrvName(srv), pool.state == Tx.Online, err)
      ensures got ==> (b in pool.ring <==> old(state) == Disconnected && pool.state == Tx.Online)
      ensures got && old(state) == Disconnected ==> name == SrvName(srv)
    {
      ConnectReports(Value(), SrvName(srv));
      hide Tx.Conserved, SrvName, Reported, TrustyIpcChan.Connect, Tx.Taken, Tx.Made, Tx.PutBack;
      var buf := Borrow(pool, alloc);
      if buf.Err? { return false, OK, 0; }
      got, b := true, buf.buf;
      var queued;
      queued, err := ConnectLocked(pool, srv, buf.buf);
      if !queued { var wake := pool.PutTxbuf(buf.buf); }
    }

    /** tipc_chan_shutdown: the channel is stale afterwards, whatever the result, unless no buffer was had. */
    method Shutdown(pool: Tx.TxPool, alloc: bool) returns (got: bool, err: Error, ghost b: nat)
      requires pool.Valid()
      modifies this, pool
      ensures pool.Valid() && pool.hands == old(pool.hands)
      ensures !got ==> unchanged(this) && unchanged(pool)
      ensures got ==>
        var r := TrustyIpcChan.Shutdown(old(Value()), pool.state == Tx.Online);
        && Value() == r.chan && err == r.err && b !in old(pool.ring)
        && pool.ring == if r.msg.Some? then old(pool.ring) + {b} else old(pool.ring)
      ensures got ==>
        var was, online := old(state) == Connected || old(state) == Connecting, pool.state == Tx.Online;
        && state == Stale && err == (if !was then ENOTCONN else if online then OK else ENODEV)
        && (b in pool.ring <==> was && online)
    {
      hide Tx.Conserved, Tx.Taken, Tx.Made, Tx.PutBack;
      var buf := Borrow(pool, alloc);
      if buf.Err? { return false, OK, 0; }
      got, b := true, buf.buf;
      err := ShutdownLocked(pool, buf.buf);
      if err != OK { var wake := pool.PutTxbuf(buf.buf); }
    }

    /** tipc_chan_queue_msg: the caller's buffer moves to the tx ring exactly when the message is queued, and
        stays with the caller otherwise. */
    method QueueMsg(pool: Tx.TxPool, b: nat) returns (err: Error)
      requires pool.Valid() && b in pool.hands
      modifies pool
      ensures pool.Valid()
      ensures var r := TrustyIpcChan.QueueMsg(Value(), pool.state == Tx.Online);
        && err == r.err
        && (if r.msg.Some? then pool.Value() == Tx.Queued(old(pool.Value()), b) else pool.Value() == old(pool.Value()))
      ensures err == (if state == Stale then ESHUTDOWN else if state != Connected then ENOTCONN
                      else if pool.state == Tx.Online then OK else ENODEV)
      ensures b !in pool.hands <==> err == OK
    {
      match state {
        case Connected =>
          var e := pool.QueueTxbuf(b);
          err := if e == Tx.OK then OK else ENODEV;
        case Disconnected => err := ENOTCONN;
        case Connecting => err := ENOTCONN;
        case Stale => err := ESHUTDOWN;
      }
    }
  }
}
