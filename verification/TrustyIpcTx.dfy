/**
Transmit buffers of a Trusty IPC device: the free list, the tx virtqueue and the
buffers in callers' hands.
*/
module TrustyIpcTx {
  import opened Common

  datatype DeviceState = Offline | Online | Dead

  datatype Error = OK | ENODEV | EAGAIN | ENOMEM | ENOSPC

  datatype Result = Ok(buf: nat) | Err(err: Error)

  // Buffers are numbered as they are allocated. ring: added to the tx virtqueue and not
  // yet taken back. hands: taken by callers and neither queued nor put back.
  datatype Pool = Pool(free: seq<nat>, ring: set<nat>, hands: set<nat>, made: nat)

  function Places(p: Pool, b: nat): nat {
    (if b in p.free then 1 else 0) + (if b in p.ring then 1 else 0) + (if b in p.hands then 1 else 0)
  }

  // Each allocated buffer is in exactly one place.
  ghost predicate Conserved(p: Pool) {
    && Distinct(p.free) && |p.free| + |p.ring| + |p.hands| == p.made
    && forall b: nat :: Places(p, b) == if b < p.made then 1 else 0
  }

  function Taken(p: Pool): Pool
    requires p.free != []
  {
    p.(free := p.free[1..], hands := p.hands + {p.free[0]})
  }

  function Made(p: Pool): Pool { p.(hands := p.hands + {p.made}, made := p.made + 1) }
  function PutBack(p: Pool, b: nat): Pool { p.(free := p.free + [b], hands := p.hands - {b}) }
  function Queued(p: Pool, b: nat): Pool { p.(ring := p.ring + {b}, hands := p.hands - {b}) }
  function Used(p: Pool, b: nat): Pool { p.(free := p.free + [b], ring := p.ring - {b}) }

  lemma TakenConserved(p: Pool)
    requires Conserved(p) && p.free != []
    ensures Conserved(Taken(p)) && p.free[0] !in p.hands && p.free[0] !in p.ring
  {
    var b := p.free[0];
    assert Places(p, b) <= 1;
    assert forall x :: x in p.free <==> x == b || x in p.free[1..];
    forall x: nat ensures Places(Taken(p), x) == if x < p.made then 1 else 0 {
      assert Places(p, x) == if x < p.made then 1 else 0;
    }
  }

  lemma MadeConserved(p: Pool)
    requires Conserved(p)
    ensures Conserved(Made(p)) && p.made !in p.hands && p.made !in p.ring
  {
    assert Places(p, p.made) == 0;
    forall x: nat ensures Places(Made(p), x) == if x < p.made + 1 then 1 else 0 {
      assert Places(p, x) == if x < p.made then 1 else 0;
    }
  }

  lemma PutBackConserved(p: Pool, b: nat)
    requires Conserved(p) && b in p.hands
    ensures Conserved(PutBack(p, b))
  {
    assert Places(p, b) <= 1;
    forall x: nat ensures Places(PutBack(p, b), x) == if x < p.made then 1 else 0 {
      assert Places(p, x) == if x < p.made then 1 else 0;
    }
  }

  lemma QueuedConserved(p: Pool, b: nat)
    requires Conserved(p) && b in p.hands
    ensures Conserved(Queued(p, b)) && |p.ring| < p.made
  {
    assert Places(p, b) <= 1;
    forall x: nat ensures Places(Queued(p, b), x) == if x < p.made then 1 else 0 {
      assert Places(p, x) == if x < p.made then 1 else 0;
    }
  }

  lemma UsedConserved(p: Pool, b: nat)
    requires Conserved(p) && b in p.ring
    ensures Conserved(Used(p, b))
  {
    assert Places(p, b) <= 1;
    forall x: nat ensures Places(Used(p, b), x) == if x < p.made then 1 else 0 {
      assert Places(p, x) == if x < p.made then 1 else 0;
    }
  }

  // The pool after the device has used these buffers, in order.
  function AllUsed(p: Pool, used: seq<nat>): Pool {
    if used == [] then p else Used(AllUsed(p, used[..|used| - 1]), used[|used| - 1])
  }

  class TxPool {
    const maxCnt: nat // msg_buf_max_cnt, the size of the tx ring
    var state: DeviceState
    var free: seq<nat>
    var freeCnt: nat
    var bufCnt: nat
    var ring: set<nat>
    ghost var hands: set<nat>

    ghost function Value(): Pool
      reads this
    {
      Pool(free, ring, hands, bufCnt)
    }

    ghost predicate Valid()
      reads this
    {
      Conserved(Value()) && freeCnt == |free| && bufCnt <= maxCnt
    }

    constructor (maxCnt: nat)
      ensures Valid() && this.maxCnt == maxCnt && state == Offline && Value() == Pool([], {}, {}, 0)
    {
      this.maxCnt, state, free, freeCnt, bufCnt, ring := maxCnt, Offline, [], 0, 0, {};
      hands := {};
    }

    /** _get_txbuf_locked: an online device hands out the oldest free buffer, or a new one; it says try again
        exactly when all maxCnt buffers are queued or in callers' hands. */
    method GetTxbuf(alloc: bool) returns (r: Result)
      requires Valid()
      modifies `free, `freeCnt, `bufCnt, `hands
      ensures Valid() && (r.Err? ==> unchanged(this))
      ensures r == Err(ENODEV) <==> state != Online
      ensures r == Err(EAGAIN) <==> state == Online && |ring| + |old(hands)| == maxCnt
      ensures r == Err(ENOMEM) ==> state == Online && free == [] && !alloc
      ensures r.Ok? ==> r.buf !in old(hands) && r.buf !in ring && hands == old(hands) + {r.buf}
      ensures r.Ok? && old(free) != [] ==> r.buf == old(free)[0] && free == old(free)[1..] && bufCnt == old(bufCnt)
      ensures r.Ok? && old(free) != [] ==> Value() == Taken(old(Value()))
      ensures r.Ok? && old(free) == [] ==> free == [] && bufCnt == old(bufCnt) + 1 && Value() == Made(old(Value()))
    {
      if state != Online { return Err(ENODEV); }
      var b;
      if freeCnt > 0 {
        TakenConserved(Value());
        hide Conserved;
        b := free[0];
        free, freeCnt := free[1..], freeCnt - 1;
      } else {
        if bufCnt >= maxCnt { return Err(EAGAIN); }
        if !alloc { return Err(ENOMEM); }
        MadeConserved(Value());
        hide Conserved;
        b := bufCnt;
        bufCnt := bufCnt + 1;
      }
      hands := hands + {b};
      return Ok(b);
    }

    /** _put_txbuf_locked. */
    method PutTxbuf(b: nat) returns (wake: bool)
      requires Valid() && b in hands
      modifies `free, `freeCnt, `hands
      ensures Valid() && Value() == PutBack(old(Value()), b) && hands == old(hands) - {b} && free == old(free) + [b]
      ensures wake <==> old(free) == []
    {
      PutBackConserved(Value(), b);
      hide Conserved;
      free, freeCnt, hands := free + [b], freeCnt + 1, hands - {b};
      wake := freeCnt - 1 == 0;
    }

    // virtqueue_add_outbuf: one descriptor per buffer.
    method AddOutbuf(b: nat) returns (err: Error)
      modifies `ring
      ensures err == (if |old(ring)| >= maxCnt then ENOSPC else OK)
      ensures ring == if err == OK then old(ring) + {b} else old(ring)
    {
      if |ring| >= maxCnt { return ENOSPC; }
      ring := ring + {b};
      return OK;
    }

    /** vds_queue_txbuf: it fails exactly when the device is not online; the tx ring is never full. */
    method QueueTxbuf(b: nat) returns (err: Error)
      requires Valid() && b in hands
      modifies `ring, `hands
      ensures Valid() && err == (if state == Online then OK else ENODEV)
      ensures err == OK ==> Value() == Queued(old(Value()), b) && ring == old(ring) + {b} && hands == old(hands) - {b}
      ensures err != OK ==> unchanged(this)
    {
      if state != Online { return ENODEV; }
      QueuedConserved(Value(), b);
      hide Conserved;
      err := AddOutbuf(b);
      hands := hands - {b};
    }

    /** _txvq_cb: all buffers the device has used go back to the free list in order, and waiting senders are
        woken exactly if it was empty and no longer is. */
    method TxvqCb(used: seq<nat>) returns (wake: bool)
      requires Valid() && Distinct(used) && forall b :: b in used ==> b in ring
      modifies `free, `freeCnt, `ring
      ensures Valid() && Value() == AllUsed(old(Value()), used) && free == old(free) + used
      ensures forall b :: b in ring <==> b in old(ring) && b !in used
      ensures wake <==> old(free) == [] && used != []
    {
      wake := false;
      var i := 0;
      while i < |used|
        invariant i <= |used| && Valid() && Value() == AllUsed(old(Value()), used[..i])
        invariant free == old(free) + used[..i]
        invariant forall b :: b in ring <==> b in old(ring) && b !in used[..i]
        invariant wake <==> old(free) == [] && i > 0
        invariant forall j :: i <= j < |used| ==> used[j] in ring
      {
        hide Conserved;
        var b := used[i];
        UsedConserved(Value(), b);
        assert used[..i + 1][..i] == used[..i] && used[..i + 1] == used[..i] + [b];
        ring, free, freeCnt := ring - {b}, free + [b], freeCnt + 1;
        wake := wake || freeCnt - 1 == 0;
        i := i + 1;
      }
      assert used[..i] == used;
    }

    // _go_online, _go_offline and removal
    method SetState(s: DeviceState)
      requires Valid()
      modifies `state
      ensures Valid() && state == s
    {
      state := s;
    }
  }
}
