/** A channel thread as an object: its slots, and the half-buffers of the shared microcode buffer it writes. */
module Pl330Thread {
  import opened Arith
  import opened Common
  import opened Pl330Isa
  import opened Pl330Microcode
  import opened Pl330Ccr
  import opened Pl330Queue
  import opened Pl330Correct
  import opened Pl330Shared
  import opened Pl330Desc

  // Offset of a slot's half-buffer: _reset_thread.
  function HalfBuffer(id: nat, slot: nat, mcbufsz: nat): nat {
    id * mcbufsz + (if slot == 0 then 0 else mcbufsz / 2)
  }

  /** The half-buffers of all channels and slots lie inside the buffer and are pairwise disjoint. */
  lemma HalfBuffersDisjoint(i: nat, a: nat, j: nat, b: nat, mcbufsz: nat, channels: nat)
    requires i < channels && j < channels && a < 2 && b < 2
    ensures HalfBuffer(i, a, mcbufsz) + mcbufsz / 2 <= channels * mcbufsz
    ensures (i, a) != (j, b) ==>
      || HalfBuffer(i, a, mcbufsz) + mcbufsz / 2 <= HalfBuffer(j, b, mcbufsz)
      || HalfBuffer(j, b, mcbufsz) + mcbufsz / 2 <= HalfBuffer(i, a, mcbufsz)
  {
    InsideChannel(i, a, mcbufsz);
    InsideChannel(j, b, mcbufsz);
    MulMono(i + 1, channels, mcbufsz);
    if i < j {
      MulMono(i + 1, j, mcbufsz);
    } else if j < i {
      MulMono(j + 1, i, mcbufsz);
    }
    hide HalfBuffer;
  }

  lemma InsideChannel(i: nat, a: nat, mcbufsz: nat)
    requires a < 2
    ensures i * mcbufsz <= HalfBuffer(i, a, mcbufsz)
    ensures HalfBuffer(i, a, mcbufsz) + mcbufsz / 2 <= (i + 1) * mcbufsz
    ensures a == 0 ==> HalfBuffer(i, a, mcbufsz) + mcbufsz / 2 == HalfBuffer(i, 1, mcbufsz)
  {
    assert (i + 1) * mcbufsz == i * mcbufsz + mcbufsz;
  }

  datatype Error = OK | EAGAIN | EINVAL | ENOMEM

  class Thread {
    const id: nat
    const ev: nat
    const channels: nat
    const mcbufsz: nat
    const numPeri: nat
    const ns: bool
    const dmac: Dmac
    const mcode: array<Byte>
    var dying: bool
    var slots: Slots
    var arWrapper: nat
    var awWrapper: nat

    // Every queued request has its own code in its half-buffer.
    ghost predicate Valid()
      reads this, mcode
    {
      && slots.Valid() && id < channels && channels * mcbufsz <= mcode.Length
      && forall k :: 0 <= k < 2 && slots.req[k].Some? ==> HasCode(k, slots.req[k].value)
    }

    // The buffer changed from s to mcode by d's code, placed in the half-buffer of `slot`.
    ghost predicate Wrote(s: seq<Byte>, slot: nat, d: Desc)
      reads mcode
    {
      var at, code := HalfBuffer(id, slot, mcbufsz), ReqCode(dmac, XferOf(d, ns), ev);
      |code| <= mcbufsz / 2 && at + |code| <= |s| && mcode[..] == Patch(s, at, code)
    }

    ghost predicate HasCode(slot: nat, d: Desc)
      reads mcode
    {
      var code := ReqCode(dmac, XferOf(d, ns), ev);
      |code| <= mcbufsz / 2 && CodeAt(mcode[..], HalfBuffer(id, slot, mcbufsz), code)
    }

    constructor (id: nat, ev: nat, channels: nat, mcbufsz: nat, numPeri: nat, ns: bool, dmac: Dmac, mcode: array<Byte>)
      requires id < channels && channels * mcbufsz <= mcode.Length
      ensures Valid() && slots == INITIAL && !dying
      ensures this.id == id && this.ev == ev && this.channels == channels && this.mcbufsz == mcbufsz
      ensures this.numPeri == numPeri && this.ns == ns && this.dmac == dmac && this.mcode == mcode
    {
      this.id, this.ev, this.channels, this.mcbufsz, this.numPeri := id, ev, channels, mcbufsz, numPeri;
      this.ns, this.dmac, this.mcode := ns, dmac, mcode;
      dying, slots, arWrapper, awWrapper := false, INITIAL, 0, 0;
    }

    /** pl330_submit_req. A refused request changes nothing; an accepted one is queued last and its code is
        written into its own half-buffer only, so the code of the other slot and of all other channels stays. */
    method SubmitReq(d: Desc) returns (err: Error)
      requires Valid()
      modifies this, mcode
      ensures Valid() && dying == old(dying)
      ensures err == (if dying then EAGAIN
                      else if d.dir != MemToMem && d.peri >= numPeri then EINVAL
                      else if old(slots).Full() then EAGAIN
                      else if |ReqCode(dmac, XferOf(d, ns), ev)| > mcbufsz / 2 then ENOMEM
                      else OK)
      ensures err != OK ==> slots == old(slots) && mcode[..] == old(mcode[..])
      ensures err != OK ==> arWrapper == old(arWrapper) && awWrapper == old(awWrapper)
      ensures err == OK ==>
        && slots == old(slots).Submit(d)
        && Wrote(old(mcode[..]), slots.lstenq, d)
        && arWrapper == High(d.src) && awWrapper == High(d.dst)
    {
      hide ReqCode, Patch, HalfBuffer, PrepareCcr, CodeAt;
      if dying {
        return EAGAIN;
      }
      if d.dir != MemToMem && d.peri >= numPeri {
        return EINVAL;
      }
      if slots.Full() {
        return EAGAIN;
      }
      var x := XferOf(d, ns);
      var idx := slots.FreeSlot();
      var mc := HalfBuffer(id, idx, mcbufsz);
      HalfBuffersDisjoint(id, idx, id, 1 - idx, mcbufsz, channels);
      var size := SetupReq(dmac, true, mcode, mc, x, ev);
      if size > mcbufsz / 2 {
        return ENOMEM;
      }
      ghost var before := mcode[..];
      slots := slots.Submit(d);
      size := SetupReq(dmac, false, mcode, mc, x, ev);
      arWrapper, awWrapper := High(d.src), High(d.dst);
      err := OK;
      SlotsKeepCode(before, idx);
    }

    // Writing one half-buffer leaves both slots with their code.
    lemma SlotsKeepCode(before: seq<Byte>, idx: nat)
      requires slots.Valid() && id < channels && channels * mcbufsz <= mcode.Length == |before| && idx < 2
      requires slots.req[idx].Some? && Wrote(before, idx, slots.req[idx].value)
      requires var other := slots.req[1 - idx];
        other.Some? ==>
          var code := ReqCode(dmac, XferOf(other.value, ns), ev);
          |code| <= mcbufsz / 2 && CodeAt(before, HalfBuffer(id, 1 - idx, mcbufsz), code)
      ensures Valid()
    {
      hide ReqCode, Patch, HalfBuffer, PrepareCcr, CodeAt;
      HalfBuffersDisjoint(id, idx, id, 1 - idx, mcbufsz, channels);
      var mc, code := HalfBuffer(id, idx, mcbufsz), ReqCode(dmac, XferOf(slots.req[idx].value, ns), ev);
      PatchedCode(before, mc, code);
      if slots.req[1 - idx].Some? {
        OtherCode(before, mc, code, HalfBuffer(id, 1 - idx, mcbufsz),
                  ReqCode(dmac, XferOf(slots.req[1 - idx].value, ns), ev));
      }
    }

    /** _trigger on a stopped thread: starts the oldest queued request, whose code is what the hardware gets. */
    method Trigger() returns (go: Option<nat>)
      requires Valid()
      modifies this`slots
      ensures Valid() && go == old(slots).Next()
      ensures slots == (if go.None? then old(slots) else old(slots).(running := go.value))
      ensures go.Some? ==>
        go.value < 2 && old(slots).Queued() != [] && slots.req[go.value] == Some(old(slots).Queued()[0])
      ensures go.Some? ==> HasCode(go.value, old(slots).Queued()[0])
    {
      hide ReqCode, Patch;
      NextIsOldest(slots);
      var idx: int := 1 - slots.lstenq;
      if slots.req[idx].None? {
        idx := slots.lstenq;
        if slots.req[idx].None? {
          return None;
        }
      }
      slots := slots.(running := idx);
      go := Some(idx);
    }

    /** From submission to data: a queued request, executed from its half-buffer of the shared buffer, ends with
        the whole beats of its descriptor carried from its source to its destination, having waited for and
        acknowledged its peripheral and no other, whatever is written into other half-buffers while it
        executes. Until then its code is there because SubmitReq, Trigger and Update keep Valid. */
    lemma QueuedRequestRuns(hw: Hw, codes: nat -> seq<Byte>, m: Machine, slot: nat) returns (m': Machine)
      requires Valid() && ev < 32 && slot < 2 && slots.req[slot].Some? && codes(0) == mcode[..]
      requires OthersWrite(hw, codes, m, id, slot, mcbufsz, channels)
      requires Ready(m) && m.pc == HalfBuffer(id, slot, mcbufsz) && Runnable(hw, slots.req[slot].value, m)
      ensures Finishes(hw, codes, m, dmac, slots.req[slot].value, ev, m')
    {
      var d := slots.req[slot].value;
      assert HasCode(slot, d);
      RunnableAcceptable(hw, d, ns, m);
      assert d.cfg.Valid();
      hide ReqCode, Acceptable, PrepareCcr, HalfBuffer, OthersWrite, Runnable, XferOf;
      m' := OtherWritesHarmless(hw, codes, m, dmac, XferOf(d, ns), ev, mcbufsz, channels, id, slot);
      CarriedFrom(hw, d, ns, m, m');
      TrafficFrom(dmac, d, ns);
    }

    /** The event of this thread: the request in the running slot is detached and returned for its callback. */
    method Update() returns (done: Option<Desc>)
      requires Valid()
      modifies this`slots
      ensures Valid()
      ensures old(slots).running == -1 ==> done == None && slots == old(slots)
      ensures old(slots).running != -1 ==> done == old(slots).req[old(slots).running] && slots == old(slots).Release()
    {
      hide ReqCode, Patch;
      var active := slots.running;
      if active == -1 {
        return None;
      }
      done := slots.req[active];
      slots := slots.(req := slots.req[active := None]);
    }
  }

  lemma PatchedCode(s: seq<Byte>, at: nat, code: seq<Byte>)
    requires at + |code| <= |s|
    ensures CodeAt(Patch(s, at, code), at, code)
  {
  }

  lemma OtherCode(s: seq<Byte>, at: nat, code: seq<Byte>, other: nat, kept: seq<Byte>)
    requires at + |code| <= |s| && (at + |code| <= other || other + |kept| <= at)
    requires CodeAt(s, other, kept)
    ensures CodeAt(Patch(s, at, code), other, kept)
  {
    assert Patch(s, at, code)[other..other + |kept|] == s[other..other + |kept|];
  }

  // Execution from m ends, and only in m', in which the request for d is done.
  ghost predicate Finishes(hw: Hw, codes: nat -> seq<Byte>, m: Machine, dmac: Dmac, d: Desc, ev: nat, m': Machine) {
    && (exists n: nat :: StepsOver(hw, codes, m, 0, n) == m') && m'.status == Stopped
    && (forall n: nat :: StepsOver(hw, codes, m, 0, n).status != Running ==> StepsOver(hw, codes, m, 0, n) == m')
    && m'.events == m.events + [Event(ev, m'.mem, m'.output)]
    && Carried(hw, m, d, m') && m'.log == m.log + Traffic(dmac, d)
  }

  // A write of some bytes into half-buffer b of channel j.
  ghost predicate WritesIn(buf: seq<Byte>, buf': seq<Byte>, j: nat, b: nat, mcbufsz: nat, at: nat, data: seq<Byte>) {
    && HalfBuffer(j, b, mcbufsz) <= at && at + |data| <= HalfBuffer(j, b, mcbufsz) + mcbufsz / 2
    && at + |data| <= |buf| && buf' == Patch(buf, at, data)
  }

  // The buffer does not change, or some bytes of another half-buffer than a of channel i do.
  ghost predicate WritesOther(buf: seq<Byte>, buf': seq<Byte>, i: nat, a: nat, mcbufsz: nat, channels: nat) {
    || buf' == buf
    || exists j: nat, b: nat, at: nat, data: seq<Byte> ::
         j < channels && b < 2 && (i, a) != (j, b) && WritesIn(buf, buf', j, b, mcbufsz, at, data)
  }

  // All that happens to the buffer while the channel runs from m.
  ghost predicate OthersWrite(hw: Hw, codes: nat -> seq<Byte>, m: Machine, i: nat, a: nat, mcbufsz: nat,
                              channels: nat) {
    forall n: nat :: StepsOver(hw, codes, m, 0, n).status == Running ==>
      WritesOther(codes(n), codes(n + 1), i, a, mcbufsz, channels)
  }

  lemma OtherKeepsCode(buf: seq<Byte>, buf': seq<Byte>, i: nat, a: nat, mcbufsz: nat, channels: nat, code: seq<Byte>)
    requires i < channels && a < 2 && channels * mcbufsz <= |buf| && |code| <= mcbufsz / 2
    requires WritesOther(buf, buf', i, a, mcbufsz, channels) && CodeAt(buf, HalfBuffer(i, a, mcbufsz), code)
    ensures |buf'| == |buf| && CodeAt(buf', HalfBuffer(i, a, mcbufsz), code)
  {
    hide HalfBuffer, CodeAt, Patch;
    if buf' != buf {
      var j: nat, b: nat, at: nat, data: seq<Byte> :|
        j < channels && b < 2 && (i, a) != (j, b) && WritesIn(buf, buf', j, b, mcbufsz, at, data);
      HalfBuffersDisjoint(j, b, i, a, mcbufsz, channels);
      OtherCode(buf, at, data, HalfBuffer(i, a, mcbufsz), code);
    }
  }

  // The request's code stays while it executes.
  lemma {:induction false} CodeStays(hw: Hw, codes: nat -> seq<Byte>, m: Machine, i: nat, a: nat, mcbufsz: nat,
                                     channels: nat, code: seq<Byte>, n: nat)
    requires i < channels && a < 2 && channels * mcbufsz <= |codes(0)| && |code| <= mcbufsz / 2
    requires OthersWrite(hw, codes, m, i, a, mcbufsz, channels) && CodeAt(codes(0), HalfBuffer(i, a, mcbufsz), code)
    requires StepsOver(hw, codes, m, 0, n).status == Running
    ensures |codes(n)| == |codes(0)| && CodeAt(codes(n), HalfBuffer(i, a, mcbufsz), code)
  {
    hide HalfBuffer, CodeAt, WritesOther;
    if n > 0 {
      RunningBefore(hw, codes, m, 0, n - 1);
      CodeStays(hw, codes, m, i, a, mcbufsz, channels, code, n - 1);
      OtherKeepsCode(codes(n - 1), codes(n), i, a, mcbufsz, channels, code);
    }
  }

  /** Whatever is written into the other half-buffers, of this or another channel, before or during its
      execution, a request keeps its outcome. */
  lemma OtherWritesHarmless(hw: Hw, codes: nat -> seq<Byte>, m: Machine, d: Dmac, x: Xfer, ev: nat, mcbufsz: nat,
                            channels: nat, i: nat, a: nat) returns (m': Machine)
    requires i < channels && a < 2 && channels * mcbufsz <= |codes(0)|
    requires |ReqCode(d, x, ev)| <= mcbufsz / 2 && OthersWrite(hw, codes, m, i, a, mcbufsz, channels)
    requires Ready(m) && ev < 32 && m.pc == HalfBuffer(i, a, mcbufsz) && Acceptable(hw, x, m)
    requires CodeAt(codes(0), m.pc, ReqCode(d, x, ev))
    ensures OutcomeOver(hw, codes, m, d, x, ev, m')
  {
    hide ReqCode, Acceptable, OutcomeOver, HalfBuffer, CodeAt, OthersWrite;
    forall n: nat | StepsOver(hw, codes, m, 0, n).status == Running
      ensures CodeAt(codes(0 + n), m.pc, ReqCode(d, x, ev))
    {
      CodeStays(hw, codes, m, i, a, mcbufsz, channels, ReqCode(d, x, ev), n);
    }
    m' := SharedCorrect(hw, codes, m, d, x, ev);
  }
}
