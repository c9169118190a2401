/** Descriptors as callers fill them in, and what a request for one does, in the descriptor's own terms. */
module Pl330Desc {
  import opened Arith
  import opened Common
  import opened Pl330Isa
  import opened Pl330Microcode
  import opened Pl330Ccr
  import opened Pl330Queue
  import opened Pl330Correct
  import opened Pl330Memcpy

  // The compiled form of a descriptor on a DMAC whose manager runs non-secure or not.
  function XferOf(d: Desc, ns: bool): Xfer {
    Xfer(PrepareCcr(d.cfg.(nonsecure := ns)), d.dir, d.peri, d.src, d.dst, d.bytes)
  }

  // Beats of a burst; the four bits of a length of 0 stand for 16.
  function Beats(c: ReqCfg): (n: nat)
    ensures 1 <= n <= 16
  {
    if c.burstLen % 16 == 0 then 16 else c.burstLen % 16
  }

  // The bytes of the whole beats.
  function WholeBytes(d: Desc): nat { Div(d.bytes, Pow2(d.cfg.burstSize)) * Pow2(d.cfg.burstSize) }

  // What callers guarantee of a descriptor: the transfer stays inside memory and the 4 GiB
  // windows, or the device has the bytes, and bursts fit the channel's MFIFO.
  predicate Runnable(hw: Hw, d: Desc, m: Machine) {
    var n, s, t := WholeBytes(d), hw.srcWindow + d.src % TWO32, hw.dstWindow + d.dst % TWO32;
    && d.cfg.Valid() && d.peri < 32 && Beats(d.cfg) * Pow2(d.cfg.burstSize) <= hw.mfifo
    && (if d.cfg.srcInc then d.src % TWO32 + n <= TWO32 && s + n <= |m.mem| else n <= |m.input|)
    && (d.cfg.dstInc ==> d.dst % TWO32 + n <= TWO32 && t + n <= |m.mem|)
    && (d.cfg.srcInc && d.cfg.dstInc ==> t <= s || s + n <= t)
  }

  // From m to m' the whole beats of d went from its source to its destination.
  ghost predicate Carried(hw: Hw, m: Machine, d: Desc, m': Machine) {
    var n, s, t := WholeBytes(d), hw.srcWindow + d.src % TWO32, hw.dstWindow + d.dst % TWO32;
    && n <= d.bytes < n + Pow2(d.cfg.burstSize)
    && (d.cfg.srcInc ==> s + n <= |m.mem| && m'.input == m.input)
    && (!d.cfg.srcInc ==> n <= |m.input| && m'.input == m.input[n..])
    && (d.cfg.dstInc ==> t + n <= |m.mem| && m'.output == m.output)
    && (d.cfg.dstInc ==> m'.mem == Patch(m.mem, t, if d.cfg.srcInc then m.mem[s..s + n] else m.input[..n]))
    && (!d.cfg.dstInc ==> m'.mem == m.mem)
    && (!d.cfg.dstInc ==> m'.output == m.output + if d.cfg.srcInc then m.mem[s..s + n] else m.input[..n])
  }

  // What it does on the buses meanwhile.
  function Traffic(dmac: Dmac, d: Desc): seq<Act> {
    var beats, len := Div(d.bytes, Pow2(d.cfg.burstSize)), Beats(d.cfg);
    Times(Round(dmac, d.dir, d.peri, if dmac.periphBurst || len > 1 then Burst else Single), Div(beats, len))
    + if beats % len == 0 then [] else Round(dmac, d.dir, d.peri, Burst)
  }

  lemma CcrOf(d: Desc, ns: bool)
    requires d.cfg.Valid()
    ensures var ccr := XferOf(d, ns).ccr;
      && ccr < TWO32 && Symmetric(ccr) && SrcBeats(ccr) == Beats(d.cfg) && SrcBeatSize(ccr) == Pow2(d.cfg.burstSize)
      && SrcInc(ccr) == d.cfg.srcInc && DstInc(ccr) == d.cfg.dstInc
      && BurstLen(ccr) == Beats(d.cfg) * Pow2(d.cfg.burstSize) && Total(XferOf(d, ns)) == WholeBytes(d)
  {
    PrepareCcrFields(d.cfg.(nonsecure := ns));
    hide PrepareCcr, Pow2, SrcInc, DstInc, SrcBeats, SrcBeatSize, Symmetric;
  }

  /** A request runs with the security of the DMAC's manager, whatever its descriptor says, and with the other
      protection, cache and swap settings of its descriptor. */
  lemma DescAttributes(d: Desc, ns: bool)
    requires d.cfg.Valid()
    ensures var v := XferOf(d, ns).ccr;
      && Field(v, 0x200, 2) == Field(v, 0x80_0000, 2) == Bit(ns)
      && Field(v, 0x100, 2) == Field(v, 0x40_0000, 2) == Bit(d.cfg.privileged)
      && Field(v, 0x400, 2) == Field(v, 0x100_0000, 2) == Bit(d.cfg.insnaccess)
      && Field(v, 0x800, 8) == d.cfg.scctl && Field(v, 0x200_0000, 8) == d.cfg.dcctl
      && Field(v, 0x1000_0000, 8) == d.cfg.swap
  {
    PrepareCcrAttributes(d.cfg.(nonsecure := ns));
    hide PrepareCcr, Field;
  }

  lemma RunnableAcceptable(hw: Hw, d: Desc, ns: bool, m: Machine)
    requires Runnable(hw, d, m)
    ensures Acceptable(hw, XferOf(d, ns), m)
  {
    CcrOf(d, ns);
    hide PrepareCcr, Pow2, SrcInc, DstInc, SrcBeats, SrcBeatSize, Symmetric, BurstLen, Total, WholeBytes, Beats;
  }

  lemma CarriedFrom(hw: Hw, d: Desc, ns: bool, m: Machine, m': Machine)
    requires d.cfg.Valid() && Moved(hw, m, XferOf(d, ns), m')
    ensures Carried(hw, m, d, m')
  {
    CcrOf(d, ns);
    hide PrepareCcr, Pow2, SrcInc, DstInc, SrcBeats, SrcBeatSize, Symmetric, BurstLen, Total, WholeBytes, Beats, Patch;
  }

  lemma TrafficFrom(dmac: Dmac, d: Desc, ns: bool)
    requires d.cfg.Valid()
    ensures Activity(dmac, XferOf(d, ns)) == Traffic(dmac, d)
  {
    CcrOf(d, ns);
    hide PrepareCcr, Pow2, SrcInc, DstInc, SrcBeats, SrcBeatSize, Symmetric, BurstLen, Total, WholeBytes, Beats, Times,
      Round;
  }

  // ----- copies -----

  // Bytes of memory from a 36-bit address on.
  function At(mem: seq<Byte>, addr: nat, n: nat): seq<Byte>
    requires addr + n <= |mem|
  {
    mem[addr..addr + n]
  }

  /** The wrapper's four bits select the window of a 36-bit address: window and offset are the address. */
  lemma WindowExact(addr: nat)
    ensures High(addr) < 16 && (addr < 0x10_0000_0000 <==> High(addr) * TWO32 + addr % TWO32 == addr)
  {
  }

  /** A prepared copy, run with the wrappers that its submission writes, copies all its bytes between the very
      addresses of the descriptor, and changes nothing else. */
  lemma CopyCarried(hw: Hw, p: Config, d: Desc, m: Machine, m': Machine)
    requires p.Valid() && CopyCfg(p, d.src, d.dst, d.bytes, d.cfg) && Carried(hw, m, d, m')
    requires hw.srcWindow == High(d.src) * TWO32 && hw.dstWindow == High(d.dst) * TWO32
    requires d.src < 0x10_0000_0000 && d.dst < 0x10_0000_0000
    ensures d.src + d.bytes <= |m.mem| && d.dst + d.bytes <= |m.mem|
    ensures m'.mem == Patch(m.mem, d.dst, At(m.mem, d.src, d.bytes)) && m'.input == m.input && m'.output == m.output
  {
    WindowExact(d.src);
    WindowExact(d.dst);
    WholeLength(d.bytes, Pow2(d.cfg.burstSize));
    hide Pow2, High, Patch;
  }
}
