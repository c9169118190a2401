/** pl330_prep_dma_memcpy: choosing the burst for a copy, and what the copy then does end to end. */
module Pl330Memcpy {
  import opened Arith
  import opened Common
  import opened Pl330Isa
  import opened Pl330Microcode
  import opened Pl330Ccr
  import opened Pl330Correct

  // struct pl330_config: the bus is 2^width bytes wide, the MFIFO has `depth` lines.
  datatype Config = Config(width: nat, depth: nat, channels: nat) {
    predicate Valid() { width < 8 && 1 <= depth <= 1024 && 1 <= channels <= 8 }
    // Bytes of MFIFO for one channel when all channels share it evenly.
    function Share(): nat requires channels >= 1 { Pow2(width) * Div(depth, channels) }
  }

  predicate Divides(b: nat, v: nat)
    requires b >= 1
  {
    v % b == 0
  }

  predicate Aligned(b: nat, src: nat, dst: nat, len: nat)
    requires b >= 1
  {
    Divides(b, src) && Divides(b, dst) && Divides(b, len)
  }

  lemma {:induction false} Pow2Grows(a: nat, b: nat)
    requires a <= b
    ensures Pow2(a) <= Pow2(b)
    ensures a < b ==> Pow2(a) < Pow2(b)
  {
    if a < b {
      Pow2Grows(a, b - 1);
    }
  }

  // What the burst configuration of a copy looks like.
  ghost predicate CopyCfg(p: Config, src: nat, dst: nat, len: nat, c: ReqCfg)
    requires p.Valid()
  {
    var b := Pow2(c.burstSize);
    && c.srcInc && c.dstInc && c.burstSize <= p.width
    && Aligned(b, src, dst, len)
    && (forall e :: c.burstSize < e <= p.width ==> !Aligned(Pow2(e), src, dst, len))
    && c.burstLen == if c.burstSize < p.width then 1 else Min(16, Div(p.depth, p.channels))
  }

  // Halves the bus width until source, destination and length are all aligned to it.
  method WidestBeat(width: nat, src: nat, dst: nat, len: nat) returns (burst: nat, ghost e: nat)
    ensures e <= width && burst == Pow2(e) && Aligned(burst, src, dst, len)
    ensures forall k :: e < k <= width ==> !Aligned(Pow2(k), src, dst, len)
  {
    burst, e := Pow2(width), width;
    while !(src % burst == 0 && dst % burst == 0 && len % burst == 0)
      invariant e <= width && burst == Pow2(e)
      invariant forall k :: e < k <= width ==> !Aligned(Pow2(k), src, dst, len)
      decreases e
    {
      assert !Aligned(Pow2(e), src, dst, len);
      assert e != 0;
      assert Pow2(e) == 2 * Pow2(e - 1);
      burst, e := burst / 2, e - 1;
    }
  }

  method Exponent(burst: nat, ghost e: nat) returns (size: nat)
    requires burst == Pow2(e)
    ensures size == e
  {
    size := 0;
    while burst != Pow2(size)
      invariant size <= e
      decreases e - size
    {
      size := size + 1;
    }
    if size < e {
      Pow2Grows(size, e);
    }
  }

  /** The widest beat that source, destination and length are all aligned to, and as many beats as the
      channel's MFIFO share allows, but one only when the beat is narrower than the bus. */
  method PrepMemcpy(p: Config, src: nat, dst: nat, len: nat, base: ReqCfg) returns (c: ReqCfg)
    requires p.Valid()
    ensures c == base.(srcInc := true, dstInc := true, burstLen := c.burstLen, burstSize := c.burstSize)
    ensures CopyCfg(p, src, dst, len, c)
  {
    var burst, e := WidestBeat(p.width, src, dst, len);
    var size := Exponent(burst, e);
    var burstLen := GetBurstLen(p, size);
    if burst * 8 < Pow2(p.width) * 8 {
      burstLen := 1;
    }
    Pow2Grows(size, p.width);
    WholeBeats(Div(p.depth, p.channels), Pow2(p.width));
    hide Pow2, Aligned;
    c := base.(srcInc := true, dstInc := true, burstSize := size, burstLen := burstLen);
  }

  lemma WholeBeats(k: nat, b: nat)
    requires b >= 1
    ensures Div(b * k, b) == k
  {
    DivExact(k, b, 0);
    assert k * b + 0 == b * k;
  }

  function GetBurstLen(p: Config, size: nat): nat
    requires p.Valid()
  {
    Min(Div(p.Share(), Pow2(size)), 16)
  }

  /** A copy's burst fits the channel's share of the MFIFO exactly when the MFIFO has a line per channel:
      otherwise the share is empty and a computed length of 0 even stands for 16 beats. */
  lemma CopyBurstFits(p: Config, src: nat, dst: nat, len: nat, c: ReqCfg)
    requires p.Valid() && c.Valid() && CopyCfg(p, src, dst, len, c)
    ensures BurstLen(PrepareCcr(c)) <= p.Share() <==> p.channels <= p.depth
  {
    PrepareCcrFields(c);
    Pow2Grows(c.burstSize, p.width);
    hide PrepareCcr, Pow2, Aligned, Symmetric, Div;
    var l, q := SrcBeats(PrepareCcr(c)), Div(p.depth, p.channels);
    LinesPerChannel(p.depth, p.channels);
    ProductBound(l, Pow2(c.burstSize), q, Pow2(p.width));
  }

  lemma LinesPerChannel(depth: nat, channels: nat)
    requires channels >= 1
    ensures Div(depth, channels) >= 1 <==> channels <= depth
  {
  }

  lemma ProductBound(l: nat, b: nat, q: nat, w: nat)
    requires l >= 1 && 1 <= b <= w && (q >= 1 ==> l <= q)
    ensures l * b <= w * q <==> q >= 1
  {
    if q >= 1 {
      MulMono(l, q, b);
      MulMono(b, w, q);
      assert q * b == b * q;
    } else {
      MulMono(1, l, b);
    }
  }

  // Source and destination lie in memory and inside their 4 GiB windows, and forward
  // copying from one to the other is safe.
  predicate InMemory(hw: Hw, m: Machine, src: nat, dst: nat, len: nat) {
    var s, t := hw.srcWindow + src % TWO32, hw.dstWindow + dst % TWO32;
    && src % TWO32 + len <= TWO32 && s + len <= |m.mem|
    && dst % TWO32 + len <= TWO32 && t + len <= |m.mem|
    && (t <= s || s + len <= t)
  }

  /** End to end: a prepared, compiled and interpreted copy leaves the destination equal to the old source,
      byte for byte and for its whole length, and changes nothing else in memory. */
  lemma MemcpyCorrect(hw: Hw, code: seq<Byte>, m: Machine, d: Dmac, p: Config, c: ReqCfg, peri: nat, src: nat, dst: nat,
                      len: nat, ev: nat)
    returns (m': Machine)
    requires p.Valid() && c.Valid() && p.channels <= p.depth && hw.mfifo == p.Share()
    requires CopyCfg(p, src, dst, len, c)
    requires peri < 32 && ev < 32 && Ready(m)
    requires CodeAt(code, m.pc, ReqCode(d, Xfer(PrepareCcr(c), MemToMem, peri, src, dst, len), ev))
    requires InMemory(hw, m, src, dst, len)
    ensures var s, t := hw.srcWindow + src % TWO32, hw.dstWindow + dst % TWO32;
      && Reaches(hw, code, m, m') && m'.status == Stopped
      && (forall o :: Reaches(hw, code, m, o) && o.status != Running ==> o == m')
      && m'.mem == Patch(m.mem, t, m.mem[s..s + len])
      && m'.events == m.events + [Event(ev, m'.mem, m.output)]
  {
    var x := Xfer(PrepareCcr(c), MemToMem, peri, src, dst, len);
    CopyAcceptable(hw, m, p, c, peri, src, dst, len);
    hide PrepareCcr, SrcInc, DstInc, SrcBeatSize, Total, Reaches, ReqCode, CopyCfg, Patch, Acceptable, InMemory, CodeAt,
      Activity, Ready, Moved;
    m' := CompilerCorrect(hw, code, m, d, x, ev);
    CopyMoved(hw, m, x, m');
  }

  lemma CopyMoved(hw: Hw, m: Machine, x: Xfer, m': Machine)
    requires Moved(hw, m, x, m') && SrcInc(x.ccr) && DstInc(x.ccr) && Total(x) == x.bytes
    ensures var s, t := hw.srcWindow + x.src % TWO32, hw.dstWindow + x.dst % TWO32;
      && s + x.bytes <= |m.mem| && t + x.bytes <= |m.mem| && m'.output == m.output
      && m'.mem == Patch(m.mem, t, m.mem[s..s + x.bytes])
  {
    hide SrcInc, DstInc, Total, SrcBeatSize, Patch;
  }

  lemma CopyAcceptable(hw: Hw, m: Machine, p: Config, c: ReqCfg, peri: nat, src: nat, dst: nat, len: nat)
    requires p.Valid() && c.Valid() && p.channels <= p.depth && hw.mfifo == p.Share()
    requires CopyCfg(p, src, dst, len, c) && peri < 32
    requires InMemory(hw, m, src, dst, len)
    ensures var x := Xfer(PrepareCcr(c), MemToMem, peri, src, dst, len);
      Acceptable(hw, x, m) && Total(x) == len && SrcInc(x.ccr) && DstInc(x.ccr)
  {
    PrepareCcrFields(c);
    CopyBurstFits(p, src, dst, len, c);
    WholeLength(len, Pow2(c.burstSize));
    hide PrepareCcr, Pow2, SrcInc, DstInc, SrcBeatSize, Symmetric, BurstLen, Aligned;
  }

  lemma WholeLength(len: nat, b: nat)
    requires b >= 1 && Divides(b, len)
    ensures Div(len, b) * b == len
  {
  }
}
