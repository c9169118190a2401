/** How long the microcode of a request gets, and which requests fit their buffer. */
module Pl330Size {
  import opened Arith
  import opened Pl330Isa
  import opened Pl330Microcode

  // The largest segment the driver advertises (dma_set_max_seg_size) and the default half-buffer.
  const MAX_SEGMENT := 1900800
  const MCODE_BUFF_PER_REQ := 512

  lemma NestSize(burst: seq<Byte>, nest: Nest)
    ensures |NestCode(burst, nest)| == |burst| * nest.unroll + (if nest.outer == 0 then 4 else 8)
  {
    RepeatLength(burst, nest.unroll);
  }

  lemma LoopsUnfold(burst: seq<Byte>, n: nat)
    requires 2 <= |burst| <= 6 && n >= 2
    ensures var p := Plan(n, |burst|);
      && p.Count() <= n
      && |LoopsCode(burst, n)|
         == |burst| * p.unroll + (if p.outer == 0 then 4 else 8) + |LoopsCode(burst, n - p.Count())|
  {
    hide Plan, NestCode;
    LoopConsumes(burst, n);
    NestSize(burst, Plan(n, |burst|));
  }

  lemma UnrollRoom(sz: nat)
    requires 2 <= sz <= 6
    ensures (255 - 8) / sz >= 41 && (255 - 4) / sz >= 41
  {
    if sz == 2 {} else if sz == 3 {} else if sz == 4 {} else if sz == 5 {} else {}
  }

  lemma SmallLoops(burst: seq<Byte>, n: nat)
    requires 2 <= |burst| <= 6 && n <= 256
    ensures |LoopsCode(burst, n)| == if n == 0 then 0 else if n == 1 then |burst| else 4 + |burst|
  {
    if n == 1 {
      assert LoopsCode(burst, 0) == [];
    } else if n > 1 {
      UnrollRoom(|burst|);
      LoopsUnfold(burst, n);
      assert Plan(n, |burst|) == Nest(0, n, 1);
    }
  }

  lemma MediumPlan(n: nat, sz: nat)
    requires 2 <= sz <= 6 && 256 < n < 256 * 256
    ensures Plan(n, sz) == Nest(n / 256, 256, 1) && n - Plan(n, sz).Count() == n % 256
  {
    UnrollRoom(sz);
  }

  lemma LargePlan(n: nat, sz: nat)
    requires 2 <= sz <= 6 && 256 * 256 <= n && n / 0x1_0000 <= 41
    ensures Plan(n, sz) == Nest(256, 256, n / 0x1_0000) && n - Plan(n, sz).Count() == n % 0x1_0000
  {
    UnrollRoom(sz);
    assert n / 256 / 256 == n / 0x1_0000;
  }

  lemma MediumLoops(burst: seq<Byte>, n: nat)
    requires 2 <= |burst| <= 6 && n < 256 * 256
    ensures n > 256 ==> |LoopsCode(burst, n)| == 8 + |burst| + |LoopsCode(burst, n % 256)|
    ensures |LoopsCode(burst, n)| <= 12 + 2 * |burst|
  {
    hide LoopsCode, Plan;
    if n > 256 {
      LoopsUnfold(burst, n);
      MediumPlan(n, |burst|);
      SmallLoops(burst, n % 256);
    } else {
      SmallLoops(burst, n);
    }
  }

  // While the unrolled body fits one jump, one nest covers all whole 64K bursts.
  lemma LargeLoops(burst: seq<Byte>, n: nat)
    requires 2 <= |burst| <= 6 && 256 * 256 <= n && n / 0x1_0000 <= 41
    ensures |LoopsCode(burst, n)| == 8 + |burst| * (n / 0x1_0000) + |LoopsCode(burst, n % 0x1_0000)|
  {
    hide LoopsCode, Plan;
    LoopsUnfold(burst, n);
    LargePlan(n, |burst|);
  }

  lemma ReqSize(d: Dmac, x: Xfer, ev: nat)
    ensures 2 <= |BurstCode(d, x)| <= 6 && BurstBytes(x) <= x.bytes
    ensures |ReqCode(d, x, ev)| == 21 + |LoopsCode(BurstCode(d, x), Bursts(x))| + |DregsCode(d, x, Dregs(x))|
    ensures |DregsCode(d, x, Dregs(x))| <= 12
  {
    BurstSize(d, x);
    BurstsAndDregs(x);
    TransferSize(d, x, Burst);
    hide BurstCode, Bursts, Dregs, BurstBytes, LoopsCode, TransferCode;
  }

  lemma LoopsBound(burst: seq<Byte>, n: nat)
    requires 2 <= |burst| <= 6 && n <= MAX_SEGMENT
    ensures |LoopsCode(burst, n)| <= 20 + 31 * |burst|
  {
    if n >= 256 * 256 {
      LargeLoops(burst, n);
      MediumLoops(burst, n % 0x1_0000);
      var q := n / 0x1_0000;
      assert q <= 29;
      MulMono(q, 29, |burst|);
    } else {
      MediumLoops(burst, n);
    }
  }

  /** Any request of at most MAX_SEGMENT bursts compiles to at most 256 bytes, in any direction and on any
      hardware revision, so it is within the limit at submission. */
  lemma BurstsFit(d: Dmac, x: Xfer, ev: nat)
    requires Bursts(x) <= MAX_SEGMENT
    ensures |ReqCode(d, x, ev)| <= 256 < MCODE_BUFF_PER_REQ
  {
    ReqSize(d, x, ev);
    LoopsBound(BurstCode(d, x), Bursts(x));
  }

  /** In particular every segment of at most the advertised size, whatever its bursts. */
  lemma SegmentsFit(d: Dmac, x: Xfer, ev: nat)
    requires x.bytes <= MAX_SEGMENT
    ensures |ReqCode(d, x, ev)| <= 256 < MCODE_BUFF_PER_REQ
  {
    BurstsAtMostBytes(x);
    BurstsFit(d, x, ev);
  }

  lemma DivAtMost(a: nat, b: nat)
    requires b >= 1
    ensures Div(a, b) <= a
  {
    if Div(a, b) > a { MulMono(1, b, Div(a, b)); }
  }

  lemma BurstsAtMostBytes(x: Xfer)
    ensures Bursts(x) <= x.bytes
  {
    DivAtMost(x.bytes, SrcBeatSize(x.ccr));
    DivAtMost(Div(x.bytes, SrcBeatSize(x.ccr)), SrcBeats(x.ccr));
  }

  /** The driver's comment promises 2.5 MiB per request at one byte per burst in 256 bytes of code for
      transfers to and from devices. That holds exactly when no DMAFLUSHP is emitted: a flushed
      memory-to-device burst takes 6 bytes and the request 269. */
  lemma DeviceMegabytes(d: Dmac, x: Xfer, ev: nat)
    requires x.dir != MemToMem && SrcBeats(x.ccr) == 1 && SrcBeatSize(x.ccr) == 1 && x.bytes == 2621440
    ensures |ReqCode(d, x, ev)| <= 256 <==> !(x.dir == MemToDev && !d.noFlushp)
  {
    ReqSize(d, x, ev);
    assert Bursts(x) == x.bytes && Dregs(x) == 0;
    TransferSize(d, x, BurstCond(d, x));
    var burst := BurstCode(d, x);
    hide LoopsCode, ReqCode, Bursts, Dregs, TransferCode;
    LargeLoops(burst, 2621440);
    SmallLoops(burst, 0);
    assert |LoopsCode(burst, 2621440)| == 8 + 40 * |burst|;
  }
}
