/**
Correctness of the microcode generator: interpreting the bytes of a request moves
exactly the whole beats of the transfer, raises the channel's event once with the
data in place, and stops.
*/
module Pl330Correct {
  import opened Arith
  import opened Common
  import opened Pl330Isa
  import opened Pl330Microcode
  import opened Pl330Ccr

  // ----- moving bytes -----

  predicate CanMove(hw: Hw, m: Machine, n: nat) {
    && (if SrcInc(m.ccr) then m.sar + n <= TWO32 && hw.srcWindow + m.sar + n <= |m.mem| else n <= |m.input|)
    && (DstInc(m.ccr) ==> m.dar + n <= TWO32 && hw.dstWindow + m.dar + n <= |m.mem|)
  }

  function Source(hw: Hw, m: Machine, n: nat): (r: seq<Byte>)
    requires CanMove(hw, m, n)
    ensures |r| == n
  {
    if SrcInc(m.ccr) then m.mem[hw.srcWindow + m.sar..hw.srcWindow + m.sar + n] else m.input[..n]
  }

  // The machine after n bytes went from source to destination as one unit.
  function Move(hw: Hw, m: Machine, n: nat): Machine {
    if !CanMove(hw, m, n) then Fault(m)
    else
      var data := Source(hw, m, n);
      var m1 := if SrcInc(m.ccr) then m.(sar := m.sar + n) else m.(input := m.input[n..]);
      if DstInc(m.ccr) then m1.(mem := Patch(m.mem, hw.dstWindow + m.dar, data), dar := m.dar + n)
      else m1.(output := m.output + data)
  }

  // What one burst does on the buses: a device is waited for, and its request acknowledged
  // by the load from it or renewed after the store to it.
  function Round(d: Dmac, dir: Direction, peri: nat, cond: Cond): seq<Act> {
    match dir
    case MemToMem =>
      if d.lockupFree then [Reads(None), Writes(None)] else [Reads(None), ReadBarrier, Writes(None), WriteBarrier]
    case DevToMem => [Waits(cond, peri), Reads(Some(peri)), Writes(None)]
    case MemToDev => [Waits(cond, peri), Reads(None), Writes(None)] + if d.noFlushp then [] else [Flushes(peri)]
  }

  function Acts(d: Dmac, x: Xfer, cond: Cond): seq<Act> { Round(d, x.dir, x.peri, cond) }

  // One transfer of n bytes, with these acts.
  function One(hw: Hw, m: Machine, acts: seq<Act>, n: nat): Machine {
    var m' := Move(hw, m, n);
    m'.(log := m.log + acts, request := if acts != [] && acts[0].Waits? then acts[0].cond else m.request)
  }

  function Many(hw: Hw, m: Machine, acts: seq<Act>, n: nat, k: nat): Machine
    decreases k
  {
    if k == 0 then m else One(hw, Many(hw, m, acts, n, k - 1), acts, n)
  }

  predicate Ready(m: Machine) { m.status == Running && m.fifo == [] }

  // Control fields take no part in moving bytes.
  function Ctl(m: Machine, pc: nat, lc0: nat, lc1: nat): Machine {
    m.(pc := pc, lc0 := lc0, lc1 := lc1)
  }

  lemma OneCtl(hw: Hw, m: Machine, acts: seq<Act>, n: nat, pc: nat, lc0: nat, lc1: nat)
    ensures One(hw, Ctl(m, pc, lc0, lc1), acts, n) == Ctl(One(hw, m, acts, n), pc, lc0, lc1)
  {
    assert CanMove(hw, Ctl(m, pc, lc0, lc1), n) == CanMove(hw, m, n) by { hide SrcInc, DstInc; }
    hide SrcInc, DstInc, Patch, CanMove;
    if CanMove(hw, m, n) { assert Source(hw, Ctl(m, pc, lc0, lc1), n) == Source(hw, m, n); }
    hide Source;
  }

  lemma {:induction false} ManyCtl(hw: Hw, m: Machine, acts: seq<Act>, n: nat, k: nat,
                                   pc: nat, lc0: nat, lc1: nat)
    ensures Many(hw, Ctl(m, pc, lc0, lc1), acts, n, k) == Ctl(Many(hw, m, acts, n, k), pc, lc0, lc1)
    decreases k
  {
    hide One;
    if k > 0 {
      ManyCtl(hw, m, acts, n, k - 1, pc, lc0, lc1);
      OneCtl(hw, Many(hw, m, acts, n, k - 1), acts, n, pc, lc0, lc1);
    }
  }

  lemma {:induction false} ManyAdd(hw: Hw, m: Machine, acts: seq<Act>, n: nat, a: nat, b: nat)
    ensures Many(hw, m, acts, n, a + b) == Many(hw, Many(hw, m, acts, n, a), acts, n, b)
    decreases b
  {
    hide One;
    if b > 0 {
      ManyAdd(hw, m, acts, n, a, b - 1);
    }
  }

  // What moving leaves alone, and what earlier rounds inherit from a good end.
  predicate Keeps(m: Machine, m': Machine) {
    && m'.ccr == m.ccr && m'.fifo == m.fifo && m'.events == m.events
    && m'.pc == m.pc && m'.lc0 == m.lc0 && m'.lc1 == m.lc1
    && (m'.status == Running ==> m.status == Running)
  }

  lemma OneKeeps(hw: Hw, m: Machine, acts: seq<Act>, n: nat)
    ensures Keeps(m, One(hw, m, acts, n))
    ensures One(hw, m, acts, n).status == Running ==> CanMove(hw, m, n)
  {
    hide SrcInc, DstInc, Patch;
  }

  lemma {:induction false} ManyKeeps(hw: Hw, m: Machine, acts: seq<Act>, n: nat, k: nat)
    ensures Keeps(m, Many(hw, m, acts, n, k))
    decreases k
  {
    hide One;
    if k > 0 {
      ManyKeeps(hw, m, acts, n, k - 1);
      OneKeeps(hw, Many(hw, m, acts, n, k - 1), acts, n);
    }
  }

  // ----- straight-line code -----

  predicate Straight(i: Insn) { Encodable(i) && !i.End? && !i.LpEnd? }

  function RunInsns(hw: Hw, m: Machine, insns: seq<Insn>): Machine
    decreases |insns|
  {
    if insns == [] then m else RunInsns(hw, Execute(hw, m, insns[0], |Encode(insns[0])|), insns[1..])
  }

  lemma {:induction false} RunInsnsFaulted(hw: Hw, m: Machine, insns: seq<Insn>)
    requires forall i :: 0 <= i < |insns| ==> Straight(insns[i])
    requires m.status != Running
    ensures RunInsns(hw, m, insns).status != Running
    decreases |insns|
  {
    if insns != [] {
      assert Straight(insns[0]);
      RunInsnsFaulted(hw, Execute(hw, m, insns[0], |Encode(insns[0])|), insns[1..]);
    }
  }

  lemma StraightPc(hw: Hw, m: Machine, i: Insn, size: nat)
    requires Straight(i)
    ensures Execute(hw, m, i, size).pc == m.pc + size
  {
  }

  lemma {:induction false} StraightLine(hw: Hw, code: seq<Byte>, m: Machine, insns: seq<Insn>)
    requires forall i :: 0 <= i < |insns| ==> Straight(insns[i])
    requires CodeAt(code, m.pc, Assemble(insns))
    requires RunInsns(hw, m, insns).status == Running
    ensures Reaches(hw, code, m, RunInsns(hw, m, insns))
    decreases |insns|
  {
    hide Execute, Encode, Step;
    if insns == [] {
      assert Steps(hw, code, m, 0) == m;
    } else {
      var i := insns[0];
      assert Straight(i);
      if m.status != Running {
        RunInsnsFaulted(hw, m, insns);
      } else {
        CodeAtSplit(code, m.pc, Encode(i), Assemble(insns[1..]));
        StepAt(hw, code, m, i);
        var m1 := Execute(hw, m, i, |Encode(i)|);
        StraightPc(hw, m, i, |Encode(i)|);
        StraightLine(hw, code, m1, insns[1..]);
        ReachesTrans(hw, code, m, m1, RunInsns(hw, m1, insns[1..]));
      }
    }
  }

  // ----- one burst -----

  function BurstLen(ccr: nat): nat { SrcBeats(ccr) * SrcBeatSize(ccr) }

  lemma LoadThenStore(hw: Hw, m: Machine, pc1: nat, log1: seq<Act>, pc2: nat, log2: seq<Act>)
    requires Ready(m) && Symmetric(m.ccr)
    requires BurstLen(m.ccr) <= hw.mfifo && CanMove(hw, m, BurstLen(m.ccr))
    ensures Store(hw, Load(hw, m.(pc := pc1, log := log1), SrcBeats(m.ccr)).(pc := pc2, log := log2), DstBeats(m.ccr))
            == Move(hw, m, BurstLen(m.ccr)).(pc := pc2, log := log2)
  {
    hide SrcBeats, DstBeats, SrcBeatSize, DstBeatSize, SrcInc, DstInc, Patch;
    var n := BurstLen(m.ccr);
    var m1 := Load(hw, m.(pc := pc1, log := log1), SrcBeats(m.ccr));
    assert m1.fifo == Source(hw, m, n);
    assert m1.fifo[..n] == m1.fifo && m1.fifo[n..] == [];
  }

  // Request type and condition fit, so that a conditional transfer moves a full burst.
  predicate Fits(cond: Cond, request: Cond, ccr: nat) {
    Enabled(cond, request) && (cond == Single ==> SrcBeats(ccr) == 1 && DstBeats(ccr) == 1)
  }

  lemma LoadKeeps(hw: Hw, m: Machine, beats: nat)
    ensures var m' := Load(hw, m, beats);
      m'.request == m.request && m'.ccr == m.ccr && m'.pc == m.pc && m'.log == m.log
  {
    hide SrcInc;
  }

  predicate LoadsBy(i: Insn, cond: Cond) { (i.Ld? && i.cond == cond) || (i.LdP? && i.cond == cond) }

  // What a load does on the bus.
  function ReadOf(i: Insn): Act { if i.LdP? then Reads(Some(i.peri)) else Reads(None) }

  // A load and a store, `gap` bytes apart, with nothing between them but what logs `mid`.
  lemma LoadStoreEffect(hw: Hw, m: Machine, load: Insn, cond: Cond, s1: nat, gap: nat, mid: seq<Act>, s2: nat)
    requires LoadsBy(load, cond) && Fits(cond, m.request, m.ccr)
    requires Ready(m) && Symmetric(m.ccr)
    requires BurstLen(m.ccr) <= hw.mfifo && CanMove(hw, m, BurstLen(m.ccr))
    ensures var m1 := Execute(hw, m, load, s1);
      && m1.pc == m.pc + s1 && m1.log == m.log + [ReadOf(load)]
      && Execute(hw, m1.(pc := m.pc + s1 + gap, log := m1.log + mid), St(cond), s2)
         == Move(hw, m, BurstLen(m.ccr))
            .(pc := m.pc + s1 + gap + s2, log := m.log + [ReadOf(load)] + mid + [Writes(None)])
  {
    hide Load, Store, Move, BurstLen, SrcBeats, DstBeats, Symmetric, CanMove;
    var log1 := m.log + [ReadOf(load)];
    LoadKeeps(hw, m.(pc := m.pc + s1, log := log1), SrcBeats(m.ccr));
    LoadThenStore(hw, m, m.pc + s1, log1, m.pc + s1 + gap + s2, log1 + mid + [Writes(None)]);
  }

  lemma RunCons(hw: Hw, m: Machine, i: Insn, rest: seq<Insn>)
    ensures RunInsns(hw, m, [i] + rest) == RunInsns(hw, Execute(hw, m, i, |Encode(i)|), rest)
  {
    hide Execute, Encode;
    assert ([i] + rest)[1..] == rest;
  }

  predicate Marks(i: Insn) { i.Rmb? || i.Wmb? || i.FlushP? }

  function MarkOf(i: Insn): Act
    requires Marks(i)
  {
    if i.Rmb? then ReadBarrier else if i.Wmb? then WriteBarrier else Flushes(i.peri)
  }

  // Machine m after an instruction of `size` bytes that only logs a.
  function Marked(m: Machine, size: nat, a: Act): Machine { m.(pc := m.pc + size, log := m.log + [a]) }

  lemma MarkEffect(hw: Hw, m: Machine, i: Insn, size: nat)
    requires Marks(i)
    ensures Execute(hw, m, i, size) == Marked(m, size, MarkOf(i))
  {
  }

  lemma ThenMark(hw: Hw, m: Machine, i: Insn, mark: Insn)
    requires Marks(mark) && |Encode(i)| == 1 && |Encode(mark)| == 1
    ensures RunInsns(hw, m, [i] + [mark]) == Marked(Execute(hw, m, i, 1), 1, MarkOf(mark))
  {
    hide Execute, Encode, RunInsns;
    var m' := Execute(hw, m, i, 1);
    RunCons(hw, m, i, [mark]);
    RunOne(hw, m', mark);
    MarkEffect(hw, m', mark, 1);
  }

  lemma MarkBetween(hw: Hw, m: Machine, i: Insn, mark: Insn, rest: seq<Insn>)
    requires Marks(mark) && |Encode(i)| == 1 && |Encode(mark)| == 1
    ensures RunInsns(hw, m, [i] + ([mark] + rest)) == RunInsns(hw, Marked(Execute(hw, m, i, 1), 1, MarkOf(mark)), rest)
  {
    hide Execute, Encode, RunInsns;
    var m' := Execute(hw, m, i, 1);
    RunCons(hw, m, i, [mark] + rest);
    RunCons(hw, m', mark, rest);
    MarkEffect(hw, m', mark, 1);
  }

  lemma OneByteInsns(m: Machine)
    ensures |Encode(Ld(Always))| == |Encode(St(Always))| == |Encode(Rmb)| == |Encode(Wmb)| == 1
    ensures LoadsBy(Ld(Always), Always) && Fits(Always, m.request, m.ccr)
  {
  }

  // DMALD, DMARMB, DMAST, DMAWMB: the sequence for hardware that can lock up.
  lemma BarrierEffect(hw: Hw, m: Machine)
    requires Ready(m) && Symmetric(m.ccr)
    requires BurstLen(m.ccr) <= hw.mfifo && CanMove(hw, m, BurstLen(m.ccr))
    ensures RunInsns(hw, m, [Ld(Always)] + ([Rmb] + ([St(Always)] + [Wmb])))
            == Move(hw, m, BurstLen(m.ccr))
               .(pc := m.pc + 4, log := m.log + [Reads(None), ReadBarrier, Writes(None), WriteBarrier])
  {
    hide Execute, Encode, Move, CanMove, Symmetric, BurstLen, RunInsns, LoadsBy, Fits, Enabled;
    var ld, st := Ld(Always), St(Always);
    OneByteInsns(m);
    MarkBetween(hw, m, ld, Rmb, [st] + [Wmb]);
    var m1 := Execute(hw, m, ld, 1);
    LoadStoreEffect(hw, m, ld, Always, 1, 1, [ReadBarrier], 1);
    ThenMark(hw, Marked(m1, 1, ReadBarrier), st, Wmb);
    assert m.log + [Reads(None)] + [ReadBarrier] + [Writes(None)] + [WriteBarrier]
        == m.log + [Reads(None), ReadBarrier, Writes(None), WriteBarrier];
  }

  lemma MemToMemEffect(hw: Hw, m: Machine, d: Dmac, x: Xfer, cond: Cond)
    requires Ready(m) && Symmetric(m.ccr) && x.dir == MemToMem
    requires BurstLen(m.ccr) <= hw.mfifo && CanMove(hw, m, BurstLen(m.ccr))
    ensures RunInsns(hw, m, MemToMemInsns(d))
            == Move(hw, m, BurstLen(m.ccr))
               .(pc := m.pc + |Assemble(MemToMemInsns(d))|, log := m.log + Acts(d, x, cond))
  {
    MemToMemCode(d);
    var ld, st := Ld(Always), St(Always);
    assert |Encode(ld)| == 1 && |Encode(st)| == 1 && |Encode(Rmb)| == 1 && |Encode(Wmb)| == 1;
    assert MemToMemInsns(d) == if d.lockupFree then [ld] + [st] else [ld] + ([Rmb] + ([st] + [Wmb]));
    hide Execute, Encode, Move, CanMove, Symmetric, BurstLen, Assemble, MemToMemInsns, RunInsns;
    if d.lockupFree {
      LoadStoreRun(hw, m, ld, Always);
      assert m.log + [Reads(None)] + [Writes(None)] == m.log + [Reads(None), Writes(None)];
      RunCons(hw, m, ld, [st]);
      RunOne(hw, Execute(hw, m, ld, 1), st);
    } else {
      BarrierEffect(hw, m);
    }
  }

  lemma RunOne(hw: Hw, m: Machine, i: Insn)
    ensures RunInsns(hw, m, [i]) == Execute(hw, m, i, |Encode(i)|)
  {
    hide Execute, Encode;
    assert RunInsns(hw, Execute(hw, m, i, |Encode(i)|), []) == Execute(hw, m, i, |Encode(i)|);
  }

  lemma MoveControl(hw: Hw, m: Machine, n: nat, pc: nat, request: Cond, log: seq<Act>)
    ensures Move(hw, m.(pc := pc, request := request, log := log), n)
            == Move(hw, m, n).(pc := pc, request := request, log := log)
    ensures CanMove(hw, m.(pc := pc, request := request, log := log), n) == CanMove(hw, m, n)
  {
    hide SrcInc, DstInc, Patch;
  }

  function Flushing(flush: seq<Insn>): seq<Act> {
    if flush != [] && Marks(flush[0]) then [MarkOf(flush[0])] else []
  }

  lemma PeripheralShape(d: Dmac, x: Xfer, cond: Cond)
    requires x.dir != MemToMem && cond != Always
    ensures var load, flush := LoadInsns(cond, x)[0], FlushInsns(d, x);
      && LoadsBy(load, cond) && Acts(d, x, cond) == [Waits(cond, x.peri), ReadOf(load), Writes(None)] + Flushing(flush)
      && PeripheralInsns(d, x, cond) == [Wfp(cond, x.peri)] + ([load] + ([St(cond)] + flush))
      && |Assemble(PeripheralInsns(d, x, cond))| == 2 + |Encode(load)| + 1 + |Assemble(flush)|
      && |Encode(Wfp(cond, x.peri))| == 2 && |Encode(St(cond))| == 1
      && (flush == [] ==> |Assemble(flush)| == 0)
      && (flush == [] || (Marks(flush[0]) && flush == [flush[0]] && Assemble(flush) == Encode(flush[0])))
  {
    PeripheralCode(d, x, cond);
    Assemble1(LoadInsns(cond, x)[0]);
    Assemble1(St(cond));
  }

  lemma LoadStoreRun(hw: Hw, m: Machine, load: Insn, cond: Cond)
    requires LoadsBy(load, cond) && Fits(cond, m.request, m.ccr)
    requires Ready(m) && Symmetric(m.ccr)
    requires BurstLen(m.ccr) <= hw.mfifo && CanMove(hw, m, BurstLen(m.ccr))
    ensures Execute(hw, Execute(hw, m, load, |Encode(load)|), St(cond), 1)
            == Move(hw, m, BurstLen(m.ccr))
               .(pc := m.pc + |Encode(load)| + 1, log := m.log + [ReadOf(load)] + [Writes(None)])
  {
    hide Execute, Encode, Move, CanMove, Symmetric, BurstLen, LoadsBy, Fits, Ready, ReadOf;
    var l := |Encode(load)|;
    LoadStoreEffect(hw, m, load, cond, l, 0, [], 1);
    var m1 := Execute(hw, m, load, l);
    assert m1.log + [] == m1.log && m.log + [ReadOf(load)] + [] == m.log + [ReadOf(load)];
    assert m1.(pc := m.pc + l + 0, log := m1.log + []) == m1;
  }

  // The load, the store and the flush of a burst that has been requested.
  lemma RequestedEffect(hw: Hw, m: Machine, load: Insn, cond: Cond, flush: seq<Insn>)
    requires LoadsBy(load, cond) && Fits(cond, m.request, m.ccr) && Ready(m) && Symmetric(m.ccr)
    requires BurstLen(m.ccr) <= hw.mfifo && CanMove(hw, m, BurstLen(m.ccr))
    requires |Encode(St(cond))| == 1 && (flush == [] ==> |Assemble(flush)| == 0)
    requires flush == [] || (Marks(flush[0]) && flush == [flush[0]] && Assemble(flush) == Encode(flush[0]))
    ensures RunInsns(hw, m, [load] + ([St(cond)] + flush))
            == Move(hw, m, BurstLen(m.ccr)).(pc := m.pc + |Encode(load)| + 1 + |Assemble(flush)|,
                                             log := m.log + [ReadOf(load)] + [Writes(None)] + Flushing(flush))
  {
    hide Execute, Encode, Move, CanMove, Symmetric, BurstLen, Assemble, LoadsBy, Fits, RunInsns, ReadOf, Flushing,
      Ready, Marks;
    RunCons(hw, m, load, [St(cond)] + flush);
    LoadStoreRun(hw, m, load, cond);
    StoreFlush(hw, Execute(hw, m, load, |Encode(load)|), St(cond), flush);
  }

  lemma PeripheralEffect(hw: Hw, m: Machine, d: Dmac, x: Xfer, cond: Cond)
    requires x.dir != MemToMem && cond != Always && Fits(cond, cond, m.ccr)
    requires Ready(m) && Symmetric(m.ccr)
    requires BurstLen(m.ccr) <= hw.mfifo && CanMove(hw, m, BurstLen(m.ccr))
    ensures RunInsns(hw, m, PeripheralInsns(d, x, cond))
            == Move(hw, m, BurstLen(m.ccr)).(pc := m.pc + |Assemble(PeripheralInsns(d, x, cond))|,
                                             request := cond, log := m.log + Acts(d, x, cond))
  {
    PeripheralShape(d, x, cond);
    var load, flush, wait := LoadInsns(cond, x)[0], FlushInsns(d, x), Waits(cond, x.peri);
    hide Execute, Encode, Fits, Move, CanMove, Symmetric, BurstLen, Assemble, PeripheralInsns, FlushInsns, LoadInsns,
      LoadsBy, Marks, RunInsns, Acts, ReadOf, Flushing;
    var m1 := m.(pc := m.pc + 2, request := cond, log := m.log + [wait]);
    WaitEffect(hw, m, cond, x.peri);
    MoveControl(hw, m, BurstLen(m.ccr), m.pc + 2, cond, m1.log);
    RunCons(hw, m, Wfp(cond, x.peri), [load] + ([St(cond)] + flush));
    RequestedEffect(hw, m1, load, cond, flush);
    RoundLog(m.log, wait, ReadOf(load), Flushing(flush));
  }

  lemma RoundLog(log: seq<Act>, wait: Act, read: Act, flush: seq<Act>)
    ensures log + [wait] + [read] + [Writes(None)] + flush == log + ([wait, read, Writes(None)] + flush)
  {
  }

  lemma WaitEffect(hw: Hw, m: Machine, cond: Cond, peri: nat)
    ensures Execute(hw, m, Wfp(cond, peri), 2)
            == m.(pc := m.pc + 2, request := cond, log := m.log + [Waits(cond, peri)])
  {
  }

  // A store of one byte and the flush behind it, if there is one.
  lemma StoreFlush(hw: Hw, m: Machine, st: Insn, flush: seq<Insn>)
    requires |Encode(st)| == 1 && (flush == [] ==> |Assemble(flush)| == 0)
    requires flush == [] || (Marks(flush[0]) && flush == [flush[0]] && Assemble(flush) == Encode(flush[0]))
    ensures var m' := Execute(hw, m, st, 1);
      RunInsns(hw, m, [st] + flush) == m'.(pc := m'.pc + |Assemble(flush)|, log := m'.log + Flushing(flush))
  {
    hide Execute, Encode, RunInsns, Assemble, MarkOf;
    var m' := Execute(hw, m, st, 1);
    if flush == [] {
      assert [st] + flush == [st] && m'.log + Flushing(flush) == m'.log;
      RunOne(hw, m, st);
    } else {
      RunCons(hw, m, st, flush);
      MarkEffect(hw, m', flush[0], |Encode(flush[0])|);
      RunOne(hw, m', flush[0]);
    }
  }

  /** The form for any request: it has the effect of the form for the request that the peripheral has granted, one
      beat or a burst; a single store acknowledges the peripheral. */
  lemma AlwaysForms(hw: Hw, m: Machine, x: Xfer)
    requires m.request == Single || m.request == Burst
    ensures x.dir == DevToMem ==>
      RunInsns(hw, m, LoadInsns(Always, x))
      == Load(hw, Logged(m, Reads(Some(x.peri))), if m.request == Single then 1 else SrcBeats(m.ccr)).(pc := m.pc + 4)
    ensures x.dir == MemToDev ==>
      RunInsns(hw, m, StoreInsns(Always, x))
      == Store(hw, Logged(m, Writes(if m.request == Single then Some(x.peri) else None)),
               if m.request == Single then 1 else DstBeats(m.ccr)).(pc := m.pc + 3)
  {
    if x.dir == DevToMem { AlwaysLoad(hw, m, x); }
    if x.dir == MemToDev { AlwaysStore(hw, m, x); }
    hide RunInsns, LoadInsns, StoreInsns, Load, Store;
  }

  lemma AlwaysLoad(hw: Hw, m: Machine, x: Xfer)
    requires x.dir == DevToMem && (m.request == Single || m.request == Burst)
    ensures RunInsns(hw, m, LoadInsns(Always, x))
      == Load(hw, Logged(m, Reads(Some(x.peri))), if m.request == Single then 1 else SrcBeats(m.ccr)).(pc := m.pc + 4)
  {
    var one, many := LdP(Single, x.peri), LdP(Burst, x.peri);
    assert LoadInsns(Always, x) == [one] + [many] && |Encode(one)| == 2 && |Encode(many)| == 2;
    hide RunInsns, Encode, SrcBeats, LoadInsns, Load;
    var log := m.log + [Reads(Some(x.peri))];
    LoadKeeps(hw, m.(pc := m.pc + 2, log := log), 1);
    LoadPc(hw, m.(log := log), 1, m.pc + 2);
    LoadPc(hw, m.(log := log), SrcBeats(m.ccr), m.pc + 4);
    var m1 := Execute(hw, m, one, 2);
    var m2 := Execute(hw, m1, many, 2);
    assert m.request == Single ==> m2 == m1.(pc := m.pc + 4);
    assert m.request == Burst ==> m1 == m.(pc := m.pc + 2);
    hide Execute;
    RunCons(hw, m, one, [many]);
    RunOne(hw, m1, many);
  }

  lemma LoadPc(hw: Hw, m: Machine, beats: nat, pc: nat)
    ensures Load(hw, m.(pc := pc), beats) == Load(hw, m, beats).(pc := pc)
  {
    hide SrcInc, SrcBeatSize;
  }

  lemma StorePc(hw: Hw, m: Machine, beats: nat, pc: nat)
    ensures var m' := Store(hw, m, beats);
      Store(hw, m.(pc := pc), beats) == m'.(pc := pc) && m'.request == m.request && m'.ccr == m.ccr
  {
    hide DstInc, DstBeatSize, Patch;
  }

  lemma AlwaysStore(hw: Hw, m: Machine, x: Xfer)
    requires x.dir == MemToDev && (m.request == Single || m.request == Burst)
    ensures RunInsns(hw, m, StoreInsns(Always, x))
      == Store(hw, Logged(m, Writes(if m.request == Single then Some(x.peri) else None)),
               if m.request == Single then 1 else DstBeats(m.ccr)).(pc := m.pc + 3)
  {
    var one, many := StP(Single, x.peri), St(Burst);
    assert StoreInsns(Always, x) == [one] + [many] && |Encode(one)| == 2 && |Encode(many)| == 1;
    hide RunInsns, Encode, DstBeats, StoreInsns, Store;
    StorePc(hw, Logged(m, Writes(Some(x.peri))), 1, m.pc + 2);
    StorePc(hw, Logged(m, Writes(None)), DstBeats(m.ccr), m.pc + 3);
    var m1 := Execute(hw, m, one, 2);
    var m2 := Execute(hw, m1, many, 1);
    assert m.request == Single ==> m2 == m1.(pc := m.pc + 3);
    assert m.request == Burst ==> m1 == m.(pc := m.pc + 2);
    hide Execute;
    RunCons(hw, m, one, [many]);
    RunOne(hw, m1, many);
  }

  lemma InsnsStraight(d: Dmac, x: Xfer, cond: Cond)
    requires cond != Always && x.peri < 32
    ensures forall i :: 0 <= i < |TransferInsns(d, x, cond)| ==> Straight(TransferInsns(d, x, cond)[i])
  {
  }

  /** The code of one transfer, wherever it stands, moves one burst and continues behind itself. */
  lemma TransferRuns(hw: Hw, code: seq<Byte>, m: Machine, d: Dmac, x: Xfer, cond: Cond)
    requires cond != Always && x.peri < 32 && Symmetric(m.ccr) && Ready(m)
    requires x.dir != MemToMem ==> Fits(cond, cond, m.ccr)
    requires CodeAt(code, m.pc, TransferCode(d, x, cond))
    requires BurstLen(m.ccr) <= hw.mfifo && CanMove(hw, m, BurstLen(m.ccr))
    ensures Reaches(hw, code, m,
                    One(hw, m, Acts(d, x, cond), BurstLen(m.ccr)).(pc := m.pc + |TransferCode(d, x, cond)|))
  {
    InsnsStraight(d, x, cond);
    hide Move, Straight, Assemble, MemToMemInsns, PeripheralInsns, BurstLen, RunInsns, Symmetric, Fits, CodeAt, Reaches;
    if x.dir == MemToMem {
      MemToMemEffect(hw, m, d, x, cond);
    } else {
      PeripheralEffect(hw, m, d, x, cond);
    }
    MoveRunning(hw, m, BurstLen(m.ccr));
    StraightLine(hw, code, m, TransferInsns(d, x, cond));
  }

  lemma MoveRunning(hw: Hw, m: Machine, n: nat)
    requires Ready(m) && CanMove(hw, m, n)
    ensures Ready(Move(hw, m, n))
  {
    hide SrcInc, DstInc, Patch;
  }

  // ----- loops -----

  // The setting in which the code of a burst does its work: n bytes at a time.
  predicate Setting(hw: Hw, m: Machine, x: Xfer, cond: Cond, n: nat) {
    && cond != Always && x.peri < 32 && m.fifo == []
    && Symmetric(m.ccr) && n == BurstLen(m.ccr) <= hw.mfifo
    && (x.dir != MemToMem ==> Fits(cond, cond, m.ccr))
  }

  lemma {:induction false} UnrolledRuns(hw: Hw, code: seq<Byte>, m: Machine, d: Dmac, x: Xfer, cond: Cond, n: nat,
                                        k: nat)
    requires Setting(hw, m, x, cond, n) && Many(hw, m, Acts(d, x, cond), n, k).status == Running
    requires CodeAt(code, m.pc, Repeat(TransferCode(d, x, cond), k))
    ensures Reaches(hw, code, m,
                    Many(hw, m, Acts(d, x, cond), n, k).(pc := m.pc + |Repeat(TransferCode(d, x, cond), k)|))
    decreases k
  {
    hide TransferCode, Symmetric, BurstLen, Fits, Step, One, CodeAt;
    var burst := TransferCode(d, x, cond);
    if k == 0 {
      assert Steps(hw, code, m, 0) == m;
    } else {
      var rest := Repeat(burst, k - 1);
      var m1 := Many(hw, m, Acts(d, x, cond), n, k - 1);
      CodeAtSplit(code, m.pc, rest, burst);
      ManyKeeps(hw, m, Acts(d, x, cond), n, k - 1);
      OneKeeps(hw, m1, Acts(d, x, cond), n);
      UnrolledRuns(hw, code, m, d, x, cond, n, k - 1);
      var m2 := m1.(pc := m.pc + |rest|);
      OneCtl(hw, m1, Acts(d, x, cond), n, m.pc + |rest|, m1.lc0, m1.lc1);
      TransferRuns(hw, code, m2, d, x, cond);
      ReachesTrans(hw, code, m, m2, Many(hw, m, Acts(d, x, cond), n, k).(pc := m.pc + |rest| + |burst|));
    }
  }

  // Machine m about to execute at pc with loop counter `loop` at c.
  function Enter(m: Machine, loop: nat, c: nat, pc: nat): Machine {
    if loop == 0 then m.(lc0 := c, pc := pc) else m.(lc1 := c, pc := pc)
  }

  // A loop body, run i times already, is entered at `start` with the counter at c
  // and left `len` bytes further on.
  ghost predicate BodyRuns(hw: Hw, code: seq<Byte>, loop: nat, start: nat, len: nat, s: nat -> Machine, i: nat,
                           c: nat) {
    && s(i + 1).status == Running
    && Reaches(hw, code, Enter(s(i), loop, c, start), Enter(s(i + 1), loop, c, start + len))
  }

  lemma LpEndRuns(hw: Hw, code: seq<Byte>, m: Machine, loop: nat, c: nat, pc: nat, len: nat)
    requires len <= pc && loop < 2 && len < 256 && m.status == Running
    requires CodeAt(code, pc, Encode(LpEnd(Always, false, loop, len)))
    ensures Reaches(hw, code, Enter(m, loop, c, pc),
                    if c == 0 then Enter(m, loop, 0, pc + 2) else Enter(m, loop, c - 1, pc - len))
  {
    hide Step, CodeAt, Reaches;
    StepAt(hw, code, Enter(m, loop, c, pc), LpEnd(Always, false, loop, len));
  }

  /** A body closed by DMALPEND runs as often as its counter says: remaining count plus one. */
  lemma {:induction false} LoopRuns(hw: Hw, code: seq<Byte>, loop: nat, start: nat, len: nat, s: nat -> Machine,
                                    i: nat, c: nat)
    requires loop < 2 && len < 256
    requires CodeAt(code, start + len, Encode(LpEnd(Always, false, loop, len)))
    requires forall j: nat, b: nat :: i <= j <= i + c && b <= c ==> BodyRuns(hw, code, loop, start, len, s, j, b)
    ensures Reaches(hw, code, Enter(s(i), loop, c, start), Enter(s(i + c + 1), loop, 0, start + len + 2))
    decreases c
  {
    hide Encode, CodeAt, Enter, Reaches;
    var a, m, z := Enter(s(i), loop, c, start), Enter(s(i + 1), loop, c, start + len),
                   Enter(s(i + c + 1), loop, 0, start + len + 2);
    assert BodyRuns(hw, code, loop, start, len, s, i, c);
    LpEndRuns(hw, code, s(i + 1), loop, c, start + len, len);
    if c == 0 {
      ReachesTrans(hw, code, a, m, z);
    } else {
      var m1 := Enter(s(i + 1), loop, c - 1, start);
      ReachesTrans(hw, code, a, m, m1);
      LoopRuns(hw, code, loop, start, len, s, i + 1, c - 1);
      ReachesTrans(hw, code, a, m1, z);
    }
  }

  lemma {:induction false} ManyPrefix(hw: Hw, m: Machine, acts: seq<Act>, n: nat, a: nat, b: nat)
    requires a <= b && Many(hw, m, acts, n, b).status == Running
    ensures Many(hw, m, acts, n, a).status == Running
  {
    hide Many;
    ManyAdd(hw, m, acts, n, a, b - a);
    ManyKeeps(hw, Many(hw, m, acts, n, a), acts, n, b - a);
  }

  // One round of the inner loop, from any counter value.
  lemma InnerBody(hw: Hw, code: seq<Byte>, m: Machine, d: Dmac, x: Xfer, cond: Cond, n: nat,
                  start: nat, unroll: nat, s: nat -> Machine, j: nat, c: nat)
    requires Setting(hw, m, x, cond, n)
    requires forall i: nat :: s(i) == Many(hw, m, Acts(d, x, cond), n, unroll * i)
    requires CodeAt(code, start, Repeat(TransferCode(d, x, cond), unroll))
    requires s(j + 1).status == Running
    ensures BodyRuns(hw, code, 1, start, |Repeat(TransferCode(d, x, cond), unroll)|, s, j, c)
  {
    hide TransferCode, Symmetric, BurstLen, Fits, Step, Many, CodeAt, Repeat, Reaches;
    var mm := Ctl(s(j), start, s(j).lc0, c);
    assert unroll * (j + 1) == unroll * j + unroll;
    ManyAdd(hw, m, Acts(d, x, cond), n, unroll * j, unroll);
    ManyCtl(hw, s(j), Acts(d, x, cond), n, unroll, start, s(j).lc0, c);
    ManyKeeps(hw, m, Acts(d, x, cond), n, unroll * j);
    ManyKeeps(hw, s(j), Acts(d, x, cond), n, unroll);
    UnrolledRuns(hw, code, mm, d, x, cond, n, unroll);
  }

  lemma LpRuns(hw: Hw, code: seq<Byte>, m: Machine, loop: nat, count: nat)
    requires loop < 2 && 1 <= count <= 256 && m.status == Running
    requires CodeAt(code, m.pc, Encode(Lp(loop, count)))
    ensures |Encode(Lp(loop, count))| == 2
    ensures Reaches(hw, code, m, Enter(m, loop, count - 1, m.pc + 2))
  {
    hide Step, CodeAt, Reaches;
    StepAt(hw, code, m, Lp(loop, count));
  }

  lemma InnerRuns(hw: Hw, code: seq<Byte>, m: Machine, d: Dmac, x: Xfer, cond: Cond, n: nat, inner: nat, unroll: nat)
    requires Setting(hw, m, x, cond, n) && 1 <= inner <= 256
    requires Many(hw, m, Acts(d, x, cond), n, unroll * inner).status == Running
    requires |Repeat(TransferCode(d, x, cond), unroll)| < 256
    requires CodeAt(code, m.pc, InnerCode(TransferCode(d, x, cond), inner, unroll))
    ensures Reaches(hw, code, m,
                    Many(hw, m, Acts(d, x, cond), n, unroll * inner)
                    .(lc1 := 0, pc := m.pc + |InnerCode(TransferCode(d, x, cond), inner, unroll)|))
  {
    hide TransferCode, Setting, Step, Many, CodeAt, Repeat, Reaches, Encode;
    var body := Repeat(TransferCode(d, x, cond), unroll);
    var lp, lpend := Encode(Lp(1, inner)), Encode(LpEnd(Always, false, 1, |body|));
    CodeAtSplit(code, m.pc, lp + body, lpend);
    CodeAtSplit(code, m.pc, lp, body);
    ManyKeeps(hw, m, Acts(d, x, cond), n, unroll * inner);
    LpRuns(hw, code, m, 1, inner);
    LpEndSize(1, |body|);
    var start := m.pc + 2;
    var s := (i: nat) => Many(hw, m, Acts(d, x, cond), n, unroll * i);
    forall j: nat, b: nat | j <= inner - 1 && b <= inner - 1
      ensures BodyRuns(hw, code, 1, start, |body|, s, j, b)
    {
      MulMono(j + 1, inner, unroll);
      assert unroll * (j + 1) <= unroll * inner;
      ManyPrefix(hw, m, Acts(d, x, cond), n, unroll * (j + 1), unroll * inner);
      InnerBody(hw, code, m, d, x, cond, n, start, unroll, s, j, b);
    }
    LoopRuns(hw, code, 1, start, |body|, s, 0, inner - 1);
    ManyZero(hw, m, Acts(d, x, cond), n);
    assert s(0) == m;
    ReachesTrans(hw, code, m, m.(lc1 := inner - 1, pc := start), s(inner).(lc1 := 0, pc := start + |body| + 2));
  }

  lemma ManyZero(hw: Hw, m: Machine, acts: seq<Act>, n: nat)
    ensures Many(hw, m, acts, n, 0) == m
  {
  }

  lemma LpEndSize(loop: nat, len: nat)
    ensures |Encode(LpEnd(Always, false, loop, len))| == 2
  {
  }

  // One round of the outer loop: a complete inner loop. Its counter is 0 from the first round on.
  lemma OuterBody(hw: Hw, code: seq<Byte>, m: Machine, d: Dmac, x: Xfer, cond: Cond, n: nat,
                  start: nat, inner: nat, unroll: nat, s: nat -> Machine, j: nat, c: nat)
    requires Setting(hw, m, x, cond, n) && 1 <= inner <= 256
    requires forall i: nat :: s(i) == OuterState(hw, m, Acts(d, x, cond), n, unroll * inner, i)
    requires |Repeat(TransferCode(d, x, cond), unroll)| < 256
    requires CodeAt(code, start, InnerCode(TransferCode(d, x, cond), inner, unroll))
    requires s(j + 1).status == Running
    ensures BodyRuns(hw, code, 0, start, |InnerCode(TransferCode(d, x, cond), inner, unroll)|, s, j, c)
  {
    hide TransferCode, Symmetric, BurstLen, Fits, Step, Many, CodeAt, Repeat, Reaches, InnerCode;
    var k := unroll * inner;
    var lc1 := if j == 0 then m.lc1 else 0;
    var mj := Many(hw, m, Acts(d, x, cond), n, k * j);
    var mm := Ctl(mj, start, c, lc1);
    assert k * (j + 1) == k * j + k;
    ManyAdd(hw, m, Acts(d, x, cond), n, k * j, k);
    ManyCtl(hw, mj, Acts(d, x, cond), n, k, start, c, lc1);
    ManyKeeps(hw, m, Acts(d, x, cond), n, k * j);
    ManyKeeps(hw, mj, Acts(d, x, cond), n, k);
    InnerRuns(hw, code, mm, d, x, cond, n, inner, unroll);
  }

  function OuterState(hw: Hw, m: Machine, acts: seq<Act>, n: nat, k: nat, i: nat): Machine {
    Many(hw, m, acts, n, k * i).(lc1 := if i == 0 then m.lc1 else 0)
  }

  lemma OuterRuns(hw: Hw, code: seq<Byte>, m: Machine, d: Dmac, x: Xfer, cond: Cond, n: nat, nest: Nest)
    requires Setting(hw, m, x, cond, n) && 1 <= nest.inner <= 256 && 1 <= nest.outer <= 256
    requires Many(hw, m, Acts(d, x, cond), n, nest.Count()).status == Running
    requires |Repeat(TransferCode(d, x, cond), nest.unroll)| < 256
    requires |InnerCode(TransferCode(d, x, cond), nest.inner, nest.unroll)| < 256
    requires CodeAt(code, m.pc, NestCode(TransferCode(d, x, cond), nest))
    ensures Reaches(hw, code, m,
                    Ctl(Many(hw, m, Acts(d, x, cond), n, nest.Count()),
                        m.pc + |NestCode(TransferCode(d, x, cond), nest)|, 0, 0))
  {
    hide TransferCode, Setting, Step, Many, CodeAt, Repeat, Reaches, Encode, InnerCode;
    var Nest(outer, inner, unroll) := nest;
    var body := InnerCode(TransferCode(d, x, cond), inner, unroll);
    var lp, lpend := Encode(Lp(0, outer)), Encode(LpEnd(Always, false, 0, |body|));
    CodeAtSplit(code, m.pc, lp + body, lpend);
    CodeAtSplit(code, m.pc, lp, body);
    var k := unroll * inner;
    assert nest.Count() == k * outer;
    ManyKeeps(hw, m, Acts(d, x, cond), n, k * outer);
    LpRuns(hw, code, m, 0, outer);
    LpEndSize(0, |body|);
    var start := m.pc + 2;
    var s := (i: nat) => OuterState(hw, m, Acts(d, x, cond), n, k, i);
    forall j: nat, b: nat | j <= outer - 1 && b <= outer - 1
      ensures BodyRuns(hw, code, 0, start, |body|, s, j, b)
    {
      MulMono(j + 1, outer, k);
      assert k * (j + 1) <= k * outer;
      ManyPrefix(hw, m, Acts(d, x, cond), n, k * (j + 1), k * outer);
      OuterBody(hw, code, m, d, x, cond, n, start, inner, unroll, s, j, b);
    }
    LoopRuns(hw, code, 0, start, |body|, s, 0, outer - 1);
    ManyZero(hw, m, Acts(d, x, cond), n);
    assert s(0) == m;
    ReachesTrans(hw, code, m, Enter(m, 0, outer - 1, start), Enter(s(outer), 0, 0, start + |body| + 2));
  }

  // From m, the code of `size` bytes leads behind itself with the data of m'; the
  // loop counters may be anything.
  ghost predicate Runs(hw: Hw, code: seq<Byte>, m: Machine, size: nat, m': Machine) {
    var pc := m.pc + size;
    exists lc0: nat, lc1: nat :: Reaches(hw, code, m, Ctl(m', pc, lc0, lc1))
  }

  lemma RunsIntro(hw: Hw, code: seq<Byte>, m: Machine, size: nat, m': Machine, lc0: nat, lc1: nat)
    requires Reaches(hw, code, m, Ctl(m', m.pc + size, lc0, lc1))
    ensures Runs(hw, code, m, size, m')
  {
    hide Reaches;
  }

  lemma DivTimes(a: nat, b: nat)
    requires b >= 1
    ensures Div(a, b) * b <= a < Div(a, b) * b + b
  {
  }

  lemma PlanFits(burst: seq<Byte>, n: nat)
    requires 2 <= |burst| <= 6 && n >= 2
    ensures var p := Plan(n, |burst|);
      && 1 <= p.inner <= 256 && p.outer <= 256
      && |Repeat(burst, p.unroll)| < 256 && |InnerCode(burst, p.inner, p.unroll)| < 256
  {
    var p := Plan(n, |burst|);
    RepeatLength(burst, p.unroll);
    var room := 255 - (if p.outer == 0 then 4 else 8);
    MulMono(p.unroll, Div(room, |burst|), |burst|);
    DivTimes(room, |burst|);
  }

  /** One call of _loop: the emitted code moves exactly the bursts it reports as consumed. */
  lemma LoopCodeRuns(hw: Hw, code: seq<Byte>, m: Machine, d: Dmac, x: Xfer, cond: Cond, n: nat, bursts: nat)
    requires Setting(hw, m, x, cond, n) && bursts >= 1 && 2 <= |TransferCode(d, x, cond)| <= 6
    requires Many(hw, m, Acts(d, x, cond), n, LoopCount(TransferCode(d, x, cond), bursts)).status == Running
    requires CodeAt(code, m.pc, LoopCode(TransferCode(d, x, cond), bursts))
    ensures Runs(hw, code, m, |LoopCode(TransferCode(d, x, cond), bursts)|,
                 Many(hw, m, Acts(d, x, cond), n, LoopCount(TransferCode(d, x, cond), bursts)))
  {
    hide TransferCode, Setting, Many, CodeAt, Repeat, Reaches, InnerCode, Plan, Runs;
    var burst := TransferCode(d, x, cond);
    var m' := Many(hw, m, Acts(d, x, cond), n, LoopCount(burst, bursts));
    if bursts == 1 {
      RepeatOnce(burst);
      UnrolledRuns(hw, code, m, d, x, cond, n, 1);
      ManyKeeps(hw, m, Acts(d, x, cond), n, 1);
      RunsIntro(hw, code, m, |burst|, m', m'.lc0, m'.lc1);
    } else {
      PlanFits(burst, bursts);
      var nest := Plan(bursts, |burst|);
      var size := |NestCode(burst, nest)|;
      if nest.outer == 0 {
        assert nest.Count() == nest.unroll * nest.inner;
        InnerRuns(hw, code, m, d, x, cond, n, nest.inner, nest.unroll);
        RunsIntro(hw, code, m, size, m', m'.lc0, 0);
      } else {
        OuterRuns(hw, code, m, d, x, cond, n, nest);
        RunsIntro(hw, code, m, size, m', 0, 0);
      }
    }
  }

  lemma {:induction false} LoopsRuns(hw: Hw, code: seq<Byte>, m: Machine, d: Dmac, x: Xfer, cond: Cond, n: nat,
                                     bursts: nat)
    requires Setting(hw, m, x, cond, n) && 2 <= |TransferCode(d, x, cond)| <= 6
    requires Many(hw, m, Acts(d, x, cond), n, bursts).status == Running
    requires CodeAt(code, m.pc, LoopsCode(TransferCode(d, x, cond), bursts))
    ensures Runs(hw, code, m, |LoopsCode(TransferCode(d, x, cond), bursts)|, Many(hw, m, Acts(d, x, cond), n, bursts))
    decreases bursts
  {
    hide TransferCode, Symmetric, BurstLen, Fits, Many, CodeAt, Reaches, LoopCode, LoopCount, Step;
    var burst := TransferCode(d, x, cond);
    var z := Many(hw, m, Acts(d, x, cond), n, bursts);
    if bursts == 0 {
      ManyZero(hw, m, Acts(d, x, cond), n);
      ReachesSelf(hw, code, m);
      RunsIntro(hw, code, m, 0, m, m.lc0, m.lc1);
    } else {
      LoopConsumes(burst, bursts);
      var c := LoopCount(burst, bursts);
      var first, rest := LoopCode(burst, bursts), LoopsCode(burst, bursts - c);
      CodeAtSplit(code, m.pc, first, rest);
      ManyPrefix(hw, m, Acts(d, x, cond), n, c, bursts);
      LoopCodeRuns(hw, code, m, d, x, cond, n, bursts);
      var m1 := Many(hw, m, Acts(d, x, cond), n, c);
      var a: nat, b: nat :| Reaches(hw, code, m, Ctl(m1, m.pc + |first|, a, b));
      var m2 := Ctl(m1, m.pc + |first|, a, b);
      ManyKeeps(hw, m, Acts(d, x, cond), n, c);
      ManyAdd(hw, m, Acts(d, x, cond), n, c, bursts - c);
      ManyCtl(hw, m1, Acts(d, x, cond), n, bursts - c, m2.pc, a, b);
      LoopsRuns(hw, code, m2, d, x, cond, n, bursts - c);
      RunsAfter(hw, code, m, m2, |first|, |rest|, z, a, b);
    }
  }

  lemma ReachesSelf(hw: Hw, code: seq<Byte>, m: Machine)
    ensures Reaches(hw, code, m, m)
  {
    assert Steps(hw, code, m, 0) == m;
  }

  lemma RunsAfter(hw: Hw, code: seq<Byte>, m: Machine, m2: Machine, size: nat, rest: nat, z: Machine, a: nat, b: nat)
    requires Reaches(hw, code, m, m2) && m2.pc == m.pc + size
    requires Runs(hw, code, m2, rest, Ctl(z, m2.pc, a, b))
    ensures Runs(hw, code, m, size + rest, z)
  {
    hide Reaches;
    var pc := m2.pc + rest;
    var e: nat, f: nat :| Reaches(hw, code, m2, Ctl(Ctl(z, m2.pc, a, b), pc, e, f));
    ReachesTrans(hw, code, m, m2, Ctl(z, pc, e, f));
  }

  // ----- many bursts are one move -----

  // Source and destination of n bytes in memory do not overlap, or the
  // destination lies below: later bursts read nothing earlier ones wrote.
  predicate Safe(hw: Hw, m: Machine, n: nat) {
    SrcInc(m.ccr) && DstInc(m.ccr) ==>
      || hw.dstWindow + m.dar <= hw.srcWindow + m.sar
      || hw.srcWindow + m.sar + n <= hw.dstWindow + m.dar
  }

  lemma ReadBesidePatch(mem: seq<Byte>, at: nat, data: seq<Byte>, lo: nat, hi: nat)
    requires at + |data| <= |mem| && lo <= hi <= |mem|
    requires at + |data| <= lo || hi <= at
    ensures Patch(mem, at, data)[lo..hi] == mem[lo..hi]
  {
  }

  lemma MoveRemains(hw: Hw, m: Machine, a: nat, b: nat)
    requires CanMove(hw, m, a + b) && Safe(hw, m, a + b)
    ensures CanMove(hw, m, a) && CanMove(hw, Move(hw, m, a), b) && Safe(hw, Move(hw, m, a), b)
  {
    hide SrcInc, DstInc, Patch;
  }

  lemma SliceTwice(mem: seq<Byte>, lo: nat, a: nat, b: nat)
    requires lo + a + b <= |mem|
    ensures mem[lo..lo + a] + mem[lo + a..lo + a + b] == mem[lo..lo + a + b]
  {
  }

  lemma TakeTwice(s: seq<Byte>, a: nat, b: nat)
    requires a + b <= |s|
    ensures s[..a] + s[a..][..b] == s[..a + b] && s[a..][b..] == s[a + b..]
  {
  }

  lemma SourceTwiceInMemory(hw: Hw, m: Machine, a: nat, b: nat)
    requires CanMove(hw, m, a + b) && Safe(hw, m, a + b) && SrcInc(m.ccr)
    requires CanMove(hw, m, a) && CanMove(hw, Move(hw, m, a), b)
    ensures Source(hw, m, a) + Source(hw, Move(hw, m, a), b) == Source(hw, m, a + b)
  {
    hide SrcInc, DstInc, Patch;
    var s, m1 := hw.srcWindow + m.sar, Move(hw, m, a);
    assert Source(hw, m, a) == m.mem[s..s + a] && Source(hw, m, a + b) == m.mem[s..s + a + b];
    assert Source(hw, m1, b) == m1.mem[s + a..s + a + b];
    assert m1.mem[s + a..s + a + b] == m.mem[s + a..s + a + b] by {
      if DstInc(m.ccr) { ReadBesidePatch(m.mem, hw.dstWindow + m.dar, Source(hw, m, a), s + a, s + a + b); }
    }
    hide Source, Move, CanMove, Safe;
    SliceTwice(m.mem, s, a, b);
  }

  lemma SourceTwice(hw: Hw, m: Machine, a: nat, b: nat)
    requires CanMove(hw, m, a + b) && Safe(hw, m, a + b)
    requires CanMove(hw, m, a) && CanMove(hw, Move(hw, m, a), b)
    ensures Source(hw, m, a) + Source(hw, Move(hw, m, a), b) == Source(hw, m, a + b)
  {
    hide SrcInc, DstInc, Patch;
    if SrcInc(m.ccr) {
      hide Source, Move, Safe, CanMove;
      SourceTwiceInMemory(hw, m, a, b);
    } else {
      hide Safe;
      TakeTwice(m.input, a, b);
    }
  }

  lemma MoveTwiceToMemory(hw: Hw, m: Machine, a: nat, b: nat)
    requires CanMove(hw, m, a + b) && Safe(hw, m, a + b) && DstInc(m.ccr)
    ensures Move(hw, Move(hw, m, a), b) == Move(hw, m, a + b)
  {
    MoveRemains(hw, m, a, b);
    SourceTwice(hw, m, a, b);
    var s1, s2 := Source(hw, m, a), Source(hw, Move(hw, m, a), b);
    hide SrcInc, DstInc, Patch, Source;
    if !SrcInc(m.ccr) { TakeTwice(m.input, a, b); }
    PatchThen(m.mem, hw.dstWindow + m.dar, s1, s2);
  }

  lemma MoveTwiceToDevice(hw: Hw, m: Machine, a: nat, b: nat)
    requires CanMove(hw, m, a + b) && Safe(hw, m, a + b) && !DstInc(m.ccr)
    ensures Move(hw, Move(hw, m, a), b) == Move(hw, m, a + b)
  {
    MoveRemains(hw, m, a, b);
    SourceTwice(hw, m, a, b);
    var s1, s2 := Source(hw, m, a), Source(hw, Move(hw, m, a), b);
    hide SrcInc, DstInc, Source;
    if !SrcInc(m.ccr) { TakeTwice(m.input, a, b); }
    assert m.output + s1 + s2 == m.output + (s1 + s2);
  }

  lemma MoveTwice(hw: Hw, m: Machine, a: nat, b: nat)
    requires CanMove(hw, m, a + b) && Safe(hw, m, a + b)
    ensures Move(hw, Move(hw, m, a), b) == Move(hw, m, a + b)
    ensures CanMove(hw, m, a) && CanMove(hw, Move(hw, m, a), b) && Safe(hw, Move(hw, m, a), b)
  {
    MoveRemains(hw, m, a, b);
    hide CanMove, Safe, Move, SrcInc, DstInc;
    if DstInc(m.ccr) { MoveTwiceToMemory(hw, m, a, b); } else { MoveTwiceToDevice(hw, m, a, b); }
  }

  lemma MoveNothing(hw: Hw, m: Machine)
    requires CanMove(hw, m, 0)
    ensures Move(hw, m, 0) == m
  {
    hide SrcInc, DstInc;
  }

  // The same acts k times over.
  function Times(acts: seq<Act>, k: nat): seq<Act> { if k == 0 then [] else Times(acts, k - 1) + acts }

  /** Bursts one after another have the effect of one move of all their bytes. */
  lemma {:induction false} ManyIsMove(hw: Hw, m: Machine, acts: seq<Act>, n: nat, k: nat)
    requires CanMove(hw, m, n * k) && Safe(hw, m, n * k)
    ensures var m' := Many(hw, m, acts, n, k);
      m' == Move(hw, m, n * k).(request := m'.request, log := m.log + Times(acts, k))
    decreases k
  {
    if k == 0 {
      MoveNothing(hw, m);
      assert m.log + Times(acts, 0) == m.log;
    } else {
      var a := n * (k - 1);
      assert a + n == n * k;
      MoveTwice(hw, m, a, n);
      hide CanMove, Safe, Move;
      ManyIsMove(hw, m, acts, n, k - 1);
      var m1 := Many(hw, m, acts, n, k - 1);
      assert Many(hw, m, acts, n, k) == One(hw, m1, acts, n);
      TimesNext(m.log, acts, k);
      hide Many, Times;
      MoveControl(hw, Move(hw, m, a), n, m1.pc, m1.request, m1.log);
    }
  }

  lemma TimesNext(log: seq<Act>, acts: seq<Act>, k: nat)
    requires k >= 1
    ensures log + Times(acts, k - 1) + acts == log + Times(acts, k)
  {
  }

  // ----- the tail of reduced bursts -----

  predicate SameData(a: Machine, b: Machine) {
    && a.sar == b.sar && a.dar == b.dar && a.fifo == b.fifo && a.mem == b.mem && a.input == b.input
    && a.output == b.output && a.events == b.events && a.status == b.status
  }

  lemma MovRuns(hw: Hw, code: seq<Byte>, m: Machine, reg: Register, val: nat)
    requires val < TWO32 && m.status == Running && CodeAt(code, m.pc, Encode(Mov(reg, val)))
    ensures |Encode(Mov(reg, val))| == 6
    ensures var next := m.(pc := m.pc + 6);
      Reaches(hw, code, m, match reg
                           case SAR => next.(sar := val)
                           case DAR => next.(dar := val)
                           case CCR => next.(ccr := val))
  {
    hide Step, CodeAt, Reaches;
    StepAt(hw, code, m, Mov(reg, val));
  }

  lemma MoveSetting(hw: Hw, m: Machine, n: nat, ccr: nat, pc: nat)
    requires SrcInc(ccr) == SrcInc(m.ccr) && DstInc(ccr) == DstInc(m.ccr)
    ensures CanMove(hw, m.(ccr := ccr, pc := pc), n) == CanMove(hw, m, n)
    ensures Move(hw, m.(ccr := ccr, pc := pc), n) == Move(hw, m, n).(ccr := ccr, pc := pc)
  {
    hide SrcInc, DstInc, Patch;
  }

  lemma DregsRun(hw: Hw, code: seq<Byte>, m: Machine, d: Dmac, x: Xfer, len: nat) returns (m': Machine)
    requires m.ccr == x.ccr < TWO32 && Symmetric(x.ccr) && x.peri < 32 && Ready(m)
    requires len < SrcBeats(x.ccr) && BurstLen(x.ccr) <= hw.mfifo
    requires CanMove(hw, m, len * SrcBeatSize(x.ccr))
    requires CodeAt(code, m.pc, DregsCode(d, x, len))
    ensures Reaches(hw, code, m, m') && m'.pc == m.pc + |DregsCode(d, x, len)|
    ensures SameData(m', Move(hw, m, len * SrcBeatSize(x.ccr)))
    ensures m'.log == m.log + if len == 0 then [] else Acts(d, x, Burst)
  {
    hide Encode, Step, CodeAt, Reaches, TransferCode, WithBeats, CanMove, Move, SrcBeatSize, DstBeatSize, SrcInc,
      DstInc;
    if len == 0 {
      ReachesSelf(hw, code, m);
      MoveNothing(hw, m);
      return m;
    }
    var ccr := WithBeats(x.ccr, len);
    var mov, tail := Encode(Mov(CCR, ccr)), TransferCode(d, x, Burst);
    WithBeatsFields(x.ccr, len);
    MulMono(len, SrcBeats(x.ccr), SrcBeatSize(x.ccr));
    CodeAtSplit(code, m.pc, mov, tail);
    MovRuns(hw, code, m, CCR, ccr);
    var m1 := m.(ccr := ccr, pc := m.pc + 6);
    var n := len * SrcBeatSize(x.ccr);
    assert BurstLen(ccr) == n;
    MoveSetting(hw, m, n, ccr, m.pc + 6);
    hide SrcBeats, DstBeats, BurstLen;
    TransferRuns(hw, code, m1, d, x, Burst);
    m' := One(hw, m1, Acts(d, x, Burst), n).(pc := m1.pc + |tail|);
    ReachesTrans(hw, code, m, m1, m');
  }

  // ----- a whole request -----

  // The bytes a transfer moves: its whole beats.
  function Total(x: Xfer): nat { Div(x.bytes, SrcBeatSize(x.ccr)) * SrcBeatSize(x.ccr) }

  lemma TotalSplit(x: Xfer)
    ensures BurstBytes(x) <= x.bytes && Dregs(x) < SrcBeats(x.ccr)
    ensures BurstLen(x.ccr) * Bursts(x) + Dregs(x) * SrcBeatSize(x.ccr) == Total(x)
  {
    BurstsAndDregs(x);
    hide Bursts, Dregs, SrcBeats, SrcBeatSize;
    var b, l, s, r := Bursts(x), SrcBeats(x.ccr), SrcBeatSize(x.ccr), Dregs(x);
    assert (b * l + r) * s == b * l * s + r * s;
    assert l * s * b == b * l * s;
  }

  lemma BurstSetting(hw: Hw, m: Machine, d: Dmac, x: Xfer)
    requires m.ccr == x.ccr && Symmetric(x.ccr) && x.peri < 32 && Ready(m) && BurstLen(x.ccr) <= hw.mfifo
    ensures Setting(hw, m, x, BurstCond(d, x), BurstLen(x.ccr))
  {
    hide SrcBeatSize, DstBeatSize;
  }

  // The loops of a transfer: k full bursts of n bytes, as one move.
  lemma FullBurstsRun(hw: Hw, code: seq<Byte>, m: Machine, d: Dmac, x: Xfer, n: nat, k: nat) returns (m': Machine)
    requires CanMove(hw, m, n * k) && Safe(hw, m, n * k)
    requires Setting(hw, m, x, BurstCond(d, x), n) && Ready(m)
    requires 2 <= |BurstCode(d, x)| <= 6
    requires CodeAt(code, m.pc, LoopsCode(BurstCode(d, x), k))
    ensures Reaches(hw, code, m, m') && m'.pc == m.pc + |LoopsCode(BurstCode(d, x), k)|
    ensures m' == Ctl(Move(hw, m, n * k).(request := m'.request, log := m.log + Times(Acts(d, x, BurstCond(d, x)), k)),
                      m'.pc, m'.lc0, m'.lc1)
  {
    hide CanMove, Safe, Move, LoopsCode, TransferCode, CodeAt, Reaches, Many, BurstCond, Setting;
    var cond := BurstCond(d, x);
    ManyIsMove(hw, m, Acts(d, x, cond), n, k);
    MoveRunning(hw, m, n * k);
    LoopsRuns(hw, code, m, d, x, cond, n, k);
    var m1 := Many(hw, m, Acts(d, x, cond), n, k);
    var pc := m.pc + |LoopsCode(BurstCode(d, x), k)|;
    var a: nat, b: nat :| Reaches(hw, code, m, Ctl(m1, pc, a, b));
    m' := Ctl(m1, pc, a, b);
  }

  // All a transfer does on the buses: one round for each full burst, waiting for a burst
  // request unless bursts are of one beat, and one burst for the beats that are left.
  function Activity(d: Dmac, x: Xfer): seq<Act> {
    var beats, len := Div(x.bytes, SrcBeatSize(x.ccr)), SrcBeats(x.ccr);
    Times(Acts(d, x, if d.periphBurst || len > 1 then Burst else Single), Div(beats, len))
    + if beats % len == 0 then [] else Acts(d, x, Burst)
  }

  lemma ActivitySplit(d: Dmac, x: Xfer)
    requires BurstBytes(x) <= x.bytes
    ensures Activity(d, x)
      == Times(Acts(d, x, BurstCond(d, x)), Bursts(x)) + if Dregs(x) == 0 then [] else Acts(d, x, Burst)
  {
    BurstsAndDregs(x);
    hide Acts, Times, Pow2;
    var beats, len := Div(x.bytes, SrcBeatSize(x.ccr)), SrcBeats(x.ccr);
    assert beats == Bursts(x) * len + Dregs(x) && Dregs(x) < len;
    Peel(Dregs(x), len, Bursts(x));
  }

  lemma SetupLoopsRun(hw: Hw, code: seq<Byte>, m: Machine, d: Dmac, x: Xfer) returns (m': Machine)
    requires m.ccr == x.ccr < TWO32 && Symmetric(x.ccr) && x.peri < 32 && Ready(m)
    requires BurstLen(x.ccr) <= hw.mfifo && CanMove(hw, m, Total(x)) && Safe(hw, m, Total(x))
    requires 2 <= |BurstCode(d, x)| <= 6 && BurstBytes(x) <= x.bytes
    requires CodeAt(code, m.pc, SetupLoopsCode(d, x))
    ensures Reaches(hw, code, m, m') && m'.pc == m.pc + |SetupLoopsCode(d, x)|
    ensures SameData(m', Move(hw, m, Total(x))) && m'.log == m.log + Activity(d, x)
  {
    hide Bursts, Dregs, BurstBytes, SrcBeats, DstBeats, SrcBeatSize, DstBeatSize, BurstLen, Total,
      Symmetric, CanMove, Safe, Move, LoopsCode, BurstCode, CodeAt, Reaches, DregsCode, Setting, Acts, Times, Activity,
      BurstCond;
    TotalSplit(x);
    var n, r := BurstLen(x.ccr) * Bursts(x), Dregs(x) * SrcBeatSize(x.ccr);
    var loops, tail := LoopsCode(BurstCode(d, x), Bursts(x)), DregsCode(d, x, Dregs(x));
    CodeAtSplit(code, m.pc, loops, tail);
    MoveTwice(hw, m, n, r);
    SafeLess(hw, m, n, r);
    MoveRunning(hw, m, n);
    MoveKeepsCcr(hw, m, n);
    BurstSetting(hw, m, d, x);
    var m1 := FullBurstsRun(hw, code, m, d, x, BurstLen(x.ccr), Bursts(x));
    MoveCtl(hw, Move(hw, m, n), r, m1.request, m1.log, m1.pc, m1.lc0, m1.lc1);
    m' := DregsRun(hw, code, m1, d, x, Dregs(x));
    ActivitySplit(d, x);
    assert m.log + Times(Acts(d, x, BurstCond(d, x)), Bursts(x)) + (if Dregs(x) == 0 then [] else Acts(d, x, Burst))
        == m.log + Activity(d, x);
    ReachesTrans(hw, code, m, m1, m');
  }

  lemma SafeLess(hw: Hw, m: Machine, a: nat, b: nat)
    requires Safe(hw, m, a + b)
    ensures Safe(hw, m, a)
  {
  }

  lemma MoveKeepsCcr(hw: Hw, m: Machine, n: nat)
    ensures Move(hw, m, n).ccr == m.ccr
  {
    hide SrcInc, DstInc, Patch;
  }

  lemma MoveCtl(hw: Hw, m: Machine, n: nat, request: Cond, log: seq<Act>, pc: nat, lc0: nat, lc1: nat)
    ensures var c := Ctl(m.(request := request, log := log), pc, lc0, lc1);
      CanMove(hw, c, n) == CanMove(hw, m, n) && SameData(Move(hw, c, n), Move(hw, m, n))
  {
    hide SrcInc, DstInc, Patch;
  }

  // The channel once the three DMAMOVs of a request are done.
  function Programmed(x: Xfer, m: Machine): Machine {
    m.(ccr := x.ccr, sar := x.src % TWO32, dar := x.dst % TWO32, pc := m.pc + 18)
  }

  lemma XferRun(hw: Hw, code: seq<Byte>, m: Machine, d: Dmac, x: Xfer) returns (m': Machine)
    requires x.ccr < TWO32 && Symmetric(x.ccr) && x.peri < 32 && Ready(m)
    requires BurstLen(x.ccr) <= hw.mfifo
    requires CanMove(hw, Programmed(x, m), Total(x)) && Safe(hw, Programmed(x, m), Total(x))
    requires CodeAt(code, m.pc, Encode(Mov(CCR, x.ccr)) + XferCode(d, x))
    ensures Reaches(hw, code, m, m') && m'.pc == m.pc + |Encode(Mov(CCR, x.ccr)) + XferCode(d, x)|
    ensures SameData(m', Move(hw, Programmed(x, m), Total(x))) && m'.log == m.log + Activity(d, x)
  {
    BurstSize(d, x);
    BurstsAndDregs(x);
    hide Encode, BurstLen, Total, Symmetric, CanMove, Safe, Move, CodeAt, Reaches, SetupLoopsCode, BurstCode,
      BurstBytes, Activity, Bursts, Dregs, SrcBeats, SrcBeatSize;
    var ccr, src, dst := Encode(Mov(CCR, x.ccr)), Encode(Mov(SAR, x.src % TWO32)), Encode(Mov(DAR, x.dst % TWO32));
    var loops := SetupLoopsCode(d, x);
    CodeAtSplit(code, m.pc, ccr, src + dst + loops);
    CodeAtSplit(code, m.pc + |ccr|, src + dst, loops);
    CodeAtSplit(code, m.pc + |ccr|, src, dst);
    MovRuns(hw, code, m, CCR, x.ccr);
    var m1 := m.(ccr := x.ccr, pc := m.pc + 6);
    MovRuns(hw, code, m1, SAR, x.src % TWO32);
    var m2 := m1.(sar := x.src % TWO32, pc := m.pc + 12);
    MovRuns(hw, code, m2, DAR, x.dst % TWO32);
    var m3 := Programmed(x, m);
    m' := SetupLoopsRun(hw, code, m3, d, x);
    ReachesTrans(hw, code, m, m1, m2);
    ReachesTrans(hw, code, m, m2, m3);
    ReachesTrans(hw, code, m, m3, m');
  }

  // What the driver's callers guarantee of a request: a register from _prepare_ccr,
  // bursts that fit the channel's share of the MFIFO, a transfer that stays inside
  // the 4 GiB windows and memory (or the bytes the device delivers), and no
  // memory-to-memory overlap that runs into unread source bytes.
  predicate Acceptable(hw: Hw, x: Xfer, m: Machine) {
    && x.ccr < TWO32 && Symmetric(x.ccr) && x.peri < 32 && BurstLen(x.ccr) <= hw.mfifo
    && CanMove(hw, Programmed(x, m), Total(x)) && Safe(hw, Programmed(x, m), Total(x))
  }

  lemma SevEndRuns(hw: Hw, code: seq<Byte>, m: Machine, ev: nat)
    requires ev < 32 && m.status == Running && CodeAt(code, m.pc, Encode(Sev(ev)) + Encode(End))
    ensures Reaches(hw, code, m,
                    m.(pc := m.pc + 2, events := m.events + [Event(ev, m.mem, m.output)], status := Stopped))
  {
    assert |Encode(Sev(ev))| == 2;
    CodeAtSplit(code, m.pc, Encode(Sev(ev)), Encode(End));
    var m1 := m.(pc := m.pc + 2, events := m.events + [Event(ev, m.mem, m.output)]);
    hide Step, CodeAt, Reaches, Encode;
    StepAt(hw, code, m, Sev(ev));
    StepAt(hw, code, m1, End);
    ReachesTrans(hw, code, m, m1, m1.(status := Stopped));
  }

  lemma ReqRun(hw: Hw, code: seq<Byte>, m: Machine, d: Dmac, x: Xfer, ev: nat) returns (m': Machine)
    requires Acceptable(hw, x, m) && Ready(m) && ev < 32 && CodeAt(code, m.pc, ReqCode(d, x, ev))
    ensures Reaches(hw, code, m, m') && m'.status == Stopped
    ensures var z := Move(hw, Programmed(x, m), Total(x));
      SameData(m', z.(events := m.events + [Event(ev, z.mem, z.output)], status := Stopped))
    ensures m'.log == m.log + Activity(d, x)
  {
    MoveRunning(hw, Programmed(x, m), Total(x));
    hide Encode, BurstLen, Total, Symmetric, CanMove, Safe, Move, Reaches, XferCode, Activity;
    var xfer, fin := Encode(Mov(CCR, x.ccr)) + XferCode(d, x), Encode(Sev(ev)) + Encode(End);
    assert ReqCode(d, x, ev) == xfer + fin;
    CodeAtSplit(code, m.pc, xfer, fin);
    hide CodeAt;
    var m1 := XferRun(hw, code, m, d, x);
    MoveEvents(hw, Programmed(x, m), Total(x));
    SevEndRuns(hw, code, m1, ev);
    m' := m1.(pc := m1.pc + 2, events := m1.events + [Event(ev, m1.mem, m1.output)], status := Stopped);
    ReachesTrans(hw, code, m, m1, m');
  }

  lemma MoveEvents(hw: Hw, m: Machine, n: nat)
    ensures Move(hw, m, n).events == m.events
  {
    hide SrcInc, DstInc, Patch;
  }

  /**
  Compiler correctness. Interpreting the generated bytes, wherever they stand in the
  microcode buffer, stops; the whole beats of the transfer went from source to
  destination in order and nothing else changed in memory or at the devices; the
  channel's event was raised once, after the data in program order; and no other
  outcome is possible.
  */
  lemma CompilerCorrect(hw: Hw, code: seq<Byte>, m: Machine, d: Dmac, x: Xfer, ev: nat) returns (m': Machine)
    requires Acceptable(hw, x, m) && Ready(m) && ev < 32 && CodeAt(code, m.pc, ReqCode(d, x, ev))
    ensures Outcome(hw, code, m, d, x, ev, m')
  {
    m' := ReqRun(hw, code, m, d, x, ev);
    MoveMeaning(hw, x, m);
    hide Patch, SrcInc, DstInc, ReqCode, Reaches, SrcBeatSize, Total, Move, CodeAt, Activity;
    forall o | Reaches(hw, code, m, o) && o.status != Running
      ensures o == m'
    {
      OutcomeUnique(hw, code, m, o, m');
    }
  }

  // The only outcome of executing `code` from m is m', in which transfer x is done.
  ghost predicate Outcome(hw: Hw, code: seq<Byte>, m: Machine, d: Dmac, x: Xfer, ev: nat, m': Machine) {
    && Reaches(hw, code, m, m') && m'.status == Stopped
    && (forall o :: Reaches(hw, code, m, o) && o.status != Running ==> o == m')
    && m'.events == m.events + [Event(ev, m'.mem, m'.output)]
    && Moved(hw, m, x, m') && m'.log == m.log + Activity(d, x)
  }

  // m' is m with the whole beats of x moved.
  ghost predicate Moved(hw: Hw, m: Machine, x: Xfer, m': Machine) {
    var n, s, t := Total(x), hw.srcWindow + x.src % TWO32, hw.dstWindow + x.dst % TWO32;
    && n <= x.bytes < n + SrcBeatSize(x.ccr)
    && (SrcInc(x.ccr) ==> s + n <= |m.mem| && m'.input == m.input)
    && (!SrcInc(x.ccr) ==> n <= |m.input| && m'.input == m.input[n..])
    && (DstInc(x.ccr) ==> t + n <= |m.mem| && m'.output == m.output)
    && (DstInc(x.ccr) ==> m'.mem == Patch(m.mem, t, if SrcInc(x.ccr) then m.mem[s..s + n] else m.input[..n]))
    && (!DstInc(x.ccr) ==> m'.mem == m.mem)
    && (!DstInc(x.ccr) ==> m'.output == m.output + if SrcInc(x.ccr) then m.mem[s..s + n] else m.input[..n])
  }

  lemma MoveMeaning(hw: Hw, x: Xfer, m: Machine)
    requires Acceptable(hw, x, m)
    ensures Moved(hw, m, x, Move(hw, Programmed(x, m), Total(x)))
  {
    DivTimes(x.bytes, SrcBeatSize(x.ccr));
    hide Patch, SrcInc, DstInc, SrcBeatSize, BurstLen, Symmetric;
  }
}
