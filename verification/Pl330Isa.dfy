/**
The DMA channel thread of the PL330 (ARM DMA-330): instruction encoding as the
driver emits it, decoding, and a small-step interpreter over raw microcode bytes.
Instruction semantics follow section 4.3 of the DMA-330 TRM (DDI 0424).

Bytes and registers are integers; a C expression `x | bit` whose bit is clear in
`x` is written as a sum, and a cast to u8 or u32 as a remainder.
*/
module Pl330Isa {
  import opened Common

  type Byte = x: int | 0 <= x < 256

  datatype Cond = Single | Burst | Always

  datatype Register = SAR | CCR | DAR

  datatype Insn =
    | End
    | FlushP(peri: nat)
    | Ld(cond: Cond)
    | LdP(cond: Cond, peri: nat)
    | Lp(loop: nat, iterations: nat)
    | LpEnd(cond: Cond, forever: bool, loop: nat, bjump: nat)
    | Mov(reg: Register, val: nat)
    | Nop
    | Rmb
    | Sev(ev: nat)
    | St(cond: Cond)
    | StP(cond: Cond, peri: nat)
    | Wfp(cond: Cond, peri: nat)
    | Wmb

  // ----- encoding: what the _emit_* functions leave in the buffer -----

  function CondBits(cond: Cond): Byte {
    match cond
    case Single => 1
    case Burst => 3
    case Always => 0
  }

  // buf[1] = dst in _emit_MOV, with SAR = 0, CCR, DAR
  function RegisterCode(reg: Register): Byte {
    match reg
    case SAR => 0
    case CCR => 1
    case DAR => 2
  }

  // (x & 0x1f) << 3 in a u8
  function Index5(x: nat): Byte {
    x % 32 * 8
  }

  function Le32(v: nat): seq<Byte> {
    [v % 256, v / 256 % 256, v / 0x1_0000 % 256, v / 0x100_0000 % 256]
  }

  // cnt is a u8 parameter and is decremented before it is stored, so that a
  // caller's 256 arrives as 0 and is stored as 255.
  function LoopByte(cnt: nat): Byte {
    (cnt % 256 + 255) % 256
  }

  function Encode(i: Insn): seq<Byte> {
    match i
    case End => [0x00]
    case FlushP(peri) => [0x35, Index5(peri)]
    case Ld(cond) => [0x04 + CondBits(cond)]
    case LdP(cond, peri) => [if cond == Burst then 0x27 else 0x25, Index5(peri)]
    case Lp(loop, n) => [if loop != 0 then 0x22 else 0x20, LoopByte(n)]
    case LpEnd(cond, forever, loop, bjump) =>
      [0x28 + (if loop != 0 then 4 else 0) + (if forever then 0 else 16) + CondBits(cond), bjump % 256]
    case Mov(reg, val) => [0xbc, RegisterCode(reg)] + Le32(val)
    case Nop => [0x18]
    case Rmb => [0x12]
    case Sev(ev) => [0x34, Index5(ev)]
    case St(cond) => [0x08 + CondBits(cond)]
    case StP(cond, peri) => [if cond == Burst then 0x2b else 0x29, Index5(peri)]
    case Wfp(cond, peri) =>
      [match cond case Single => 0x30 case Burst => 0x32 case Always => 0x31, Index5(peri)]
    case Wmb => [0x13]
  }

  // ----- decoding, by opcode byte -----

  datatype Decoded = Insn(insn: Insn, size: nat) | Undefined

  function CondOf(bits: nat): Cond {
    if bits % 2 == 0 then Always else if bits / 2 % 2 == 0 then Single else Burst
  }

  function Word(b: seq<Byte>): nat
    requires |b| >= 4
  {
    var b0: int, b1: int, b2: int, b3: int := b[0], b[1], b[2], b[3];
    b0 + 256 * b1 + 0x1_0000 * b2 + 0x100_0000 * b3
  }

  function Decode1(op: Byte): Decoded {
    if op == 0x00 then Insn(End, 1)
    else if op == 0x04 || op == 0x05 || op == 0x07 then Insn(Ld(CondOf(op % 4)), 1)
    else if op == 0x08 || op == 0x09 || op == 0x0b then Insn(St(CondOf(op % 4)), 1)
    else if op == 0x12 then Insn(Rmb, 1)
    else if op == 0x13 then Insn(Wmb, 1)
    else if op == 0x18 then Insn(Nop, 1)
    else Undefined
  }

  function Decode2(op: Byte, arg: Byte): Decoded {
    if op == 0x20 || op == 0x22 then Insn(Lp(op / 2 % 2, arg + 1), 2)
    else if op == 0x25 || op == 0x27 then Insn(LdP(if op == 0x27 then Burst else Single, arg / 8), 2)
    else if op == 0x29 || op == 0x2b then Insn(StP(if op == 0x2b then Burst else Single, arg / 8), 2)
    else if 0x38 <= op < 0x40 && op % 4 != 2 then
      Insn(LpEnd(CondOf(op % 4), false, (op - 0x38) / 4, arg), 2)
    else if op == 0x2c then Insn(LpEnd(Always, true, 1, arg), 2)
    else if op == 0x30 then Insn(Wfp(Single, arg / 8), 2)
    else if op == 0x31 then Insn(Wfp(Always, arg / 8), 2)
    else if op == 0x32 then Insn(Wfp(Burst, arg / 8), 2)
    else if op == 0x34 then Insn(Sev(arg / 8), 2)
    else if op == 0x35 then Insn(FlushP(arg / 8), 2)
    else Undefined
  }

  function DecodeMov(b: seq<Byte>): Decoded
    requires |b| >= 6
  {
    var v := Word(b[2..]);
    if b[1] == 0 then Insn(Mov(SAR, v), 6)
    else if b[1] == 1 then Insn(Mov(CCR, v), 6)
    else if b[1] == 2 then Insn(Mov(DAR, v), 6)
    else Undefined
  }

  function Decode(b: seq<Byte>): Decoded {
    if |b| == 0 then Undefined
    else if Decode1(b[0]).Insn? then Decode1(b[0])
    else if b[0] == 0xbc then (if |b| < 6 then Undefined else DecodeMov(b))
    else if |b| < 2 then Undefined
    else Decode2(b[0], b[1])
  }

  // Operands the driver's encoding can carry without loss; a loop for ever has no
  // counter and no condition, and is closed as loop 1.
  predicate Encodable(i: Insn) {
    match i
    case FlushP(peri) => peri < 32
    case LdP(cond, peri) => cond != Always && peri < 32
    case Lp(loop, n) => loop < 2 && 1 <= n <= 256
    case LpEnd(cond, forever, loop, bjump) => loop < 2 && bjump < 256 && (forever ==> cond == Always && loop == 1)
    case Mov(reg, val) => val < TWO32
    case Sev(ev) => ev < 32
    case StP(cond, peri) => cond != Always && peri < 32
    case Wfp(cond, peri) => peri < 32
    case _ => true
  }

  lemma Le32RoundTrip(v: nat)
    requires v < TWO32
    ensures Word(Le32(v)) == v
  {
    var a := v / 256;
    var b := a / 256;
    assert b == v / 0x1_0000;
    assert b / 256 == v / 0x100_0000;
  }

  lemma DecodeEncodeMov(reg: Register, val: nat, rest: seq<Byte>)
    requires val < TWO32
    ensures Decode(Encode(Mov(reg, val)) + rest) == Insn(Mov(reg, val), 6)
  {
    var b := Encode(Mov(reg, val)) + rest;
    assert b[0] == 0xbc && b[1] == RegisterCode(reg);
    assert b[2] == Le32(val)[0] && b[3] == Le32(val)[1] && b[4] == Le32(val)[2] && b[5] == Le32(val)[3];
    assert Word(b[2..]) == Word(Le32(val));
    Le32RoundTrip(val);
  }

  lemma DecodeLpEnd(cond: Cond, loop: nat, bjump: Byte)
    requires loop < 2
    ensures Decode2(0x38 + 4 * loop + CondBits(cond), bjump) == Insn(LpEnd(cond, false, loop, bjump), 2)
  {
    var op := 0x38 + 4 * loop + CondBits(cond);
    assert op == 0x38 || op == 0x39 || op == 0x3b || op == 0x3c || op == 0x3d || op == 0x3f;
  }

  lemma Index5Inverse(x: nat)
    requires x < 32
    ensures Index5(x) / 8 == x
  {
  }

  // A count of 256 survives its trip through a u8.
  lemma LoopByteInverse(n: nat)
    requires 1 <= n <= 256
    ensures LoopByte(n) == n - 1
  {
  }

  lemma DecodeEncodePair(i: Insn)
    requires Encodable(i) && !i.Mov? && !i.LpEnd? && |Encode(i)| == 2
    ensures Decode2(Encode(i)[0], Encode(i)[1]) == Insn(i, 2)
    ensures !Decode1(Encode(i)[0]).Insn? && Encode(i)[0] != 0xbc
  {
    hide Index5, LoopByte;
    match i {
      case Lp(loop, n) => LoopByteInverse(n);
      case LdP(_, peri) => Index5Inverse(peri);
      case StP(_, peri) => Index5Inverse(peri);
      case Wfp(_, peri) => Index5Inverse(peri);
      case FlushP(peri) => Index5Inverse(peri);
      case Sev(ev) => Index5Inverse(ev);
    }
  }

  /** Decoding recovers every instruction the driver emits, whatever follows it in the buffer. */
  lemma DecodeEncode(i: Insn, rest: seq<Byte>)
    requires Encodable(i)
    ensures Decode(Encode(i) + rest) == Insn(i, |Encode(i)|)
  {
    if i.Mov? {
      DecodeEncodeMov(i.reg, i.val, rest);
    } else if i.LpEnd? {
      if !i.forever { DecodeLpEnd(i.cond, i.loop, i.bjump); }
    } else {
      var b := Encode(i) + rest;
      assert b[0] == Encode(i)[0];
      if |Encode(i)| == 2 {
        assert b[1] == Encode(i)[1];
        DecodeEncodePair(i);
      }
    }
  }

  // ----- channel control register -----

  function BeatsOf(field: nat): nat { field % 16 + 1 }

  function Pow2(e: nat): (r: nat)
    ensures r >= 1
  {
    if e == 0 then 1 else 2 * Pow2(e - 1)
  }

  predicate SrcInc(ccr: nat) { ccr % 2 == 1 }
  predicate DstInc(ccr: nat) { ccr / 0x4000 % 2 == 1 }

  function SrcBeats(ccr: nat): nat { BeatsOf(ccr / 16) }
  function DstBeats(ccr: nat): nat { BeatsOf(ccr / 0x4_0000) }
  function SrcBeatSize(ccr: nat): nat { Pow2(ccr / 2 % 8) }
  function DstBeatSize(ccr: nat): nat { Pow2(ccr / 0x8000 % 8) }

  // ----- the machine -----

  // mfifo: bytes of MFIFO this channel may hold. srcWindow/dstWindow: bases of
  // the 4 GiB windows that the address wrapper selects for reads and writes.
  datatype Hw = Hw(mfifo: nat, srcWindow: nat, dstWindow: nat)

  datatype Status = Running | Stopped | Faulted

  // An event carries what memory and the device had received when it was raised.
  datatype Event = Event(ev: nat, mem: seq<Byte>, output: seq<Byte>)

  // What a channel does on its buses, in program order: it waits for a request of a
  // peripheral, reads or writes a burst, acknowledging a peripheral or none, asks a
  // peripheral for its request again, or waits for its reads or writes to be done.
  datatype Act =
    | Waits(cond: Cond, peri: nat)
    | Reads(ack: Option<nat>)
    | Writes(ack: Option<nat>)
    | Flushes(peri: nat)
    | ReadBarrier
    | WriteBarrier

  // input: bytes the source device will still deliver; output: bytes the
  // destination device has received. FIXED (non-incrementing) bursts go there.
  datatype Machine = Machine(
    pc: nat, sar: nat, dar: nat, ccr: nat, lc0: nat, lc1: nat,
    request: Cond,
    fifo: seq<Byte>, mem: seq<Byte>, input: seq<Byte>, output: seq<Byte>,
    events: seq<Event>, log: seq<Act>, status: Status)

  function Fault(m: Machine): Machine { m.(status := Faulted) }

  function Patch<T>(s: seq<T>, at: nat, data: seq<T>): (r: seq<T>)
    requires at + |data| <= |s|
    ensures |r| == |s|
  {
    s[..at] + data + s[at + |data|..]
  }

  // A conditional transfer runs only if the last DMAWFP set that request type;
  // a single transfer ignores the burst length.
  predicate Enabled(cond: Cond, request: Cond) {
    cond == Always || cond == request
  }

  function Load(hw: Hw, m: Machine, beats: nat): Machine {
    var n := beats * SrcBeatSize(m.ccr);
    if |m.fifo| + n > hw.mfifo then Fault(m)
    else if SrcInc(m.ccr) then
      if m.sar + n > TWO32 || hw.srcWindow + m.sar + n > |m.mem| then Fault(m)
      else m.(fifo := m.fifo + m.mem[hw.srcWindow + m.sar..hw.srcWindow + m.sar + n], sar := m.sar + n)
    else if n > |m.input| then Fault(m)
    else m.(fifo := m.fifo + m.input[..n], input := m.input[n..])
  }

  function Store(hw: Hw, m: Machine, beats: nat): Machine {
    var n := beats * DstBeatSize(m.ccr);
    if n > |m.fifo| then Fault(m)
    else if DstInc(m.ccr) then
      if m.dar + n > TWO32 || hw.dstWindow + m.dar + n > |m.mem| then Fault(m)
      else m.(mem := Patch(m.mem, hw.dstWindow + m.dar, m.fifo[..n]), fifo := m.fifo[n..], dar := m.dar + n)
    else m.(output := m.output + m.fifo[..n], fifo := m.fifo[n..])
  }

  function Logged(m: Machine, a: Act): Machine { m.(log := m.log + [a]) }

  // Effect of one instruction; size is its length in bytes.
  function Execute(hw: Hw, m: Machine, i: Insn, size: nat): Machine {
    var next := m.(pc := m.pc + size);
    match i
    case End => m.(status := Stopped)
    case Ld(cond) =>
      if !Enabled(cond, m.request) then next
      else Load(hw, Logged(next, Reads(None)), if cond == Single then 1 else SrcBeats(m.ccr))
    case LdP(cond, peri) =>
      if !Enabled(cond, m.request) then next
      else Load(hw, Logged(next, Reads(Some(peri))), if cond == Single then 1 else SrcBeats(m.ccr))
    case St(cond) =>
      if !Enabled(cond, m.request) then next
      else Store(hw, Logged(next, Writes(None)), if cond == Single then 1 else DstBeats(m.ccr))
    case StP(cond, peri) =>
      if !Enabled(cond, m.request) then next
      else Store(hw, Logged(next, Writes(Some(peri))), if cond == Single then 1 else DstBeats(m.ccr))
    case Lp(loop, n) =>
      var c := if n == 0 then 255 else n - 1;
      if loop == 0 then next.(lc0 := c) else next.(lc1 := c)
    case LpEnd(cond, forever, loop, bjump) =>
      if !Enabled(cond, m.request) then next
      else if bjump > m.pc then Fault(m)
      else if forever then m.(pc := m.pc - bjump)
      else if loop == 0 then
        if m.lc0 > 0 then m.(pc := m.pc - bjump, lc0 := m.lc0 - 1) else next
      else
        if m.lc1 > 0 then m.(pc := m.pc - bjump, lc1 := m.lc1 - 1) else next
    case Mov(reg, val) =>
      (match reg
       case SAR => next.(sar := val)
       case DAR => next.(dar := val)
       case CCR => next.(ccr := val))
    case Sev(ev) => next.(events := m.events + [Event(ev, m.mem, m.output)])
    case Wfp(cond, peri) => Logged(next.(request := cond), Waits(cond, peri))
    case FlushP(peri) => Logged(next, Flushes(peri))
    case Nop => next
    case Rmb => Logged(next, ReadBarrier)
    case Wmb => Logged(next, WriteBarrier)
  }

  function Step(hw: Hw, code: seq<Byte>, m: Machine): Machine {
    if m.status != Running then m
    else if m.pc >= |code| then Fault(m)
    else match Decode(code[m.pc..])
      case Insn(i, size) => Execute(hw, m, i, size)
      case Undefined => Fault(m)
  }

  function Steps(hw: Hw, code: seq<Byte>, m: Machine, n: nat): Machine
    decreases n
  {
    if n == 0 then m else Steps(hw, code, Step(hw, code, m), n - 1)
  }

  lemma {:induction false} StepsAdd(hw: Hw, code: seq<Byte>, m: Machine, a: nat, b: nat)
    ensures Steps(hw, code, m, a + b) == Steps(hw, code, Steps(hw, code, m, a), b)
    decreases a
  {
    if a > 0 {
      StepsAdd(hw, code, Step(hw, code, m), a - 1, b);
    }
  }

  ghost predicate Reaches(hw: Hw, code: seq<Byte>, m: Machine, m': Machine) {
    exists n: nat :: Steps(hw, code, m, n) == m'
  }

  lemma ReachesTrans(hw: Hw, code: seq<Byte>, a: Machine, b: Machine, c: Machine)
    requires Reaches(hw, code, a, b) && Reaches(hw, code, b, c)
    ensures Reaches(hw, code, a, c)
  {
    var i: nat :| Steps(hw, code, a, i) == b;
    var j: nat :| Steps(hw, code, b, j) == c;
    StepsAdd(hw, code, a, i, j);
  }

  /** A stopped machine stays where it is, so the state reached at DMAEND is the outcome of the run. */
  lemma {:induction false} StoppedIsFinal(hw: Hw, code: seq<Byte>, m: Machine, n: nat)
    requires m.status != Running
    ensures Steps(hw, code, m, n) == m
  {
    if n > 0 {
      StoppedIsFinal(hw, code, m, n - 1);
    }
  }

  /** Reaching a stopped state fixes the outcome of the run: no other stopped state is reachable. */
  lemma OutcomeUnique(hw: Hw, code: seq<Byte>, m: Machine, a: Machine, b: Machine)
    requires Reaches(hw, code, m, a) && a.status != Running
    requires Reaches(hw, code, m, b) && b.status != Running
    ensures a == b
  {
    var i: nat :| Steps(hw, code, m, i) == a;
    var j: nat :| Steps(hw, code, m, j) == b;
    if i <= j {
      StepsAdd(hw, code, m, i, j - i);
      StoppedIsFinal(hw, code, a, j - i);
    } else {
      StepsAdd(hw, code, m, j, i - j);
      StoppedIsFinal(hw, code, b, i - j);
    }
  }

  ghost predicate CodeAt(code: seq<Byte>, at: nat, part: seq<Byte>) {
    at + |part| <= |code| && code[at..at + |part|] == part
  }

  lemma CodeAtSplit(code: seq<Byte>, at: nat, a: seq<Byte>, b: seq<Byte>)
    requires CodeAt(code, at, a + b)
    ensures CodeAt(code, at, a) && CodeAt(code, at + |a|, b)
  {
    var w := code[at..at + |a + b|];
    assert code[at..at + |a|] == w[..|a|];
    assert code[at + |a|..at + |a| + |b|] == w[|a|..];
  }

  /** One step at an encoded instruction has that instruction's effect. */
  lemma StepAt(hw: Hw, code: seq<Byte>, m: Machine, i: Insn)
    requires Encodable(i) && m.status == Running && CodeAt(code, m.pc, Encode(i))
    ensures Step(hw, code, m) == Execute(hw, m, i, |Encode(i)|)
    ensures Reaches(hw, code, m, Execute(hw, m, i, |Encode(i)|))
  {
    assert |Encode(i)| >= 1;
    var k := |Encode(i)|;
    assert code[m.pc..] == Encode(i) + code[m.pc + k..];
    DecodeEncode(i, code[m.pc + k..]);
    assert Steps(hw, code, m, 1) == Step(hw, code, m);
  }
}
