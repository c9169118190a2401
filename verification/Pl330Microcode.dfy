/**
The microcode generator of drivers/dma/pl330.c: from a transfer to the bytes in a
request's buffer. Each function gives the bytes a C function produces; each method
writes them into the buffer the way the C code does, or only counts them when
`dry` is set.
*/
module Pl330Microcode {
  import opened Arith
  import opened Common
  import opened Pl330Isa

  datatype Direction = MemToMem | MemToDev | DevToMem

  // lockupFree: revision R1P0 or later; noFlushp and periphBurst: the two quirks.
  datatype Dmac = Dmac(lockupFree: bool, noFlushp: bool, periphBurst: bool)

  datatype Xfer = Xfer(ccr: nat, dir: Direction, peri: nat, src: nat, dst: nat, bytes: nat)

  // ----- bytes -----

  function Assemble(insns: seq<Insn>): seq<Byte> {
    if insns == [] then [] else Encode(insns[0]) + Assemble(insns[1..])
  }

  function Repeat(code: seq<Byte>, n: nat): seq<Byte> {
    if n == 0 then [] else Repeat(code, n - 1) + code
  }

  lemma {:induction false} RepeatLength(code: seq<Byte>, n: nat)
    ensures |Repeat(code, n)| == |code| * n
  {
    if n > 0 {
      RepeatLength(code, n - 1);
      assert |code| * n == |code| * (n - 1) + |code|;
    }
  }

  lemma RepeatOnce(code: seq<Byte>)
    ensures Repeat(code, 1) == code
  {
  }

  lemma {:induction false} RepeatGrows(code: seq<Byte>, k: nat, n: nat)
    requires k <= n
    ensures |Repeat(code, k)| <= |Repeat(code, n)|
  {
    if k < n {
      RepeatGrows(code, k, n - 1);
    }
  }

  function MemToMemInsns(d: Dmac): seq<Insn> {
    if d.lockupFree then [Ld(Always), St(Always)] else [Ld(Always), Rmb, St(Always), Wmb]
  }

  function LoadInsns(cond: Cond, x: Xfer): seq<Insn> {
    match x.dir
    case MemToMem => [Ld(cond)]
    case MemToDev => [Ld(cond)]
    case DevToMem => if cond == Always then [LdP(Single, x.peri), LdP(Burst, x.peri)] else [LdP(cond, x.peri)]
  }

  function StoreInsns(cond: Cond, x: Xfer): seq<Insn> {
    match x.dir
    case MemToMem => [St(cond)]
    case DevToMem => [St(cond)]
    case MemToDev => if cond == Always then [StP(Single, x.peri), St(Burst)] else [St(cond)]
  }

  function FlushInsns(d: Dmac, x: Xfer): seq<Insn> {
    if x.dir == MemToDev && !d.noFlushp then [FlushP(x.peri)] else []
  }

  function PeripheralInsns(d: Dmac, x: Xfer, cond: Cond): seq<Insn> {
    [Wfp(cond, x.peri)] + LoadInsns(cond, x) + StoreInsns(cond, x) + FlushInsns(d, x)
  }

  // The condition of a full burst: single transfers only for one-beat bursts.
  function BurstCond(d: Dmac, x: Xfer): Cond {
    if d.periphBurst || SrcBeats(x.ccr) > 1 then Burst else Single
  }

  function TransferInsns(d: Dmac, x: Xfer, cond: Cond): seq<Insn> {
    if x.dir == MemToMem then MemToMemInsns(d) else PeripheralInsns(d, x, cond)
  }

  function TransferCode(d: Dmac, x: Xfer, cond: Cond): seq<Byte> {
    Assemble(TransferInsns(d, x, cond))
  }

  function BurstCode(d: Dmac, x: Xfer): seq<Byte> {
    TransferCode(d, x, BurstCond(d, x))
  }

  lemma TransferSize(d: Dmac, x: Xfer, cond: Cond)
    requires cond != Always
    ensures |TransferCode(d, x, cond)| ==
            if x.dir == MemToMem then (if d.lockupFree then 2 else 4)
            else if x.dir == DevToMem then 5
            else if d.noFlushp then 4 else 6
  {
    var i := TransferInsns(d, x, cond);
    AssembleUnfold(i);
    if |i| >= 1 { AssembleUnfold(i[1..]); }
    if |i| >= 2 { AssembleUnfold(i[2..]); assert i[1..][1..] == i[2..]; }
    if |i| >= 3 { AssembleUnfold(i[3..]); assert i[2..][1..] == i[3..]; }
    if |i| >= 4 { AssembleUnfold(i[4..]); assert i[3..][1..] == i[4..]; }
  }

  lemma AssembleUnfold(i: seq<Insn>)
    ensures Assemble(i) == if i == [] then [] else Encode(i[0]) + Assemble(i[1..])
  {
  }

  // A loop nest: `outer` rounds of `inner` rounds of `unroll` bursts; outer == 0
  // stands for a nest without an outer loop.
  datatype Nest = Nest(outer: nat, inner: nat, unroll: nat) {
    function Count(): nat {
      if outer == 0 then inner * unroll else inner * unroll * outer
    }
  }

  // The nest _loop chooses for n bursts of sz bytes each.
  function Plan(n: nat, sz: nat): Nest
    requires sz >= 1
  {
    if n >= 256 * 256 then Nest(256, 256, Min((255 - 8) / sz, n / 256 / 256))
    else if n > 256 then Nest(n / 256, 256, Min((255 - 8) / sz, 1))
    else Nest(0, n, Min((255 - 4) / sz, 1))
  }

  function InnerCode(burst: seq<Byte>, inner: nat, unroll: nat): seq<Byte> {
    var body := Repeat(burst, unroll);
    Encode(Lp(1, inner)) + body + Encode(LpEnd(Always, false, 1, |body|))
  }

  function NestCode(burst: seq<Byte>, nest: Nest): seq<Byte> {
    var inner := InnerCode(burst, nest.inner, nest.unroll);
    if nest.outer == 0 then inner
    else Encode(Lp(0, nest.outer)) + inner + Encode(LpEnd(Always, false, 0, |inner|))
  }

  // Bytes of one call of _loop, and the bursts it consumes.
  function LoopCode(burst: seq<Byte>, n: nat): seq<Byte>
    requires |burst| >= 1
  {
    if n == 1 then burst else NestCode(burst, Plan(n, |burst|))
  }

  function LoopCount(burst: seq<Byte>, n: nat): nat
    requires |burst| >= 1
  {
    if n == 1 then 1 else Plan(n, |burst|).Count()
  }

  /** Every call of _loop makes progress and never emits more bursts than asked for. */
  lemma LoopConsumes(burst: seq<Byte>, n: nat)
    requires 1 <= |burst| <= 6 && n >= 1
    ensures 1 <= LoopCount(burst, n) <= n
  {
    if n > 1 {
      var p := Plan(n, |burst|);
      assert (255 - 4) / |burst| >= 1 && (255 - 8) / |burst| >= 1;
      if n >= 256 * 256 {
        assert p.Count() == 256 * p.unroll * 256 <= 256 * (n / 256 / 256) * 256 <= n;
        assert 1 <= p.unroll;
      }
    }
  }

  function LoopsCode(burst: seq<Byte>, n: nat): seq<Byte>
    requires 1 <= |burst| <= 6
    decreases n
  {
    if n == 0 then []
    else
      LoopConsumes(burst, n);
      LoopCode(burst, n) + LoopsCode(burst, n - LoopCount(burst, n))
  }

  // BYTE_TO_BURST, BURST_TO_BYTE and the dregs of _setup_loops.
  function Bursts(x: Xfer): nat { Div(Div(x.bytes, SrcBeatSize(x.ccr)), SrcBeats(x.ccr)) }

  function BurstBytes(x: Xfer): nat { Bursts(x) * SrcBeatSize(x.ccr) * SrcBeats(x.ccr) }

  function Dregs(x: Xfer): nat
    requires BurstBytes(x) <= x.bytes
  {
    Div(x.bytes - BurstBytes(x), SrcBeatSize(x.ccr))
  }

  // The arithmetic of BYTE_TO_BURST and the dregs, for beats of s bytes and bursts of l beats.
  lemma SplitBeats(bytes: nat, s: nat, l: nat)
    requires s >= 1 && l >= 1
    ensures var b := Div(Div(bytes, s), l);
      && b * s * l <= bytes
      && Div(bytes - b * s * l, s) == Div(bytes, s) - b * l < l
  {
    var beats := Div(bytes, s);
    var b := Div(beats, l);
    assert b * l <= beats < b * l + l;
    assert beats * s <= bytes < beats * s + s;
    var rest := beats - b * l;
    MulMono(b * l, beats, s);
    assert b * s * l == (b * l) * s;
    assert rest * s == beats * s - (b * l) * s;
    DivExact(rest, s, bytes - beats * s);
  }

  /** Full bursts and dregs together are exactly the whole beats of the transfer. */
  lemma BurstsAndDregs(x: Xfer)
    ensures BurstBytes(x) <= x.bytes
    ensures Dregs(x) < SrcBeats(x.ccr)
    ensures Bursts(x) * SrcBeats(x.ccr) + Dregs(x) == x.bytes / SrcBeatSize(x.ccr)
  {
    SplitBeats(x.bytes, SrcBeatSize(x.ccr), SrcBeats(x.ccr));
  }

  // The reduced-length CCR of the dregs: both length fields replaced by n - 1.
  function WithBeats(ccr: nat, n: nat): nat
    requires 1 <= n
  {
    ccr - ccr / 16 % 16 * 16 - ccr / 0x4_0000 % 16 * 0x4_0000
    + (n - 1) % 16 * 16 + (n - 1) % 16 * 0x4_0000
  }

  function DregsCode(d: Dmac, x: Xfer, n: nat): seq<Byte> {
    if n == 0 then [] else Encode(Mov(CCR, WithBeats(x.ccr, n))) + TransferCode(d, x, Burst)
  }

  lemma BurstSize(d: Dmac, x: Xfer)
    ensures 2 <= |BurstCode(d, x)| <= 6
  {
    TransferSize(d, x, BurstCond(d, x));
  }

  function SetupLoopsCode(d: Dmac, x: Xfer): seq<Byte>
    requires 1 <= |BurstCode(d, x)| <= 6 && BurstBytes(x) <= x.bytes
  {
    LoopsCode(BurstCode(d, x), Bursts(x)) + DregsCode(d, x, Dregs(x))
  }

  function XferCode(d: Dmac, x: Xfer): seq<Byte> {
    BurstSize(d, x);
    BurstsAndDregs(x);
    Encode(Mov(SAR, x.src % TWO32)) + Encode(Mov(DAR, x.dst % TWO32)) + SetupLoopsCode(d, x)
  }

  function ReqCode(d: Dmac, x: Xfer, ev: nat): seq<Byte> {
    Encode(Mov(CCR, x.ccr)) + XferCode(d, x) + Encode(Sev(ev)) + Encode(End)
  }

  // ----- assembling -----

  lemma Assemble1(a: Insn)
    ensures Assemble([a]) == Encode(a)
  {
  }

  lemma Assemble2(a: Insn, b: Insn)
    ensures Assemble([a, b]) == Encode(a) + Encode(b)
  {
    assert Assemble([b]) == Encode(b);
  }

  lemma {:induction false} AssembleConcat(a: seq<Insn>, b: seq<Insn>)
    ensures Assemble(a + b) == Assemble(a) + Assemble(b)
  {
    if a == [] {
      assert a + b == b;
    } else {
      assert (a + b)[1..] == a[1..] + b;
      AssembleConcat(a[1..], b);
    }
  }

  lemma MemToMemCode(d: Dmac)
    ensures Assemble(MemToMemInsns(d)) ==
            if d.lockupFree then Encode(Ld(Always)) + Encode(St(Always))
            else Encode(Ld(Always)) + Encode(Rmb) + Encode(St(Always)) + Encode(Wmb)
  {
    hide Encode;
    Assemble2(Ld(Always), if d.lockupFree then St(Always) else Rmb);
    Assemble2(St(Always), Wmb);
    AssembleConcat([Ld(Always), Rmb], [St(Always), Wmb]);
    assert !d.lockupFree ==> [Ld(Always), Rmb] + [St(Always), Wmb] == MemToMemInsns(d);
  }

  lemma PeripheralCode(d: Dmac, x: Xfer, cond: Cond)
    ensures Assemble(PeripheralInsns(d, x, cond)) ==
            Encode(Wfp(cond, x.peri)) + Assemble(LoadInsns(cond, x))
            + Assemble(StoreInsns(cond, x)) + Assemble(FlushInsns(d, x))
  {
    var w, l, st := [Wfp(cond, x.peri)], LoadInsns(cond, x), StoreInsns(cond, x);
    AssembleConcat(w + l + st, FlushInsns(d, x));
    AssembleConcat(w + l, st);
    AssembleConcat(w, l);
    Assemble1(w[0]);
  }

  // ----- the generator -----

  // What has been emitted so far: `acc`, from offset `at` of a buffer that held
  // `base`. A dry run only counts.
  datatype Out = Out(dry: bool, base: seq<Byte>, at: nat, acc: seq<Byte>) {
    function End(): nat { at + |acc| }
    ghost predicate Room(n: nat) { !dry ==> End() + n <= |base| }
    function Add(code: seq<Byte>): Out { this.(acc := acc + code) }
  }

  ghost predicate Holds(buf: seq<Byte>, off: nat, o: Out) {
    && off == o.End()
    && |buf| == |o.base|
    && (if o.dry then buf == o.base else o.End() <= |buf| && buf == Patch(o.base, o.at, o.acc))
  }

  lemma HoldsStart(dry: bool, s: seq<Byte>, at: nat)
    requires !dry ==> at <= |s|
    ensures Holds(s, at, Out(dry, s, at, []))
  {
  }

  lemma PatchThen(s: seq<Byte>, at: nat, a: seq<Byte>, b: seq<Byte>)
    requires at + |a| + |b| <= |s|
    ensures Patch(Patch(s, at, a), at + |a|, b) == Patch(s, at, a + b)
  {
    var p := Patch(s, at, a);
    assert p[..at + |a|] == s[..at] + a;
    assert p[at + |a| + |b|..] == s[at + |a| + |b|..];
  }

  lemma AddAdd(o: Out, a: seq<Byte>, b: seq<Byte>)
    ensures o.Add(a).Add(b) == o.Add(a + b)
  {
    assert o.acc + a + b == o.acc + (a + b);
  }

  lemma AddNothing(o: Out)
    ensures o.Add([]) == o
  {
  }

  method Write1(buf: array<Byte>, off: nat, b0: Byte)
    requires off + 1 <= buf.Length
    modifies buf
    ensures buf[..] == Patch(old(buf[..]), off, [b0])
  {
    buf[off] := b0;
  }

  method Write2(buf: array<Byte>, off: nat, b0: Byte, b1: Byte)
    requires off + 2 <= buf.Length
    modifies buf
    ensures buf[..] == Patch(old(buf[..]), off, [b0, b1])
  {
    buf[off] := b0;
    buf[off + 1] := b1;
  }

  method WriteLe32(buf: array<Byte>, off: nat, v: nat)
    requires off + 4 <= buf.Length
    modifies buf
    ensures buf[..] == Patch(old(buf[..]), off, Le32(v))
  {
    buf[off] := v % 256;
    buf[off + 1] := v / 256 % 256;
    buf[off + 2] := v / 0x1_0000 % 256;
    buf[off + 3] := v / 0x100_0000 % 256;
    assert buf[off..off + 4] == Le32(v);
    assert buf[..] == buf[..off] + buf[off..off + 4] + buf[off + 4..];
  }

  method WriteInsn(buf: array<Byte>, off: nat, i: Insn)
    requires off + |Encode(i)| <= buf.Length
    modifies buf
    ensures buf[..] == Patch(old(buf[..]), off, Encode(i))
  {
    if i.Mov? { assert |Le32(i.val)| == 4; }
    hide Patch, Le32;
    match i {
      case End => Write1(buf, off, 0x00);
      case Nop => Write1(buf, off, 0x18);
      case Rmb => Write1(buf, off, 0x12);
      case Wmb => Write1(buf, off, 0x13);
      case Ld(cond) => Write1(buf, off, 0x04 + CondBits(cond));
      case St(cond) => Write1(buf, off, 0x08 + CondBits(cond));
      case FlushP(peri) => Write2(buf, off, 0x35, Index5(peri));
      case LdP(cond, peri) => Write2(buf, off, if cond == Burst then 0x27 else 0x25, Index5(peri));
      case StP(cond, peri) => Write2(buf, off, if cond == Burst then 0x2b else 0x29, Index5(peri));
      case Lp(loop, cnt) => Write2(buf, off, if loop != 0 then 0x22 else 0x20, LoopByte(cnt));
      case LpEnd(cond, forever, loop, bjump) =>
        Write2(buf, off, 0x28 + (if loop != 0 then 4 else 0) + (if forever then 0 else 16) + CondBits(cond),
               bjump % 256);
      case Sev(ev) => Write2(buf, off, 0x34, Index5(ev));
      case Wfp(cond, peri) =>
        Write2(buf, off, match cond case Single => 0x30 case Burst => 0x32 case Always => 0x31, Index5(peri));
      case Mov(reg, val) =>
        Write2(buf, off, 0xbc, RegisterCode(reg));
        WriteLe32(buf, off + 2, val);
        PatchThen(old(buf[..]), off, [0xbc, RegisterCode(reg)], Le32(val));
    }
  }

  function InsnSize(i: Insn): nat {
    match i
    case End => 1 case Ld(_) => 1 case St(_) => 1 case Nop => 1 case Rmb => 1 case Wmb => 1
    case Mov(_, _) => 6
    case _ => 2
  }

  // The _emit_* functions: the size is returned in both modes, bytes are
  // written only in the real one.
  method Emit(dry: bool, buf: array<Byte>, off: nat, i: Insn, ghost o: Out) returns (n: nat)
    requires o.dry == dry && Holds(buf[..], off, o) && o.Room(|Encode(i)|)
    modifies buf
    ensures Holds(buf[..], n, o.Add(Encode(i)))
  {
    n := off + InsnSize(i);
    if !dry {
      WriteInsn(buf, off, i);
      hide Encode;
      PatchThen(o.base, o.at, o.acc, Encode(i));
    }
  }

  // One round of the loop in _ldst_memtomem.
  method EmitMemToMem(d: Dmac, dry: bool, buf: array<Byte>, off: nat, ghost o: Out) returns (n: nat)
    requires o.dry == dry && Holds(buf[..], off, o) && o.Room(|Assemble(MemToMemInsns(d))|)
    modifies buf
    ensures Holds(buf[..], n, o.Add(Assemble(MemToMemInsns(d))))
  {
    ghost var ld, st, r, w := Encode(Ld(Always)), Encode(St(Always)), Encode(Rmb), Encode(Wmb);
    MemToMemCode(d);
    hide Holds, Encode, Assemble, MemToMemInsns;
    if d.lockupFree {
      n := Emit(dry, buf, off, Ld(Always), o);
      n := Emit(dry, buf, n, St(Always), o.Add(ld));
      AddAdd(o, ld, st);
    } else {
      n := Emit(dry, buf, off, Ld(Always), o);
      n := Emit(dry, buf, n, Rmb, o.Add(ld));
      AddAdd(o, ld, r);
      n := Emit(dry, buf, n, St(Always), o.Add(ld + r));
      AddAdd(o, ld + r, st);
      n := Emit(dry, buf, n, Wmb, o.Add(ld + r + st));
      AddAdd(o, ld + r + st, w);
    }
  }

  method LdstMemToMem(d: Dmac, dry: bool, buf: array<Byte>, off: nat, cyc: nat, ghost o: Out) returns (n: nat)
    requires o.dry == dry && Holds(buf[..], off, o) && o.Room(|Repeat(Assemble(MemToMemInsns(d)), cyc)|)
    modifies buf
    ensures Holds(buf[..], n, o.Add(Repeat(Assemble(MemToMemInsns(d)), cyc)))
  {
    hide Holds, Assemble, MemToMemInsns;
    ghost var code := Assemble(MemToMemInsns(d));
    AddNothing(o);
    n := off;
    var k := 0;
    while k < cyc
      invariant 0 <= k <= cyc
      invariant Holds(buf[..], n, o.Add(Repeat(code, k)))
    {
      RepeatGrows(code, k + 1, cyc);
      n := EmitMemToMem(d, dry, buf, n, o.Add(Repeat(code, k)));
      AddAdd(o, Repeat(code, k), code);
      k := k + 1;
    }
  }

  method EmitLoad(dry: bool, buf: array<Byte>, off: nat, cond: Cond, x: Xfer, ghost o: Out) returns (n: nat)
    requires o.dry == dry && Holds(buf[..], off, o) && o.Room(|Assemble(LoadInsns(cond, x))|)
    modifies buf
    ensures Holds(buf[..], n, o.Add(Assemble(LoadInsns(cond, x))))
  {
    hide Holds, Encode;
    if x.dir == DevToMem && cond == Always {
      Assemble2(LdP(Single, x.peri), LdP(Burst, x.peri));
      n := Emit(dry, buf, off, LdP(Single, x.peri), o);
      n := Emit(dry, buf, n, LdP(Burst, x.peri), o.Add(Encode(LdP(Single, x.peri))));
      AddAdd(o, Encode(LdP(Single, x.peri)), Encode(LdP(Burst, x.peri)));
    } else {
      Assemble1(if x.dir == DevToMem then LdP(cond, x.peri) else Ld(cond));
      n := Emit(dry, buf, off, if x.dir == DevToMem then LdP(cond, x.peri) else Ld(cond), o);
    }
  }

  method EmitStore(dry: bool, buf: array<Byte>, off: nat, cond: Cond, x: Xfer, ghost o: Out) returns (n: nat)
    requires o.dry == dry && Holds(buf[..], off, o) && o.Room(|Assemble(StoreInsns(cond, x))|)
    modifies buf
    ensures Holds(buf[..], n, o.Add(Assemble(StoreInsns(cond, x))))
  {
    hide Holds, Encode;
    if x.dir == MemToDev && cond == Always {
      Assemble2(StP(Single, x.peri), St(Burst));
      n := Emit(dry, buf, off, StP(Single, x.peri), o);
      n := Emit(dry, buf, n, St(Burst), o.Add(Encode(StP(Single, x.peri))));
      AddAdd(o, Encode(StP(Single, x.peri)), Encode(St(Burst)));
    } else {
      Assemble1(St(cond));
      n := Emit(dry, buf, off, St(cond), o);
    }
  }

  // One round of the loop in _ldst_peripheral.
  method EmitPeripheral(d: Dmac, dry: bool, buf: array<Byte>, off: nat, x: Xfer, cond: Cond, ghost o: Out)
    returns (n: nat)
    requires o.dry == dry && Holds(buf[..], off, o) && o.Room(|Assemble(PeripheralInsns(d, x, cond))|)
    modifies buf
    ensures Holds(buf[..], n, o.Add(Assemble(PeripheralInsns(d, x, cond))))
  {
    PeripheralCode(d, x, cond);
    ghost var w, l, st := Encode(Wfp(cond, x.peri)), Assemble(LoadInsns(cond, x)), Assemble(StoreInsns(cond, x));
    ghost var f := Assemble(FlushInsns(d, x));
    assert f == if x.dir == MemToDev && !d.noFlushp then Encode(FlushP(x.peri)) else [];
    hide Holds, Encode, Assemble, PeripheralInsns, LoadInsns, StoreInsns, FlushInsns;
    n := Emit(dry, buf, off, Wfp(cond, x.peri), o);
    n := EmitLoad(dry, buf, n, cond, x, o.Add(w));
    AddAdd(o, w, l);
    n := EmitStore(dry, buf, n, cond, x, o.Add(w + l));
    AddAdd(o, w + l, st);
    if x.dir == MemToDev && !d.noFlushp {
      n := Emit(dry, buf, n, FlushP(x.peri), o.Add(w + l + st));
      AddAdd(o, w + l + st, f);
    } else {
      assert w + l + st + f == w + l + st;
    }
  }

  method LdstPeripheral(d: Dmac, dry: bool, buf: array<Byte>, off: nat, x: Xfer, cyc: nat, cond: Cond, ghost o: Out)
    returns (n: nat)
    requires o.dry == dry && Holds(buf[..], off, o)
    requires o.Room(|Repeat(Assemble(PeripheralInsns(d, x, cond)), cyc)|)
    modifies buf
    ensures Holds(buf[..], n, o.Add(Repeat(Assemble(PeripheralInsns(d, x, cond)), cyc)))
  {
    hide Holds, Assemble, PeripheralInsns;
    ghost var code := Assemble(PeripheralInsns(d, x, cond));
    AddNothing(o);
    n := off;
    var k := 0;
    while k < cyc
      invariant 0 <= k <= cyc
      invariant Holds(buf[..], n, o.Add(Repeat(code, k)))
    {
      RepeatGrows(code, k + 1, cyc);
      n := EmitPeripheral(d, dry, buf, n, x, cond, o.Add(Repeat(code, k)));
      AddAdd(o, Repeat(code, k), code);
      k := k + 1;
    }
  }

  method EmitBursts(d: Dmac, dry: bool, buf: array<Byte>, off: nat, x: Xfer, cyc: nat, ghost o: Out) returns (n: nat)
    requires o.dry == dry && Holds(buf[..], off, o) && o.Room(|Repeat(BurstCode(d, x), cyc)|)
    modifies buf
    ensures Holds(buf[..], n, o.Add(Repeat(BurstCode(d, x), cyc)))
  {
    hide Holds, Assemble, MemToMemInsns, PeripheralInsns;
    var cond := if SrcBeats(x.ccr) > 1 then Burst else Single;
    if d.periphBurst {
      cond := Burst;
    }
    match x.dir {
      case MemToDev => n := LdstPeripheral(d, dry, buf, off, x, cyc, cond, o);
      case DevToMem => n := LdstPeripheral(d, dry, buf, off, x, cyc, cond, o);
      case MemToMem => n := LdstMemToMem(d, dry, buf, off, cyc, o);
    }
  }

  method EmitDregs(d: Dmac, dry: bool, buf: array<Byte>, off: nat, x: Xfer, len: nat, ghost o: Out) returns (n: nat)
    requires o.dry == dry && Holds(buf[..], off, o) && o.Room(|DregsCode(d, x, len)|)
    modifies buf
    ensures Holds(buf[..], n, o.Add(DregsCode(d, x, len)))
  {
    hide Holds, Encode, Assemble, WithBeats, MemToMemInsns, PeripheralInsns;
    if len == 0 {
      AddNothing(o);
      return off;
    }
    ghost var mov := Encode(Mov(CCR, WithBeats(x.ccr, len)));
    n := Emit(dry, buf, off, Mov(CCR, WithBeats(x.ccr, len)), o);
    RepeatOnce(TransferCode(d, x, Burst));
    if x.dir == MemToMem {
      n := LdstMemToMem(d, dry, buf, n, 1, o.Add(mov));
    } else {
      n := LdstPeripheral(d, dry, buf, n, x, 1, Burst, o.Add(mov));
    }
    AddAdd(o, mov, TransferCode(d, x, Burst));
  }

  // The loop counts _loop chooses, from the dry-run sizes of its parts.
  method ChooseNest(d: Dmac, buf: array<Byte>, x: Xfer, bursts: nat)
    returns (lcnt0: nat, lcnt1: nat, cyc: nat)
    requires bursts >= 2 && |BurstCode(d, x)| >= 1
    modifies buf
    ensures buf[..] == old(buf[..])
    ensures Nest(lcnt0, lcnt1, cyc) == Plan(bursts, |BurstCode(d, x)|)
  {
    if bursts >= 256 * 256 {
      lcnt1, lcnt0, cyc := 256, 256, bursts / 256 / 256;
    } else if bursts > 256 {
      lcnt1, lcnt0, cyc := 256, bursts / 256, 1;
    } else {
      lcnt1, lcnt0, cyc := bursts, 0, 1;
    }
    hide BurstCode, Patch;
    RepeatOnce(BurstCode(d, x));
    ghost var o := Out(true, buf[..], 0, []);
    HoldsStart(true, buf[..], 0);
    var szlp := Emit(true, buf, 0, Lp(0, 0), o);
    var szbrst := EmitBursts(d, true, buf, 0, x, 1, o);
    var szlpend := Emit(true, buf, 0, LpEnd(Always, false, 0, 0), o);
    if lcnt0 != 0 {
      szlp, szlpend := 2 * szlp, 2 * szlpend;
    }
    var cycmax := (255 - (szlp + szlpend)) / szbrst;
    cyc := if cycmax < cyc then cycmax else cyc;
  }

  // The inner loop of _loop: DMALP on counter 1, the unrolled bursts, and the DMALPEND
  // that jumps back to the first of them.
  method EmitInner(d: Dmac, dry: bool, buf: array<Byte>, off: nat, x: Xfer, lcnt1: nat, cyc: nat, ghost o: Out)
    returns (n: nat)
    requires o.dry == dry && Holds(buf[..], off, o)
    requires o.Room(|InnerCode(BurstCode(d, x), lcnt1, cyc)|)
    modifies buf
    ensures Holds(buf[..], n, o.Add(InnerCode(BurstCode(d, x), lcnt1, cyc)))
  {
    hide Encode, BurstCode, Patch;
    ghost var lp, body := Encode(Lp(1, lcnt1)), Repeat(BurstCode(d, x), cyc);
    n := Emit(dry, buf, off, Lp(1, lcnt1), o);
    var ljmp1 := n;
    n := EmitBursts(d, dry, buf, n, x, cyc, o.Add(lp));
    AddAdd(o, lp, body);
    ghost var end := Encode(LpEnd(Always, false, 1, |body|));
    n := Emit(dry, buf, n, LpEnd(Always, false, 1, n - ljmp1), o.Add(lp + body));
    AddAdd(o, lp + body, end);
  }

  method EmitNest(d: Dmac, dry: bool, buf: array<Byte>, off: nat, x: Xfer, lcnt0: nat, lcnt1: nat, cyc: nat,
                  ghost o: Out)
    returns (n: nat)
    requires o.dry == dry && Holds(buf[..], off, o)
    requires o.Room(|NestCode(BurstCode(d, x), Nest(lcnt0, lcnt1, cyc))|)
    modifies buf
    ensures Holds(buf[..], n, o.Add(NestCode(BurstCode(d, x), Nest(lcnt0, lcnt1, cyc))))
  {
    hide Encode, BurstCode, Patch, InnerCode;
    n := off;
    if lcnt0 == 0 {
      n := EmitInner(d, dry, buf, n, x, lcnt1, cyc, o);
      return;
    }
    ghost var lp, inner := Encode(Lp(0, lcnt0)), InnerCode(BurstCode(d, x), lcnt1, cyc);
    n := Emit(dry, buf, n, Lp(0, lcnt0), o);
    var ljmp0 := n;
    n := EmitInner(d, dry, buf, n, x, lcnt1, cyc, o.Add(lp));
    AddAdd(o, lp, inner);
    n := Emit(dry, buf, n, LpEnd(Always, false, 0, n - ljmp0), o.Add(lp + inner));
    AddAdd(o, lp + inner, Encode(LpEnd(Always, false, 0, |inner|)));
  }

  // Emits the loop or loop nest for at most `bursts` bursts; c is what it covers.
  method EmitLoop(d: Dmac, dry: bool, buf: array<Byte>, off: nat, x: Xfer, bursts: nat, ghost o: Out)
    returns (n: nat, c: nat)
    requires bursts >= 1 && |BurstCode(d, x)| >= 1
    requires o.dry == dry && Holds(buf[..], off, o) && o.Room(|LoopCode(BurstCode(d, x), bursts)|)
    modifies buf
    ensures Holds(buf[..], n, o.Add(LoopCode(BurstCode(d, x), bursts)))
    ensures c == LoopCount(BurstCode(d, x), bursts)
  {
    hide Holds, BurstCode, Plan, NestCode;
    if bursts == 1 {
      RepeatOnce(BurstCode(d, x));
      n := EmitBursts(d, dry, buf, off, x, 1, o);
      return n, 1;
    }
    var lcnt0, lcnt1, cyc := ChooseNest(d, buf, x, bursts);
    n := EmitNest(d, dry, buf, off, x, lcnt0, lcnt1, cyc, o);
    c := lcnt1 * cyc;
    if lcnt0 != 0 {
      c := c * lcnt0;
    }
  }

  method SetupLoops(d: Dmac, dry: bool, buf: array<Byte>, off: nat, x: Xfer, ghost o: Out) returns (n: nat)
    requires 1 <= |BurstCode(d, x)| <= 6 && BurstBytes(x) <= x.bytes
    requires o.dry == dry && Holds(buf[..], off, o) && o.Room(|SetupLoopsCode(d, x)|)
    modifies buf
    ensures Holds(buf[..], n, o.Add(SetupLoopsCode(d, x)))
  {
    hide Holds, BurstCode, Bursts, BurstBytes, Dregs, LoopCode, LoopCount, DregsCode;
    var bursts: nat := Bursts(x);
    var numDregs := Dregs(x);
    ghost var burst, loops, done := BurstCode(d, x), LoopsCode(BurstCode(d, x), bursts), [];
    AddNothing(o);
    n := off;
    while bursts != 0
      invariant done + LoopsCode(burst, bursts) == loops
      invariant Holds(buf[..], n, o.Add(done))
      decreases bursts
    {
      LoopConsumes(burst, bursts);
      ghost var code := LoopCode(burst, bursts);
      ghost var rest := LoopsCode(burst, bursts - LoopCount(burst, bursts));
      assert done + (code + rest) == done + code + rest;
      var c;
      n, c := EmitLoop(d, dry, buf, n, x, bursts, o.Add(done));
      AddAdd(o, done, code);
      done := done + code;
      bursts := bursts - c;
    }
    assert done == loops;
    n := EmitDregs(d, dry, buf, n, x, numDregs, o.Add(loops));
    AddAdd(o, loops, DregsCode(d, x, numDregs));
  }

  method SetupXfer(d: Dmac, dry: bool, buf: array<Byte>, off: nat, x: Xfer, ghost o: Out) returns (n: nat)
    requires o.dry == dry && Holds(buf[..], off, o) && o.Room(|XferCode(d, x)|)
    modifies buf
    ensures Holds(buf[..], n, o.Add(XferCode(d, x)))
  {
    hide Holds, Encode, BurstCode, SetupLoopsCode, Bursts, BurstBytes;
    BurstSize(d, x);
    BurstsAndDregs(x);
    ghost var src, dst := Encode(Mov(SAR, x.src % TWO32)), Encode(Mov(DAR, x.dst % TWO32));
    n := Emit(dry, buf, off, Mov(SAR, x.src % TWO32), o);
    n := Emit(dry, buf, n, Mov(DAR, x.dst % TWO32), o.Add(src));
    AddAdd(o, src, dst);
    n := SetupLoops(d, dry, buf, n, x, o.Add(src + dst));
    AddAdd(o, src + dst, SetupLoopsCode(d, x));
  }

  /** _setup_req: both passes return the length of the same code; only the real one writes it. */
  method SetupReq(d: Dmac, dry: bool, buf: array<Byte>, mc: nat, x: Xfer, ev: nat) returns (n: nat)
    requires !dry ==> mc + |ReqCode(d, x, ev)| <= buf.Length
    modifies buf
    ensures n == |ReqCode(d, x, ev)|
    ensures dry ==> buf[..] == old(buf[..])
    ensures !dry ==> buf[..] == Patch(old(buf[..]), mc, ReqCode(d, x, ev))
  {
    ghost var o := Out(dry, buf[..], mc, []);
    HoldsStart(dry, buf[..], mc);
    hide Encode, XferCode, Patch;
    ghost var mov, xfer, sev, end := Encode(Mov(CCR, x.ccr)), XferCode(d, x), Encode(Sev(ev)), Encode(End);
    n := Emit(dry, buf, mc, Mov(CCR, x.ccr), o);
    n := SetupXfer(d, dry, buf, n, x, o.Add(mov));
    AddAdd(o, mov, xfer);
    n := Emit(dry, buf, n, Sev(ev), o.Add(mov + xfer));
    AddAdd(o, mov + xfer, sev);
    n := Emit(dry, buf, n, End, o.Add(mov + xfer + sev));
    AddAdd(o, mov + xfer + sev, end);
    assert o.Add(ReqCode(d, x, ev)).acc == ReqCode(d, x, ev);
    n := n - mc;
  }
}
