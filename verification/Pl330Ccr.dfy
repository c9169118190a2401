/** The channel control register: what _prepare_ccr and _dregs put in its fields. */
module Pl330Ccr {
  import opened Arith
  import opened Common
  import opened Pl330Isa
  import opened Pl330Microcode

  // struct pl330_reqcfg; burstSize is the exponent, the cache and swap fields are enum values.
  datatype ReqCfg = ReqCfg(
    srcInc: bool, dstInc: bool, nonsecure: bool, privileged: bool, insnaccess: bool,
    burstLen: nat, burstSize: nat, scctl: nat, dcctl: nat, swap: nat)
  {
    predicate Valid() { burstLen < 32 && burstSize < 8 && scctl < 8 && dcctl < 8 && swap < 5 }
  }

  function Bit(b: bool): nat { if b then 1 else 0 }

  // ((brst_len - 1) & 0xf) in unsigned arithmetic: a length of 0 wraps to 15.
  function LenField(n: nat): nat { (n + 15) % 16 }

  function PrepareCcr(c: ReqCfg): nat {
    var prot := Bit(c.privileged) + 2 * Bit(c.nonsecure) + 4 * Bit(c.insnaccess);
    Bit(c.srcInc) + c.burstSize * 2 + LenField(c.burstLen) * 16 + prot * 0x100 + c.scctl * 0x800
    + Bit(c.dstInc) * 0x4000 + c.burstSize * 0x8000 + LenField(c.burstLen) * 0x4_0000
    + prot * 0x40_0000 + c.dcctl * 0x200_0000 + c.swap * 0x1000_0000
  }

  // The two halves of the register move the same number of bytes per burst.
  predicate Symmetric(ccr: nat) {
    SrcBeats(ccr) == DstBeats(ccr) && SrcBeatSize(ccr) == DstBeatSize(ccr)
  }

  // Bits 0-3, source length, bits 8-17, destination length, bits 22 and up.
  function Fields(low: nat, sl: nat, mid: nat, dl: nat, high: nat): nat {
    low + 16 * (sl + 16 * (mid + 1024 * (dl + 16 * high)))
  }

  // Bits 8 and up.
  function Upper(mid: nat, dl: nat, high: nat): nat { mid + 1024 * (dl + 16 * high) }

  lemma LowBits(low: nat, rest: nat)
    requires low < 16
    ensures (low + 16 * rest) % 2 == low % 2
    ensures (low + 16 * rest) / 2 % 8 == low / 2
  {
    ModAdd(low, 2, 8 * rest);
    var h := low / 2;
    Peel(low - 2 * h, 2, h + 8 * rest);
    Peel(h, 8, rest);
  }

  lemma LengthBits(low: nat, sl: nat, rest: nat)
    requires low < 16 && sl < 16
    ensures (low + 16 * (sl + 16 * rest)) / 16 % 16 == sl
    ensures (low + 16 * (sl + 16 * rest)) / 0x100 == rest
  {
    Peel(low, 16, sl + 16 * rest);
    Peel(sl, 16, rest);
    Peel(low + 16 * sl, 0x100, rest);
  }

  lemma IncBit(mid: nat, rest: nat)
    ensures (mid + 1024 * rest) / 64 % 2 == mid / 64 % 2
  {
    var a := mid / 64;
    Peel(mid - 64 * a, 64, a + 2 * (8 * rest));
    ModAdd(a, 2, 8 * rest);
  }

  lemma SizeBits(mid: nat, rest: nat)
    requires mid < 1024
    ensures (mid + 1024 * rest) / 128 % 8 == mid / 128
  {
    var b := mid / 128;
    Peel(mid - 128 * b, 128, b + 8 * rest);
    Peel(b, 8, rest);
  }

  lemma UpperLength(mid: nat, dl: nat, high: nat)
    requires mid < 1024 && dl < 16
    ensures Upper(mid, dl, high) / 1024 % 16 == dl
  {
    Peel(mid, 1024, dl + 16 * high);
    Peel(dl, 16, high);
  }

  lemma SrcFields(low: nat, sl: nat, rest: nat)
    requires low < 16 && sl < 16
    ensures var v := low + 16 * (sl + 16 * rest);
      && SrcBeats(v) == sl + 1 && SrcInc(v) == (low % 2 == 1) && SrcBeatSize(v) == Pow2(low / 2) && v / 0x100 == rest
  {
    hide Pow2;
    LowBits(low, sl + 16 * rest);
    LengthBits(low, sl, rest);
  }

  lemma DstBeatsOf(v: nat, mid: nat, dl: nat, high: nat)
    requires Div(v, 0x100) == Upper(mid, dl, high) && mid < 1024 && dl < 16
    ensures DstBeats(v) == dl + 1
  {
    UpperLength(mid, dl, high);
    DivDiv(v, 0x100, 1024);
  }

  lemma DstIncOf(v: nat, mid: nat, rest: nat)
    requires Div(v, 0x100) == mid + 1024 * rest
    ensures DstInc(v) == (mid / 64 % 2 == 1)
  {
    IncBit(mid, rest);
    DivDiv(v, 0x100, 64);
  }

  lemma DstSizeOf(v: nat, mid: nat, rest: nat)
    requires Div(v, 0x100) == mid + 1024 * rest && mid < 1024
    ensures DstBeatSize(v) == Pow2(mid / 128)
  {
    hide Pow2;
    SizeBits(mid, rest);
    DivDiv(v, 0x100, 128);
  }

  lemma FieldAccessors(v: nat, low: nat, sl: nat, mid: nat, dl: nat, high: nat)
    requires low < 16 && sl < 16 && mid < 1024 && dl < 16 && v == Fields(low, sl, mid, dl, high)
    ensures SrcBeats(v) == sl + 1 && DstBeats(v) == dl + 1
    ensures SrcInc(v) == (low % 2 == 1) && DstInc(v) == (mid / 64 % 2 == 1)
    ensures SrcBeatSize(v) == Pow2(low / 2) && DstBeatSize(v) == Pow2(mid / 128)
  {
    hide Pow2, SrcBeats, DstBeats, SrcInc, DstInc, SrcBeatSize, DstBeatSize;
    SrcFields(low, sl, Upper(mid, dl, high));
    DstBeatsOf(v, mid, dl, high);
    DstIncOf(v, mid, dl + 16 * high);
    DstSizeOf(v, mid, dl + 16 * high);
  }

  // The bits of a register beside its two lengths.
  lemma OtherBits(low: nat, sl: nat, mid: nat, dl: nat, high: nat)
    requires low < 16 && sl < 16 && mid < 1024 && dl < 16
    ensures var v := Fields(low, sl, mid, dl, high);
      v % 16 == low && v / 0x100 % 1024 == mid && v / 0x40_0000 == high
  {
    var v := Fields(low, sl, mid, dl, high);
    Peel(low, 16, sl + 16 * Upper(mid, dl, high));
    Peel(low + 16 * sl, 0x100, Upper(mid, dl, high));
    Peel(mid, 1024, dl + 16 * high);
    assert v == (low + 16 * sl + 0x100 * mid + 0x4_0000 * dl) + 0x40_0000 * high;
    Peel(low + 16 * sl + 0x100 * mid + 0x4_0000 * dl, 0x40_0000, high);
  }

  // The fields of a register, and the register rebuilt from them.
  lemma Decompose(v: nat)
    ensures v == Fields(v % 16, v / 16 % 16, v / 0x100 % 1024, v / 0x4_0000 % 16, v / 0x4_0000 / 16)
  {
    DivDiv(v, 16, 16);
    DivDiv(v, 0x100, 1024);
  }

  /** _dregs changes the burst length of both halves to n and nothing else a transfer depends on. */
  lemma WithBeatsFields(ccr: nat, n: nat)
    requires 1 <= n <= 16
    ensures SrcBeats(WithBeats(ccr, n)) == n && DstBeats(WithBeats(ccr, n)) == n
    ensures SrcBeatSize(WithBeats(ccr, n)) == SrcBeatSize(ccr)
    ensures DstBeatSize(WithBeats(ccr, n)) == DstBeatSize(ccr)
    ensures SrcInc(WithBeats(ccr, n)) == SrcInc(ccr) && DstInc(WithBeats(ccr, n)) == DstInc(ccr)
    ensures ccr < TWO32 ==> WithBeats(ccr, n) < TWO32
    ensures var v := WithBeats(ccr, n);
      v % 16 == ccr % 16 && v / 0x100 % 1024 == ccr / 0x100 % 1024 && v / 0x40_0000 == ccr / 0x40_0000
  {
    Decompose(ccr);
    var low, sl, mid, dl, high := ccr % 16, ccr / 16 % 16, ccr / 0x100 % 1024, ccr / 0x4_0000 % 16, ccr / 0x4_0000 / 16;
    FieldAccessors(ccr, low, sl, mid, dl, high);
    assert WithBeats(ccr, n) == Fields(low, n - 1, mid, n - 1, high);
    FieldAccessors(WithBeats(ccr, n), low, n - 1, mid, n - 1, high);
    OtherBits(low, n - 1, mid, n - 1, high);
    DivDiv(ccr, 0x4_0000, 16);
    assert ccr < TWO32 ==> high < 1024;
  }

  /** The register prepared for a request is symmetric and carries the configured burst; a length of 0 becomes 16. */
  lemma PrepareCcrFields(c: ReqCfg)
    requires c.Valid()
    ensures PrepareCcr(c) < TWO32 && Symmetric(PrepareCcr(c))
    ensures SrcBeats(PrepareCcr(c)) == (if c.burstLen % 16 == 0 then 16 else c.burstLen % 16)
    ensures SrcBeatSize(PrepareCcr(c)) == Pow2(c.burstSize)
    ensures SrcInc(PrepareCcr(c)) == c.srcInc && DstInc(PrepareCcr(c)) == c.dstInc
  {
    hide SrcBeats, DstBeats, SrcInc, DstInc, SrcBeatSize, DstBeatSize, LenField;
    var prot := Bit(c.privileged) + 2 * Bit(c.nonsecure) + 4 * Bit(c.insnaccess);
    var low := Bit(c.srcInc) + c.burstSize * 2;
    var mid := prot + c.scctl * 8 + Bit(c.dstInc) * 64 + c.burstSize * 128;
    var high := prot + c.dcctl * 8 + c.swap * 64;
    var len := LenField(c.burstLen);
    LenFieldBeats(c.burstLen);
    FieldAccessors(PrepareCcr(c), low, len, mid, len, high);
    MidFields(prot + c.scctl * 8, Bit(c.dstInc), c.burstSize);
    Peel(Bit(c.srcInc), 2, c.burstSize);
    hide PrepareCcr, Fields;
  }

  // A field of s values at unit u of a register.
  function Field(v: nat, u: nat, s: nat): nat
    requires u >= 1 && s >= 1
  {
    v / u % s
  }

  lemma FieldAt(v: nat, low: nat, u: nat, f: nat, s: nat, rest: nat)
    requires u >= 1 && low < u && f < s && v == low + u * (f + s * rest)
    ensures Field(v, u, s) == f
  {
    Peel(low, u, f + s * rest);
    Peel(f, s, rest);
  }

  /** The protection of both halves of the register is that of the request, the cache controls are its own for
      each half, and so is the byte swap: bits 8-10, 11-13, 22-24, 25-27 and 28-30. */
  lemma PrepareCcrAttributes(c: ReqCfg)
    requires c.Valid()
    ensures var v := PrepareCcr(c);
      && Field(v, 0x100, 2) == Field(v, 0x40_0000, 2) == Bit(c.privileged)
      && Field(v, 0x200, 2) == Field(v, 0x80_0000, 2) == Bit(c.nonsecure)
      && Field(v, 0x400, 2) == Field(v, 0x100_0000, 2) == Bit(c.insnaccess)
      && Field(v, 0x800, 8) == c.scctl && Field(v, 0x200_0000, 8) == c.dcctl && Field(v, 0x1000_0000, 8) == c.swap
  {
    hide Field, PrepareCcr;
    SourceAttributes(c);
    DestinationAttributes(c);
  }

  lemma SourceAttributes(c: ReqCfg)
    requires c.Valid()
    ensures var v := PrepareCcr(c);
      && Field(v, 0x100, 2) == Bit(c.privileged) && Field(v, 0x200, 2) == Bit(c.nonsecure)
      && Field(v, 0x400, 2) == Bit(c.insnaccess) && Field(v, 0x800, 8) == c.scctl
  {
    LenFieldBeats(c.burstLen);
    hide LenField, Field;
    var v, len := PrepareCcr(c), LenField(c.burstLen);
    var p, n, i := Bit(c.privileged), Bit(c.nonsecure), Bit(c.insnaccess);
    var low := Bit(c.srcInc) + 2 * c.burstSize + 16 * len;
    // from bit 14 up
    var up := Bit(c.dstInc) + 2 * c.burstSize + 16 * len + 0x100 * (p + 2 * n + 4 * i) + 0x800 * c.dcctl
            + 0x4000 * c.swap;
    assert v == low + 0x100 * p + 0x200 * n + 0x400 * i + 0x800 * c.scctl + 0x4000 * up;
    hide PrepareCcr, Bit;
    FieldAt(v, low, 0x100, p, 2, n + 2 * i + 4 * (c.scctl + 8 * up));
    FieldAt(v, low + 0x100 * p, 0x200, n, 2, i + 2 * (c.scctl + 8 * up));
    FieldAt(v, low + 0x100 * p + 0x200 * n, 0x400, i, 2, c.scctl + 8 * up);
    FieldAt(v, low + 0x100 * (p + 2 * n + 4 * i), 0x800, c.scctl, 8, up);
  }

  lemma DestinationAttributes(c: ReqCfg)
    requires c.Valid()
    ensures var v := PrepareCcr(c);
      && Field(v, 0x40_0000, 2) == Bit(c.privileged) && Field(v, 0x80_0000, 2) == Bit(c.nonsecure)
      && Field(v, 0x100_0000, 2) == Bit(c.insnaccess) && Field(v, 0x200_0000, 8) == c.dcctl
      && Field(v, 0x1000_0000, 8) == c.swap
  {
    LenFieldBeats(c.burstLen);
    hide LenField, Field;
    var v, len := PrepareCcr(c), LenField(c.burstLen);
    var p, n, i := Bit(c.privileged), Bit(c.nonsecure), Bit(c.insnaccess);
    // below bit 22
    var low := Bit(c.srcInc) + 2 * c.burstSize + 16 * len + 0x100 * (p + 2 * n + 4 * i) + 0x800 * c.scctl
             + 0x4000 * Bit(c.dstInc) + 0x8000 * c.burstSize + 0x4_0000 * len;
    assert v == low + 0x40_0000 * p + 0x80_0000 * n + 0x100_0000 * i + 0x200_0000 * c.dcctl + 0x1000_0000 * c.swap;
    hide PrepareCcr, Bit;
    UpperFields(v, low, p, n, i, c.dcctl, c.swap);
  }

  lemma UpperFields(v: nat, low: nat, p: nat, n: nat, i: nat, ctl: nat, swap: nat)
    requires low < 0x40_0000 && p < 2 && n < 2 && i < 2 && ctl < 8 && swap < 8
    requires v == low + 0x40_0000 * p + 0x80_0000 * n + 0x100_0000 * i + 0x200_0000 * ctl + 0x1000_0000 * swap
    ensures Field(v, 0x40_0000, 2) == p && Field(v, 0x80_0000, 2) == n && Field(v, 0x100_0000, 2) == i
    ensures Field(v, 0x200_0000, 8) == ctl && Field(v, 0x1000_0000, 8) == swap
  {
    hide Field;
    FieldAt(v, low, 0x40_0000, p, 2, n + 2 * i + 4 * (ctl + 8 * swap));
    FieldAt(v, low + 0x40_0000 * p, 0x80_0000, n, 2, i + 2 * (ctl + 8 * swap));
    FieldAt(v, low + 0x40_0000 * (p + 2 * n), 0x100_0000, i, 2, ctl + 8 * swap);
    FieldAt(v, low + 0x40_0000 * (p + 2 * n + 4 * i), 0x200_0000, ctl, 8, swap);
    FieldAt(v, low + 0x40_0000 * (p + 2 * n + 4 * i) + 0x200_0000 * ctl, 0x1000_0000, swap, 8, 0);
  }

  lemma LenFieldBeats(n: nat)
    ensures LenField(n) < 16 && LenField(n) + 1 == if n % 16 == 0 then 16 else n % 16
  {
  }

  lemma MidFields(a: nat, inc: nat, size: nat)
    requires a < 64 && inc < 2
    ensures (a + inc * 64 + size * 128) / 64 % 2 == inc && (a + inc * 64 + size * 128) / 128 == size
  {
    Peel(a, 64, inc + 2 * size);
    Peel(a + inc * 64, 128, size);
  }
}
