/**
Execution from a buffer that is rewritten meanwhile: every step fetches from the buffer
as it is then. What lies outside the code of the request does not matter.
*/
module Pl330Shared {
  import opened Pl330Isa
  import opened Pl330Microcode
  import opened Pl330Correct

  // n steps from m, the first of them at time k; codes(k) is the buffer at time k.
  function StepsOver(hw: Hw, codes: nat -> seq<Byte>, m: Machine, k: nat, n: nat): Machine
    decreases n
  {
    if n == 0 then m else StepsOver(hw, codes, Step(hw, codes(k), m), k + 1, n - 1)
  }

  // While the channel runs, the buffer holds `part` at `at`.
  ghost predicate HoldsWhileRunning(hw: Hw, codes: nat -> seq<Byte>, m: Machine, k: nat, at: nat, part: seq<Byte>) {
    forall n: nat :: StepsOver(hw, codes, m, k, n).status == Running ==> CodeAt(codes(k + n), at, part)
  }

  // The only outcome of executing from m is m', in which transfer x is done.
  ghost predicate OutcomeOver(hw: Hw, codes: nat -> seq<Byte>, m: Machine, d: Dmac, x: Xfer, ev: nat, m': Machine) {
    && (exists n: nat :: StepsOver(hw, codes, m, 0, n) == m') && m'.status == Stopped
    && (forall n: nat :: StepsOver(hw, codes, m, 0, n).status != Running ==> StepsOver(hw, codes, m, 0, n) == m')
    && m'.events == m.events + [Event(ev, m'.mem, m'.output)]
    && Moved(hw, m, x, m') && m'.log == m.log + Activity(d, x)
  }

  // What is decoded does not depend on the bytes after the instruction.
  lemma DecodePrefix(b: seq<Byte>, rest: seq<Byte>)
    requires Decode(b).Insn?
    ensures Decode(b + rest) == Decode(b)
  {
    hide Decode1, Decode2;
    var c := b + rest;
    assert c[0] == b[0];
    if !Decode1(b[0]).Insn? {
      assert c[1] == b[1];
      if b[0] == 0xbc { assert Word(c[2..]) == Word(b[2..]); }
    }
  }

  // The code alone, behind bytes that are no instruction.
  function Alone(at: nat, part: seq<Byte>): seq<Byte> { seq(at, _ => 0xff) + part }

  // Execution does not stay outside it without a fault.
  lemma Inside(hw: Hw, m: Machine, at: nat, part: seq<Byte>)
    requires m.status == Running
    ensures Step(hw, Alone(at, part), m).status != Faulted ==> at <= m.pc < at + |part|
  {
    hide Execute;
    if m.pc < at { assert Alone(at, part)[m.pc..][0] == 0xff; }
  }

  // A step inside the code is the same from either buffer.
  lemma StepSame(hw: Hw, code: seq<Byte>, m: Machine, at: nat, part: seq<Byte>)
    requires CodeAt(code, at, part) && Step(hw, Alone(at, part), m).status != Faulted && m.status == Running
    ensures Step(hw, code, m) == Step(hw, Alone(at, part), m)
  {
    Inside(hw, m, at, part);
    var off, end := m.pc - at, at + |part|;
    assert Alone(at, part)[m.pc..] == part[off..];
    assert code[m.pc..end] == code[at..end][off..];
    assert code[m.pc..] == part[off..] + code[end..];
    hide Decode, Execute, Alone;
    DecodePrefix(part[off..], code[end..]);
  }

  lemma {:induction false} FinalOver(hw: Hw, codes: nat -> seq<Byte>, m: Machine, k: nat, n: nat)
    requires m.status != Running
    ensures StepsOver(hw, codes, m, k, n) == m
    decreases n
  {
    if n > 0 { FinalOver(hw, codes, m, k + 1, n - 1); }
  }

  lemma {:induction false} RunningBefore(hw: Hw, codes: nat -> seq<Byte>, m: Machine, k: nat, n: nat)
    requires StepsOver(hw, codes, m, k, n + 1).status == Running
    ensures StepsOver(hw, codes, m, k, n).status == Running
    decreases n
  {
    hide Step;
    if m.status != Running {
      FinalOver(hw, codes, m, k, n + 1);
    } else if n > 0 {
      RunningBefore(hw, codes, Step(hw, codes(k), m), k + 1, n - 1);
    }
  }

  lemma {:induction false} RunSame(hw: Hw, codes: nat -> seq<Byte>, m: Machine, k: nat, n: nat, at: nat,
                                   part: seq<Byte>)
    requires Steps(hw, Alone(at, part), m, n).status != Faulted && HoldsWhileRunning(hw, codes, m, k, at, part)
    ensures StepsOver(hw, codes, m, k, n) == Steps(hw, Alone(at, part), m, n)
    decreases n
  {
    hide Step, Alone, CodeAt;
    if n > 0 {
      var alone := Alone(at, part);
      if m.status != Running {
        StoppedIsFinal(hw, alone, m, n);
        FinalOver(hw, codes, m, k, n);
      } else {
        assert StepsOver(hw, codes, m, k, 0) == m;
        var m1 := Step(hw, alone, m);
        if m1.status == Faulted { StoppedIsFinal(hw, alone, m1, n - 1); }
        StepSame(hw, codes(k), m, at, part);
        var k1 := k + 1;
        forall j: nat | StepsOver(hw, codes, m1, k1, j).status == Running ensures CodeAt(codes(k1 + j), at, part) {
          assert StepsOver(hw, codes, m, k, j + 1) == StepsOver(hw, codes, m1, k1, j);
        }
        RunSame(hw, codes, m1, k1, n - 1, at, part);
      }
    }
  }

  // A run that stops has no fault in it.
  lemma NoFault(hw: Hw, code: seq<Byte>, m: Machine, last: nat, n: nat)
    requires Steps(hw, code, m, last).status == Stopped
    ensures Steps(hw, code, m, n).status != Faulted
  {
    if n > last {
      StepsAdd(hw, code, m, last, n - last);
      StoppedIsFinal(hw, code, Steps(hw, code, m, last), n - last);
    } else {
      StepsAdd(hw, code, m, n, last - n);
      var o := Steps(hw, code, m, n);
      if o.status != Running { StoppedIsFinal(hw, code, o, last - n); }
    }
  }

  /** The compiler is correct for a buffer that changes during the run, as long as it holds the code of the
      request while the request executes. */
  lemma SharedCorrect(hw: Hw, codes: nat -> seq<Byte>, m: Machine, d: Dmac, x: Xfer, ev: nat) returns (m': Machine)
    requires Acceptable(hw, x, m) && Ready(m) && ev < 32
    requires HoldsWhileRunning(hw, codes, m, 0, m.pc, ReqCode(d, x, ev))
    ensures OutcomeOver(hw, codes, m, d, x, ev, m')
  {
    var part := ReqCode(d, x, ev);
    var alone := Alone(m.pc, part);
    assert alone[m.pc..m.pc + |part|] == part;
    hide Acceptable, Ready, ReqCode, Alone, Moved, Activity;
    m' := CompilerCorrect(hw, alone, m, d, x, ev);
    var last: nat :| Steps(hw, alone, m, last) == m';
    forall n: nat ensures StepsOver(hw, codes, m, 0, n) == Steps(hw, alone, m, n) {
      NoFault(hw, alone, m, last, n);
      RunSame(hw, codes, m, 0, n, m.pc, part);
    }
    assert StepsOver(hw, codes, m, 0, last) == m';
    forall n: nat | StepsOver(hw, codes, m, 0, n).status != Running ensures StepsOver(hw, codes, m, 0, n) == m' {
      assert Reaches(hw, alone, m, Steps(hw, alone, m, n));
    }
  }
}
