/**
The reader of the Trusty log: reading a line from under the producer, reporting
overruns, dumping to the kernel log and iterating through the log file.
*/
module TrustyLogSink {
  import opened Common
  import opened TrustyLogRing

  const LINE_BUFFER_SIZE := 256

  datatype Entry = Overflow | Line(text: string)

  // The lines since the last overflow report.
  function Text(out: seq<Entry>): string {
    if out == [] then ""
    else match out[|out| - 1]
      case Overflow => ""
      case Line(t) => Text(out[..|out| - 1]) + t
  }

  // What "%s" prints of a buffer.
  function CStr(buf: seq<char>): string {
    if buf == [] || buf[0] == '\0' then [] else [buf[0]] + CStr(buf[1..])
  }

  /** A buffered line is printed whole exactly when it holds no NUL. */
  lemma {:induction false} PrintedWhole(s: seq<char>, rest: seq<char>)
    ensures CStr(s + ['\0'] + rest) == s <==> '\0' !in s
  {
    var b := s + ['\0'] + rest;
    if s != [] {
      PrintedWhole(s[1..], rest);
      assert b[1..] == s[1..] + ['\0'] + rest;
      assert s == [s[0]] + s[1..];
      if s[0] != '\0' {
        assert CStr(b) == [s[0]] + CStr(b[1..]);
        assert CStr(b) == s <==> CStr(b[1..]) == s[1..] by {
          if CStr(b) == s { assert CStr(b)[1..] == s[1..]; }
        }
      }
    }
  }

  // One line: up to a newline, the end of what is published, or the end of the buffer.
  predicate IsLine(text: seq<char>, last: bool) {
    && |text| < LINE_BUFFER_SIZE && NoNewline(text, |text| - 1)
    && (last || |text| == LINE_BUFFER_SIZE - 1 || (text != [] && text[|text| - 1] == '\n'))
  }

  predicate NoNewline(text: seq<char>, n: int)
    requires n <= |text|
  {
    forall i :: 0 <= i < n ==> text[i] != '\n'
  }

  lemma {:induction false} CStrNul(s: seq<char>, rest: seq<char>)
    ensures CStr(s + ['\0'] + rest) == CStr(s)
  {
    var b := s + ['\0'] + rest;
    if s != [] {
      CStrNul(s[1..], rest);
      assert b[1..] == s[1..] + ['\0'] + rest;
    }
  }

  lemma Printed(buf: seq<char>, n: nat)
    requires n < |buf| && buf[n] == '\0'
    ensures CStr(buf) == CStr(buf[..n]) && (CStr(buf) == buf[..n] <==> '\0' !in buf[..n])
  {
    assert buf == buf[..n] + ['\0'] + buf[n + 1..];
    CStrNul(buf[..n], buf[n + 1..]);
    PrintedWhole(buf[..n], buf[n + 1..]);
  }

  ghost predicate NoNul(stream: Stream) { forall i: nat :: stream(i) != '\0' }

  // The lines of `out` from mark on, since the last overflow report, are the characters
  // [base, pos), if none of them is NUL.
  ghost predicate OneSlice(stream: Stream, out: seq<Entry>, mark: nat, base: nat, pos: nat) {
    mark <= |out| && base <= pos && (NoNul(stream) ==> Text(out[mark..]) == Slice(stream, base, pos))
  }

  // t is what is printed of the characters [lo, hi).
  ghost predicate Prints(stream: Stream, lo: nat, hi: nat, t: string) {
    lo <= hi && t == CStr(Slice(stream, lo, hi)) && (NoNul(stream) ==> t == Slice(stream, lo, hi))
  }

  lemma PrintsBuffer(stream: Stream, lo: nat, n: nat, buf: seq<char>)
    requires n < |buf| && buf[n] == '\0' && buf[..n] == Slice(stream, lo, lo + n)
    ensures Prints(stream, lo, lo + n, CStr(buf))
  {
    Printed(buf, n);
    assert NoNul(stream) ==> '\0' !in Slice(stream, lo, lo + n);
  }

  lemma OneSliceGrows(stream: Stream, out: seq<Entry>, mark: nat, base: nat, pos: nat, next: nat, t: string)
    requires OneSlice(stream, out, mark, base, pos) && Prints(stream, pos, next, t)
    ensures OneSlice(stream, out + [Line(t)], mark, base, next)
  {
    SliceConcat(stream, base, pos, next);
    TextSnoc(out, mark, Line(t));
    hide Text, Slice, NoNul, CStr;
  }

  lemma OneSliceStarts(stream: Stream, out: seq<Entry>, mark: nat, pos: nat)
    requires mark <= |out| && Text(out[mark..]) == ""
    ensures OneSlice(stream, out, mark, pos, pos)
  {
  }

  lemma TextSnoc(out: seq<Entry>, mark: nat, e: Entry)
    requires mark <= |out|
    ensures Text((out + [e])[mark..]) == match e case Overflow => "" case Line(t) => Text(out[mark..]) + t
  {
    assert (out + [e])[mark..] == out[mark..] + [e];
    assert (out[mark..] + [e])[..|out| - mark] == out[mark..];
  }

  // The wrapped indices of a sink stand for these positions in the stream.
  ghost predicate IndicesOk(get: nat, pos: nat, lastNext: nat, lastPos: nat, published: nat) {
    get == Low(pos) && pos <= published && lastNext == Low(lastPos) && lastPos <= published
  }

  // What was put out: one slice unless lines were dropped, nothing yet if the next
  // overflow is to be silent.
  ghost predicate TextOk(stream: Stream, out: seq<Entry>, mark: nat, base: nat, pos: nat, dropped: bool, silent: bool) {
    && mark <= |out| && base <= pos
    && (silent ==> Text(out[mark..]) == "")
    && (dropped || OneSlice(stream, out, mark, base, pos))
  }

  lemma TextGrows(stream: Stream, out: seq<Entry>, mark: nat, base: nat, pos: nat, dropped: bool, silent: bool,
                  next: nat, t: string)
    requires TextOk(stream, out, mark, base, pos, dropped, silent) && Prints(stream, pos, next, t)
    ensures TextOk(stream, out + [Line(t)], mark, base, next, dropped, false)
    ensures TextOk(stream, out, mark, base, next, true, false)
  {
    if !dropped { OneSliceGrows(stream, out, mark, base, pos, next, t); }
    hide OneSlice, Prints, Text;
  }

  lemma TextStarts(stream: Stream, out: seq<Entry>, mark: nat, pos: nat)
    requires mark <= |out|
    ensures Text(out[mark..]) == "" ==> TextOk(stream, out, mark, pos, pos, false, true)
    ensures TextOk(stream, out + [Overflow], mark, pos, pos, false, true)
  {
    TextSnoc(out, mark, Overflow);
    OneSliceStarts(stream, out + [Overflow], mark, pos);
    if Text(out[mark..]) == "" { OneSliceStarts(stream, out, mark, pos); }
  }

  // ----- where reading starts -----

  function Oldest(a: nat, sz: nat): nat { if a > sz then a - sz else 0 }

  // trusty_log_seq_start at offset 0; alloc is read twice.
  function StartIndex(a0: nat, a1: nat, sz: nat): nat {
    if Low(a0) > sz then Sub32(Low(a1), sz) else 0
  }

  /** Reading a file from the start begins at the oldest retained character, as of the last read of alloc it
      used, exactly when alloc has not wrapped or is at least sz past its last wrap. */
  lemma StartExact(a0: nat, a1: nat, sz: nat)
    requires a0 <= a1 && 0 < sz < TWO32
    ensures Low(a0) > sz ==> StartIndex(a0, a1, sz) == Low(Oldest(a1, sz))
    ensures Low(a0) <= sz ==> (StartIndex(a0, a1, sz) == Low(Oldest(a0, sz)) <==> a0 < TWO32 || Low(a0) == sz)
  {
    if Low(a0) > sz {
      Lag(a1, sz);
      assert a0 >= Low(a0);
    }
  }

  // The position in the stream that this start index stands for.
  function StartPos(a0: nat, a1: nat, sz: nat): nat {
    if Low(a0) > sz then Oldest(a1, sz) else a0 - Low(a0)
  }

  lemma StartPosIndex(a0: nat, a1: nat, sz: nat)
    requires a0 <= a1 && 0 < sz < TWO32
    ensures Low(StartPos(a0, a1, sz)) == StartIndex(a0, a1, sz)
    ensures Low(a0) > sz ==> StartPos(a0, a1, sz) == Oldest(a1, sz)
    ensures Low(a0) <= sz ==> (StartPos(a0, a1, sz) == Oldest(a0, sz) <==> a0 < TWO32 || Low(a0) == sz)
  {
    StartExact(a0, a1, sz);
  }

  /** The start is past everything published, where only reserved room is, exactly when alloc has wrapped and
      put has not, that is, when the put word is above the alloc word; and then the overflow test lets what is
      read there through. p0 and p1 are published when a0 and a1 are reserved. */
  lemma StartPastPublished(a0: nat, a1: nat, p0: nat, p1: nat, sz: nat)
    requires p0 <= a0 <= p0 + sz && p1 <= a1 <= p1 + sz && a0 <= a1 && p0 <= p1 && 0 < sz < TWO32
    ensures Low(a0) > sz ==> StartPos(a0, a1, sz) <= p1 && Low(p0) <= Low(a0)
    ensures Low(a0) <= sz ==> (p0 < StartPos(a0, a1, sz) <==> Low(p0) > Low(a0))
    ensures p0 < StartPos(a0, a0, sz) ==> Sub32(Low(a0), StartIndex(a0, a0, sz)) <= sz
  {
    var q, r := a0 / TWO32, a0 % TWO32;
    if p0 < q * TWO32 {
      assert p0 >= q * TWO32 - sz;
      if q >= 1 { assert p0 == (q - 1) * TWO32 + (p0 - (q - 1) * TWO32); }
    }
  }

  /** For instance with a ring of 2048, two characters reserved past the wrap and none of them published. */
  lemma StartPastInstance()
    ensures StartIndex(TWO32 + 1, TWO32 + 1, 2048) == 0 && StartPos(TWO32 + 1, TWO32 + 1, 2048) == TWO32 > TWO32 - 1
    ensures Sub32(Low(TWO32 + 1), 0) <= 2048
  {
  }

  class Sink {
    const ring: Ring
    const line: array<char>
    const sfile: bool
    var get: nat
    var lastNext: nat
    var panicked: bool
    var ignoreOverflow: bool
    var out: seq<Entry>
    // Unwrapped get and lastNext; where the text since the last overflow or start
    // begins, in the stream and in `out`; whether the rate limit dropped some of it.
    ghost var pos: nat
    ghost var lastPos: nat
    ghost var base: nat
    ghost var mark: nat
    ghost var dropped: bool

    ghost predicate Valid()
      reads this, ring, ring.data
    {
      ring.Valid() && line.Length == LINE_BUFFER_SIZE && line != ring.data && Tracks(ring.published)
    }

    ghost predicate Tracks(published: nat)
      reads this
    {
      && IndicesOk(get, pos, lastNext, lastPos, published)
      && TextOk(ring.stream, out, mark, base, pos, dropped, sfile && ignoreOverflow)
    }

    constructor (ring: Ring, line: array<char>, sfile: bool, index: nat, ghost p: nat)
      requires ring.Valid() && line.Length == LINE_BUFFER_SIZE && line != ring.data
      requires index == Low(p) && p <= ring.published
      ensures Valid() && pos == p && lastPos == 0 && out == [] && mark == 0 && base == pos
      ensures ignoreOverflow == sfile && !dropped
      ensures this.ring == ring && this.line == line && this.sfile == sfile
    {
      this.ring, this.line, this.sfile := ring, line, sfile;
      get, lastNext, panicked, ignoreOverflow, out := index, 0, false, sfile, [];
      pos, lastPos, base, mark, dropped := p, 0, p, 0, false;
    }

    /** log_read_line against a running producer: unless the producer has reserved past g + sz by now, the
        buffer holds the producer's line at g; in any case it stays inside the buffer and short of `put`. */
    method ReadLine(put: nat, get0: nat, end: nat, ghost p: nat, ghost g: nat) returns (n: nat)
      requires ring.Valid() && line.Length == LINE_BUFFER_SIZE && line != ring.data
      requires put == Low(p) && get0 == Low(g) && g <= p <= ring.published && ring.reserved <= end < g + TWO32
      modifies ring, ring.data, line
      ensures ring.Valid() && old(ring.reserved) <= ring.reserved <= end && old(ring.published) <= ring.published
      ensures n < LINE_BUFFER_SIZE && g + n <= p && (g < p ==> n > 0) && line[n] == '\0'
      ensures ring.reserved <= g + ring.sz ==>
        line[..n] == Slice(ring.stream, g, g + n) && IsLine(line[..n], g + n == p)
    {
      Lag(p, g);
      hide Low, Slot, SizeOk, Slice, Add32, Sub32;
      var get, c := get0, '\0';
      var max := Min(Sub32(put, get0), LINE_BUFFER_SIZE - 1);
      n := 0;
      while n < max && c != '\n'
        invariant n <= max && get == Low(g + n)
        invariant ring.Valid() && old(ring.reserved) <= ring.reserved <= end && old(ring.published) <= ring.published
        invariant c == if n == 0 then '\0' else line[n - 1]
        invariant NoNewline(line[..n], n - 1)
        invariant ring.reserved <= g + ring.sz ==> line[..n] == Slice(ring.stream, g, g + n)
        decreases max - n
      {
        ring.Interfere(end);
        Masked(g + n, ring.sz);
        assert ring.reserved <= g + ring.sz ==> ring.Holds(g + n);
        ghost var before := line[..n];
        c := ring.data[Slot(get, ring.sz)];
        line[n] := c;
        assert line[..n + 1] == before + [c];
        SliceSnoc(ring.stream, g, g + n);
        Advance(g + n, 1);
        n := n + 1;
        get := Add32(get, 1);
      }
      ghost var text := line[..n];
      line[n] := '\0';
      assert line[..n] == text;
    }

    // The sink after an overrun seen when `reserved` was reserved, and after emitting a line.
    ghost predicate Overran(pos0: nat, out0: seq<Entry>, ignore0: bool, reserved: nat)
      reads this
    {
      && pos0 + ring.sz < reserved && pos == reserved - ring.sz
      && out == out0 + (if sfile && ignore0 then [] else [Overflow])
      && ignoreOverflow == (sfile || ignore0)
    }

    ghost predicate Emitted(pos0: nat, out0: seq<Entry>, p: nat, admit: bool, reserved: nat)
      reads this
    {
      && reserved <= pos0 + ring.sz && pos0 <= pos <= p && !ignoreOverflow
      && IsLine(Slice(ring.stream, pos0, pos), pos == p)
      && out == out0 + (if sfile || panicked || admit then [Line(CStr(Slice(ring.stream, pos0, pos)))] else [])
    }

    // The reader was overrun: report it once, go on at the oldest retained character.
    method Overrun(alloc: nat, ghost reserved: nat, ghost published: nat)
      requires Tracks(published) && alloc == Low(reserved) && ring.sz < TWO32
      requires pos + ring.sz < reserved <= published + ring.sz
      modifies this
      ensures Tracks(published) && Overran(old(pos), old(out), old(ignoreOverflow), reserved)
      ensures panicked == old(panicked) && mark == old(mark) && base == pos && !dropped
    {
      Lag(reserved, ring.sz);
      TextStarts(ring.stream, out, mark, reserved - ring.sz);
      hide Low, Sub32, Text, OneSlice;
      if sfile {
        if !ignoreOverflow { out := out + [Overflow]; }
        ignoreOverflow := true;
      } else {
        out := out + [Overflow];
      }
      get := Sub32(alloc, ring.sz);
      pos, base, dropped := reserved - ring.sz, reserved - ring.sz, false;
    }

    // The line of n characters read is valid: emit it and go on behind it.
    method Accept(n: nat, text: string, admit: bool, ghost p: nat, ghost reserved: nat, ghost published: nat)
      requires Tracks(published) && reserved <= pos + ring.sz && pos + n <= p <= published
      requires Prints(ring.stream, pos, pos + n, text) && IsLine(Slice(ring.stream, pos, pos + n), pos + n == p)
      modifies this
      ensures Tracks(published) && pos == old(pos) + n && Emitted(old(pos), old(out), p, admit, reserved)
      ensures panicked == old(panicked) && mark == old(mark) && base == old(base)
      ensures dropped == (old(dropped) || !(sfile || panicked || admit))
    {
      Advance(pos, n);
      TextGrows(ring.stream, out, mark, base, pos, dropped, sfile && ignoreOverflow, pos + n, text);
      hide Low, Slice, Add32, IsLine, CStr, TextOk, NoNul;
      get, pos, ignoreOverflow := Add32(get, n), pos + n, false;
      Print(text, admit);
    }

    // The kernel log is rate limited unless the secure world has panicked.
    method Print(text: string, admit: bool)
      modifies `out, `lastNext, `lastPos, `dropped
      ensures out == old(out) + (if sfile || panicked || admit then [Line(text)] else [])
      ensures dropped == (old(dropped) || !(sfile || panicked || admit))
      ensures (lastNext, lastPos) == if !sfile && (panicked || admit) then (get, pos) else old((lastNext, lastPos))
    {
      if sfile {
        out := out + [Line(text)];
      } else if panicked || admit {
        out, lastNext, lastPos := out + [Line(text)], get, pos;
      } else {
        dropped := true;
      }
    }

    /** trusty_log_show against a running producer: it reports an overrun and moves to the oldest retained
        character exactly when the producer has reserved more than sz past it; otherwise what it emits is the
        producer's line at get. Either way it moves forward and never past what is published. */
    method Show(admit: bool, end: nat) returns (ghost p: nat)
      requires Valid() && ring.reserved <= end < pos + TWO32
      modifies this, ring, ring.data, line
      ensures Valid() && old(ring.reserved) <= ring.reserved <= end
      ensures old(ring.published) <= p <= ring.published
      ensures Overran(old(pos), old(out), old(ignoreOverflow), ring.reserved)
        || Emitted(old(pos), old(out), p, admit, ring.reserved)
      ensures old(pos) <= pos && (old(pos) < old(ring.published) ==> old(pos) < pos)
      ensures panicked == old(panicked) && mark == old(mark)
      ensures dropped ==> old(dropped) || !(sfile || panicked || admit)
      ensures base == if ring.reserved > old(pos) + ring.sz then pos else old(base)
    {
      ring.Interfere(end);
      var put := ring.Put();
      p := ring.published;
      var n := ReadLine(put, get, end, p, pos);
      ring.Interfere(end);
      var alloc := ring.Alloc();
      Lag(ring.reserved, pos);
      hide Low, Slot, SizeOk, Slice, Sub32, IsLine, CStr, Text, OneSlice, Prints;
      if Sub32(alloc, get) > ring.sz {
        Overrun(alloc, ring.reserved, ring.published);
      } else {
        assert line[..][..n] == line[..n];
        PrintsBuffer(ring.stream, pos, n, line[..]);
        Accept(n, CStr(line[..]), admit, p, ring.reserved, ring.published);
      }
    }

    /** trusty_log_has_data: something is published that this sink has not read. */
    method HasData(end: nat) returns (more: bool)
      requires Valid() && ring.reserved <= end < pos + TWO32
      modifies ring, ring.data
      ensures Valid() && old(ring.reserved) <= ring.reserved <= end && old(ring.published) <= ring.published
      ensures more <==> pos < ring.published
    {
      ring.Interfere(end);
      Differ(ring.published, pos);
      more := ring.Put() != get;
    }

    // trusty_log_start
    method Start(index: nat, ghost p: nat)
      requires Valid() && !sfile && index == Low(p) && p <= ring.published
      modifies this
      ensures Valid() && pos == base == p && mark == |out| && !dropped
      ensures out == old(out) && panicked == old(panicked)
    {
      TextStarts(ring.stream, out, |out|, p);
      hide Low, Slot, SizeOk, Ring.Valid, OneSlice;
      get := index;
      pos, base, mark, dropped := p, p, |out|, false;
    }

    /** trusty_dump_logs against a producer that reserves nothing past `end`: it terminates having read
        everything published. Without an overflow what it read is one slice of the stream from where it
        started, which after a panic of the secure world is behind the last line printed; then every line is
        printed. */
    method Dump(trustyPanicked: bool, end: nat)
      requires Valid() && !sfile && ring.reserved <= end < (if trustyPanicked then lastPos else pos) + TWO32
      modifies this, ring, ring.data, line
      ensures Valid() && ring.reserved <= end && pos == ring.published
      ensures old(out) <= out && mark == |old(out)|
      ensures Overflow !in out[mark..] ==> base == (if trustyPanicked then old(lastPos) else old(pos))
      ensures trustyPanicked ==> !dropped
      ensures trustyPanicked && Overflow !in out[mark..] && NoNul(ring.stream) ==>
        old(lastPos) <= ring.published && Text(out[|old(out)|..]) == Slice(ring.stream, old(lastPos), ring.published)
    {
      panicked := trustyPanicked;
      ghost var start := if panicked then lastPos else pos;
      Start(if panicked then lastNext else get, start);
      ghost var before := out;
      var more := HasData(end);
      while more
        invariant Valid() && ring.reserved <= end && start <= pos && end < start + TWO32
        invariant more <==> pos < ring.published
        invariant panicked == trustyPanicked && before <= out && mark == |before|
        invariant Overflow !in out[mark..] ==> base == start
        invariant panicked ==> !dropped
        decreases end - pos
      {
        hide Low, Slot, SizeOk, Slice, Text, Ring.Valid, OneSlice, IsLine, CStr, NoNul;
        var admit: bool := *;
        ghost var was := out;
        ghost var p := Show(admit, end);
        assert out[mark..] == was[mark..] + out[|was|..];
        more := HasData(end);
      }
    }

    /** trusty_log_seq_next: the file offset is never 0 and holds the index to go on at. */
    method SeqNext(end: nat) returns (offset: nat, more: bool)
      requires Valid() && ring.reserved <= end < pos + TWO32
      modifies ring, ring.data
      ensures Valid() && old(ring.reserved) <= ring.reserved <= end
      ensures offset != 0 && Low(offset) == get && (more <==> pos < ring.published)
    {
      offset := TWO32 + get;
      more := HasData(end);
    }
  }

  // Where trusty_log_seq_start begins for a file offset.
  method SeqIndex(ring: Ring, offset: nat, end: nat) returns (index: nat, ghost a0: nat, ghost a1: nat)
    requires ring.Valid() && ring.reserved <= end
    modifies ring, ring.data
    ensures ring.Valid() && ring.reserved <= end && old(ring.published) <= ring.published
    ensures old(ring.reserved) <= a0 <= a1 <= ring.reserved
    ensures index == if offset == 0 then StartIndex(a0, a1, ring.sz) else Low(offset)
  {
    ring.Interfere(end);
    a0, a1 := ring.reserved, ring.reserved;
    if offset == 0 {
      index := 0;
      if ring.Alloc() > ring.sz {
        ring.Interfere(end);
        a1 := ring.reserved;
        index := Sub32(ring.Alloc(), ring.sz);
      }
    } else {
      index := Low(offset);
    }
  }

  /** trusty_log_seq_start with the offset left by another sink: reading goes on at the very character where
      that sink stopped, if anything more is published. */
  method Resume(prev: Sink, offset: nat, end: nat) returns (sink: Sink?)
    requires prev.Valid() && prev.sfile && offset != 0 && Low(offset) == prev.get
    requires prev.ring.reserved <= end < prev.pos + TWO32
    modifies prev.ring, prev.ring.data
    ensures prev.ring.Valid() && (sink == null <==> prev.pos == prev.ring.published)
    ensures sink != null ==> fresh(sink) && sink.Valid() && sink.ring == prev.ring && sink.out == []
    ensures sink != null ==> sink.pos == sink.base == prev.pos && sink.ignoreOverflow && !sink.dropped
  {
    var index;
    ghost var a0, a1;
    index, a0, a1 := SeqIndex(prev.ring, offset, end);
    var s := new Sink(prev.ring, prev.line, true, index, prev.pos);
    var more := s.HasData(end);
    sink := if more then s else null;
  }

  /** trusty_log_seq_start at offset 0, with put in the same 2^32 block of the stream as all that is reserved
      meanwhile: a reader whose lines are the producer's, at the oldest retained character exactly when alloc
      had not wrapped or was at least a ring size past its last wrap. */
  method Open(ring: Ring, line: array<char>, end: nat) returns (sink: Sink?, ghost a0: nat, ghost a1: nat)
    requires ring.Valid() && line.Length == LINE_BUFFER_SIZE && line != ring.data
    requires ring.reserved <= end && ring.published / TWO32 == end / TWO32
    modifies ring, ring.data
    ensures ring.Valid() && old(ring.reserved) <= a0 <= a1 <= ring.reserved <= end
    ensures sink == null <==> ring.published == StartPos(a0, a1, ring.sz)
    ensures sink != null ==> fresh(sink) && sink.Valid() && sink.ring == ring && sink.sfile && sink.out == []
    ensures sink != null ==> sink.pos == sink.base == StartPos(a0, a1, ring.sz) && end < sink.pos + TWO32
    ensures sink != null && Low(a0) > ring.sz ==> sink.pos == Oldest(a1, ring.sz)
    ensures sink != null && Low(a0) <= ring.sz ==>
      (sink.pos == Oldest(a0, ring.sz) <==> a0 < TWO32 || Low(a0) == ring.sz)
  {
    var index;
    index, a0, a1 := SeqIndex(ring, 0, end);
    ghost var start := StartPos(a0, a1, ring.sz);
    SameBlock(old(ring.published), ring.published, a0, a1, end, ring.sz);
    StartPosIndex(a0, a1, ring.sz);
    hide Low, StartPos, StartIndex, SizeOk;
    var s := new Sink(ring, line, true, index, start);
    var more := s.HasData(end);
    sink := if more then s else null;
  }

  lemma SameBlock(p0: nat, p: nat, a0: nat, a1: nat, end: nat, sz: nat)
    requires p0 <= p && p0 <= a0 <= a1 <= end && p <= end && a1 <= p + sz && p0 / TWO32 == end / TWO32 && 0 < sz < TWO32
    ensures StartPos(a0, a1, sz) <= p && end < StartPos(a0, a1, sz) + TWO32
  {
    var q := end / TWO32;
    assert q * TWO32 <= p0 && end < q * TWO32 + TWO32;
    assert a0 == q * TWO32 + (a0 - q * TWO32);
  }
}
