/**
The log ring shared with the secure world: free-running indices of which only the
low 32 bits are shared, and a producer that is not locked against the reader.
*/
module TrustyLogRing {
  import opened Arith
  import opened Common

  type Stream = nat -> char

  // What a u32 keeps of an index.
  function Low(a: nat): nat { a % TWO32 }

  // u32_add_overflow, u32_sub_overflow
  function Add32(a: nat, b: nat): nat { (a + b) % TWO32 }
  function Sub32(a: nat, b: nat): nat { (a - b) % TWO32 }

  // The producer's characters [lo, hi).
  function Slice(stream: Stream, lo: nat, hi: nat): (r: seq<char>)
    requires lo <= hi
    ensures |r| == hi - lo
  {
    seq(hi - lo, i requires 0 <= i => stream(lo + i))
  }

  lemma SliceConcat(stream: Stream, lo: nat, mid: nat, hi: nat)
    requires lo <= mid <= hi
    ensures Slice(stream, lo, mid) + Slice(stream, mid, hi) == Slice(stream, lo, hi)
  {
    var l, r := Slice(stream, lo, mid) + Slice(stream, mid, hi), Slice(stream, lo, hi);
    forall i | 0 <= i < |l| ensures l[i] == r[i] {
      if i >= mid - lo { assert mid + (i - (mid - lo)) == lo + i; }
    }
  }

  lemma SliceSnoc(stream: Stream, lo: nat, hi: nat)
    requires lo <= hi
    ensures Slice(stream, lo, hi + 1) == Slice(stream, lo, hi) + [stream(hi)]
  {
  }

  // ----- wrapped indices -----

  lemma Lag(a: nat, g: nat)
    requires g <= a
    ensures Sub32(Low(a), Low(g)) == Low(a - g)
    ensures a - g < TWO32 ==> Sub32(Low(a), Low(g)) == a - g
    ensures g < TWO32 ==> Sub32(Low(a), g) == Low(a - g)
  {
  }

  lemma Advance(g: nat, n: nat)
    ensures Add32(Low(g), n) == Low(g + n)
  {
  }

  lemma Differ(a: nat, g: nat)
    requires g <= a < g + TWO32
    ensures Low(a) == Low(g) <==> a == g
  {
  }

  /** The overflow test on wrapped indices is exact as long as the reader is less than 2^32 characters behind;
      further behind it accepts a line exactly when the lag happens to be small modulo 2^32. */
  lemma OverflowTestExact(a: nat, g: nat, sz: nat)
    requires g <= a && sz < TWO32
    ensures Sub32(Low(a), Low(g)) > sz <==> Low(a - g) > sz
    ensures (Sub32(Low(a), Low(g)) > sz <==> a - g > sz) <==> (a - g < TWO32 || Low(a - g) > sz)
  {
    Lag(a, g);
  }

  // index & (sz - 1), sz being a power of two
  function Slot(index: nat, sz: nat): (r: nat)
    requires sz > 0
    ensures r < sz
  {
    index % sz
  }

  // A power of two.
  predicate SizeOk(sz: nat) { 0 < sz < TWO32 && TWO32 % sz == 0 }

  lemma Masked(g: nat, sz: nat)
    requires SizeOk(sz)
    ensures Slot(Low(g), sz) == Slot(g, sz)
  {
    var q, r, k := g / TWO32, g % TWO32, Div(TWO32, sz);
    assert g == r + TWO32 * q;
    assert TWO32 == sz * k;
    assert TWO32 * q == sz * (k * q);
    ModAdd(r, sz, k * q);
  }

  lemma Apart(p: nat, w: nat, sz: nat)
    requires sz > 0 && p < w < p + sz
    ensures Slot(p, sz) != Slot(w, sz)
  {
    var d := w - p;
    var q := Div(p, sz);
    var r := p - q * sz;
    DivExact(q, sz, r);
    if r + d < sz {
      DivExact(q, sz, r + d);
      assert w == q * sz + (r + d);
    } else {
      assert w == (q + 1) * sz + (r + d - sz);
      DivExact(q + 1, sz, r + d - sz);
    }
  }

  // ----- ring -----

  // reserved and published are the producer's own counters; the shared words
  // alloc and put are their low 32 bits.
  class Ring {
    const sz: nat
    const stream: Stream
    const data: array<char>
    var reserved: nat
    var published: nat

    function Alloc(): nat reads this { Low(reserved) }
    function Put(): nat reads this { Low(published) }

    predicate Holds(p: nat)
      requires sz > 0 && data.Length == sz
      reads data
    {
      data[Slot(p, sz)] == stream(p)
    }

    // What is published and not yet reserved again is in the buffer.
    ghost predicate Valid()
      reads this, data
    {
      && 0 < sz < TWO32 && SizeOk(sz) && data.Length == sz
      && published <= reserved <= published + sz
      && forall p: nat :: reserved <= p + sz && p < published ==> Holds(p)
    }

    constructor (sz: nat, stream: Stream, data: array<char>)
      requires SizeOk(sz) && data.Length == sz
      ensures Valid() && reserved == published == 0
      ensures this.sz == sz && this.stream == stream && this.data == data
    {
      this.sz, this.stream, this.data := sz, stream, data;
      reserved, published := 0, 0;
    }

    // Any step of the producer, which stops reserving at `end`: reserve room, write
    // anything into reserved room, publish what has been written.
    method Produce(end: nat)
      requires Valid() && reserved <= end
      modifies this, data
      ensures Valid() && old(reserved) <= reserved <= end && old(published) <= published
    {
      hide Slot, SizeOk;
      var x: nat := *;
      if * {
        if reserved <= x <= published + sz && x <= end { reserved := x; }
      } else if * {
        if published <= x < reserved {
          var c: char := *;
          forall p: nat | reserved <= p + sz && p < published ensures Slot(p, sz) != Slot(x, sz) { Apart(p, x, sz); }
          data[Slot(x, sz)] := c;
          assert forall p: nat :: reserved <= p + sz && p < published ==> old(Holds(p));
        }
      } else {
        if published <= x <= reserved && forall w :: published <= w < x ==> Holds(w) { published := x; }
      }
    }

    // The producer between two reads of the consumer.
    method Interfere(end: nat)
      requires Valid() && reserved <= end
      modifies this, data
      ensures Valid() && old(reserved) <= reserved <= end && old(published) <= published
    {
      hide Slot, SizeOk;
      var n: nat := *;
      while n > 0
        invariant Valid() && old(reserved) <= reserved <= end && old(published) <= published
      {
        Produce(end);
        n := n - 1;
      }
    }
  }
}
