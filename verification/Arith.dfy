/** Division and remainder facts shared by the models. */
module Arith {

  function Div(a: nat, b: nat): nat
    requires b >= 1
  {
    a / b
  }

  lemma MulMono(a: nat, b: nat, s: nat)
    requires a <= b
    ensures a * s <= b * s
  {
  }

  lemma DivExact(q: nat, s: nat, r: nat)
    requires r < s
    ensures (q * s + r) / s == q
  {
    var d := (q * s + r) / s;
    if d < q {
      MulMono(d + 1, q, s);
    } else if d > q {
      MulMono(q + 1, d, s);
    }
  }

  lemma Peel(d: nat, k: nat, r: nat)
    requires d < k
    ensures (d + k * r) % k == d && (d + k * r) / k == r
  {
    DivExact(r, k, d);
    assert r * k == k * r;
  }

  lemma ModAdd(a: nat, k: nat, t: nat)
    requires k >= 1
    ensures (a + k * t) % k == a % k
  {
    var q := Div(a, k);
    var r := a - q * k;
    assert a + k * t == (q + t) * k + r;
    DivExact(q + t, k, r);
    DivExact(q, k, r);
  }

  lemma DivDiv(v: nat, a: nat, b: nat)
    requires a >= 1 && b >= 1 && a * b >= 1
    ensures v / (a * b) == Div(Div(v, a), b)
  {
    var q := Div(v, a);
    var p := Div(q, b);
    var r1, r2 := v - q * a, q - p * b;
    assert q * a == (p * b + r2) * a == p * (a * b) + r2 * a;
    assert r2 * a + r1 < a * b by {
      MulMono(r2 + 1, b, a);
      assert (r2 + 1) * a == r2 * a + a;
      assert b * a == a * b;
    }
    DivExact(p, a * b, r2 * a + r1);
  }
}
