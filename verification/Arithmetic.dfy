// Quotients and remainders where the divisor is a variable.
module Arithmetic {
  lemma DivDiv(v: nat, a: nat, b: nat, m: nat)
    requires a > 0 && b > 0 && m == a * b
    ensures m > 0 && v / a / b == v / m
  {
    var p, s := v / a, v % a;
    var q, t := p / b, p % b;
    SmallRest(a, b, t, s);
    Quotient(v, a);
    Quotient(p, b);
    Expand(a, b, q, t, s);
    DivUnique(v, m, q, a * t + s);
  }

  lemma Expand(a: nat, b: nat, q: nat, t: nat, s: nat)
    ensures a * (b * q + t) + s == (a * b) * q + (a * t + s)
  {
    assert a * (b * q + t) == a * (b * q) + a * t;
    assert a * (b * q) == (a * b) * q;
  }

  lemma SmallRest(a: nat, b: nat, t: nat, s: nat)
    requires t < b && s < a
    ensures a * t + s < a * b
  {
    MulMono(a, t, b - 1);
    assert a * (b - 1) == a * b - a;
  }

  lemma MulMono(a: nat, x: nat, y: int)
    requires x <= y
    ensures a * x <= a * y
  {
  }

  lemma MulOneMore(m: nat, x: nat)
    ensures m * (x + 1) == m * x + m
  {
  }

  lemma DivUnique(v: nat, m: nat, q: nat, r: nat)
    requires r < m && v == m * q + r
    ensures v / m == q && v % m == r
  {
    var d := v / m;
    Quotient(v, m);
    if d < q {
      MulMono(m, d + 1, q);
      MulOneMore(m, d);
    }
    if q < d {
      MulMono(m, q + 1, d);
      MulOneMore(m, q);
    }
  }

  lemma ModMod(v: nat, a: nat, b: nat, m: nat)
    requires a > 0 && b > 0 && m == a * b
    ensures m > 0 && v % a + a * (v / a % b) == v % m
  {
    var p, s := v / a, v % a;
    var q, t := p / b, p % b;
    DivDiv(v, a, b, m);
    Quotient(v, a);
    Quotient(p, b);
    Expand(a, b, q, t, s);
    Quotient(v, m);
  }

  lemma Quotient(v: nat, m: nat)
    requires m > 0
    ensures v == m * (v / m) + v % m
  {
  }

  lemma ModMore(u: nat, k: nat, m: nat)
    requires m > 0
    ensures (u + m * k) % m == u % m
  {
    Quotient(u, m);
    Spread(m, u / m, k);
    DivUnique(u + m * k, m, u / m + k, u % m);
  }

  lemma Commute(x: nat, m: nat, b: nat)
    ensures x * (m * b) == m * (x * b)
  {
  }

  lemma Spread(m: nat, x: nat, y: nat)
    ensures m * (x + y) == m * x + m * y
  {
  }

  // Sum and product can be taken of the remainders.
  lemma ModSumMul(s: nat, x: nat, p: nat, m: nat)
    requires m > 0
    ensures (s % m + x * (p % m)) % m == (s + x * p) % m
  {
    var a, u, b, v := s / m, s % m, p / m, p % m;
    Quotient(s, m);
    Quotient(p, m);
    Regroup(m, a, u, x, b, v);
    ModMore(u + x * v, a + x * b, m);
  }

  lemma Regroup(m: nat, a: nat, u: nat, x: nat, b: nat, v: nat)
    ensures (m * a + u) + x * (m * b + v) == (u + x * v) + m * (a + x * b)
  {
    Spread(x, m * b, v);
    Commute(x, m, b);
    Spread(m, a, x * b);
  }
}
