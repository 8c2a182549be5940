/** Congruences, divisibility and powers modulo m. */
module Modular {
  import opened Arith

  lemma {:induction false} CongFrom(x: int, y: int, m: int, t: int)
    requires m > 0 && x == y + m * t
    ensures x % m == y % m
  {
    DivModFacts(y, m);
    Distribute(y / m, t, m);
    DivModUnique(x, m, y / m + t, y % m);
  }

  lemma CongTo(x: int, y: int, m: int) returns (t: int)
    requires m > 0 && x % m == y % m
    ensures x == y + m * t
  {
    t := x / m - y / m;
    DivModFacts(x, m);
    DivModFacts(y, m);
    Distribute(x / m, y / m, m);
  }

  lemma CongAdd(x: int, y: int, x': int, y': int, m: int)
    requires m > 0 && x % m == x' % m && y % m == y' % m
    ensures (x + y) % m == (x' + y') % m
    ensures (x - y) % m == (x' - y') % m
  {
    var s := CongTo(x, x', m);
    var t := CongTo(y, y', m);
    Distribute(s, t, m);
    CongFrom(x + y, x' + y', m, s + t);
    CongFrom(x - y, x' - y', m, s - t);
  }

  lemma CongMul(x: int, y: int, x': int, y': int, m: int)
    requires m > 0 && x % m == x' % m && y % m == y' % m
    ensures (x * y) % m == (x' * y') % m
  {
    var s := CongTo(x, x', m);
    var t := CongTo(y, y', m);
    CongMulAlgebra(x', y', m, s, t);
    CongFrom(x * y, x' * y', m, x' * t + s * y' + s * (m * t));
  }

  lemma CongMulAlgebra(x: int, y: int, m: int, s: int, t: int)
    ensures (x + m * s) * (y + m * t) == x * y + m * (x * t + s * y + s * (m * t))
  {
    Distribute(x, m * s, y + m * t);
    Distribute(y, m * t, x);
    Distribute(y, m * t, m * s);
    MulAssoc(x, m, t);
    MulAssoc(m, x, t);
    MulAssoc(m, s, y);
    MulAssoc(m, s, m * t);
    Distribute(x * t, s * y, m);
    Distribute(x * t + s * y, s * (m * t), m);
  }

  /** Reducing a factor first changes nothing modulo m. */
  lemma ModOfMod(x: int, m: int)
    requires m > 0
    ensures (x % m) % m == x % m && 0 <= x % m < m
  {
    DivModFacts(x, m);
    DivModUnique(x % m, m, 0, x % m);
  }

  lemma {:induction false} CongPow(x: nat, y: nat, e: nat, m: int)
    requires m > 0 && x % m == y % m
    ensures Pow(x, e) % m == Pow(y, e) % m
  {
    if e > 0 {
      CongPow(x, y, e - 1, m);
      CongMul(x, Pow(x, e - 1), y, Pow(y, e - 1), m);
    }
  }

  lemma {:induction false} PowMul(x: nat, e: nat, f: nat)
    ensures Pow(Pow(x, e), f) == Pow(x, e * f)
  {
    if f == 0 {
      assert e * 0 == 0;
    } else {
      PowMul(x, e, f - 1);
      Distribute(f, 1, e);
      MulMono(0, f - 1, e);
      PowAdd(x, e, e * (f - 1));
    }
  }

  lemma {:induction false} PowOfProduct(x: nat, y: nat, e: nat)
    ensures Pow(x * y, e) == Pow(x, e) * Pow(y, e)
  {
    if e > 0 {
      PowOfProduct(x, y, e - 1);
      Interchange(x, y, Pow(x, e - 1), Pow(y, e - 1));
    }
  }

  lemma Interchange(a: int, b: int, c: int, d: int)
    ensures (a * b) * (c * d) == (a * c) * (b * d)
  {
    MulAssoc(a, b, c * d);
    MulAssoc(b, c, d);
    MulAssoc(c, b, d);
    MulAssoc(a, c, b * d);
  }

  lemma {:induction false} PowOne(e: nat)
    ensures Pow(1, e) == 1
  {
    if e > 0 { PowOne(e - 1); }
  }

  ghost predicate Divides(d: int, x: int)
    requires d > 0
  {
    x % d == 0
  }

  /** d divides both x and y. */
  ghost predicate Common(d: int, x: int, y: int)
    requires d > 0
  {
    Divides(d, x) && Divides(d, y)
  }

  /** x and y share no divisor but 1. */
  ghost predicate Coprime(x: int, y: int) {
    forall d | d > 0 && Common(d, x, y) :: d == 1
  }

  lemma DividesLinear(d: int, x: int, y: int, t: int)
    requires d > 0 && Divides(d, x) && Divides(d, y)
    ensures Divides(d, x + y * t) && Divides(d, x - y)
  {
    var p := CongTo(x, 0, d);
    var q := CongTo(y, 0, d);
    MulAssoc(d, q, t);
    Distribute(p, q * t, d);
    Distribute(p, q, d);
    CongFrom(x + y * t, 0, d, p + q * t);
    CongFrom(x - y, 0, d, p - q);
    DivModUnique(0, d, 0, 0);
  }

  /** A divisor of an odd number that divides an even number divides its half. */
  lemma HalfShares(d: int, x: int, odd: int)
    requires d > 0 && x % 2 == 0 && odd % 2 == 1
    ensures Common(d, x, odd) <==> Common(d, x / 2, odd)
  {
    DivModUnique(0, d, 0, 0);
    if Common(d, x / 2, odd) { DividesLinear(d, x / 2, x / 2, 1); }
    if Common(d, x, odd) {
      var p := CongTo(x, 0, d);
      var q := CongTo(odd, 0, d);
      OddDivisor(odd, d, q);
      OddFactor(d, p);
      MulAssoc(d, 2, p / 2);
      assert x == 2 * (d * (p / 2));
      CongFrom(x / 2, 0, d, p / 2);
    }
  }

  lemma OddDivisor(odd: int, d: int, q: int)
    requires odd % 2 == 1 && odd == d * q
    ensures d % 2 == 1
  {
    MulAssoc(2, d / 2, q);
  }

  lemma OddFactor(d: int, p: int)
    requires d % 2 == 1 && (d * p) % 2 == 0
    ensures p % 2 == 0
  {
    var h := d / 2;
    Distribute(2 * h, 1, p);
    MulAssoc(2, h, p);
    EvenRest(d * p, h * p, p);
  }

  lemma EvenRest(x: int, y: int, p: int)
    requires x % 2 == 0 && x == 2 * y + p
    ensures p % 2 == 0
  {
  }

  /** An inverse modulo m is unique modulo m. */
  lemma InverseUnique(x: int, w: int, w': int, m: int)
    requires m > 0 && (x * w) % m == 1 % m && (x * w') % m == 1 % m
    ensures w % m == w' % m
  {
    CongMul(x * w, w', 1, w', m);
    CongMul(x * w', w, 1, w, m);
    MulAssoc(x, w, w');
    MulAssoc(x, w', w);
    assert (x * w) * w' == (x * w') * w;
  }

  function ExptMod(g: nat, e: nat, p: nat): nat
    requires p > 0
  {
    Pow(g, e) % p
  }

  function MulMod(x: nat, y: nat, m: nat): (r: nat)
    requires m > 0
    ensures r < m
  {
    MulMono(0, x, y);
    ModOfMod(x * y, m);
    (x * y) % m
  }
}
