/** Powers and the few nonlinear facts the digit arithmetic rests on. */
module Arith {

  function Pow(b: nat, e: nat): nat {
    if e == 0 then 1 else b * Pow(b, e - 1)
  }

  function Min(x: int, y: int): int { if x < y then x else y }

  function Max(x: int, y: int): int { if x < y then y else x }

  lemma PowPositive(b: nat, e: nat)
    requires b > 0
    ensures Pow(b, e) > 0
  {
    if e > 0 {
      PowPositive(b, e - 1);
      MulPositive(b, Pow(b, e - 1));
    }
  }

  lemma MulPositive(x: int, y: int)
    requires x > 0 && y > 0
    ensures x * y > 0
  {}

  lemma MulMono(x: int, y: int, z: int)
    requires x <= y && z >= 0
    ensures x * z <= y * z
    ensures z * x <= z * y
  {}

  function MulNat(x: nat, y: nat): nat {
    MulMono(0, x, y);
    x * y
  }

  lemma MulMonoStrict(x: int, y: int, z: int)
    requires x < y && z > 0
    ensures x * z < y * z
    ensures z * x < z * y
  {}

  lemma {:induction false} PowAdd(b: nat, m: nat, n: nat)
    ensures Pow(b, m + n) == Pow(b, m) * Pow(b, n)
  {
    if m == 0 {
      assert Pow(b, 0) * Pow(b, n) == Pow(b, n);
    } else {
      PowAdd(b, m - 1, n);
      assert m + n - 1 == m - 1 + n;
      MulAssoc(b, Pow(b, m - 1), Pow(b, n));
    }
  }

  lemma MulAssoc(x: int, y: int, z: int)
    ensures x * (y * z) == (x * y) * z
  {}

  lemma Distribute(x: int, y: int, z: int)
    ensures (x + y) * z == x * z + y * z
    ensures z * (x + y) == z * x + z * y
    ensures (x - y) * z == x * z - y * z
    ensures z * (x - y) == z * x - z * y
  {}

  lemma PowMono(b: nat, m: nat, n: nat)
    requires b > 0 && m <= n
    ensures Pow(b, m) <= Pow(b, n)
  {
    PowAdd(b, m, n - m);
    PowPositive(b, n - m);
    PowPositive(b, m);
    MulMono(1, Pow(b, n - m), Pow(b, m));
  }

  /** Euclidean division is the only way to write x as m*q + r with 0 <= r < m. */
  lemma DivModUnique(x: int, m: int, q: int, r: int)
    requires m > 0 && x == m * q + r && 0 <= r < m
    ensures x / m == q && x % m == r
  {
    var q', r' := x / m, x % m;
    assert x == m * q' + r' && 0 <= r' < m;
    Distribute(q, q', m);
    assert m * (q - q') == r' - r;
    if q - q' >= 1 { MulMono(1, q - q', m); assert false; }
    if q - q' <= -1 { MulMono(q - q', -1, m); assert false; }
  }

  lemma DivModFacts(x: int, m: int)
    requires m > 0
    ensures x == m * (x / m) + x % m && 0 <= x % m < m
    ensures x >= 0 ==> 0 <= x / m
  {}

  /** Reducing a value already in range changes nothing. */
  lemma SmallMod(x: nat, m: nat)
    requires x < m
    ensures x % m == x && x / m == 0
  {}

  /** A product of positive factors m*q stays below m*p only if q < p. */
  lemma MulCancelLess(m: int, q: int, p: int)
    requires m > 0 && m * q < m * p
    ensures q < p
  {
    if q >= p { MulMono(p, q, m); }
  }

  /** Below p there is no room for a multiple of p. */
  lemma NoneLeft(v: nat, c: nat, p: nat, x: nat)
    requires v + c * p == x < p
    ensures c == 0 && v == x
  {
    if c >= 1 { MulMono(1, c, p); }
  }
}
