/** fast_mp_invmod: the binary extended Euclidean algorithm for an odd modulus. */
module InvMod {
  import opened Prelude
  import opened Arith
  import opened Modular

  /** mp_div_2 on a signed number: the magnitude is halved, so it rounds toward zero. */
  function Half(x: int): int {
    if x < 0 then -((-x) / 2) else x / 2
  }

  /** mp_iseven: zero has no digits and is not even. */
  predicate IsEven(x: int) { x != 0 && x % 2 == 0 }

  predicate IsOdd(x: int) { x % 2 == 1 }

  datatype State = State(u: int, v: int, bigB: int, bigD: int)

  /** Steps 4 and 5: strip factors of two from x, keeping k a cofactor of it modulo b. */
  function Strip(b: int, x: int, k: int): (int, int)
    requires x >= 0
    decreases x
  {
    if IsEven(x) then Strip(b, Half(x), Half(if IsOdd(k) then k - b else k)) else (x, k)
  }

  /** One pass from `top` to the zero test. */
  function Round(b: int, s: State): State
    requires s.u >= 0 && s.v >= 0
  {
    var (u, bigB) := Strip(b, s.u, s.bigB);
    var (v, bigD) := Strip(b, s.v, s.bigD);
    if u >= v then State(u - v, v, bigB - bigD, bigD) else State(u, v - u, bigB, bigD - bigB)
  }

  /** x = k * a modulo b. */
  ghost predicate Cofactor(b: int, a: int, x: int, k: int)
    requires b > 0
  {
    x % b == (k * a) % b
  }

  ghost predicate Inv(b: int, a: int, s: State)
    requires b > 0
  {
    && s.u >= 0 && s.v > 0 && (IsOdd(s.u) || IsOdd(s.v))
    && Cofactor(b, a, s.u, s.bigB) && Cofactor(b, a, s.v, s.bigD)
    && (forall d | d > 0 :: Common(d, s.u, s.v) <==> Common(d, b, a))
  }

  /** Halving x halves its cofactor modulo an odd b, after making the cofactor even. */
  lemma HalveCofactor(b: int, a: int, x: int, k: int)
    requires b > 0 && IsOdd(b) && x % 2 == 0 && Cofactor(b, a, x, k)
    ensures Cofactor(b, a, Half(x), Half(if IsOdd(k) then k - b else k))
  {
    var k' := if IsOdd(k) then k - b else k;
    HalfExact(x);
    HalfExact(k');
    HalveCofactorBy(b, a, Half(x), k, Half(k'), IsOdd(k));
  }

  lemma HalveCofactorBy(b: int, a: int, x: int, k: int, h: int, shift: bool)
    requires b > 0 && IsOdd(b) && Cofactor(b, a, 2 * x, k) && 2 * h == if shift then k - b else k
    ensures Cofactor(b, a, x, h)
  {
    var t := CongTo(2 * x, k * a, b);
    CofactorAlgebra(b, a, k, t, h, shift);
    HalveCongruence(b, x, h * a, if shift then t + a else t);
  }

  lemma HalfExact(x: int)
    requires x % 2 == 0
    ensures x == 2 * Half(x)
  {}

  lemma CofactorAlgebra(b: int, a: int, k: int, t: int, h: int, shift: bool)
    requires 2 * h == if shift then k - b else k
    ensures k * a + b * t == 2 * (h * a) + b * (if shift then t + a else t)
  {
    MulAssoc(2, h, a);
    Distribute(k, b, a);
    Distribute(t, a, b);
  }

  lemma EvenProduct(x: int, h: int)
    requires x == 2 * h
    ensures x % 2 == 0
  {}

  lemma TwiceProduct(b: int, t: int, h: int)
    requires t == 2 * h
    ensures b * t == 2 * (b * h)
  {}

  lemma HalveCongruence(b: int, x: int, y: int, t: int)
    requires b > 0 && IsOdd(b) && 2 * x == 2 * y + b * t
    ensures x % b == y % b
  {
    EvenProduct(b * t, x - y);
    OddFactor(b, t);
    TwiceProduct(b, t, t / 2);
    CongFrom(x, y, b, t / 2);
  }

  lemma {:induction false} StripKeeps(b: int, a: int, x: int, k: int, other: int)
    requires b > 0 && IsOdd(b) && x > 0 && Cofactor(b, a, x, k)
    ensures var (x', k') := Strip(b, x, k);
            0 < x' <= x && IsOdd(x') && Cofactor(b, a, x', k') &&
            (IsOdd(other) ==> forall d | d > 0 :: Common(d, x', other) <==> Common(d, x, other))
    decreases x
  {
    if IsEven(x) {
      HalveCofactor(b, a, x, k);
      StripKeeps(b, a, Half(x), Half(if IsOdd(k) then k - b else k), other);
      if IsOdd(other) {
        forall d | d > 0 ensures Common(d, x, other) <==> Common(d, Half(x), other) { HalfShares(d, x, other); }
      }
    }
  }

  lemma CofactorDifference(b: int, a: int, x: int, k: int, y: int, j: int)
    requires b > 0 && Cofactor(b, a, x, k) && Cofactor(b, a, y, j)
    ensures Cofactor(b, a, x - y, k - j)
  {
    CongAdd(x, y, k * a, j * a, b);
    Distribute(k, j, a);
  }

  lemma DifferenceShares(d: int, x: int, y: int)
    requires d > 0
    ensures Common(d, x, y) <==> Common(d, x - y, y)
    ensures Common(d, x, y) <==> Common(d, x, y - x)
  {
    if Common(d, x, y) { DividesLinear(d, x, y, 0); DividesLinear(d, y, x, 0); }
    if Common(d, x - y, y) { DividesLinear(d, x - y, y, 1); }
    if Common(d, x, y - x) { DividesLinear(d, x, y - x, 1); }
  }

  /** A pass keeps the cofactors and the common divisors, and brings u + v down. */
  lemma RoundKeeps(b: int, a: int, s: State)
    requires b > 0 && IsOdd(b) && Inv(b, a, s) && s.u > 0
    ensures Inv(b, a, Round(b, s)) && Round(b, s).u + Round(b, s).v < s.u + s.v
  {
    var (u, bigB) := Strip(b, s.u, s.bigB);
    var (v, bigD) := Strip(b, s.v, s.bigD);
    StripKeeps(b, a, s.u, s.bigB, s.v);
    StripKeeps(b, a, s.v, s.bigD, u);
    StripKeeps(b, a, s.u, s.bigB, v);
    StripKeeps(b, a, s.v, s.bigD, s.u);
    forall d | d > 0 ensures Common(d, u, v) <==> Common(d, s.u, s.v) {
      assert Common(d, u, v) <==> Common(d, v, u);
      assert Common(d, s.u, s.v) <==> Common(d, s.v, s.u);
    }
    CofactorDifference(b, a, u, bigB, v, bigD);
    CofactorDifference(b, a, v, bigD, u, bigB);
    forall d | d > 0 ensures Common(d, Round(b, s).u, Round(b, s).v) <==> Common(d, b, a) {
      DifferenceShares(d, u, v);
    }
  }

  lemma Start(b: int, a: int)
    requires b > 0 && IsOdd(b) && a % b != 0
    ensures Inv(b, a, State(b, a % b, 0, 1))
  {
    ModOfMod(a, b);
    assert 0 * a == 0 && 1 * a == a;
    DivModUnique(b, b, 1, 0);
    DivModUnique(0, b, 0, 0);
    forall d | d > 0 ensures Common(d, b, a % b) <==> Common(d, b, a) {
      DivModFacts(a, b);
      RemainderShares(d, b, a, a % b, a / b);
    }
  }

  lemma NegateProduct(x: int, y: int)
    ensures x * -y == -(x * y)
  {}

  lemma RemainderShares(d: int, b: int, a: int, r: int, q: int)
    requires d > 0 && a == b * q + r
    ensures Common(d, b, r) <==> Common(d, b, a)
  {
    NegateProduct(b, q);
    if Common(d, b, a) { DividesLinear(d, a, b, -q); }
    if Common(d, b, r) { DividesLinear(d, r, b, q); }
  }

  /** When u reaches zero, v is the greatest common divisor. */
  lemma Finish(b: int, a: int, s: State)
    requires b > 0 && Inv(b, a, s) && s.u == 0
    ensures s.v == 1 <==> Coprime(a, b)
  {
    DivModUnique(0, s.v, 0, 0);
    DivModUnique(s.v, s.v, 1, 0);
    assert Common(s.v, s.u, s.v);
    assert Common(s.v, b, a);
    if s.v == 1 {
      forall d | d > 0 && Common(d, a, b) ensures d == 1 {
        assert Common(d, b, a);
        assert Common(d, s.u, s.v);
        if d > 1 { DivModUnique(1, d, 0, 1); }
      }
    } else {
      assert Common(s.v, a, b);
    }
  }

  /** Minus one is not one modulo an odd number above 1. */
  lemma MinusOne(x: int, b: int)
    requires b > 1 && IsOdd(b) && x % b == 1
    ensures (-x) % b == b - 1 != 1
  {
    DivModFacts(x, b);
    MulAssoc(-1, b, x / b);
    assert -x == b * (-(x / b) - 1) + (b - 1) by { Distribute(-(x / b), 1, b); }
    DivModUnique(-x, b, -(x / b) - 1, b - 1);
  }

  /** The passes, until u is zero. */
  function Settle(b: int, a: int, s: State): (r: State)
    requires b > 0 && IsOdd(b) && Inv(b, a, s)
    ensures Inv(b, a, r) && r.u == 0
    decreases s.u + s.v
  {
    if s.u == 0 then s else RoundKeeps(b, a, s); Settle(b, a, Round(b, s))
  }

  /** The modulus added until the number is not negative. */
  function Lift(b: int, k: int): (r: int)
    requires b > 0
    ensures r >= 0
    decreases -k
  {
    if k < 0 then Lift(b, k + b) else k
  }

  lemma {:induction false} LiftCofactor(b: int, a: int, k: int)
    requires b > 0
    ensures (Lift(b, k) * a) % b == (k * a) % b
    decreases -k
  {
    if k < 0 {
      Distribute(k, b, a);
      CongFrom((k + b) * a, k * a, b, a);
      LiftCofactor(b, a, k + b);
    }
  }

  /** What fast_mp_invmod answers. */
  function Inverse(a: int, b: int): Option<int>
    requires b > 0 && (IsOdd(b) ==> a % b != 0)
  {
    if IsEven(b) then None
    else
      Start(b, a);
      var s := Settle(b, a, State(b, a % b, 0, 1));
      if s.v != 1 then None
      else
        var k := Lift(b, s.bigD);
        Some(if a < 0 then -k else k)
  }

  /**
   * An inverse is found exactly when a and b are coprime. The sign of a is copied onto the result, so the
   * result inverts a only when a is not negative; otherwise it inverts -a.
   */
  lemma InverseFound(a: int, b: int)
    requires b > 0 && (IsOdd(b) ==> a % b != 0)
    ensures var c := Inverse(a, b);
            && (IsEven(b) ==> c == None)
            && (IsOdd(b) ==> (c.Some? <==> Coprime(a, b)))
            && (c.Some? ==> ((a * c.value) % b == 1 <==> a >= 0))
            && (c.Some? && a >= 0 ==> c.value >= 0)
            && (c.Some? && a < 0 ==> c.value <= 0 && (-a * c.value) % b == 1)
  {
    if IsOdd(b) {
      Start(b, a);
      var s := Settle(b, a, State(b, a % b, 0, 1));
      Finish(b, a, s);
      if s.v == 1 {
        LiftCofactor(b, a, s.bigD);
        OneBelow(b, a);
        SignedInverse(b, a, Lift(b, s.bigD));
      }
    }
  }

  lemma SignedInverse(b: int, a: int, k: int)
    requires b > 1 && IsOdd(b) && (k * a) % b == 1
    ensures (a * k) % b == 1 && (-a * -k) % b == 1 && (a * -k) % b != 1
  {
    assert a * k == k * a && a * -k == -(k * a) && -a * -k == k * a;
    MinusOne(k * a, b);
  }

  lemma OneBelow(b: int, a: int)
    requires b > 0 && a % b != 0
    ensures b > 1 && 1 % b == 1
  {
    if b == 1 { DivModUnique(a, 1, a, 0); }
    DivModUnique(1, b, 0, 1);
  }

  function Rounds(b: int, s: State, n: nat): State
    requires s.u >= 0 && s.v >= 0
    ensures Rounds(b, s, n).u >= 0 && Rounds(b, s, n).v >= 0
  {
    if n == 0 then s else StripRange(b, Rounds(b, s, n - 1)); Round(b, Rounds(b, s, n - 1))
  }

  lemma StripRange(b: int, s: State)
    requires s.u >= 0 && s.v >= 0
    ensures Round(b, s).u >= 0 && Round(b, s).v >= 0
  {
    StripSigns(b, s.u, s.bigB);
    StripSigns(b, s.v, s.bigD);
  }

  lemma {:induction false} StripSigns(b: int, x: int, k: int)
    requires x >= 0
    ensures Strip(b, x, k).0 >= 0 && (x > 0 ==> Strip(b, x, k).0 > 0)
    decreases x
  {
    if IsEven(x) { StripSigns(b, Half(x), Half(if IsOdd(k) then k - b else k)); }
  }

  /** When b divides a, no number of passes ever reaches the exit: u never becomes zero. */
  lemma {:induction false} NeverFinishes(b: int, a: int, n: nat)
    requires b > 0 && a % b == 0
    ensures Rounds(b, State(b, a % b, 0, 1), n).u != 0
    ensures Rounds(b, State(b, a % b, 0, 1), n).v == 0
  {
    if n > 0 {
      NeverFinishes(b, a, n - 1);
      var s := Rounds(b, State(b, a % b, 0, 1), n - 1);
      StripSigns(b, s.u, s.bigB);
    }
  }

  lemma {:induction false} RoundsFront(b: int, s: State, n: nat)
    requires s.u >= 0 && s.v >= 0 && Round(b, s).u >= 0 && Round(b, s).v >= 0
    ensures Rounds(b, Round(b, s), n) == Rounds(b, s, n + 1)
  {
    if n > 0 { RoundsFront(b, s, n - 1); }
  }

  lemma {:induction false} ReachesExit(b: int, a: int, s: State) returns (n: nat)
    requires b > 0 && IsOdd(b) && Inv(b, a, s)
    ensures Rounds(b, s, n).u == 0
    decreases s.u + s.v
  {
    if s.u == 0 { return 0; }
    RoundKeeps(b, a, s);
    n := ReachesExit(b, a, Round(b, s));
    RoundsFront(b, s, n);
    n := n + 1;
  }

  /** Whether fast_mp_invmod comes to its exit. */
  ghost predicate Returns(b: int, a: int)
    requires b > 0
  {
    exists n: nat :: Rounds(b, State(b, a % b, 0, 1), n).u == 0
  }

  /** For an odd modulus it does exactly when the modulus does not divide a. */
  lemma ReturnsExactly(b: int, a: int)
    requires b > 0 && IsOdd(b)
    ensures Returns(b, a) <==> a % b != 0
  {
    if a % b != 0 {
      Start(b, a);
      var n := ReachesExit(b, a, State(b, a % b, 0, 1));
    } else {
      forall n: nat ensures Rounds(b, State(b, a % b, 0, 1), n).u != 0 {
        NeverFinishes(b, a, n);
      }
    }
  }
}
