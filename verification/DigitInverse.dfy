/** fast_mp_invmod on digit arrays, refining the passes of InvMod. */
module DigitInverse {
  import opened Prelude
  import opened Arith
  import opened Digits
  import opened MpInts
  import opened SignedInts
  import opened InvMod

  /** Distinct numbers with distinct digit arrays. */
  ghost predicate Apart(p: MpInt, q: MpInt)
    reads p, q
  {
    p != q && p.dp != q.dp
  }

  /** mp_copy into a new number. */
  method MpCopy(cfg: Config, a: MpInt) returns (x: MpInt)
    requires cfg.Ok() && a.Normal(cfg.Base())
    ensures fresh(x) && fresh(x.dp) && x.Normal(cfg.Base()) && x.IntVal(cfg.Base()) == a.IntVal(cfg.Base())
  {
    x := new MpInt(a.used);
    var n := 0;
    while n < a.used
      invariant 0 <= n <= a.used && fresh(x) && fresh(x.dp) && x.dp.Length == a.used && x.used == 0
      invariant x.dp[..n] == a.dp[..n]
    {
      x.dp[n] := a.dp[n];
      n := n + 1;
    }
    x.used := a.used;
    x.sign := a.sign;
    assert x.dp[..x.used] == a.dp[..a.used];
  }

  /** mp_iseven and mp_isodd, on the lowest digit. */
  method DigitEven(cfg: Config, x: MpInt) returns (r: bool)
    requires cfg.Ok() && x.Normal(cfg.Base())
    ensures r == IsEven(x.IntVal(cfg.Base()))
  {
    cfg.Sizes();
    Parity(cfg, x);
    NegativeBelowZero(cfg.Base(), x);
    r := x.used > 0 && x.dp[0] % 2 == 0;
  }

  method DigitOdd(cfg: Config, x: MpInt) returns (r: bool)
    requires cfg.Ok() && x.Normal(cfg.Base())
    ensures r == IsOdd(x.IntVal(cfg.Base()))
  {
    Parity(cfg, x);
    r := x.used > 0 && x.dp[0] % 2 == 1;
  }

  /** mp_div_2 in place. */
  method HalveInPlace(cfg: Config, x: MpInt)
    requires cfg.Ok() && x.Normal(cfg.Base())
    modifies x, x.dp
    ensures x.Normal(cfg.Base()) && (x.dp == old(x.dp) || fresh(x.dp))
    ensures x.IntVal(cfg.Base()) == Half(old(x.IntVal(cfg.Base())))
  {
    cfg.Sizes();
    NegativeBelowZero(cfg.Base(), x);
    MpDiv2(cfg, x, x);
  }

  method HalveCofactor(cfg: Config, x: MpInt, k: MpInt)
    requires cfg.Ok() && x.Normal(cfg.Base()) && k.Normal(cfg.Base()) && Apart(x, k)
    modifies k, k.dp
    ensures k.Normal(cfg.Base()) && Apart(x, k) && (k.dp == old(k.dp) || fresh(k.dp))
    ensures var was := old(k.IntVal(cfg.Base()));
            k.IntVal(cfg.Base()) == Half(if IsOdd(was) then was - old(x.IntVal(cfg.Base())) else was)
  {
    var odd := DigitOdd(cfg, k);
    if odd { MpSub(cfg, k, x, k); }
    HalveInPlace(cfg, k);
  }

  /** Steps 4.1 and 4.2: u is halved, and k with it, made even first. */
  method HalvePair(cfg: Config, x: MpInt, u: MpInt, k: MpInt) returns (even: bool)
    requires cfg.Ok() && x.Normal(cfg.Base()) && u.Normal(cfg.Base()) && k.Normal(cfg.Base())
    requires Apart(x, u) && Apart(x, k) && Apart(u, k)
    modifies u, u.dp, k, k.dp
    ensures u.Normal(cfg.Base()) && k.Normal(cfg.Base()) && Apart(u, k) && Apart(x, u) && Apart(x, k)
    ensures (u.dp == old(u.dp) || fresh(u.dp)) && (k.dp == old(k.dp) || fresh(k.dp))
    ensures u.IntVal(cfg.Base()) == Half(old(u.IntVal(cfg.Base()))) && even == IsEven(u.IntVal(cfg.Base()))
    ensures var was := old(k.IntVal(cfg.Base()));
            k.IntVal(cfg.Base()) == Half(if IsOdd(was) then was - old(x.IntVal(cfg.Base())) else was)
    ensures x.Normal(cfg.Base()) && x.IntVal(cfg.Base()) == old(x.IntVal(cfg.Base()))
  {
    HalveInPlace(cfg, u);
    even := DigitEven(cfg, u);
    HalveCofactor(cfg, x, k);
  }

  lemma StripStep(m: int, u: int, k: int)
    requires u >= 0 && IsEven(u)
    ensures 0 <= Half(u) < u && Strip(m, u, k) == Strip(m, Half(u), Half(if IsOdd(k) then k - m else k))
  {
  }

  /** Steps 4 and 5: the factors of two leave u. */
  method StripTwos(cfg: Config, x: MpInt, u: MpInt, k: MpInt)
    requires cfg.Ok() && x.Normal(cfg.Base()) && u.Normal(cfg.Base()) && k.Normal(cfg.Base())
    requires Apart(x, u) && Apart(x, k) && Apart(u, k) && u.IntVal(cfg.Base()) >= 0
    modifies u, u.dp, k, k.dp
    ensures u.Normal(cfg.Base()) && k.Normal(cfg.Base()) && Apart(u, k) && Apart(x, u) && Apart(x, k)
    ensures (u.dp == old(u.dp) || fresh(u.dp)) && (k.dp == old(k.dp) || fresh(k.dp))
    ensures (u.IntVal(cfg.Base()), k.IntVal(cfg.Base()))
         == Strip(old(x.IntVal(cfg.Base())), old(u.IntVal(cfg.Base())), old(k.IntVal(cfg.Base())))
  {
    ghost var base, m := cfg.Base(), x.IntVal(cfg.Base());
    ghost var goal := Strip(m, u.IntVal(base), k.IntVal(base));
    var even := DigitEven(cfg, u);
    while even
      invariant u.Normal(base) && k.Normal(base) && Apart(u, k) && Apart(x, u) && Apart(x, k)
      invariant (u.dp == old(u.dp) || fresh(u.dp)) && (k.dp == old(k.dp) || fresh(k.dp))
      invariant x.Normal(base) && x.IntVal(base) == m && u.IntVal(base) >= 0
      invariant even == IsEven(u.IntVal(base)) && Strip(m, u.IntVal(base), k.IntVal(base)) == goal
      decreases u.IntVal(base)
    {
      even := StripOnce(cfg, x, u, k, m, goal);
    }
  }

  /** One pass of that loop. */
  method StripOnce(cfg: Config, x: MpInt, u: MpInt, k: MpInt, ghost m: int, ghost goal: (int, int)) returns (even: bool)
    requires cfg.Ok() && x.Normal(cfg.Base()) && u.Normal(cfg.Base()) && k.Normal(cfg.Base())
    requires Apart(x, u) && Apart(x, k) && Apart(u, k) && u.IntVal(cfg.Base()) >= 0 && IsEven(u.IntVal(cfg.Base()))
    requires x.IntVal(cfg.Base()) == m && Strip(m, u.IntVal(cfg.Base()), k.IntVal(cfg.Base())) == goal
    modifies u, u.dp, k, k.dp
    ensures u.Normal(cfg.Base()) && k.Normal(cfg.Base()) && Apart(u, k) && Apart(x, u) && Apart(x, k)
    ensures (u.dp == old(u.dp) || fresh(u.dp)) && (k.dp == old(k.dp) || fresh(k.dp))
    ensures x.Normal(cfg.Base()) && x.IntVal(cfg.Base()) == m
    ensures 0 <= u.IntVal(cfg.Base()) < old(u.IntVal(cfg.Base())) && even == IsEven(u.IntVal(cfg.Base()))
    ensures Strip(m, u.IntVal(cfg.Base()), k.IntVal(cfg.Base())) == goal
  {
    StripStep(m, u.IntVal(cfg.Base()), k.IntVal(cfg.Base()));
    even := HalvePair(cfg, x, u, k);
  }

  /** The numbers of the loop: all apart, in normal form, and standing for the modulus and a state. */
  ghost predicate Holds(base: nat, x: MpInt, u: MpInt, v: MpInt, p: MpInt, q: MpInt, b: int, s: State)
    reads x, x.dp, u, u.dp, v, v.dp, p, p.dp, q, q.dp
  {
    && Apart(x, u) && Apart(x, v) && Apart(x, p) && Apart(x, q)
    && Apart(u, v) && Apart(u, p) && Apart(u, q) && Apart(v, p) && Apart(v, q) && Apart(p, q)
    && x.Normal(base) && u.Normal(base) && v.Normal(base) && p.Normal(base) && q.Normal(base)
    && x.IntVal(base) == b && u.IntVal(base) == s.u && v.IntVal(base) == s.v
    && p.IntVal(base) == s.bigB && q.IntVal(base) == s.bigD
  }

  /** Step 6: the smaller is taken from the larger, and its cofactor from the other's. */
  method SubtractPair(cfg: Config, x: MpInt, u: MpInt, v: MpInt, p: MpInt, q: MpInt, ghost b: int, ghost s: State)
    requires cfg.Ok() && Holds(cfg.Base(), x, u, v, p, q, b, s)
    modifies u, u.dp, p, p.dp
    ensures Holds(cfg.Base(), x, u, v, p, q, b, State(s.u - s.v, s.v, s.bigB - s.bigD, s.bigD))
    ensures (u.dp == old(u.dp) || fresh(u.dp)) && (p.dp == old(p.dp) || fresh(p.dp))
  {
    MpSub(cfg, u, v, u);
    MpSub(cfg, p, q, p);
  }

  function Swapped(s: State): State { State(s.v, s.u, s.bigD, s.bigB) }

  function StrippedU(b: int, s: State): State
    requires s.u >= 0
  {
    s.(u := Strip(b, s.u, s.bigB).0, bigB := Strip(b, s.u, s.bigB).1)
  }

  /** StripTwos among the other numbers. */
  method StripOne(cfg: Config, x: MpInt, u: MpInt, v: MpInt, p: MpInt, q: MpInt, ghost b: int, ghost s: State)
    requires cfg.Ok() && Holds(cfg.Base(), x, u, v, p, q, b, s) && s.u >= 0
    modifies u, u.dp, p, p.dp
    ensures Holds(cfg.Base(), x, u, v, p, q, b, StrippedU(b, s))
    ensures (u.dp == old(u.dp) || fresh(u.dp)) && (p.dp == old(p.dp) || fresh(p.dp))
  {
    StripTwos(cfg, x, u, p);
  }

  lemma HoldsSwapped(base: nat, x: MpInt, u: MpInt, v: MpInt, p: MpInt, q: MpInt, b: int, s: State)
    requires Holds(base, x, u, v, p, q, b, s)
    ensures Holds(base, x, v, u, q, p, b, Swapped(s))
  {
  }

  method Compare(cfg: Config, x: MpInt, u: MpInt, v: MpInt, p: MpInt, q: MpInt, ghost b: int, ghost s: State)
    returns (less: bool)
    requires cfg.Ok() && Holds(cfg.Base(), x, u, v, p, q, b, s)
    ensures less == (s.u < s.v)
  {
    cfg.Sizes();
    var order := MpCmp(u, v, cfg.Base());
    less := order == LT;
  }

  /** One pass from `top`. */
  method RoundOnce(cfg: Config, x: MpInt, u: MpInt, v: MpInt, p: MpInt, q: MpInt, ghost b: int, ghost s: State)
    requires cfg.Ok() && Holds(cfg.Base(), x, u, v, p, q, b, s) && s.u >= 0 && s.v >= 0
    modifies u, u.dp, v, v.dp, p, p.dp, q, q.dp
    ensures Holds(cfg.Base(), x, u, v, p, q, b, Round(b, s))
    ensures (u.dp == old(u.dp) || fresh(u.dp)) && (v.dp == old(v.dp) || fresh(v.dp))
    ensures (p.dp == old(p.dp) || fresh(p.dp)) && (q.dp == old(q.dp) || fresh(q.dp))
  {
    ghost var t := StripBoth(cfg, x, u, v, p, q, b, s);
    TakeSmaller(cfg, x, u, v, p, q, b, t);
  }

  method StripBoth(cfg: Config, x: MpInt, u: MpInt, v: MpInt, p: MpInt, q: MpInt, ghost b: int, ghost s: State)
    returns (ghost t: State)
    requires cfg.Ok() && Holds(cfg.Base(), x, u, v, p, q, b, s) && s.u >= 0 && s.v >= 0
    modifies u, u.dp, v, v.dp, p, p.dp, q, q.dp
    ensures Holds(cfg.Base(), x, u, v, p, q, b, t)
    ensures (t.u, t.bigB) == Strip(b, s.u, s.bigB) && (t.v, t.bigD) == Strip(b, s.v, s.bigD)
    ensures (u.dp == old(u.dp) || fresh(u.dp)) && (v.dp == old(v.dp) || fresh(v.dp))
    ensures (p.dp == old(p.dp) || fresh(p.dp)) && (q.dp == old(q.dp) || fresh(q.dp))
  {
    StripOne(cfg, x, u, v, p, q, b, s);
    ghost var s1 := StrippedU(b, s);
    HoldsSwapped(cfg.Base(), x, u, v, p, q, b, s1);
    StripOne(cfg, x, v, u, q, p, b, Swapped(s1));
    t := Swapped(StrippedU(b, Swapped(s1)));
    HoldsSwapped(cfg.Base(), x, v, u, q, p, b, Swapped(t));
  }

  method TakeSmaller(cfg: Config, x: MpInt, u: MpInt, v: MpInt, p: MpInt, q: MpInt, ghost b: int, ghost t: State)
    requires cfg.Ok() && Holds(cfg.Base(), x, u, v, p, q, b, t)
    modifies u, u.dp, v, v.dp, p, p.dp, q, q.dp
    ensures Holds(cfg.Base(), x, u, v, p, q, b,
                  if t.u >= t.v then State(t.u - t.v, t.v, t.bigB - t.bigD, t.bigD)
                  else State(t.u, t.v - t.u, t.bigB, t.bigD - t.bigB))
    ensures (u.dp == old(u.dp) || fresh(u.dp)) && (v.dp == old(v.dp) || fresh(v.dp))
    ensures (p.dp == old(p.dp) || fresh(p.dp)) && (q.dp == old(q.dp) || fresh(q.dp))
  {
    var less := Compare(cfg, x, u, v, p, q, b, t);
    if !less {
      SubtractPair(cfg, x, u, v, p, q, b, t);
    } else {
      HoldsSwapped(cfg.Base(), x, u, v, p, q, b, t);
      SubtractPair(cfg, x, v, u, q, p, b, Swapped(t));
      HoldsSwapped(cfg.Base(), x, v, u, q, p, b, State(t.v - t.u, t.u, t.bigD - t.bigB, t.bigB));
    }
  }

  /** The goto loop: passes until u is zero. */
  method Passes(cfg: Config, x: MpInt, u: MpInt, v: MpInt, p: MpInt, q: MpInt, ghost b: int, ghost a: int, ghost s0: State)
    returns (ghost s: State)
    requires cfg.Ok() && Holds(cfg.Base(), x, u, v, p, q, b, s0) && b > 0 && IsOdd(b) && Inv(b, a, s0)
    modifies u, u.dp, v, v.dp, p, p.dp, q, q.dp
    ensures Holds(cfg.Base(), x, u, v, p, q, b, s) && s == Settle(b, a, s0)
    ensures (v.dp == old(v.dp) || fresh(v.dp)) && (q.dp == old(q.dp) || fresh(q.dp))
  {
    cfg.Sizes();
    s := s0;
    NegativeBelowZero(cfg.Base(), u);
    while u.used != 0
      invariant Holds(cfg.Base(), x, u, v, p, q, b, s) && Inv(b, a, s) && Settle(b, a, s) == Settle(b, a, s0)
      invariant (u.dp == old(u.dp) || fresh(u.dp)) && (v.dp == old(v.dp) || fresh(v.dp))
      invariant (p.dp == old(p.dp) || fresh(p.dp)) && (q.dp == old(q.dp) || fresh(q.dp))
      invariant u.used == 0 <==> s.u == 0
      decreases s.u + s.v
    {
      RoundKeeps(b, a, s);
      RoundOnce(cfg, x, u, v, p, q, b, s);
      s := Round(b, s);
      NegativeBelowZero(cfg.Base(), u);
    }
  }

  /** mp_cmp_d against 1. */
  method IsOne(cfg: Config, v: MpInt) returns (r: bool)
    requires cfg.Ok() && v.Normal(cfg.Base())
    ensures r == (v.IntVal(cfg.Base()) == 1)
  {
    cfg.Sizes();
    NegativeBelowZero(cfg.Base(), v);
    r := v.sign == ZPos && v.used == 1 && v.dp[0] == 1;
    if v.used > 0 {
      ValTopDigit(cfg.Base(), v.dp[..v.used]);
      OneDigit(cfg.Base(), v.dp[..v.used]);
    }
  }

  lemma OneDigit(b: nat, s: seq<nat>)
    requires b > 1 && s != [] && s[|s| - 1] > 0 && AllBelow(b, s)
    ensures Val(b, s) == 1 <==> s == [1]
  {
    if |s| == 1 {
      ValOne(b, s[0]);
      assert s == [s[0]];
    } else {
      ValTopDigit(b, s);
      PowMono(b, 1, |s| - 1);
      assert Pow(b, 1) == b * Pow(b, 0);
      MulMono(1, s[|s| - 1], Pow(b, |s| - 1));
    }
  }

  /** The modulus is added while the number is negative. */
  method LiftUp(cfg: Config, q: MpInt, b: MpInt)
    requires cfg.Ok() && q.Normal(cfg.Base()) && b.Normal(cfg.Base()) && Apart(q, b) && b.IntVal(cfg.Base()) > 0
    modifies q, q.dp
    ensures q.Normal(cfg.Base())
    ensures q.IntVal(cfg.Base()) == Lift(old(b.IntVal(cfg.Base())), old(q.IntVal(cfg.Base())))
    ensures q.dp == old(q.dp) || fresh(q.dp)
  {
    ghost var base, m := cfg.Base(), b.IntVal(cfg.Base());
    cfg.Sizes();
    NegativeBelowZero(base, q);
    while q.sign == Neg
      invariant q.Normal(base) && Apart(q, b) && (q.dp == old(q.dp) || fresh(q.dp))
      invariant b.Normal(base) && b.IntVal(base) == m
      invariant Lift(m, q.IntVal(base)) == Lift(m, old(q.IntVal(base)))
      invariant q.sign == Neg <==> q.IntVal(base) < 0
      decreases -q.IntVal(base)
    {
      MpAdd(cfg, q, b, q);
      NegativeBelowZero(base, q);
    }
  }

  /** fast_mp_invmod; mp_mod is taken by value. On failure c is left alone. */
  method FastMpInvmod(cfg: Config, a: MpInt, b: MpInt, c: MpInt) returns (ok: bool)
    requires cfg.Ok() && a.Normal(cfg.Base()) && b.Normal(cfg.Base()) && b.IntVal(cfg.Base()) > 0
    requires IsOdd(b.IntVal(cfg.Base())) ==> a.IntVal(cfg.Base()) % b.IntVal(cfg.Base()) != 0
    modifies c
    ensures ok == Inverse(old(a.IntVal(cfg.Base())), old(b.IntVal(cfg.Base()))).Some?
    ensures ok ==> c.Normal(cfg.Base())
                   && c.IntVal(cfg.Base()) == Inverse(old(a.IntVal(cfg.Base())), old(b.IntVal(cfg.Base()))).value
    ensures !ok ==> c.used == old(c.used) && c.sign == old(c.sign) && c.dp == old(c.dp)
  {
    ghost var av, bv := a.IntVal(cfg.Base()), b.IntVal(cfg.Base());
    var even := DigitEven(cfg, b);
    if even { return false; }
    var q;
    ok, q := FindInverse(cfg, a, b);
    if ok { HandOver(cfg, q, c, a.sign, a); }
  }

  /** Everything up to the exchange with the result. */
  method FindInverse(cfg: Config, a: MpInt, b: MpInt) returns (ok: bool, q: MpInt)
    requires cfg.Ok() && a.Normal(cfg.Base()) && b.Normal(cfg.Base()) && b.IntVal(cfg.Base()) > 0
    requires IsOdd(b.IntVal(cfg.Base())) && a.IntVal(cfg.Base()) % b.IntVal(cfg.Base()) != 0
    ensures fresh(q) && fresh(q.dp)
    ensures ok == Inverse(a.IntVal(cfg.Base()), b.IntVal(cfg.Base())).Some?
    ensures ok ==> q.Normal(cfg.Base()) && q.IntVal(cfg.Base()) > 0
                   && Inverse(a.IntVal(cfg.Base()), b.IntVal(cfg.Base())).value
                      == if a.IntVal(cfg.Base()) < 0 then -q.IntVal(cfg.Base()) else q.IntVal(cfg.Base())
  {
    ghost var av, bv := a.IntVal(cfg.Base()), b.IntVal(cfg.Base());
    ghost var s;
    var v;
    v, q, s := Search(cfg, a, b);
    ok := IsOne(cfg, v);
    if ok {
      LiftPositive(bv, av, s);
      LiftUp(cfg, q, b);
    }
  }

  method Search(cfg: Config, a: MpInt, b: MpInt) returns (v: MpInt, q: MpInt, ghost s: State)
    requires cfg.Ok() && a.Normal(cfg.Base()) && b.Normal(cfg.Base()) && b.IntVal(cfg.Base()) > 0
    requires IsOdd(b.IntVal(cfg.Base())) && a.IntVal(cfg.Base()) % b.IntVal(cfg.Base()) != 0
    ensures fresh(q) && fresh(q.dp) && v.Normal(cfg.Base()) && q.Normal(cfg.Base())
    ensures var av, bv := a.IntVal(cfg.Base()), b.IntVal(cfg.Base());
            Inv(bv, av, State(bv, av % bv, 0, 1)) && s == Settle(bv, av, State(bv, av % bv, 0, 1))
    ensures v.IntVal(cfg.Base()) == s.v && q.IntVal(cfg.Base()) == s.bigD
  {
    ghost var av, bv := a.IntVal(cfg.Base()), b.IntVal(cfg.Base());
    Start(bv, av);
    var x, u, p;
    x, u, v, p, q := Setup(cfg, a, b);
    s := Passes(cfg, x, u, v, p, q, bv, av, State(bv, av % bv, 0, 1));
  }

  /** An inverse is not zero. */
  lemma LiftPositive(b: int, a: int, s: State)
    requires b > 0 && IsOdd(b) && a % b != 0 && Inv(b, a, s) && s.u == 0 && s.v == 1
    ensures Lift(b, s.bigD) > 0
  {
    LiftCofactor(b, a, s.bigD);
    OneBelow(b, a);
    DivModUnique(0, b, 0, 0);
    assert 0 * a == 0;
  }

  /** Steps 2 and 3: the numbers the loop works on. */
  method Setup(cfg: Config, a: MpInt, b: MpInt) returns (x: MpInt, u: MpInt, v: MpInt, p: MpInt, q: MpInt)
    requires cfg.Ok() && a.Normal(cfg.Base()) && b.Normal(cfg.Base()) && b.IntVal(cfg.Base()) > 0
    ensures fresh({x, u, v, p, q}) && fresh({x.dp, u.dp, v.dp, p.dp, q.dp})
    ensures var av, bv := a.IntVal(cfg.Base()), b.IntVal(cfg.Base());
            Holds(cfg.Base(), x, u, v, p, q, bv, State(bv, av % bv, 0, 1))
  {
    x := MpCopy(cfg, b);
    DivModFacts(a.IntVal(cfg.Base()), b.IntVal(cfg.Base()));
    v := FromNat(cfg, a.IntVal(cfg.Base()) % b.IntVal(cfg.Base()));
    u := MpCopy(cfg, x);
    p, q := ZeroAndOne(cfg);
  }

  /** The cofactors the passes start from. */
  method ZeroAndOne(cfg: Config) returns (p: MpInt, q: MpInt)
    requires cfg.Ok()
    ensures fresh({p, q}) && fresh({p.dp, q.dp}) && Apart(p, q)
    ensures p.Normal(cfg.Base()) && q.Normal(cfg.Base()) && p.IntVal(cfg.Base()) == 0 && q.IntVal(cfg.Base()) == 1
  {
    p := FromNat(cfg, 0);
    q := FromNat(cfg, 1);
  }

  /** mp_exch with the result, then the sign of a. */
  method HandOver(cfg: Config, q: MpInt, c: MpInt, neg: Sign, ghost a: MpInt)
    requires cfg.Ok() && q.Normal(cfg.Base()) && q.IntVal(cfg.Base()) > 0 && q != c
    requires a.Normal(cfg.Base()) && neg == a.sign
    modifies c
    ensures c.Normal(cfg.Base())
    ensures c.IntVal(cfg.Base()) == if old(a.IntVal(cfg.Base())) < 0 then -q.IntVal(cfg.Base()) else q.IntVal(cfg.Base())
  {
    cfg.Sizes();
    NegativeBelowZero(cfg.Base(), a);
    NegativeBelowZero(cfg.Base(), q);
    c.used, c.dp := q.used, q.dp;
    c.sign := neg;
  }
}
