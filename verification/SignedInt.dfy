/** Signed sums and differences of numbers kept as digit arrays. */
module SignedInts {
  import opened Arith
  import opened Digits
  import opened MpInts

  /** One digit of s_mp_add: the carry is what is above the digit's bits. */
  method AddDigit(cfg: Config, x: nat, y: nat, u: nat) returns (digit: nat, carry: nat)
    requires cfg.Ok() && x < cfg.Base() && y < cfg.Base() && u <= 1
    ensures carry <= 1 && digit < cfg.Base() && digit + carry * cfg.Base() == x + y + u
    ensures x + y + u < cfg.Storage()
  {
    cfg.Sizes();
    var t := x + y + u;
    carry := t / cfg.Base();
    digit := t % cfg.Base();
    if t < cfg.Base() {
      SmallMod(t, cfg.Base());
    } else {
      DivModUnique(t, cfg.Base(), 1, t - cfg.Base());
    }
    StorageHoldsSum(cfg);
  }

  lemma StorageHoldsSum(cfg: Config)
    requires cfg.Ok()
    ensures 2 * cfg.Base() <= cfg.Storage()
  {
    cfg.Sizes();
    MulMono(1, Pow(2, cfg.storageBits - 1 - cfg.digitBit), cfg.Base());
  }

  /** `out` is x + y, short of a carry u at the next position. */
  ghost predicate Sum(b: nat, out: seq<nat>, x: seq<nat>, y: seq<nat>, u: nat) {
    Val(b, out) + u * Pow(b, |out|) == Val(b, x) + Val(b, y)
  }

  lemma AddStepValue(b: nat, out: seq<nat>, x: seq<nat>, y: seq<nat>, i: nat, u: nat, d: nat, u': nat)
    requires i < |x| && i < |y| && |out| == i && Sum(b, out, x[..i], y[..i], u) && d + u' * b == x[i] + y[i] + u
    ensures Sum(b, out + [d], x[..i + 1], y[..i + 1], u')
  {
    ValSnoc(b, out, d);
    ValPrefixNext(b, x, i);
    ValPrefixNext(b, y, i);
    CarryAlgebra(b, Pow(b, i), x[i], y[i], u, d, u');
  }

  lemma AddCopyValue(b: nat, out: seq<nat>, x: seq<nat>, y: seq<nat>, i: nat, u: nat, d: nat, u': nat)
    requires i < |x| && |out| == i && Sum(b, out, x[..i], y, u) && d + u' * b == x[i] + u
    ensures Sum(b, out + [d], x[..i + 1], y, u')
  {
    ValSnoc(b, out, d);
    ValPrefixNext(b, x, i);
    CarryAlgebra(b, Pow(b, i), x[i], 0, u, d, u');
  }

  lemma CarryAlgebra(b: nat, p: nat, x: nat, y: nat, u: nat, d: nat, u': nat)
    requires d + u' * b == x + y + u
    ensures d * p + u' * (b * p) == x * p + y * p + u * p
  {
    MulAssoc(u', b, p);
    Distribute(d, u' * b, p);
    Distribute(x + y, u, p);
    Distribute(x, y, p);
  }

  /** The digit loops of s_mp_add; `long` has at least as many digits, and the destination may be either source. */
  method AddDigits(cfg: Config, long: array<nat>, short: array<nat>, tmpc: array<nat>, min: nat, max: nat)
    requires cfg.Ok() && min <= max <= long.Length && min <= short.Length && max < tmpc.Length
    requires AllBelow(cfg.Base(), long[..max]) && AllBelow(cfg.Base(), short[..min])
    modifies tmpc
    ensures AllBelow(cfg.Base(), tmpc[..max + 1])
    ensures Val(cfg.Base(), tmpc[..max + 1]) == old(Val(cfg.Base(), long[..max]) + Val(cfg.Base(), short[..min]))
  {
    ghost var sl, ss := long[..max], short[..min];
    var u := AddShared(cfg, long, short, tmpc, min, max);
    AddRest(cfg, long, tmpc, min, max, u, sl, ss);
  }

  /** As far as both have digits. */
  method AddShared(cfg: Config, long: array<nat>, short: array<nat>, tmpc: array<nat>, min: nat, max: nat) returns (u: nat)
    requires cfg.Ok() && min <= max <= long.Length && min <= short.Length && max < tmpc.Length
    requires AllBelow(cfg.Base(), long[..max]) && AllBelow(cfg.Base(), short[..min])
    modifies tmpc
    ensures u <= 1 && long[min..max] == old(long[..max])[min..] && AllBelow(cfg.Base(), tmpc[..min])
    ensures Sum(cfg.Base(), tmpc[..min], old(long[..max])[..min], old(short[..min]), u)
  {
    ghost var b, sl, ss := cfg.Base(), long[..max], short[..min];
    ghost var out: seq<nat> := [];
    u := 0;
    var i := 0;
    while i < min
      invariant 0 <= i <= min && u <= 1 && |out| == i && out == tmpc[..i]
      invariant forall j | i <= j < max :: long[j] == sl[j]
      invariant forall j | i <= j < min :: short[j] == ss[j]
      invariant AllBelow(b, out) && Sum(b, out, sl[..i], ss[..i], u)
    {
      var digit, carry := AddDigit(cfg, long[i], short[i], u);
      AddStepValue(b, out, sl, ss, i, u, digit, carry);
      tmpc[i], u := digit, carry;
      out := out + [digit];
      i := i + 1;
    }
    assert ss[..min] == ss && long[min..max] == sl[min..] && tmpc[..min] == out;
  }

  /** The digits only the longer has, and the carry behind them. */
  method AddRest(cfg: Config, long: array<nat>, tmpc: array<nat>, min: nat, max: nat, carried: nat, ghost sl: seq<nat>,
                 ghost ss: seq<nat>)
    requires cfg.Ok() && min <= max <= long.Length && max < tmpc.Length && carried <= 1
    requires |sl| == max && AllBelow(cfg.Base(), sl) && long[min..max] == sl[min..] && AllBelow(cfg.Base(), tmpc[..min])
    requires Sum(cfg.Base(), tmpc[..min], sl[..min], ss, carried)
    modifies tmpc
    ensures AllBelow(cfg.Base(), tmpc[..max + 1]) && Val(cfg.Base(), tmpc[..max + 1]) == Val(cfg.Base(), sl) + Val(cfg.Base(), ss)
  {
    ghost var b, out := cfg.Base(), tmpc[..min];
    var u, i := carried, min;
    while i < max
      invariant min <= i <= max && u <= 1 && |out| == i && out == tmpc[..i]
      invariant forall j | i <= j < max :: long[j] == sl[j]
      invariant AllBelow(b, out) && Sum(b, out, sl[..i], ss, u)
    {
      cfg.Sizes();
      var digit, carry := AddDigit(cfg, long[i], 0, u);
      AddCopyValue(b, out, sl, ss, i, u, digit, carry);
      tmpc[i], u := digit, carry;
      out := out + [digit];
      i := i + 1;
    }
    assert sl[..max] == sl;
    cfg.Sizes();
    tmpc[max] := u;
    ValSnoc(b, out, u);
    assert tmpc[..max + 1] == out + [u];
  }

  /** s_mp_add: c = |a| + |y|, with c allowed to be a or y themselves. */
  method SMpAdd(cfg: Config, a: MpInt, y: MpInt, c: MpInt)
    requires cfg.Ok() && a.Valid(cfg.Base()) && y.Valid(cfg.Base()) && c.used <= c.dp.Length
    requires Separate(a, c) && Separate(y, c)
    modifies c, c.dp
    ensures c.Normal(cfg.Base())
    ensures c.Mag(cfg.Base()) == old(a.Mag(cfg.Base())) + old(y.Mag(cfg.Base()))
    ensures c.dp == old(c.dp) || fresh(c.dp)
    ensures c.sign == if c.Mag(cfg.Base()) == 0 then ZPos else old(c.sign)
  {
    if a.used > y.used {
      SumInto(cfg, a, y, c);
    } else {
      SumInto(cfg, y, a, c);
    }
  }

  method SumInto(cfg: Config, x: MpInt, y: MpInt, c: MpInt)
    requires cfg.Ok() && x.Valid(cfg.Base()) && y.Valid(cfg.Base()) && c.used <= c.dp.Length && y.used <= x.used
    requires Separate(x, c) && Separate(y, c)
    modifies c, c.dp
    ensures c.Normal(cfg.Base())
    ensures c.Mag(cfg.Base()) == old(x.Mag(cfg.Base())) + old(y.Mag(cfg.Base()))
    ensures c.dp == old(c.dp) || fresh(c.dp)
    ensures c.sign == if c.Mag(cfg.Base()) == 0 then ZPos else old(c.sign)
  {
    var min, max := y.used, x.used;
    ghost var sx, sy := x.dp[..max], y.dp[..min];
    Grow(c, max + 1);
    var olduse := c.used;
    c.used := max + 1;
    assert x.dp[..max] == sx && y.dp[..min] == sy;
    AddDigits(cfg, x.dp, y.dp, c.dp, min, max);
    ghost var out := c.dp[..max + 1];
    var i := max + 1;
    while i < olduse
      invariant max + 1 <= i && c.dp[..max + 1] == out
      modifies c.dp
    {
      c.dp[i] := 0;
      i := i + 1;
    }
    Clamp(c, cfg.Base());
  }

  /** More digits in normal form, more value: what s_mp_sub needs to know of its arguments. */
  lemma LargerHasMoreDigits(b: nat, x: MpInt, y: MpInt)
    requires b > 0 && x.Normal(b) && y.Normal(b) && y.Mag(b) <= x.Mag(b)
    ensures y.used <= x.used
  {
    if y.used > x.used { MoreDigitsLarger(b, x.dp[..x.used], y.dp[..y.used]); }
  }

  /** Magnitudes subtracted, larger minus smaller, under a given sign. */
  method SubUnder(cfg: Config, x: MpInt, y: MpInt, c: MpInt, sign: Sign)
    requires cfg.Ok() && x.Normal(cfg.Base()) && y.Normal(cfg.Base()) && c.used <= c.dp.Length
    requires Separate(x, c) && Separate(y, c) && y.Mag(cfg.Base()) <= x.Mag(cfg.Base())
    modifies c, c.dp
    ensures c.Normal(cfg.Base()) && (c.dp == old(c.dp) || fresh(c.dp))
    ensures var d := old(x.Mag(cfg.Base())) - old(y.Mag(cfg.Base()));
            c.IntVal(cfg.Base()) == if sign == Neg then -d else d
  {
    cfg.Sizes();
    LargerHasMoreDigits(cfg.Base(), x, y);
    c.sign := sign;
    SMpSub(cfg, x, y, c);
  }

  method AddUnder(cfg: Config, x: MpInt, y: MpInt, c: MpInt, sign: Sign)
    requires cfg.Ok() && x.Normal(cfg.Base()) && y.Normal(cfg.Base()) && c.used <= c.dp.Length
    requires Separate(x, c) && Separate(y, c)
    modifies c, c.dp
    ensures c.Normal(cfg.Base()) && (c.dp == old(c.dp) || fresh(c.dp))
    ensures var d := old(x.Mag(cfg.Base())) + old(y.Mag(cfg.Base()));
            c.IntVal(cfg.Base()) == if sign == Neg then -d else d
  {
    c.sign := sign;
    SMpAdd(cfg, x, y, c);
  }

  /** mp_sub. */
  method MpSub(cfg: Config, a: MpInt, y: MpInt, c: MpInt)
    requires cfg.Ok() && a.Normal(cfg.Base()) && y.Normal(cfg.Base()) && c.used <= c.dp.Length
    requires Separate(a, c) && Separate(y, c)
    modifies c, c.dp
    ensures c.Normal(cfg.Base()) && (c.dp == old(c.dp) || fresh(c.dp))
    ensures c.IntVal(cfg.Base()) == old(a.IntVal(cfg.Base())) - old(y.IntVal(cfg.Base()))
  {
    cfg.Sizes();
    var sa, sb := a.sign, y.sign;
    if sa != sb {
      AddUnder(cfg, a, y, c, sa);
    } else {
      var order := CmpMag(a, y, cfg.Base());
      if order != LT {
        SubUnder(cfg, a, y, c, sa);
      } else {
        SubUnder(cfg, y, a, c, if sa == ZPos then Neg else ZPos);
      }
    }
  }

  /** mp_add. */
  method MpAdd(cfg: Config, a: MpInt, y: MpInt, c: MpInt)
    requires cfg.Ok() && a.Normal(cfg.Base()) && y.Normal(cfg.Base()) && c.used <= c.dp.Length
    requires Separate(a, c) && Separate(y, c)
    modifies c, c.dp
    ensures c.Normal(cfg.Base()) && (c.dp == old(c.dp) || fresh(c.dp))
    ensures c.IntVal(cfg.Base()) == old(a.IntVal(cfg.Base())) + old(y.IntVal(cfg.Base()))
  {
    cfg.Sizes();
    var sa, sb := a.sign, y.sign;
    if sa == sb {
      AddUnder(cfg, a, y, c, sa);
    } else {
      var order := CmpMag(a, y, cfg.Base());
      if order == LT {
        SubUnder(cfg, y, a, c, sb);
      } else {
        SubUnder(cfg, a, y, c, sa);
      }
    }
  }

  /** mp_cmp. */
  method MpCmp(a: MpInt, y: MpInt, ghost b: nat) returns (r: Ordering)
    requires b > 0 && a.Normal(b) && y.Normal(b)
    ensures Ordered(r, a.IntVal(b), y.IntVal(b))
  {
    if a.sign != y.sign {
      NegativeBelowZero(b, a);
      NegativeBelowZero(b, y);
      return if a.sign == Neg then LT else GT;
    }
    if a.sign == Neg {
      r := CmpMag(y, a, b);
    } else {
      r := CmpMag(a, y, b);
    }
  }

  lemma NegativeBelowZero(b: nat, a: MpInt)
    requires b > 0 && a.Normal(b)
    ensures a.sign == Neg <==> a.IntVal(b) < 0
    ensures a.used == 0 <==> a.IntVal(b) == 0
  {
    if a.used > 0 { PositiveTop(b, a.dp[..a.used]); }
  }

  /** The digits of a number, lowest first. */
  function DigitsOf(b: nat, v: nat): seq<nat>
    requires b > 1
  {
    if v == 0 then [] else DivModFacts(v, b); Shrinks(b, v); [v % b] + DigitsOf(b, v / b)
  }

  lemma Shrinks(b: nat, v: nat)
    requires b > 1 && v > 0
    ensures 0 <= v / b < v
  {
    DivModFacts(v, b);
    if v / b >= v { MulMono(2, b, v / b); }
  }

  lemma {:induction false} DigitsOfVal(b: nat, v: nat)
    requires b > 1
    ensures Val(b, DigitsOf(b, v)) == v && AllBelow(b, DigitsOf(b, v))
  {
    if v > 0 {
      DivModFacts(v, b);
      Shrinks(b, v);
      DigitsOfVal(b, v / b);
    }
  }

  /** A new number in normal form: mp_init with mp_set, or the result of a division taken by value. */
  method FromNat(cfg: Config, v: nat) returns (x: MpInt)
    requires cfg.Ok()
    ensures fresh(x) && fresh(x.dp) && x.Normal(cfg.Base()) && x.IntVal(cfg.Base()) == v
  {
    cfg.Sizes();
    var s := DigitsOf(cfg.Base(), v);
    DigitsOfVal(cfg.Base(), v);
    x := new MpInt(0);
    x.dp := new nat[|s|](i requires 0 <= i < |s| => s[i]);
    assert x.dp[..|s|] == s;
    SetUsed(x, |s|, cfg.Base(), v);
  }

  /** The lowest digit tells the parity: the base is even. */
  lemma Parity(cfg: Config, x: MpInt)
    requires cfg.Ok() && x.Normal(cfg.Base())
    ensures x.used > 0 ==> x.IntVal(cfg.Base()) % 2 == x.dp[0] % 2
    ensures x.used == 0 ==> x.IntVal(cfg.Base()) == 0
  {
    if x.used > 0 {
      var s := x.dp[..x.used];
      assert Val(cfg.Base(), s) == s[0] + cfg.Base() * Val(cfg.Base(), s[1..]);
      EvenBase(cfg);
      ParityAlgebra(cfg.Base(), s[0], Val(cfg.Base(), s[1..]), Val(cfg.Base(), s));
    }
  }

  lemma EvenBase(cfg: Config)
    requires cfg.Ok()
    ensures cfg.Base() % 2 == 0
  {
    assert Pow(2, cfg.digitBit) == 2 * Pow(2, cfg.digitBit - 1);
  }

  lemma ParityAlgebra(b: nat, low: nat, high: nat, v: int)
    requires b % 2 == 0 && v == low + b * high
    ensures v % 2 == low % 2 && (0 - v) % 2 == low % 2
  {
    var h := b / 2;
    MulAssoc(2, h, high);
    assert v == low + 2 * (h * high);
  }
}
