/** LibTomMath's mp_int and the helpers the reduction and comparison kernels call. */
module MpInts {
  import opened Arith
  import opened Digits

  /** Word sizes: DIGIT_BIT, the width of mp_digit and the width of mp_word. */
  datatype Config = Config(digitBit: nat, storageBits: nat, wordBits: nat) {
    predicate Ok() {
      1 <= digitBit < storageBits && 2 * digitBit + 1 <= wordBits
    }

    function Base(): (r: nat)
      ensures r > 0
    {
      PowPositive(2, digitBit);
      Pow(2, digitBit)
    }

    function Storage(): (r: nat)
      ensures r > 0
    {
      PowPositive(2, storageBits);
      Pow(2, storageBits)
    }

    function HalfStorage(): (r: nat)
      requires Ok()
      ensures r > 0
    {
      PowPositive(2, storageBits - 1);
      Pow(2, storageBits - 1)
    }

    function Word(): (r: nat)
      ensures r > 0
    {
      PowPositive(2, wordBits);
      Pow(2, wordBits)
    }

    /** How many digit products a column may collect: 2^(word - 2 * digit). */
    function Columns(): nat
      requires Ok()
    {
      Pow(2, wordBits - 2 * digitBit)
    }

    /** MP_WARRAY. */
    function WArray(): nat
      requires Ok()
    {
      Pow(2, wordBits - 2 * digitBit + 1)
    }

    lemma Sizes()
      requires Ok()
      ensures Base() >= 2 && Columns() >= 2 && WArray() == 2 * Columns()
      ensures Word() == Columns() * (Base() * Base())
      ensures Storage() == 2 * HalfStorage()
      ensures HalfStorage() == Base() * Pow(2, storageBits - 1 - digitBit)
      ensures Pow(2, storageBits - 1 - digitBit) >= 1
    {
      PowMono(2, 1, digitBit);
      PowMono(2, 1, wordBits - 2 * digitBit);
      assert Pow(2, 1) == 2 * Pow(2, 0);
      PowAdd(2, digitBit, digitBit);
      PowAdd(2, wordBits - 2 * digitBit, 2 * digitBit);
      PowAdd(2, digitBit, storageBits - 1 - digitBit);
      PowPositive(2, storageBits - 1 - digitBit);
    }
  }

  /** mp_word addition, which wraps at the word width. */
  function WordAdd(cfg: Config, x: nat, y: nat): nat {
    (x + y) % cfg.Word()
  }

  lemma ProductBound(b: nat, x: nat, y: nat)
    requires x < b && y < b
    ensures 0 <= x * y <= DigitSquare(b)
  {
    MulMono(x, b - 1, y);
    MulMono(y, b - 1, b - 1);
  }

  datatype Sign = ZPos | Neg

  datatype Ordering = LT | EQ | GT

  const MP_PREC := 32

  class MpInt {
    var used: nat
    var sign: Sign
    var dp: array<nat>

    ghost predicate Valid(b: nat)
      reads this, dp
    {
      used <= dp.Length && AllBelow(b, dp[..used])
    }

    /** Normal form: no leading zero digit, and zero is positive. */
    ghost predicate Normal(b: nat)
      reads this, dp
    {
      Valid(b) && (used > 0 ==> dp[used - 1] != 0) && (used == 0 ==> sign == ZPos)
    }

    function Mag(b: nat): nat
      requires used <= dp.Length
      reads this, dp
    {
      Val(b, dp[..used])
    }

    /** The number with its sign. */
    function IntVal(b: nat): int
      requires used <= dp.Length
      reads this, dp
    {
      if sign == Neg then 0 - Mag(b) else Mag(b)
    }

    constructor (size: nat)
      ensures used == 0 && sign == ZPos && fresh(dp) && dp.Length == size
      ensures forall i | 0 <= i < size :: dp[i] == 0
    {
      used := 0;
      sign := ZPos;
      dp := new nat[size](_ => 0);
    }
  }

  /** Distinct numbers own distinct digit arrays. */
  ghost predicate Separate(a: MpInt, b: MpInt)
    reads a, b
  {
    a != b ==> a.dp != b.dp
  }

  /** mp_grow: room for `size` digits, the old digits kept and the new ones zero. */
  method Grow(a: MpInt, size: nat)
    modifies a`dp
    ensures a.dp.Length >= size
    ensures old(a.dp.Length) >= size ==> a.dp == old(a.dp)
    ensures old(a.dp.Length) < size ==> fresh(a.dp) && a.dp.Length > size
    ensures a.dp.Length >= old(a.dp.Length) && a.dp[..old(a.dp.Length)] == old(a.dp[..])
    ensures forall i | old(a.dp.Length) <= i < a.dp.Length :: a.dp[i] == 0
  {
    if a.dp.Length < size {
      var alloc := size + MP_PREC * 2 - size % MP_PREC;
      assert size % MP_PREC < MP_PREC;
      var tmp := new nat[alloc];
      var i := 0;
      while i < a.dp.Length
        invariant a.dp == old(a.dp) && 0 <= i <= a.dp.Length
        invariant forall j | 0 <= j < i :: tmp[j] == a.dp[j]
      {
        tmp[i] := a.dp[i];
        i := i + 1;
      }
      while i < alloc
        invariant a.dp == old(a.dp) && a.dp.Length <= i <= alloc
        invariant forall j | 0 <= j < a.dp.Length :: tmp[j] == a.dp[j]
        invariant forall j | a.dp.Length <= j < i :: tmp[j] == 0
      {
        tmp[i] := 0;
        i := i + 1;
      }
      a.dp := tmp;
    }
  }

  /** mp_clamp: same number, now in normal form; the digit array itself is not written. */
  method Clamp(a: MpInt, ghost b: nat)
    requires a.Valid(b)
    modifies a`used, a`sign
    ensures a.Normal(b) && a.Mag(b) == old(a.Mag(b))
    ensures a.used <= old(a.used)
    ensures a.sign == if a.Mag(b) == 0 then ZPos else old(a.sign)
  {
    ghost var s := a.dp[..a.used];
    while a.used > 0 && a.dp[a.used - 1] == 0
      invariant a.used <= |s| <= a.dp.Length && s == a.dp[..|s|]
      invariant forall i | a.used <= i < |s| :: s[i] == 0
      invariant a.sign == old(a.sign)
      decreases a.used
    {
      a.used := a.used - 1;
    }
    ValTopZeros(b, s, a.used);
    assert s[..a.used] == a.dp[..a.used];
    if a.used == 0 {
      a.sign := ZPos;
    } else {
      PositiveTop(b, a.dp[..a.used]);
    }
  }

  /** The tail of every kernel: set `used`, then clamp. */
  method SetUsed(a: MpInt, used: nat, ghost b: nat, ghost v: nat)
    requires used <= a.dp.Length && AllBelow(b, a.dp[..used]) && v == Val(b, a.dp[..used])
    modifies a`used, a`sign
    ensures a.Normal(b) && a.Mag(b) == v
    ensures a.sign == if v == 0 then ZPos else old(a.sign)
  {
    a.used := used;
    Clamp(a, b);
  }

  lemma PositiveTop(b: nat, s: seq<nat>)
    requires s != [] && s[|s| - 1] > 0
    requires AllBelow(b, s)
    ensures Val(b, s) > 0
  {
    ValTopDigit(b, s);
    PowPositive(b, |s| - 1);
  }

  /** The first digit from the top where two numbers differ decides their order. */
  lemma TopDifferenceDecides(b: nat, s: seq<nat>, t: seq<nat>, i: nat)
    requires b > 0 && i < |s| == |t| && AllBelow(b, s) && AllBelow(b, t)
    requires s[i + 1..] == t[i + 1..] && s[i] < t[i]
    ensures Val(b, s) < Val(b, t)
  {
    assert s == s[..i + 1] + s[i + 1..] && t == t[..i + 1] + t[i + 1..];
    ValConcat(b, s[..i + 1], s[i + 1..]);
    ValConcat(b, t[..i + 1], t[i + 1..]);
    ValPrefixNext(b, s, i);
    ValPrefixNext(b, t, i);
    ValBound(b, s[..i]);
    LargerDigit(Val(b, s[..i]), s[i], t[i], Pow(b, i));
  }

  lemma LargerDigit(rest: nat, x: nat, y: nat, p: nat)
    requires rest < p && x < y
    ensures rest + x * p < y * p
  {
    MulMono(x + 1, y, p);
    Distribute(x, 1, p);
  }

  /** In normal form the number with more digits is the larger. */
  lemma MoreDigitsLarger(b: nat, s: seq<nat>, t: seq<nat>)
    requires b > 0 && AllBelow(b, s) && |s| < |t| && t[|t| - 1] > 0
    ensures Val(b, s) < Val(b, t)
  {
    ValBound(b, s);
    PowMono(b, |s|, |t| - 1);
    ValTopDigit(b, t);
  }

  ghost predicate Ordered(r: Ordering, x: int, y: int) {
    match r
    case LT => x < y
    case EQ => x == y
    case GT => x > y
  }

  /** mp_cmp_mag: on normal forms, comparing lengths then digits from the top orders the magnitudes. */
  method CmpMag(a: MpInt, c: MpInt, ghost b: nat) returns (r: Ordering)
    requires b > 0 && a.Normal(b) && c.Normal(b)
    ensures Ordered(r, a.Mag(b), c.Mag(b))
  {
    if a.used > c.used {
      MoreDigitsLarger(b, c.dp[..c.used], a.dp[..a.used]);
      return GT;
    }
    if a.used < c.used {
      MoreDigitsLarger(b, a.dp[..a.used], c.dp[..c.used]);
      return LT;
    }
    ghost var s, t := a.dp[..a.used], c.dp[..c.used];
    var n := 0;
    while n < a.used
      invariant 0 <= n <= a.used && s[|s| - n..] == t[|t| - n..]
    {
      var k := a.used - 1 - n;
      if a.dp[k] > c.dp[k] {
        TopDifferenceDecides(b, t, s, k);
        return GT;
      }
      if a.dp[k] < c.dp[k] {
        TopDifferenceDecides(b, s, t, k);
        return LT;
      }
      assert s[k..] == [s[k]] + s[k + 1..] && t[k..] == [t[k]] + t[k + 1..];
      n := n + 1;
    }
    assert s == s[0..] && t == t[0..];
    return EQ;
  }

  /** One digit of s_mp_sub: unsigned wrap-around, the top bit as borrow, the mask as digit. */
  method SubDigit(cfg: Config, x: nat, y: nat, u: int) returns (digit: nat, borrow: int)
    requires cfg.Ok() && x < cfg.Base() && y < cfg.Base() && 0 <= u <= 1
    ensures 0 <= borrow <= 1 && digit < cfg.Base()
    ensures digit == x - y - u + borrow * cfg.Base()
  {
    var t := (x - y - u) % cfg.Storage();
    borrow := t / cfg.HalfStorage();
    digit := t % cfg.Base();
    BorrowStep(cfg, x, y, u);
  }

  lemma BorrowStep(cfg: Config, x: nat, y: nat, u: int)
    requires cfg.Ok() && x < cfg.Base() && y < cfg.Base() && 0 <= u <= 1
    ensures var t := (x - y - u) % cfg.Storage();
            var borrow := t / cfg.HalfStorage();
            0 <= borrow <= 1 && t % cfg.Base() == x - y - u + borrow * cfg.Base()
  {
    cfg.Sizes();
    var h, b, q := cfg.HalfStorage(), cfg.Base(), Pow(2, cfg.storageBits - 1 - cfg.digitBit);
    var d := x - y - u;
    MulMono(1, q, b);
    if d >= 0 {
      DivModUnique(d, cfg.Storage(), 0, d);
      DivModUnique(d, h, 0, d);
      DivModUnique(d, b, 0, d);
    } else {
      DivModUnique(d, cfg.Storage(), -1, d + 2 * h);
      DivModUnique(d + 2 * h, h, 1, d + h);
      assert d + 2 * h == b * (2 * q - 1) + (d + b) by { MulAssoc(b, 2, q); Distribute(2 * q, 1, b); }
      DivModUnique(d + 2 * h, b, 2 * q - 1, d + b);
    }
  }

  /** s_mp_sub: c = |a| - |y|, with c allowed to be a or y themselves. */
  method SMpSub(cfg: Config, a: MpInt, y: MpInt, c: MpInt)
    requires cfg.Ok()
    requires a.Valid(cfg.Base()) && y.Valid(cfg.Base()) && y.used <= a.used
    requires c.used <= c.dp.Length
    requires Separate(a, c) && Separate(y, c)
    requires y.Mag(cfg.Base()) <= a.Mag(cfg.Base())
    modifies c, c.dp
    ensures c.Normal(cfg.Base())
    ensures c.Mag(cfg.Base()) == old(a.Mag(cfg.Base())) - old(y.Mag(cfg.Base()))
    ensures c.dp == old(c.dp) || fresh(c.dp)
    ensures c.sign == if c.Mag(cfg.Base()) == 0 then ZPos else old(c.sign)
  {
    ghost var b := cfg.Base();
    var min, max := y.used, a.used;
    ghost var sa, sy := a.dp[..max], y.dp[..min];
    Grow(c, max);
    var olduse := c.used;
    c.used := max;
    assert a.dp[..max] == sa && y.dp[..min] == sy;
    SubDigits(cfg, a.dp, y.dp, c.dp, min, max);
    ghost var out := c.dp[..max];
    var i := max;
    while i < olduse
      invariant max <= i && c.dp[..max] == out
      modifies c.dp
    {
      c.dp[i] := 0;
      i := i + 1;
    }
    Clamp(c, b);
  }

  /** The two digit loops of s_mp_sub; the destination may be either source. */
  method SubDigits(cfg: Config, tmpa: array<nat>, tmpb: array<nat>, tmpc: array<nat>, min: nat, max: nat)
    requires cfg.Ok() && min <= max <= tmpa.Length && min <= tmpb.Length && max <= tmpc.Length
    requires AllBelow(cfg.Base(), tmpa[..max]) && AllBelow(cfg.Base(), tmpb[..min])
    requires Val(cfg.Base(), tmpb[..min]) <= Val(cfg.Base(), tmpa[..max])
    modifies tmpc
    ensures AllBelow(cfg.Base(), tmpc[..max])
    ensures Val(cfg.Base(), tmpc[..max]) == old(Val(cfg.Base(), tmpa[..max]) - Val(cfg.Base(), tmpb[..min]))
  {
    ghost var sa, sy := tmpa[..max], tmpb[..min];
    var u := SubShared(cfg, tmpa, tmpb, tmpc, min, max);
    SubRest(cfg, tmpa, tmpc, min, max, u, sa, sy);
  }

  /** As far as both have digits. */
  method SubShared(cfg: Config, tmpa: array<nat>, tmpb: array<nat>, tmpc: array<nat>, min: nat, max: nat) returns (u: int)
    requires cfg.Ok() && min <= max <= tmpa.Length && min <= tmpb.Length && max <= tmpc.Length
    requires AllBelow(cfg.Base(), tmpa[..max]) && AllBelow(cfg.Base(), tmpb[..min])
    modifies tmpc
    ensures 0 <= u <= 1 && tmpa[min..max] == old(tmpa[..max])[min..] && AllBelow(cfg.Base(), tmpc[..min])
    ensures Difference(cfg.Base(), tmpc[..min], old(tmpa[..max])[..min], old(tmpb[..min]), u)
  {
    ghost var b, sa, sy := cfg.Base(), tmpa[..max], tmpb[..min];
    ghost var out: seq<nat> := [];
    u := 0;
    var i := 0;
    while i < min
      invariant 0 <= i <= min && 0 <= u <= 1 && |out| == i && out == tmpc[..i]
      invariant forall j | i <= j < max :: tmpa[j] == sa[j]
      invariant forall j | i <= j < min :: tmpb[j] == sy[j]
      invariant AllBelow(b, out) && Difference(b, out, sa[..i], sy[..i], u)
    {
      var digit, borrow := SubDigit(cfg, tmpa[i], tmpb[i], u);
      SubStepValue(b, out, sa, sy, i, u, digit, borrow);
      tmpc[i], u := digit, borrow;
      out := out + [digit];
      i := i + 1;
    }
    assert sy[..min] == sy && tmpa[min..max] == sa[min..] && tmpc[..min] == out;
  }

  /** The digits only the longer has, less the borrow. */
  method SubRest(cfg: Config, tmpa: array<nat>, tmpc: array<nat>, min: nat, max: nat, borrowed: int, ghost sa: seq<nat>,
                 ghost sy: seq<nat>)
    requires cfg.Ok() && min <= max <= tmpa.Length && max <= tmpc.Length && 0 <= borrowed <= 1
    requires |sa| == max && AllBelow(cfg.Base(), sa) && tmpa[min..max] == sa[min..] && AllBelow(cfg.Base(), tmpc[..min])
    requires |sy| == min && AllBelow(cfg.Base(), sy) && Val(cfg.Base(), sy) <= Val(cfg.Base(), sa)
    requires Difference(cfg.Base(), tmpc[..min], sa[..min], sy, borrowed)
    modifies tmpc
    ensures AllBelow(cfg.Base(), tmpc[..max]) && Val(cfg.Base(), tmpc[..max]) == Val(cfg.Base(), sa) - Val(cfg.Base(), sy)
  {
    ghost var b, out := cfg.Base(), tmpc[..min];
    var u, i := borrowed, min;
    while i < max
      invariant min <= i <= max && 0 <= u <= 1 && |out| == i && out == tmpc[..i]
      invariant forall j | i <= j < max :: tmpa[j] == sa[j]
      invariant AllBelow(b, out) && Difference(b, out, sa[..i], sy, u)
    {
      var digit, borrow := SubDigit(cfg, tmpa[i], 0, u);
      CopyStepValue(b, out, sa, sy, i, u, digit, borrow);
      tmpc[i], u := digit, borrow;
      out := out + [digit];
      i := i + 1;
    }
    assert sa[..max] == sa;
    NoBorrowLeft(b, out, Val(b, sa) - Val(b, sy), u);
  }

  /** `out` is x - y, short of a borrow u at the next position. */
  ghost predicate Difference(b: nat, out: seq<nat>, x: seq<nat>, y: seq<nat>, u: int) {
    Val(b, out) == Val(b, x) - Val(b, y) + u * Pow(b, |out|)
  }

  lemma SubStepValue(b: nat, prefix: seq<nat>, sa: seq<nat>, sy: seq<nat>, i: nat, u: int, d: nat, u': int)
    requires i < |sa| && i < |sy| && |prefix| == i
    requires Difference(b, prefix, sa[..i], sy[..i], u)
    requires d == sa[i] - sy[i] - u + u' * b
    ensures Difference(b, prefix + [d], sa[..i + 1], sy[..i + 1], u')
  {
    ValSnoc(b, prefix, d);
    ValPrefixNext(b, sa, i);
    ValPrefixNext(b, sy, i);
    ColumnAlgebra(b, Pow(b, i), sa[i], sy[i], u, d, u');
  }

  lemma CopyStepValue(b: nat, prefix: seq<nat>, sa: seq<nat>, sy: seq<nat>, i: nat, u: int, d: nat, u': int)
    requires i < |sa| && |prefix| == i
    requires Difference(b, prefix, sa[..i], sy, u)
    requires d == sa[i] - u + u' * b
    ensures Difference(b, prefix + [d], sa[..i + 1], sy, u')
  {
    ValSnoc(b, prefix, d);
    ValPrefixNext(b, sa, i);
    ColumnAlgebra(b, Pow(b, i), sa[i], 0, u, d, u');
  }

  /** A difference that is not negative leaves no borrow behind. */
  lemma NoBorrowLeft(b: nat, s: seq<nat>, x: int, u: int)
    requires b > 0 && AllBelow(b, s) && 0 <= u <= 1 && x >= 0
    requires Val(b, s) == x + u * Pow(b, |s|)
    ensures u == 0
  {
    ValBound(b, s);
  }

  lemma ColumnAlgebra(b: nat, p: nat, x: nat, y: nat, u: int, d: nat, u': int)
    requires d == x - y - u + u' * b
    ensures d * p == x * p - y * p - u * p + u' * (b * p)
  {
    MulAssoc(u', b, p);
    Distribute(x - y - u, u' * b, p);
    Distribute(x - y, u, p);
    Distribute(x, y, p);
  }

  /** n bits are needed to write x, and no fewer. */
  ghost predicate BitLength(x: nat, n: nat) {
    n > 0 && Pow(2, n - 1) <= x < Pow(2, n)
  }

  /** How often a digit can be halved before it is zero. */
  function DigitBits(q: nat): nat {
    if q == 0 then 0 else 1 + DigitBits(q / 2)
  }

  lemma {:induction false} DigitBitsIsBitLength(q: nat)
    requires q > 0
    ensures BitLength(q, DigitBits(q))
  {
    if q > 1 { DigitBitsIsBitLength(q / 2); }
  }

  /** mp_count_bits: the position of the highest set bit. */
  method CountBits(cfg: Config, a: MpInt) returns (r: nat)
    requires cfg.Ok() && a.Normal(cfg.Base())
    ensures a.Mag(cfg.Base()) == 0 ==> r == 0
    ensures a.Mag(cfg.Base()) > 0 ==> BitLength(a.Mag(cfg.Base()), r)
  {
    if a.used == 0 { return 0; }
    r := (a.used - 1) * cfg.digitBit;
    var q := a.dp[a.used - 1];
    ghost var below, top := r, q;
    while q > 0
      invariant r + DigitBits(q) == below + DigitBits(top)
      decreases q
    {
      r := r + 1;
      q := q / 2;
    }
    PowOfPow(cfg.digitBit, a.used - 1, below);
    CountBitsValue(cfg.Base(), a.dp[..a.used], below);
  }

  lemma CountBitsValue(b: nat, s: seq<nat>, low: nat)
    requires s != [] && AllBelow(b, s) && s[|s| - 1] > 0 && Pow(b, |s| - 1) == Pow(2, low)
    ensures BitLength(Val(b, s), low + DigitBits(s[|s| - 1]))
  {
    var k := |s| - 1;
    DigitBitsIsBitLength(s[k]);
    assert s == s[..k] + [s[k]];
    ValSnoc(b, s[..k], s[k]);
    ValBound(b, s[..k]);
    ShiftedBitLength(low, s[k], DigitBits(s[k]), Val(b, s[..k]));
  }

  lemma ShiftedBitLength(low: nat, top: nat, n: nat, rest: nat)
    requires BitLength(top, n) && rest < Pow(2, low)
    ensures BitLength(rest + top * Pow(2, low), low + n)
  {
    var p := Pow(2, low);
    PowAdd(2, low, n);
    PowAdd(2, low, n - 1);
    assert low + (n - 1) == low + n - 1;
    MulMono(Pow(2, n - 1), top, p);
    MulMono(top + 1, Pow(2, n), p);
    Distribute(top, 1, p);
  }

  lemma {:induction false} PowOfPow(d: nat, k: nat, low: nat)
    requires low == k * d
    ensures Pow(Pow(2, d), k) == Pow(2, low)
  {
    if k > 0 {
      Distribute(k - 1, 1, d);
      MulMono(0, k - 1, d);
      PowOfPow(d, k - 1, low - d);
      PowAdd(2, d, low - d);
    }
  }

  /** mp_div_2: halves the magnitude in place, digits from the top with the low bit carried down. */
  method MpDiv2(cfg: Config, a: MpInt, c: MpInt)
    requires cfg.Ok() && a.Valid(cfg.Base()) && Separate(a, c) && c.used <= c.dp.Length
    modifies c, c.dp
    ensures c.Normal(cfg.Base()) && c.Mag(cfg.Base()) == old(a.Mag(cfg.Base())) / 2
    ensures c.sign == if c.Mag(cfg.Base()) == 0 then ZPos else old(a.sign)
    ensures c.dp == old(c.dp) || fresh(c.dp)
  {
    ghost var s := a.dp[..a.used];
    var n, sign := a.used, a.sign;
    Grow(c, n);
    var oldused := c.used;
    c.used := n;
    assert a.dp[..n] == s;
    HalveDigits(cfg, a.dp, c.dp, n);
    ghost var out := c.dp[..n];
    var x := n;
    while x < oldused
      invariant n <= x && c.dp[..n] == out
      modifies c.dp
    {
      c.dp[x] := 0;
      x := x + 1;
    }
    c.sign := sign;
    Clamp(c, cfg.Base());
  }

  /** The digit loop of mp_div_2; source and destination may be the same array. */
  method HalveDigits(cfg: Config, tmpa: array<nat>, tmpb: array<nat>, n: nat)
    requires cfg.Ok() && n <= tmpa.Length && n <= tmpb.Length && AllBelow(cfg.Base(), tmpa[..n])
    modifies tmpb
    ensures AllBelow(cfg.Base(), tmpb[..n])
    ensures Val(cfg.Base(), tmpb[..n]) == old(Val(cfg.Base(), tmpa[..n])) / 2
  {
    ghost var b, s := cfg.Base(), tmpa[..n];
    ghost var out: seq<nat> := [];
    var r := 0;
    var x := n;
    assert s[n..] == [] && tmpb[n..n] == out;
    while x > 0
      invariant 0 <= x <= n && 0 <= r <= 1 && out == tmpb[x..n]
      invariant forall j | 0 <= j < x :: tmpa[j] == s[j]
      invariant AllBelow(b, out) && Val(b, s[x..]) == 2 * Val(b, out) + r
      decreases x
    {
      x := x - 1;
      HalveStep(cfg, s, x, out, r);
      var rr := tmpa[x] % 2;
      tmpb[x] := tmpa[x] / 2 + r * Pow(2, cfg.digitBit - 1);
      out := [tmpb[x]] + out;
      r := rr;
    }
    assert s[0..] == s && tmpb[0..n] == tmpb[..n];
  }

  lemma HalveStep(cfg: Config, s: seq<nat>, x: nat, out: seq<nat>, r: int)
    requires cfg.Ok() && x < |s| && s[x] < cfg.Base() && 0 <= r <= 1
    requires Val(cfg.Base(), s[x + 1..]) == 2 * Val(cfg.Base(), out) + r
    ensures var d := s[x] / 2 + r * Pow(2, cfg.digitBit - 1);
            0 <= d < cfg.Base() &&
            Val(cfg.Base(), s[x..]) == 2 * Val(cfg.Base(), [d] + out) + s[x] % 2
  {
    var b, h := cfg.Base(), Pow(2, cfg.digitBit - 1);
    assert b == 2 * h;
    var d := s[x] / 2 + r * h;
    assert s[x..][1..] == s[x + 1..];
    assert r * h == 0 || r * h == h;
    assert ([d] + out)[1..] == out;
    Distribute(2 * Val(b, out), r, b);
    MulAssoc(b, 2, Val(b, out));
    MulAssoc(2, b, Val(b, out));
  }
}
