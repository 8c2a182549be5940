/** The comba kernels: columns of a product first, one carry per column. */
module Comba {
  import opened Arith
  import opened Digits
  import opened MpInts

  function At(s: seq<nat>, i: int): nat {
    if 0 <= i < |s| then s[i] else 0
  }

  /** The terms a[j] * b[k-j] of column k with j < i; digits outside the numbers are zero. */
  function Terms(a: seq<nat>, b: seq<nat>, k: int, i: nat): nat {
    if i == 0 then 0 else Terms(a, b, k, i - 1) + At(a, i - 1) * At(b, k - (i - 1))
  }

  /** Column k of the schoolbook product. */
  function Column(a: seq<nat>, b: seq<nat>, k: int): nat {
    Terms(a, b, k, |a|)
  }

  /** Columns lo..hi, weighted from B^0. */
  function ColumnSum(base: nat, a: seq<nat>, b: seq<nat>, lo: nat, hi: nat): nat
    requires lo <= hi
    decreases hi - lo
  {
    if lo == hi then 0 else Column(a, b, lo) + base * ColumnSum(base, a, b, lo + 1, hi)
  }

  lemma {:induction false} TermsShift(a: seq<nat>, b: seq<nat>, k: int, i: nat)
    requires a != [] && i <= |a| - 1
    ensures Terms(a, b, k, i + 1) == a[0] * At(b, k) + Terms(a[1..], b, k - 1, i)
  {
    if i > 0 {
      TermsShift(a, b, k, i - 1);
      assert At(a, i) == At(a[1..], i - 1) && At(b, k - i) == At(b, k - 1 - (i - 1));
    }
  }

  /** A column of a product is the column of the shorter product plus one row. */
  lemma ColumnPeel(a: seq<nat>, b: seq<nat>, k: int)
    requires a != []
    ensures Column(a, b, k) == a[0] * At(b, k) + Column(a[1..], b, k - 1)
  {
    TermsShift(a, b, k, |a| - 1);
  }

  lemma {:induction false} ColumnBelowZero(a: seq<nat>, b: seq<nat>, k: int, i: nat)
    requires k < 0
    ensures Terms(a, b, k, i) == 0
  {
    if i > 0 { ColumnBelowZero(a, b, k, i - 1); }
  }

  /** Row by row: columns 0.. of a*b are a[0] times b's digits plus the shifted columns of the rest. */
  lemma {:induction false} ColumnsPeel(base: nat, a: seq<nat>, b: seq<nat>, lo: nat, hi: nat)
    requires a != [] && 1 <= lo <= hi
    ensures ColumnSum(base, a, b, lo, hi)
            == a[0] * DigitSum(base, b, lo, hi) + ColumnSum(base, a[1..], b, lo - 1, hi - 1)
    decreases hi - lo
  {
    if lo < hi {
      ColumnsPeel(base, a, b, lo + 1, hi);
      ColumnPeel(a, b, lo);
      PeelAlgebra(base, a[0], At(b, lo), DigitSum(base, b, lo + 1, hi), ColumnSum(base, a[1..], b, lo, hi - 1));
    }
  }

  lemma PeelAlgebra(base: nat, x: nat, d: nat, rest: nat, cols: nat)
    ensures base * (x * rest + cols) == x * (base * rest) + base * cols
    ensures x * (d + base * rest) == x * d + x * (base * rest)
  {
    Distribute(x * rest, cols, base);
    MulAssoc(base, x, rest);
    MulAssoc(x, base, rest);
    Distribute(d, base * rest, x);
  }

  function DigitSum(base: nat, b: seq<nat>, lo: nat, hi: nat): nat
    requires lo <= hi
    decreases hi - lo
  {
    if lo == hi then 0 else At(b, lo) + base * DigitSum(base, b, lo + 1, hi)
  }

  lemma {:induction false} DigitSumIsVal(base: nat, b: seq<nat>, lo: nat, hi: nat)
    requires lo <= hi && hi >= |b|
    ensures DigitSum(base, b, lo, hi) == if lo < |b| then Val(base, b[lo..]) else 0
    decreases hi - lo
  {
    if lo < hi {
      DigitSumIsVal(base, b, lo + 1, hi);
      if lo < |b| {
        assert b[lo..][1..] == b[lo + 1..];
        if lo + 1 == |b| { assert b[lo + 1..] == []; }
      }
    }
  }

  /** All columns together are the product. */
  lemma {:induction false} ColumnsAreProduct(base: nat, a: seq<nat>, b: seq<nat>, hi: nat)
    requires hi >= |a| + |b|
    ensures ColumnSum(base, a, b, 0, hi) == Val(base, a) * Val(base, b)
  {
    if a == [] {
      NoColumns(base, a, b, 0, hi);
    } else if hi == 0 {
    } else {
      ColumnsAreProduct(base, a[1..], b, hi - 1);
      ColumnPeel(a, b, 0);
      ColumnBelowZero(a[1..], b, -1, |a[1..]|);
      ColumnsPeel(base, a, b, 1, hi);
      DigitSumIsVal(base, b, 0, hi);
      assert b[0..] == b;
      ProductAlgebra(base, a[0], At(b, 0), DigitSum(base, b, 1, hi), Val(base, a[1..]), Val(base, b));
    }
  }

  lemma ProductAlgebra(base: nat, x: nat, d: nat, rest: nat, va: nat, vb: nat)
    requires d + base * rest == vb
    ensures x * d + base * (x * rest + va * vb) == (x + base * va) * vb
  {
    Distribute(x, base * va, vb);
    Distribute(d, base * rest, x);
    Distribute(x * rest, va * vb, base);
    MulAssoc(base, x, rest);
    MulAssoc(x, base, rest);
    MulAssoc(base, va, vb);
  }

  lemma {:induction false} NoColumns(base: nat, a: seq<nat>, b: seq<nat>, lo: nat, hi: nat)
    requires a == [] && lo <= hi
    ensures ColumnSum(base, a, b, lo, hi) == 0
    decreases hi - lo
  {
    if lo < hi { NoColumns(base, a, b, lo + 1, hi); }
  }

  /** Cutting a column range in two. */
  lemma {:induction false} ColumnSumSplit(base: nat, a: seq<nat>, b: seq<nat>, lo: nat, mid: nat, hi: nat)
    requires lo <= mid <= hi
    ensures ColumnSum(base, a, b, lo, hi)
            == ColumnSum(base, a, b, lo, mid) + Pow(base, mid - lo) * ColumnSum(base, a, b, mid, hi)
    decreases mid - lo
  {
    if lo < mid {
      ColumnSumSplit(base, a, b, lo + 1, mid, hi);
      var p, rest := Pow(base, mid - lo - 1), ColumnSum(base, a, b, mid, hi);
      Distribute(ColumnSum(base, a, b, lo + 1, mid), p * rest, base);
      MulAssoc(base, p, rest);
    }
  }

  lemma ColumnSumNext(base: nat, a: seq<nat>, b: seq<nat>, lo: nat, hi: nat)
    requires lo <= hi
    ensures ColumnSum(base, a, b, lo, hi + 1)
            == ColumnSum(base, a, b, lo, hi) + Column(a, b, hi) * Pow(base, hi - lo)
  {
    ColumnSumSplit(base, a, b, lo, hi, hi + 1);
    assert ColumnSum(base, a, b, hi + 1, hi + 1) == 0;
  }

  lemma {:induction false} TermsBelowRange(a: seq<nat>, b: seq<nat>, k: int, i: nat)
    requires i == 0 || k - (i - 1) >= |b|
    ensures Terms(a, b, k, i) == 0
  {
    if i > 0 { TermsBelowRange(a, b, k, i - 1); }
  }

  lemma {:induction false} TermsAboveRange(a: seq<nat>, b: seq<nat>, k: int, i: nat, j: nat)
    requires i <= j && k < i
    ensures Terms(a, b, k, j) == Terms(a, b, k, i)
  {
    if i < j { TermsAboveRange(a, b, k, i, j - 1); }
  }

  /** n products of digits on top of a carry of at most n*(B-1) stay below n*(B-1)*B. */
  lemma AccumulatorFits(cfg: Config, n: nat, i: nat, carry: nat)
    requires cfg.Ok() && i <= n <= cfg.Columns() && carry <= n * (cfg.Base() - 1)
    ensures carry + i * DigitSquare(cfg.Base()) < cfg.Word()
    ensures carry + i * DigitSquare(cfg.Base()) <= n * (cfg.Base() - 1) * cfg.Base()
  {
    cfg.Sizes();
    var b := cfg.Base();
    MulMono(i, n, (b - 1) * (b - 1));
    MulAssoc(n, b - 1, b - 1);
    Distribute(b - 1, 1, n * (b - 1));
    MulMono(n, cfg.Columns(), b - 1);
    MulMono(n * (b - 1), cfg.Columns() * (b - 1), b);
    MulAssoc(cfg.Columns(), b - 1, b);
    MulMonoStrict(b - 1, b, b);
    MulMonoStrict((b - 1) * b, b * b, cfg.Columns());
  }

  /** The carry leaving a column is at most n*(B-1) again. */
  lemma CarryStays(b: nat, n: nat, w: nat)
    requires b > 0 && w <= n * (b - 1) * b
    ensures Hi(b, w) <= n * (b - 1)
  {
    HiLo(b, w);
    if Hi(b, w) > n * (b - 1) {
      MulMono(n * (b - 1) + 1, Hi(b, w), b);
      Distribute(n * (b - 1), 1, b);
    }
  }

  /** One pass of the column loop: the carry plus column ix, never overflowing a word. */
  method AddColumn(cfg: Config, tmpa: array<nat>, ua: nat, tmpb: array<nat>, ub: nat, ix: nat, carry: nat)
    returns (w: nat)
    requires cfg.Ok() && ua <= tmpa.Length && ub <= tmpb.Length && ix < ua + ub
    requires AllBelow(cfg.Base(), tmpa[..ua]) && AllBelow(cfg.Base(), tmpb[..ub])
    requires Min(ua, ub) <= cfg.Columns() && carry <= Min(ua, ub) * (cfg.Base() - 1)
    ensures w == carry + Column(tmpa[..ua], tmpb[..ub], ix)
    ensures w < cfg.Word() && w <= Min(ua, ub) * (cfg.Base() - 1) * cfg.Base()
  {
    ghost var a, b, n := tmpa[..ua], tmpb[..ub], Min(ua, ub);
    var ty := Min(ub - 1, ix);
    var tx := ix - ty;
    var iy := Min(ua - tx, ty + 1);
    TermsBelowRange(a, b, ix, tx);
    w := Accumulate(cfg, tmpa, ua, tmpb, ub, ix, tx, ty, iy, carry, n);
    if ub == 0 {
      NoTerms(a, ix, ua);
      NoTerms(a, ix, tx);
    } else if tx + iy < ua {
      TermsAboveRange(a, b, ix, tx + iy, ua);
    }
  }

  /** The inner loop: iy products, one index rising and the other falling, added to a running word. */
  method Accumulate(cfg: Config, tmpa: array<nat>, ua: nat, tmpb: array<nat>, ub: nat,
                    ghost k: nat, tx: nat, ty: int, iy: int, start: nat, ghost n: nat) returns (w: nat)
    requires cfg.Ok() && ua <= tmpa.Length && ub <= tmpb.Length
    requires AllBelow(cfg.Base(), tmpa[..ua]) && AllBelow(cfg.Base(), tmpb[..ub])
    requires tx + ty == k && (iy > 0 ==> tx + iy <= ua && iy - 1 <= ty < ub)
    requires iy <= n <= cfg.Columns() && start <= n * (cfg.Base() - 1)
    ensures w == start + Terms(tmpa[..ua], tmpb[..ub], k, tx + Max(iy, 0)) - Terms(tmpa[..ua], tmpb[..ub], k, tx)
    ensures w <= start + Max(iy, 0) * DigitSquare(cfg.Base())
    ensures w < cfg.Word() && w <= n * (cfg.Base() - 1) * cfg.Base()
  {
    ghost var a, b, p := tmpa[..ua], tmpb[..ub], DigitSquare(cfg.Base());
    AccumulatorFits(cfg, n, 0, start);
    w := start;
    var iz := 0;
    while iz < iy
      invariant 0 <= iz <= Max(iy, 0) && w <= start + iz * p
      invariant w == start + Terms(a, b, k, tx + iz) - Terms(a, b, k, tx)
      invariant w < cfg.Word() && w <= n * (cfg.Base() - 1) * cfg.Base()
    {
      ProductBound(cfg.Base(), a[tx + iz], b[ty - iz]);
      Distribute(iz, 1, p);
      AccumulatorFits(cfg, n, iz + 1, start);
      SmallMod(w + a[tx + iz] * b[ty - iz], cfg.Word());
      w := WordAdd(cfg, w, tmpa[tx + iz] * tmpb[ty - iz]);
      iz := iz + 1;
    }
  }

  lemma {:induction false} NoTerms(a: seq<nat>, k: int, i: nat)
    ensures Terms(a, [], k, i) == 0
  {
    if i > 0 { NoTerms(a, k, i - 1); }
  }

  /** The column loop from column lo to pa: masked digits stored, the rest carried on. */
  method StoreColumns(cfg: Config, tmpa: array<nat>, ua: nat, tmpb: array<nat>, ub: nat, lo: nat, pa: nat, w: array<nat>)
    returns (ghost carry: nat)
    requires cfg.Ok() && ua <= tmpa.Length && ub <= tmpb.Length && lo <= pa <= ua + ub && pa <= w.Length
    requires w != tmpa && w != tmpb
    requires AllBelow(cfg.Base(), tmpa[..ua]) && AllBelow(cfg.Base(), tmpb[..ub]) && Min(ua, ub) <= cfg.Columns()
    modifies w
    ensures AllBelow(cfg.Base(), w[lo..pa])
    ensures Val(cfg.Base(), w[lo..pa]) + carry * Pow(cfg.Base(), pa - lo)
            == ColumnSum(cfg.Base(), tmpa[..ua], tmpb[..ub], lo, pa)
  {
    ghost var base, a, b := cfg.Base(), tmpa[..ua], tmpb[..ub];
    ghost var out: seq<nat> := [];
    var acc := 0;
    var ix := lo;
    MulMono(0, Min(ua, ub), base - 1);
    while ix < pa
      invariant lo <= ix <= pa && out == w[lo..ix] && AllBelow(base, out)
      invariant 0 <= acc <= Min(ua, ub) * (base - 1)
      invariant Val(base, out) + acc * Pow(base, ix - lo) == ColumnSum(base, a, b, lo, ix)
    {
      var column := AddColumn(cfg, tmpa, ua, tmpb, ub, ix, acc);
      ColumnStep(base, a, b, lo, ix, out, acc, column);
      CarryStays(base, Min(ua, ub), column);
      w[ix] := Lo(cfg.Base(), column);
      out := out + [w[ix]];
      acc := Hi(cfg.Base(), column);
      ix := ix + 1;
    }
    carry := acc;
  }

  lemma ColumnStep(base: nat, a: seq<nat>, b: seq<nat>, lo: nat, ix: nat, out: seq<nat>, acc: nat, w: nat)
    requires base > 0 && lo <= ix && |out| == ix - lo && w == acc + Column(a, b, ix)
    requires Val(base, out) + acc * Pow(base, ix - lo) == ColumnSum(base, a, b, lo, ix)
    ensures Val(base, out + [Lo(base, w)]) + Hi(base, w) * Pow(base, ix + 1 - lo) == ColumnSum(base, a, b, lo, ix + 1)
  {
    ValSnoc(base, out, Lo(base, w));
    ColumnSumNext(base, a, b, lo, ix);
    HiLo(base, w);
    StepAlgebra(base, Pow(base, ix - lo), acc, Column(a, b, ix), Lo(base, w), Hi(base, w));
  }

  lemma StepAlgebra(base: nat, p: nat, acc: nat, col: nat, low: nat, high: nat)
    requires acc + col == base * high + low
    ensures low * p + high * (base * p) == acc * p + col * p
  {
    Distribute(acc, col, p);
    Distribute(base * high, low, p);
    MulAssoc(high, base, p);
  }

  /** fast_s_mp_mul_digs: the low `digs` digits of |a| * |b|; c may be a or b. */
  method FastMulDigs(cfg: Config, a: MpInt, b: MpInt, c: MpInt, digs: nat)
    requires cfg.Ok() && a.Valid(cfg.Base()) && b.Valid(cfg.Base()) && c.used <= c.dp.Length
    requires Separate(a, c) && Separate(b, c)
    requires Min(a.used, b.used) <= cfg.Columns() && digs < cfg.WArray()
    requires c.dp.Length >= digs ==> c.dp.Length > Min(digs, a.used + b.used)
    modifies c, c.dp
    ensures c.Normal(cfg.Base())
    ensures c.Mag(cfg.Base()) == LowProduct(cfg.Base(), old(a.Mag(cfg.Base())), old(b.Mag(cfg.Base())), digs)
    ensures c.sign == if c.Mag(cfg.Base()) == 0 then ZPos else old(c.sign)
  {
    ghost var sa, sb := a.dp[..a.used], b.dp[..b.used];
    var ua, ub := a.used, b.used;
    Grow(c, digs);
    assert a.dp[..ua] == sa && b.dp[..ub] == sb;
    MulDigits(cfg, a.dp, ua, b.dp, ub, c.dp, digs, c.used, sa, sb);
    SetUsed(c, Min(digs, ua + ub), cfg.Base(), LowProduct(cfg.Base(), Val(cfg.Base(), sa), Val(cfg.Base(), sb), digs));
  }

  /** The product of two numbers, cut to its lowest digits. */
  function LowProduct(base: nat, x: nat, y: nat, digs: nat): nat
    requires base > 0
  {
    (x * y) % PowPos(base, digs)
  }

  /** The digit work of fast_s_mp_mul_digs on the arrays; the word past the last column is copied unset. */
  method MulDigits(cfg: Config, tmpa: array<nat>, ua: nat, tmpb: array<nat>, ub: nat, tmpc: array<nat>, digs: nat, olduse: nat,
                   ghost a: seq<nat>, ghost b: seq<nat>)
    requires cfg.Ok() && ua <= tmpa.Length && ub <= tmpb.Length && Min(digs, ua + ub) < tmpc.Length && olduse <= tmpc.Length
    requires a == tmpa[..ua] && b == tmpb[..ub] && AllBelow(cfg.Base(), a) && AllBelow(cfg.Base(), b)
    requires Min(ua, ub) <= cfg.Columns() && digs < cfg.WArray()
    modifies tmpc
    ensures AllBelow(cfg.Base(), tmpc[..Min(digs, ua + ub)])
    ensures Val(cfg.Base(), tmpc[..Min(digs, ua + ub)])
            == LowProduct(cfg.Base(), Val(cfg.Base(), a), Val(cfg.Base(), b), digs)
  {
    var pa := Min(digs, ua + ub);
    var w := new nat[cfg.WArray()];
    ghost var carry := StoreColumns(cfg, tmpa, ua, tmpb, ub, 0, pa, w);
    ghost var out := w[0..pa];
    TruncatedProduct(cfg.Base(), a, b, digs, out, carry);
    CopyOut(w, tmpc, 0, pa + 1, olduse);
    assert tmpc[..pa] == out;
  }

  /** Copies words lo..hi into the digit array and clears what the old number used above them. */
  method CopyOut(w: array<nat>, tmpc: array<nat>, lo: nat, hi: nat, olduse: nat)
    requires w != tmpc && hi <= w.Length && hi <= tmpc.Length && olduse <= tmpc.Length
    modifies tmpc
    ensures forall j | lo <= j < hi :: tmpc[j] == w[j]
    ensures forall j | 0 <= j < Min(lo, tmpc.Length) :: tmpc[j] == old(tmpc[j])
    ensures forall j | Max(lo, hi) <= j < olduse :: tmpc[j] == 0
  {
    var ix := lo;
    while ix < hi
      invariant lo <= ix <= Max(lo, hi)
      invariant forall j | lo <= j < ix :: tmpc[j] == w[j]
      invariant forall j | 0 <= j < Min(lo, tmpc.Length) :: tmpc[j] == old(tmpc[j])
    {
      tmpc[ix] := w[ix];
      ix := ix + 1;
    }
    while ix < olduse
      invariant Max(lo, hi) <= ix
      invariant forall j | lo <= j < hi :: tmpc[j] == w[j]
      invariant forall j | 0 <= j < Min(lo, tmpc.Length) :: tmpc[j] == old(tmpc[j])
      invariant forall j | Max(lo, hi) <= j < ix && j < tmpc.Length :: tmpc[j] == 0
    {
      tmpc[ix] := 0;
      ix := ix + 1;
    }
  }

  function PowPos(b: nat, e: nat): (r: nat)
    requires b > 0
    ensures r > 0
  {
    PowPositive(b, e);
    Pow(b, e)
  }

  /** The columns kept, once normalised, are the product modulo B^digs. */
  lemma TruncatedProduct(base: nat, a: seq<nat>, b: seq<nat>, digs: nat, out: seq<nat>, carry: nat)
    requires base > 0 && AllBelow(base, a) && AllBelow(base, b) && AllBelow(base, out)
    requires |out| == Min(digs, |a| + |b|)
    requires Val(base, out) + carry * Pow(base, |out|) == ColumnSum(base, a, b, 0, |out|)
    ensures Val(base, out) == LowProduct(base, Val(base, a), Val(base, b), digs)
  {
    var pa, total := |out|, |a| + |b|;
    ColumnsAreProduct(base, a, b, total);
    ColumnSumSplit(base, a, b, 0, pa, total);
    ValBound(base, out);
    LowPart(Val(base, a) * Val(base, b), Val(base, out), carry, ColumnSum(base, a, b, pa, total), PowPos(base, pa));
    if digs > total {
      ProductBelow(base, a, b);
      WholeProduct(base, Val(base, a) * Val(base, b), total, digs);
    }
  }

  lemma WholeProduct(base: nat, x: nat, total: nat, digs: nat)
    requires base > 0 && x < Pow(base, total) && total <= digs
    ensures x % PowPos(base, total) == x == x % PowPos(base, digs)
  {
    PowMono(base, total, digs);
    SmallMod(x, PowPos(base, total));
    SmallMod(x, PowPos(base, digs));
  }

  lemma LowPart(x: nat, v: nat, carry: nat, high: nat, p: nat)
    requires v < p && x == v + carry * p + p * high
    ensures x % p == v
  {
    Distribute(carry, high, p);
    DivModUnique(x, p, carry + high, v);
  }

  lemma ProductBelow(base: nat, a: seq<nat>, b: seq<nat>)
    requires base > 0 && AllBelow(base, a) && AllBelow(base, b)
    ensures 0 <= Val(base, a) * Val(base, b) < Pow(base, |a| + |b|)
  {
    ValBound(base, a);
    ValBound(base, b);
    PowAdd(base, |a|, |b|);
    BelowProduct(Val(base, a), Val(base, b), Pow(base, |a|), Pow(base, |b|));
  }

  lemma BelowProduct(x: nat, y: nat, p: nat, q: nat)
    requires x < p && y < q
    ensures 0 <= x * y < p * q
  {
    MulMono(x, p, y);
    MulMonoStrict(y, q, p);
  }

  /** A number whose low digits stand for `low` and whose digits above lo are the high columns of a * b. */
  ghost function HighProduct(base: nat, low: nat, a: seq<nat>, b: seq<nat>, lo: nat): nat
    requires lo <= |a| + |b|
  {
    low + Pow(base, lo) * ColumnSum(base, a, b, lo, |a| + |b|)
  }

  /** fast_s_mp_mul_high_digs: columns from digs up with no carry from below; digits under digs stay. */
  method FastMulHighDigs(cfg: Config, a: MpInt, b: MpInt, c: MpInt, digs: nat)
    requires cfg.Ok() && a.Valid(cfg.Base()) && b.Valid(cfg.Base())
    requires c.used <= c.dp.Length && AllBelow(cfg.Base(), c.dp[..Min(Min(digs, a.used + b.used), c.dp.Length)])
    requires Separate(a, c) && Separate(b, c)
    requires Min(a.used, b.used) <= cfg.Columns() && a.used + b.used <= cfg.WArray()
    modifies c, c.dp
    ensures c.Normal(cfg.Base())
    ensures var lo := Min(digs, old(a.used + b.used));
            c.Mag(cfg.Base()) == HighProduct(cfg.Base(), old(Val(cfg.Base(), c.dp[..Min(lo, c.dp.Length)])),
                                             old(a.dp[..a.used]), old(b.dp[..b.used]), lo)
  {
    ghost var base, sa, sb := cfg.Base(), a.dp[..a.used], b.dp[..b.used];
    var ua, ub := a.used, b.used;
    ghost var lo := Min(digs, ua + ub);
    ghost var low := GrowKeepingLow(c, ua + ub, base, lo);
    assert a.dp[..ua] == sa && b.dp[..ub] == sb;
    HighDigits(cfg, a.dp, ua, b.dp, ub, c.dp, digs, c.used, sa, sb, low);
    SetUsed(c, ua + ub, base, HighProduct(base, low, sa, sb, lo));
  }

  /** Growing leaves the low digits standing for the same number. */
  method GrowKeepingLow(c: MpInt, size: nat, ghost base: nat, ghost lo: nat) returns (ghost low: nat)
    requires base > 0 && AllBelow(base, c.dp[..Min(lo, c.dp.Length)]) && lo <= size && c.used <= c.dp.Length
    modifies c`dp
    ensures c.dp.Length >= size && c.dp.Length >= old(c.dp.Length)
    ensures c.dp == old(c.dp) || fresh(c.dp)
    ensures c.dp[..c.used] == old(c.dp[..c.used])
    ensures AllBelow(base, c.dp[..lo]) && low == Val(base, c.dp[..lo])
    ensures low == old(Val(base, c.dp[..Min(lo, c.dp.Length)]))
  {
    ghost var sc := c.dp[..];
    assert c.dp[..Min(lo, |sc|)] == sc[..Min(lo, |sc|)];
    Grow(c, size);
    PaddedLow(base, sc, c.dp[..], lo);
    assert c.dp[..][..lo] == c.dp[..lo] && c.dp[..c.used] == sc[..c.used];
    low := Val(base, c.dp[..lo]);
  }

  /** The digit work of fast_s_mp_mul_high_digs on the arrays; the destination may be a source. */
  method HighDigits(cfg: Config, tmpa: array<nat>, ua: nat, tmpb: array<nat>, ub: nat, tmpc: array<nat>, digs: nat, olduse: nat,
                    ghost a: seq<nat>, ghost b: seq<nat>, ghost low: nat)
    requires cfg.Ok() && ua <= tmpa.Length && ub <= tmpb.Length && ua + ub <= tmpc.Length && olduse <= tmpc.Length
    requires a == tmpa[..ua] && b == tmpb[..ub] && AllBelow(cfg.Base(), a) && AllBelow(cfg.Base(), b)
    requires low == Val(cfg.Base(), tmpc[..Min(digs, ua + ub)])
    requires Min(ua, ub) <= cfg.Columns() && ua + ub <= cfg.WArray()
    requires AllBelow(cfg.Base(), tmpc[..Min(digs, ua + ub)])
    modifies tmpc
    ensures AllBelow(cfg.Base(), tmpc[..ua + ub])
    ensures Val(cfg.Base(), tmpc[..ua + ub]) == HighProduct(cfg.Base(), low, a, b, Min(digs, ua + ub))
  {
    var pa := ua + ub;
    ghost var lo := Min(digs, pa);
    ghost var kept := tmpc[..lo];
    var w := new nat[cfg.WArray()];
    if digs < pa {
      ghost var carry := StoreColumns(cfg, tmpa, ua, tmpb, ub, digs, pa, w);
      NoCarryFromTop(cfg.Base(), a, b, digs, w[digs..pa], carry);
    }
    CopyOut(w, tmpc, digs, pa, olduse);
    assert digs < pa ==> tmpc[lo..pa] == w[digs..pa];
    assert tmpc[..lo] == kept;
    JoinParts(cfg.Base(), tmpc[..], lo, pa);
  }

  lemma JoinParts(base: nat, s: seq<nat>, lo: nat, pa: nat)
    requires lo <= pa <= |s| && AllBelow(base, s[..lo]) && AllBelow(base, s[lo..pa])
    ensures AllBelow(base, s[..pa]) && Val(base, s[..pa]) == Val(base, s[..lo]) + Pow(base, lo) * Val(base, s[lo..pa])
  {
    assert s[..pa] == s[..lo] + s[lo..pa];
    forall i | 0 <= i < pa ensures s[i] < base {
      if i < lo { assert s[i] == s[..lo][i]; } else { assert s[i] == s[lo..pa][i - lo]; }
    }
    ValConcat(base, s[..lo], s[lo..pa]);
  }

  lemma PaddedLow(base: nat, was: seq<nat>, grown: seq<nat>, lo: nat)
    requires base > 0 && AllBelow(base, was[..Min(lo, |was|)]) && |was| <= |grown| && lo <= |grown| && grown[..|was|] == was
    requires forall i | |was| <= i < |grown| :: grown[i] == 0
    ensures Val(base, grown[..lo]) == Val(base, was[..Min(lo, |was|)]) && AllBelow(base, grown[..lo])
  {
    var k := Min(lo, |was|);
    forall i | 0 <= i < |was| ensures grown[i] == was[i] {
      assert grown[..|was|][i] == was[i];
    }
    assert grown[..lo][..k] == was[..k];
    ValTopZeros(base, grown[..lo], k);
  }

  /** The high columns fit in the digits above digs, so nothing is carried past the top. */
  lemma NoCarryFromTop(base: nat, a: seq<nat>, b: seq<nat>, digs: nat, out: seq<nat>, carry: nat)
    requires base > 0 && AllBelow(base, a) && AllBelow(base, b) && digs <= |a| + |b|
    requires |out| == |a| + |b| - digs
    requires Val(base, out) + carry * Pow(base, |out|) == ColumnSum(base, a, b, digs, |a| + |b|)
    ensures carry == 0 && Val(base, out) == ColumnSum(base, a, b, digs, |a| + |b|)
  {
    var total := |a| + |b|;
    var high := ColumnSum(base, a, b, digs, total);
    ColumnsAreProduct(base, a, b, total);
    ColumnSumSplit(base, a, b, 0, digs, total);
    ProductBelow(base, a, b);
    PowAdd(base, digs, total - digs);
    PowPositive(base, digs);
    MulCancelLess(Pow(base, digs), high, Pow(base, total - digs));
    NoneLeft(Val(base, out), carry, Pow(base, |out|), high);
  }

  /** Every column is at most n products of two digits, n the smaller digit count. */
  lemma ColumnBound(base: nat, a: seq<nat>, b: seq<nat>, k: nat)
    requires base > 0 && AllBelow(base, a) && AllBelow(base, b)
    ensures Column(a, b, k) <= Min(|a|, |b|) * DigitSquare(base)
  {
    var p := DigitSquare(base);
    var lo, hi := ColumnSpan(a, b, k);
    forall i: nat ensures At(a, i) * At(b, k - i) <= p {
      ProductBound(base, At(a, i), At(b, k - i));
    }
    TermsSpan(a, b, k, lo, hi, p);
    MulMono(hi - lo, Min(|a|, |b|), p);
  }

  /** The terms of a column that can be nonzero lie in a span no longer than either number. */
  lemma ColumnSpan(a: seq<nat>, b: seq<nat>, k: nat) returns (lo: nat, hi: nat)
    ensures lo <= hi && hi - lo <= Min(|a|, |b|)
    ensures Terms(a, b, k, lo) == 0 && Terms(a, b, k, hi) == Column(a, b, k)
  {
    lo := Min(Max(0, k - |b| + 1), |a|);
    TermsBelowRange(a, b, k, lo);
    hi := Min(lo + |b|, |a|);
    if hi < |a| { TermsAboveRange(a, b, k, hi, |a|); }
  }

  lemma {:induction false} TermsSpan(a: seq<nat>, b: seq<nat>, k: nat, lo: nat, hi: nat, p: nat)
    requires lo <= hi && forall i: nat :: At(a, i) * At(b, k - i) <= p
    ensures Terms(a, b, k, hi) <= Terms(a, b, k, lo) + (hi - lo) * p
  {
    if lo < hi {
      TermsSpan(a, b, k, lo, hi - 1, p);
      Distribute(hi - 1 - lo, 1, p);
    }
  }

  /** Low columns never amount to n*(B-1) units of B^digs. */
  lemma {:induction false} LowColumnsBound(base: nat, a: seq<nat>, b: seq<nat>, lo: nat, hi: nat)
    requires base > 0 && AllBelow(base, a) && AllBelow(base, b) && lo <= hi
    ensures ColumnSum(base, a, b, lo, hi) <= Min(|a|, |b|) * (base - 1) * (Pow(base, hi - lo) - 1)
    decreases hi - lo
  {
    var n := Min(|a|, |b|);
    if lo < hi {
      LowColumnsBound(base, a, b, lo + 1, hi);
      ColumnBound(base, a, b, lo);
      BoundAlgebra(base, n, Pow(base, hi - lo - 1), Column(a, b, lo), ColumnSum(base, a, b, lo + 1, hi));
    }
  }

  lemma BoundAlgebra(base: nat, n: nat, p: nat, col: nat, rest: nat)
    requires base > 0 && col <= n * DigitSquare(base) && rest <= n * (base - 1) * (p - 1)
    ensures col + base * rest <= n * (base - 1) * (base * p - 1)
  {
    var m := n * (base - 1);
    MulAssoc(n, base - 1, base - 1);
    MulMono(rest, m * (p - 1), base);
    MulAssoc(base, m, p - 1);
    MulAssoc(m, base, p - 1);
    Distribute(p, 1, base);
    Distribute(base - 1, base * p - base, m);
  }

  /** Dropping the low columns' carries costs at most n*(B-1) - 1 units, and never overshoots. */
  lemma HighHalfBound(base: nat, a: seq<nat>, b: seq<nat>, digs: nat)
    requires base > 1 && AllBelow(base, a) && AllBelow(base, b) && digs <= |a| + |b|
    ensures var high := ColumnSum(base, a, b, digs, |a| + |b|);
            var exact := (Val(base, a) * Val(base, b)) / PowPos(base, digs);
            high <= exact && (exact == high || exact - high < Min(|a|, |b|) * (base - 1))
  {
    var total := |a| + |b|;
    ColumnsAreProduct(base, a, b, total);
    ColumnSumSplit(base, a, b, 0, digs, total);
    LowColumnsBound(base, a, b, 0, digs);
    MulMono(0, Min(|a|, |b|), base - 1);
    HighPart(Val(base, a) * Val(base, b), ColumnSum(base, a, b, 0, digs), ColumnSum(base, a, b, digs, total),
             PowPos(base, digs), Min(|a|, |b|) * (base - 1));
  }

  lemma HighPart(x: nat, low: nat, high: nat, p: nat, m: nat)
    requires p > 0 && x == low + p * high && low <= m * (p - 1)
    ensures high <= x / p && (x / p == high || x / p - high < m)
  {
    var q := Hi(p, low);
    HiLo(p, low);
    Distribute(high, q, p);
    DivModUnique(x, p, high + q, Lo(p, low));
    if q > 0 && q >= m {
      MulMono(m, q, p);
      Distribute(p, 1, m);
      if m == 0 { MulMono(1, q, p); }
    }
  }

  lemma {:induction false} TermsPastEnd(a: seq<nat>, b: seq<nat>, k: int, j: nat)
    requires j >= |a|
    ensures Terms(a, b, k, j) == Terms(a, b, k, |a|)
  {
    if j > |a| { TermsPastEnd(a, b, k, j - 1); }
  }

  /** The last h terms of a square's column mirror its first h. */
  lemma {:induction false} TermsMirror(a: seq<nat>, k: nat, h: nat)
    requires h <= k + 1
    ensures Terms(a, a, k, k + 1) == Terms(a, a, k, k + 1 - h) + Terms(a, a, k, h)
  {
    if h > 0 {
      TermsMirror(a, k, h - 1);
      assert k - (k + 1 - h) == h - 1 && k - (h - 1) == k + 1 - h;
    }
  }

  /** Half of a square's column, doubled, plus the middle term of an even column. */
  lemma SquareColumn(a: seq<nat>, k: nat)
    ensures Column(a, a, k)
            == 2 * Terms(a, a, k, (k + 1) / 2) + if k % 2 == 0 then At(a, k / 2) * At(a, k / 2) else 0
  {
    var h := (k + 1) / 2;
    if |a| <= k + 1 { TermsPastEnd(a, a, k, k + 1); } else { TermsAboveRange(a, a, k, k + 1, |a|); }
    TermsMirror(a, k, h);
    if k % 2 == 0 {
      assert k + 1 - h == h + 1 && k - h == h;
      assert Terms(a, a, k, h + 1) == Terms(a, a, k, h) + At(a, h) * At(a, h);
    } else {
      assert k + 1 - h == h;
    }
  }

  /** The body of the squaring loop: each cross product once, doubled, then the square term. */
  method SquareColumnInto(cfg: Config, tmpa: array<nat>, ua: nat, ix: nat, carry: nat) returns (w: nat)
    requires cfg.Ok() && ua <= tmpa.Length && ix < 2 * ua && AllBelow(cfg.Base(), tmpa[..ua])
    requires ua <= cfg.Columns() && carry <= ua * (cfg.Base() - 1)
    ensures w == carry + Column(tmpa[..ua], tmpa[..ua], ix)
    ensures w < cfg.Word() && w <= ua * (cfg.Base() - 1) * cfg.Base()
  {
    ghost var a := tmpa[..ua];
    var ty := Min(ua - 1, ix);
    var tx := ix - ty;
    var iy := Min(ua - tx, ty + 1);
    iy := Min(iy, (ty - tx + 1) / 2);
    assert tx + iy == (ix + 1) / 2 && 2 * iy + (1 - ix % 2) <= ua;
    TermsBelowRange(a, a, ix, tx);
    MulMono(0, ua, cfg.Base() - 1);
    w := Accumulate(cfg, tmpa, ua, tmpa, ua, ix, tx, ty, iy, 0, ua);
    SquareColumn(a, ix);
    DoubledFits(cfg, ua, iy, ix % 2 == 0, carry, w);
    w := WordAdd(cfg, WordAdd(cfg, w, w), carry);
    if ix % 2 == 0 {
      ProductBound(cfg.Base(), a[ix / 2], a[ix / 2]);
      SmallMod(w + a[ix / 2] * a[ix / 2], cfg.Word());
      w := WordAdd(cfg, w, tmpa[ix / 2] * tmpa[ix / 2]);
    }
  }

  lemma DoubledFits(cfg: Config, n: nat, iy: nat, even: bool, carry: nat, w: nat)
    requires cfg.Ok() && 2 * iy + (if even then 1 else 0) <= n <= cfg.Columns()
    requires carry <= n * (cfg.Base() - 1) && w <= iy * DigitSquare(cfg.Base())
    ensures var total := w + w + carry + if even then DigitSquare(cfg.Base()) else 0;
            total < cfg.Word() && total <= n * (cfg.Base() - 1) * cfg.Base()
    ensures WordAdd(cfg, WordAdd(cfg, w, w), carry) == w + w + carry
  {
    AccumulatorFits(cfg, n, 2 * iy + if even then 1 else 0, carry);
    TwiceTerms(iy, DigitSquare(cfg.Base()), even);
    NoWrap(cfg, w, w);
    NoWrap(cfg, w + w, carry);
  }

  lemma NoWrap(cfg: Config, x: nat, y: nat)
    requires x + y < cfg.Word()
    ensures WordAdd(cfg, x, y) == x + y
  {
    SmallMod(x + y, cfg.Word());
  }

  lemma TwiceTerms(i: nat, p: nat, even: bool)
    ensures (2 * i + if even then 1 else 0) * p == i * p + i * p + if even then p else 0
  {
    MulAssoc(2, i, p);
    Distribute(2 * i, 1, p);
  }

  /** fast_s_mp_sqr: b = |a| * |a|, the same as multiplying a by itself; b may be a. */
  method FastSqr(cfg: Config, a: MpInt, b: MpInt)
    requires cfg.Ok() && a.Valid(cfg.Base()) && Separate(a, b) && b.used <= b.dp.Length
    requires a.used <= cfg.Columns()
    modifies b, b.dp
    ensures b.Normal(cfg.Base())
    ensures b.Mag(cfg.Base()) == old(a.Mag(cfg.Base())) * old(a.Mag(cfg.Base()))
    ensures b.sign == if b.Mag(cfg.Base()) == 0 then ZPos else old(b.sign)
  {
    ghost var base, sa := cfg.Base(), a.dp[..a.used];
    var ua := a.used;
    var pa := ua + ua;
    Grow(b, pa);
    assert a.dp[..ua] == sa;
    cfg.Sizes();
    var w := new nat[cfg.WArray()];
    SquareColumns(cfg, a.dp, ua, w);
    ghost var out := w[..pa];
    CopyOut(w, b.dp, 0, pa, b.used);
    assert b.dp[..pa] == out;
    SetUsed(b, pa, base, Val(base, out));
  }

  /** The column loop of fast_s_mp_sqr. */
  method SquareColumns(cfg: Config, tmpa: array<nat>, ua: nat, w: array<nat>)
    requires cfg.Ok() && ua <= tmpa.Length && 2 * ua <= w.Length && w != tmpa
    requires AllBelow(cfg.Base(), tmpa[..ua]) && ua <= cfg.Columns()
    modifies w
    ensures AllBelow(cfg.Base(), w[..2 * ua])
    ensures Val(cfg.Base(), w[..2 * ua]) == Val(cfg.Base(), tmpa[..ua]) * Val(cfg.Base(), tmpa[..ua])
  {
    ghost var base, a := cfg.Base(), tmpa[..ua];
    ghost var out: seq<nat> := [];
    var acc := 0;
    var ix := 0;
    MulMono(0, ua, base - 1);
    while ix < ua + ua
      invariant 0 <= ix <= 2 * ua && out == w[..ix] && AllBelow(base, out)
      invariant 0 <= acc <= ua * (base - 1)
      invariant Val(base, out) + acc * Pow(base, ix) == ColumnSum(base, a, a, 0, ix)
    {
      var column := SquareColumnInto(cfg, tmpa, ua, ix, acc);
      ColumnStep(base, a, a, 0, ix, out, acc, column);
      CarryStays(base, ua, column);
      w[ix] := Lo(cfg.Base(), column);
      out := out + [w[ix]];
      acc := Hi(cfg.Base(), column);
      ix := ix + 1;
    }
    NoCarryFromTop(base, a, a, 0, out, acc);
    ColumnsAreProduct(base, a, a, 2 * ua);
  }
}
