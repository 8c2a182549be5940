/** fast_mp_montgomery_reduce: column-wise Montgomery reduction with delayed carries. */
module Montgomery {
  import opened Arith
  import opened Digits
  import opened MpInts

  /** The most a column can hold after i products were added to one digit. */
  function ColumnLimit(b: nat, i: nat): nat
    requires b > 0
  {
    (b - 1) + i * DigitSquare(b)
  }

  /** With fewer than 2^(w-2d) products, a column and its incoming carry fit in a word. */
  lemma ColumnsFit(cfg: Config, i: nat)
    requires cfg.Ok() && i < cfg.Columns()
    ensures ColumnLimit(cfg.Base(), i) + cfg.Columns() * cfg.Base() < cfg.Word()
  {
    cfg.Sizes();
    FitAlgebra(cfg.Base(), cfg.Columns(), i);
  }

  lemma FitAlgebra(b: nat, n: nat, i: nat)
    requires b >= 2 && i < n
    ensures (b - 1) + i * DigitSquare(b) + n * b < n * (b * b)
  {
    var p := DigitSquare(b);
    MulMono(i, n - 1, p);
    Distribute(n, 1, p);
    MulMono(1, b - 1, b - 1);
    SquareExpand(n, b);
    MulMono(2, b, n);
  }

  lemma SquareExpand(n: nat, b: nat)
    requires b > 0
    ensures n * DigitSquare(b) == n * (b * b) - 2 * (n * b) + n
  {
    assert (b - 1) * (b - 1) == b * b - 2 * b + 1;
    Distribute(b * b - 2 * b, 1, n);
    Distribute(b * b, 2 * b, n);
    MulAssoc(n, 2, b);
    MulAssoc(2, n, b);
  }

  /** Adding m times a digit string, column by column, adds m times its number. */
  lemma {:induction false} AddScaled(b: nat, s: seq<nat>, t: seq<nat>, n: seq<nat>, m: nat)
    requires |n| <= |s| == |t|
    requires forall j | 0 <= j < |n| :: t[j] == s[j] + m * n[j]
    requires forall j | |n| <= j < |s| :: t[j] == s[j]
    ensures Val(b, t) == Val(b, s) + m * Val(b, n)
  {
    if n == [] {
      assert s == t;
    } else {
      forall j | 0 <= j < |n[1..]| ensures t[1..][j] == s[1..][j] + m * n[1..][j] {}
      AddScaled(b, s[1..], t[1..], n[1..], m);
      Distribute(Val(b, s[1..]), m * Val(b, n[1..]), b);
      Distribute(n[0], b * Val(b, n[1..]), m);
      MulAssoc(b, m, Val(b, n[1..]));
      MulAssoc(m, b, Val(b, n[1..]));
    }
  }

  /** mu is chosen so that the lowest column becomes a multiple of the base. */
  lemma MuClearsColumn(b: nat, w: nat, rho: nat, n0: nat)
    requires b > 0 && (rho * n0 + 1) % b == 0
    ensures var mu := Lo(b, Lo(b, w) * rho); (w + mu * n0) % b == 0
  {
    var r, q1 := Lo(b, w), Hi(b, w);
    var q := (rho * n0 + 1) / b;
    MulMono(0, r, rho);
    var q2 := Hi(b, r * rho);
    var mu := Lo(b, r * rho);
    HiLo(b, w);
    HiLo(b, r * rho);
    var t := q1 + r * q - q2 * n0;
    MuAlgebra(b, r, q1, q, q2, mu, n0, rho);
    DivModUnique(w + mu * n0, b, t, 0);
  }

  lemma MuAlgebra(b: int, r: int, q1: int, q: int, q2: int, mu: int, n0: int, rho: int)
    requires rho * n0 + 1 == b * q && r * rho == b * q2 + mu
    ensures b * q1 + r + mu * n0 == b * (q1 + r * q - q2 * n0)
  {
    calc {
      mu * n0;
      (r * rho - b * q2) * n0;
      { Distribute(r * rho, b * q2, n0); MulAssoc(r, rho, n0); MulAssoc(b, q2, n0); }
      r * (rho * n0) - b * (q2 * n0);
      r * (b * q - 1) - b * (q2 * n0);
      { Distribute(b * q, 1, r); MulAssoc(r, b, q); MulAssoc(b, r, q); }
      b * (r * q) - r - b * (q2 * n0);
    }
    Distribute(q1 + r * q, q2 * n0, b);
    Distribute(q1, r * q, b);
  }

  /** Moving the carry of a cleared lowest column up by one place divides the number by the base. */
  lemma CarryUp(b: nat, s: seq<nat>)
    requires b > 0 && |s| >= 2 && s[0] % b == 0
    ensures b * Val(b, s[1..][0 := s[1] + Hi(b, s[0])]) == Val(b, s)
  {
    ValUpdate(b, s[1..], 0, s[1] + Hi(b, s[0]));
    Distribute(Val(b, s[1..]), Hi(b, s[0]), b);
  }

  /** One round: the value so far, scaled, stays x plus a multiple of n. */
  lemma RoundAlgebra(b: nat, p: nat, before: nat, after: nat, x: nat, n: nat, q: nat, mu: nat)
    requires before * p == x + n * q
    requires b * after == before + mu * n
    ensures after * (b * p) == x + n * (q + mu * p)
  {
    MulAssoc(after, b, p);
    Distribute(before, mu * n, p);
    Distribute(q, mu * p, n);
    MulAssoc(mu, n, p);
    MulAssoc(n, mu, p);
  }

  lemma QuotientGrows(b: nat, p: nat, q: nat, mu: nat)
    requires q < p && mu < b
    ensures q + mu * p < b * p
  {
    MulMono(mu + 1, b, p);
    Distribute(mu, 1, p);
  }

  /** The carry entering column j when columns are normalised from the bottom. */
  function CarryIn(b: nat, s: seq<nat>, j: nat): nat
    requires b > 0 && j <= |s|
  {
    if j == 0 then 0 else Hi(b, s[j - 1] + CarryIn(b, s, j - 1))
  }

  /** A column with its incoming carry added. */
  function ColumnTotal(b: nat, s: seq<nat>, j: nat): nat
    requires b > 0 && j < |s|
  {
    s[j] + CarryIn(b, s, j)
  }

  function NormalDigits(b: nat, s: seq<nat>, j: nat): (r: seq<nat>)
    requires b > 0 && j <= |s|
    ensures |r| == j && AllBelow(b, r)
  {
    if j == 0 then [] else NormalDigits(b, s, j - 1) + [Lo(b, ColumnTotal(b, s, j - 1))]
  }

  /** Normalising the columns keeps the number, up to the carry that leaves the top. */
  lemma {:induction false} NormalisedValue(b: nat, s: seq<nat>, j: nat)
    requires b > 0 && j <= |s|
    ensures Val(b, NormalDigits(b, s, j)) + CarryIn(b, s, j) * Pow(b, j) == Val(b, s[..j])
  {
    if j > 0 {
      NormalisedValue(b, s, j - 1);
      var c := CarryIn(b, s, j - 1);
      var w := s[j - 1] + c;
      ValSnoc(b, NormalDigits(b, s, j - 1), Lo(b, w));
      ValPrefixNext(b, s, j - 1);
      HiLo(b, w);
      SplitColumn(b, Pow(b, j - 1), s[j - 1], c, Lo(b, w), Hi(b, w));
    }
  }

  lemma SplitColumn(b: nat, p: nat, x: nat, c: nat, d: nat, c': nat)
    requires x + c == b * c' + d
    ensures d * p + c' * (b * p) == x * p + c * p
  {
    Distribute(b * c', d, p);
    Distribute(x, c, p);
    MulAssoc(c', b, p);
  }

  /** A number below B^j leaves no carry, so its digits alone are the number. */
  lemma NoCarryOut(b: nat, s: seq<nat>)
    requires b > 0 && Val(b, s) < Pow(b, |s|)
    ensures Val(b, NormalDigits(b, s, |s|)) == Val(b, s)
  {
    NormalisedValue(b, s, |s|);
    assert s[..|s|] == s;
    NoneLeft(Val(b, NormalDigits(b, s, |s|)), CarryIn(b, s, |s|), Pow(b, |s|), Val(b, s));
  }

  /** t is s with mu * n added column by column, no column growing by more than p. */
  ghost predicate Added(s: seq<nat>, t: seq<nat>, n: seq<nat>, mu: nat, p: nat) {
    && |n| <= |s| == |t|
    && (forall j | 0 <= j < |n| :: t[j] == s[j] + mu * n[j])
    && (forall j | 0 <= j < |n| :: t[j] <= s[j] + p)
    && (forall j | |n| <= j < |s| :: t[j] == s[j])
  }

  /** The inner loop: columns ix.. each gain mu times a modulus digit, and none overflows. */
  method AddMultiple(cfg: Config, w: array<nat>, ix: nat, tmpn: array<nat>, k: nat, mu: nat, ghost m: nat)
    requires cfg.Ok() && w != tmpn && ix + k <= m <= w.Length && k <= tmpn.Length
    requires mu < cfg.Base() && AllBelow(cfg.Base(), tmpn[..k])
    requires forall j | 0 <= j < m - ix :: w[ix..m][j] + DigitSquare(cfg.Base()) < cfg.Word()
    modifies w
    ensures Added(old(w[ix..m]), w[ix..m], tmpn[..k], mu, DigitSquare(cfg.Base()))
  {
    ghost var s, n, p := w[ix..m], tmpn[..k], DigitSquare(cfg.Base());
    var iy := 0;
    while iy < k
      invariant 0 <= iy <= k && Added(s, w[ix..m], n[..iy], mu, p)
    {
      ProductBound(cfg.Base(), mu, n[iy]);
      assert w[ix..m][iy] == s[iy];
      SmallMod(s[iy] + mu * n[iy], cfg.Word());
      w[ix + iy] := WordAdd(cfg, w[ix + iy], mu * tmpn[iy]);
      iy := iy + 1;
    }
    assert n[..k] == n;
  }

  /** Loads the digits of x into the columns and zeroes the columns above them. */
  method LoadColumns(w: array<nat>, tmpx: array<nat>, used: nat, k: nat, ghost b: nat)
    requires w != tmpx && used <= tmpx.Length && used <= 2 * k + 1 <= w.Length
    requires b > 0 && AllBelow(b, tmpx[..used])
    modifies w
    ensures forall j | 0 <= j < 2 * k + 1 :: w[j] < b
    ensures Val(b, w[..2 * k + 1]) == Val(b, tmpx[..used])
  {
    ghost var s := tmpx[..used];
    var ix := 0;
    while ix < used
      invariant 0 <= ix <= used && forall j | 0 <= j < ix :: w[j] == s[j]
    {
      w[ix] := tmpx[ix];
      ix := ix + 1;
    }
    while ix < k * 2 + 1
      invariant used <= ix <= 2 * k + 1
      invariant forall j | 0 <= j < used :: w[j] == s[j]
      invariant forall j | used <= j < ix :: w[j] == 0
    {
      w[ix] := 0;
      ix := ix + 1;
    }
    assert w[..2 * k + 1][..used] == s;
    ValTopZeros(b, w[..2 * k + 1], used);
  }

  /** Columns from ix up stand for `a`, where a * b^ix = x + n * q; each is small enough to grow. */
  ghost predicate Reduced(cfg: Config, cols: seq<nat>, ix: nat, x: nat, n: nat, q: nat)
    requires cfg.Ok()
  {
    var b := cfg.Base();
    && Val(b, cols) * Pow(b, ix) == x + n * q
    && q < Pow(b, ix)
    && (cols != [] ==> cols[0] <= ColumnLimit(b, ix) + cfg.Columns() * b)
    && forall j | 1 <= j < |cols| :: cols[j] <= ColumnLimit(b, ix)
  }

  lemma RoundKeepsReduced(cfg: Config, s: seq<nat>, t: seq<nat>, n: seq<nat>, ix: nat, x: nat, q: nat, mu: nat)
    returns (q': nat)
    requires cfg.Ok() && n != [] && |n| < |s| && ix + 1 < cfg.Columns()
    requires Reduced(cfg, s, ix, x, Val(cfg.Base(), n), q) && mu < cfg.Base()
    requires Added(s, t, n, mu, DigitSquare(cfg.Base())) && t[0] % cfg.Base() == 0
    ensures t[1] + Hi(cfg.Base(), t[0]) < cfg.Word()
    ensures Reduced(cfg, t[1..][0 := t[1] + Hi(cfg.Base(), t[0])], ix + 1, x, Val(cfg.Base(), n), q')
  {
    var b := cfg.Base();
    AddScaled(b, s, t, n, mu);
    CarryUp(b, t);
    var after := t[1..][0 := t[1] + Hi(b, t[0])];
    q' := q + mu * Pow(b, ix);
    RoundAlgebra(b, Pow(b, ix), Val(b, s), Val(b, after), x, Val(b, n), q, mu);
    QuotientGrows(b, Pow(b, ix), q, mu);
    LimitStep(b, ix);
    ColumnsFit(cfg, ix + 1);
    CarryBound(cfg, t[0]);
    forall j | 1 <= j < |after| ensures after[j] <= ColumnLimit(b, ix + 1) {
      assert after[j] == t[j + 1];
    }
  }

  lemma LimitStep(b: nat, i: nat)
    requires b > 0
    ensures ColumnLimit(b, i + 1) == ColumnLimit(b, i) + DigitSquare(b)
    ensures ColumnLimit(b, i) <= ColumnLimit(b, i + 1)
  {
    Distribute(i, 1, DigitSquare(b));
    MulMono(0, b - 1, b - 1);
  }

  lemma CarryBound(cfg: Config, w: nat)
    requires cfg.Ok() && w < cfg.Word()
    ensures Hi(cfg.Base(), w) <= cfg.Columns() * cfg.Base()
  {
    cfg.Sizes();
    var b, c := cfg.Base(), Hi(cfg.Base(), w);
    MulAssoc(cfg.Columns(), b, b);
    if c > cfg.Columns() * b {
      MulMono(cfg.Columns() * b, c, b);
    }
  }

  /** The body of the outer loop: clear column ix and move its carry up. */
  method ReduceRound(cfg: Config, w: array<nat>, tmpn: array<nat>, k: nat, rho: nat, ix: nat, ghost x: nat, ghost q: nat)
    returns (ghost q': nat)
    requires cfg.Ok() && w != tmpn && ix < k < cfg.Columns() && k <= tmpn.Length && 2 * k + 1 <= w.Length
    requires AllBelow(cfg.Base(), tmpn[..k]) && (rho * tmpn[0] + 1) % cfg.Base() == 0
    requires Reduced(cfg, w[ix..2 * k + 1], ix, x, Val(cfg.Base(), tmpn[..k]), q)
    modifies w
    ensures Reduced(cfg, w[ix + 1..2 * k + 1], ix + 1, x, Val(cfg.Base(), tmpn[..k]), q')
  {
    ghost var b, n, m := cfg.Base(), tmpn[..k], 2 * k + 1;
    ghost var s := w[ix..m];
    RoomForOneMore(cfg, s, ix, x, Val(b, n), q);
    var mu := Lo(cfg.Base(), Lo(cfg.Base(), w[ix]) * rho);
    MuClearsColumn(b, s[0], rho, n[0]);
    AddMultiple(cfg, w, ix, tmpn, k, mu, m);
    ghost var t := w[ix..m];
    q' := RoundKeepsReduced(cfg, s, t, n, ix, x, q, mu);
    SmallMod(t[1] + Hi(b, t[0]), cfg.Word());
    w[ix + 1] := WordAdd(cfg, w[ix + 1], Hi(cfg.Base(), w[ix]));
    assert w[ix + 1..m] == t[1..][0 := t[1] + Hi(b, t[0])];
  }

  lemma RoomForOneMore(cfg: Config, s: seq<nat>, ix: nat, x: nat, n: nat, q: nat)
    requires cfg.Ok() && ix + 1 < cfg.Columns() && Reduced(cfg, s, ix, x, n, q)
    ensures forall j | 0 <= j < |s| :: s[j] + DigitSquare(cfg.Base()) < cfg.Word()
  {
    LimitStep(cfg.Base(), ix);
    ColumnsFit(cfg, ix + 1);
    MulMono(0, cfg.Columns(), cfg.Base());
  }

  /** The outer loop: k rounds, each clearing one more low column. */
  method ReduceRounds(cfg: Config, w: array<nat>, tmpn: array<nat>, k: nat, rho: nat, ghost x: nat) returns (ghost q: nat)
    requires cfg.Ok() && w != tmpn && 0 < k < cfg.Columns() && k <= tmpn.Length && 2 * k + 1 <= w.Length
    requires AllBelow(cfg.Base(), tmpn[..k]) && (rho * tmpn[0] + 1) % cfg.Base() == 0
    requires forall j | 0 <= j < 2 * k + 1 :: w[j] < cfg.Base()
    requires Val(cfg.Base(), w[..2 * k + 1]) == x
    modifies w
    ensures Reduced(cfg, w[k..2 * k + 1], k, x, Val(cfg.Base(), tmpn[..k]), q)
  {
    ghost var b, n, m := cfg.Base(), tmpn[..k], 2 * k + 1;
    q := 0;
    assert w[0..m] == w[..m];
    var ix := 0;
    while ix < k
      invariant 0 <= ix <= k
      invariant Reduced(cfg, w[ix..m], ix, x, Val(b, n), q)
    {
      q := ReduceRound(cfg, w, tmpn, k, rho, ix, x, q);
      ix := ix + 1;
    }
  }

  /** The carry loop above column k, including the write to column 2k+1 that was never set. */
  method PropagateCarries(cfg: Config, w: array<nat>, k: nat, ghost x: nat, ghost n: nat, ghost q: nat)
    requires cfg.Ok() && 2 * k + 2 <= w.Length && k < cfg.Columns()
    requires Reduced(cfg, w[k..2 * k + 1], k, x, n, q)
    modifies w
    ensures forall m | k <= m < 2 * k + 1 :: w[m] == ColumnTotal(cfg.Base(), old(w[k..2 * k + 1]), m - k)
  {
    ghost var b, s := cfg.Base(), w[k..2 * k + 1];
    ColumnsFit(cfg, k);
    MulMono(0, cfg.Columns(), b);
    assert forall j | 0 <= j < |s| :: s[j] <= ColumnLimit(b, k) + cfg.Columns() * b;
    var ix := k + 1;
    while ix <= k * 2 + 1
      invariant k + 1 <= ix <= 2 * k + 2
      invariant forall m | k <= m < ix && m <= 2 * k :: w[m] == ColumnTotal(b, s, m - k) && w[m] < cfg.Word()
      invariant forall j | ix <= j < 2 * k + 1 :: w[j] == s[j - k]
    {
      CarryBound(cfg, w[ix - 1]);
      if ix <= 2 * k {
        assert w[ix] == s[ix - k] <= ColumnLimit(b, k);
        SmallMod(w[ix] + Hi(cfg.Base(), w[ix - 1]), cfg.Word());
      }
      w[ix] := WordAdd(cfg, w[ix], Hi(cfg.Base(), w[ix - 1]));
      ix := ix + 1;
    }
  }

  lemma {:induction false} NormalDigitsAt(b: nat, s: seq<nat>, j: nat, i: nat)
    requires b > 0 && i < j <= |s|
    ensures NormalDigits(b, s, j)[i] == Lo(b, ColumnTotal(b, s, i))
  {
    if j > i + 1 { NormalDigitsAt(b, s, j - 1, i); }
  }

  /** The shifted sum is below 2n, so one conditional subtraction reaches the range [0, n). */
  lemma BelowTwiceModulus(a: nat, p: nat, x: nat, n: nat, q: nat)
    requires a * p == x + n * q && q < p && x < n * p
    ensures a < 2 * n
  {
    if a >= 2 * n {
      MulMono(2 * n, a, p);
      MulAssoc(2, n, p);
      MulMono(q, p, n);
    }
  }

  lemma CongruentAfter(a: nat, r: nat, p: nat, x: nat, n: nat, q: nat)
    requires n > 0 && a * p == x + n * q && (r == a || r == a - n)
    ensures (r * p) % n == x % n
  {
    var t := if r == a then q else q - p;
    Distribute(a, n, p);
    Distribute(q, p, n);
    assert r * p == x + n * t;
    DivModFacts(x, n);
    Distribute(x / n, t, n);
    DivModUnique(r * p, n, x / n + t, x % n);
  }

  lemma RoomForColumns(cfg: Config, k: nat)
    requires cfg.Ok() && k < cfg.Columns()
    ensures cfg.Base() > 1 && 2 * k + 2 <= cfg.WArray()
  {
    cfg.Sizes();
  }

  /** The column work on the digit arrays: load, k rounds, carries, copy back shifted by k digits. */
  method ReduceColumns(cfg: Config, tmpx: array<nat>, olduse: nat, tmpn: array<nat>, k: nat, rho: nat)
    returns (ghost q: nat)
    requires cfg.Ok() && tmpx != tmpn && olduse <= tmpx.Length && k + 1 <= tmpx.Length && k <= tmpn.Length
    requires 0 < k < cfg.Columns() && olduse <= 2 * k
    requires AllBelow(cfg.Base(), tmpx[..olduse]) && AllBelow(cfg.Base(), tmpn[..k])
    requires (rho * tmpn[0] + 1) % cfg.Base() == 0
    requires Val(cfg.Base(), tmpx[..olduse]) < Val(cfg.Base(), tmpn[..k]) * Pow(cfg.Base(), k)
    modifies tmpx
    ensures AllBelow(cfg.Base(), tmpx[..k + 1]) && q < Pow(cfg.Base(), k)
    ensures Val(cfg.Base(), tmpx[..k + 1]) < 2 * Val(cfg.Base(), tmpn[..k])
    ensures Val(cfg.Base(), tmpx[..k + 1]) * Pow(cfg.Base(), k)
            == old(Val(cfg.Base(), tmpx[..olduse])) + Val(cfg.Base(), tmpn[..k]) * q
  {
    ghost var b, value, modulus := cfg.Base(), Val(cfg.Base(), tmpx[..olduse]), tmpn[..k];
    RoomForColumns(cfg, k);
    var w := new nat[cfg.WArray()];
    LoadColumns(w, tmpx, olduse, k, b);
    q := ReduceRounds(cfg, w, tmpn, k, rho, value);
    ghost var s := w[k..2 * k + 1];
    SumBelowTwice(cfg, modulus, s, value, q);
    PropagateCarries(cfg, w, k, value, Val(b, modulus), q);
    StoreColumns(cfg, w, tmpx, k, olduse, s);
  }

  /** fast_mp_montgomery_reduce up to the clamp: the shifted sum, still below 2n. */
  method ShiftedSum(cfg: Config, x: MpInt, n: MpInt, rho: nat) returns (ghost q: nat)
    requires cfg.Ok() && x != n && Separate(x, n)
    requires x.Normal(cfg.Base()) && n.Normal(cfg.Base())
    requires 0 < n.used < cfg.Columns()
    requires (rho * n.dp[0] + 1) % cfg.Base() == 0
    requires x.Mag(cfg.Base()) < n.Mag(cfg.Base()) * Pow(cfg.Base(), n.used)
    modifies x, x.dp
    ensures x.Normal(cfg.Base()) && x.Mag(cfg.Base()) < 2 * n.Mag(cfg.Base())
    ensures x.Mag(cfg.Base()) * Pow(cfg.Base(), n.used) == old(x.Mag(cfg.Base())) + n.Mag(cfg.Base()) * q
    ensures q < Pow(cfg.Base(), n.used)
    ensures x.dp == old(x.dp) || fresh(x.dp)
  {
    RoomForColumns(cfg, n.used);
    ValBound(cfg.Base(), n.dp[..n.used]);
    InputFits(cfg.Base(), x.dp[..x.used], n.Mag(cfg.Base()), n.used);
    var olduse := x.used;
    Grow(x, n.used + 1);
    assert x.dp[..olduse] == old(x.dp[..x.used]);
    q := ReduceColumns(cfg, x.dp, olduse, n.dp, n.used, rho);
    x.used := n.used + 1;
    Clamp(x, cfg.Base());
  }

  /** fast_mp_montgomery_reduce: x becomes x * (b^k)^-1 mod n, where k is the digit count of n. */
  method FastMontgomeryReduce(cfg: Config, x: MpInt, n: MpInt, rho: nat)
    requires cfg.Ok() && x != n && Separate(x, n)
    requires x.Normal(cfg.Base()) && n.Normal(cfg.Base())
    requires 0 < n.used < cfg.Columns()
    requires (rho * n.dp[0] + 1) % cfg.Base() == 0
    requires x.Mag(cfg.Base()) < n.Mag(cfg.Base()) * Pow(cfg.Base(), n.used)
    modifies x, x.dp
    ensures x.Normal(cfg.Base()) && x.Mag(cfg.Base()) < n.Mag(cfg.Base())
    ensures (x.Mag(cfg.Base()) * Pow(cfg.Base(), n.used)) % n.Mag(cfg.Base()) == old(x.Mag(cfg.Base())) % n.Mag(cfg.Base())
  {
    ghost var b, modulus, value, p := cfg.Base(), n.Mag(cfg.Base()), x.Mag(cfg.Base()), Pow(cfg.Base(), n.used);
    ghost var q := ShiftedSum(cfg, x, n, rho);
    ghost var sum := x.Mag(b);
    CongruentAfter(sum, if sum < modulus then sum else sum - modulus, p, value, modulus, q);
    var order := CmpMag(x, n, b);
    if order != LT {
      UsedMonotone(b, n.dp[..n.used], x.dp[..x.used]);
      SMpSub(cfg, x, n, x);
    }
  }

  lemma SumBelowTwice(cfg: Config, n: seq<nat>, s: seq<nat>, x: nat, q: nat)
    requires cfg.Ok() && AllBelow(cfg.Base(), n) && |s| == |n| + 1
    requires Reduced(cfg, s, |n|, x, Val(cfg.Base(), n), q)
    requires x < Val(cfg.Base(), n) * Pow(cfg.Base(), |n|)
    ensures var sum := Val(cfg.Base(), NormalDigits(cfg.Base(), s, |s|));
            sum < 2 * Val(cfg.Base(), n) &&
            sum * Pow(cfg.Base(), |n|) == x + Val(cfg.Base(), n) * q && q < Pow(cfg.Base(), |n|)
  {
    var b := cfg.Base();
    cfg.Sizes();
    ValBound(b, n);
    BelowTwiceModulus(Val(b, s), Pow(b, |n|), x, Val(b, n), q);
    MulMono(2, b, Pow(b, |n|));
    NoCarryOut(b, s);
  }

  /** The copy-out loops: masked columns k.. become the digits of x, the rest are zeroed. */
  method StoreColumns(cfg: Config, w: array<nat>, tmpx: array<nat>, k: nat, olduse: nat, ghost s: seq<nat>)
    requires cfg.Ok() && w != tmpx && |s| == k + 1 <= tmpx.Length && 2 * k + 1 <= w.Length && olduse <= tmpx.Length
    requires forall m | k <= m < 2 * k + 1 :: w[m] == ColumnTotal(cfg.Base(), s, m - k)
    modifies tmpx
    ensures tmpx[..k + 1] == NormalDigits(cfg.Base(), s, k + 1)
  {
    var ix := 0;
    while ix < k + 1
      invariant 0 <= ix <= k + 1
      invariant forall j | 0 <= j < ix :: tmpx[j] == NormalDigits(cfg.Base(), s, k + 1)[j]
    {
      NormalDigitsAt(cfg.Base(), s, k + 1, ix);
      tmpx[ix] := Lo(cfg.Base(), w[k + ix]);
      ix := ix + 1;
    }
    while ix < olduse
      invariant k + 1 <= ix
      invariant forall j | 0 <= j < k + 1 :: tmpx[j] == NormalDigits(cfg.Base(), s, k + 1)[j]
    {
      tmpx[ix] := 0;
      ix := ix + 1;
    }
  }

  /** A normal-form input below n * b^k has at most 2k digits. */
  lemma InputFits(b: nat, s: seq<nat>, n: nat, k: nat)
    requires b > 1 && (s != [] ==> s[|s| - 1] > 0) && n < Pow(b, k) && Val(b, s) < n * Pow(b, k)
    ensures |s| <= 2 * k
  {
    if |s| > 2 * k {
      ValTopDigit(b, s);
      PowMono(b, 2 * k, |s| - 1);
      PowAdd(b, k, k);
      MulMono(n, Pow(b, k), Pow(b, k));
    }
  }

  /** In normal form a number at least as large has at least as many digits. */
  lemma UsedMonotone(b: nat, s: seq<nat>, t: seq<nat>)
    requires b > 0 && AllBelow(b, t) && (s != [] ==> s[|s| - 1] > 0) && Val(b, s) <= Val(b, t)
    ensures |s| <= |t|
  {
    if |t| < |s| { MoreDigitsLarger(b, t, s); }
  }
}
