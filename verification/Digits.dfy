/** Little-endian digit sequences and the number each stands for. */
module Digits {
  import opened Arith

  /** The number a sequence of columns stands for; a column may exceed the base. */
  function Val(b: nat, s: seq<nat>): nat {
    if s == [] then 0 else s[0] + b * Val(b, s[1..])
  }

  /** A word shifted right by one digit. */
  function Hi(b: nat, w: nat): nat
    requires b > 0
  {
    w / b
  }

  /** A word masked to one digit. */
  function Lo(b: nat, w: nat): (r: nat)
    requires b > 0
    ensures r < b
  {
    w % b
  }

  /** The largest product of two digits. */
  function DigitSquare(b: nat): nat
    requires b > 0
  {
    MulMono(0, b - 1, b - 1);
    (b - 1) * (b - 1)
  }

  lemma HiLo(b: nat, w: nat)
    requires b > 0
    ensures w == b * Hi(b, w) + Lo(b, w)
  {}

  ghost predicate AllBelow(b: nat, s: seq<nat>) {
    forall i | 0 <= i < |s| :: s[i] < b
  }

  lemma {:induction false} ValConcat(b: nat, s: seq<nat>, t: seq<nat>)
    ensures Val(b, s + t) == Val(b, s) + Pow(b, |s|) * Val(b, t)
  {
    if s == [] {
      assert s + t == t;
    } else {
      ValConcat(b, s[1..], t);
      assert (s + t)[1..] == s[1..] + t;
      Distribute(Val(b, s[1..]), Pow(b, |s| - 1) * Val(b, t), b);
      MulAssoc(b, Pow(b, |s| - 1), Val(b, t));
    }
  }

  lemma ValOne(b: nat, x: nat)
    ensures Val(b, [x]) == x
  {
    assert [x][1..] == [];
  }

  lemma ValSnoc(b: nat, s: seq<nat>, x: nat)
    ensures Val(b, s + [x]) == Val(b, s) + x * Pow(b, |s|)
  {
    ValConcat(b, s, [x]);
    ValOne(b, x);
  }

  lemma ValPrefixNext(b: nat, s: seq<nat>, i: nat)
    requires i < |s|
    ensures Val(b, s[..i + 1]) == Val(b, s[..i]) + s[i] * Pow(b, i)
  {
    assert s[..i + 1] == s[..i] + [s[i]];
    ValSnoc(b, s[..i], s[i]);
  }

  lemma {:induction false} ValUpdate(b: nat, s: seq<nat>, i: nat, x: nat)
    requires i < |s|
    ensures Val(b, s[i := x]) == Val(b, s) + (x - s[i]) * Pow(b, i)
  {
    if i == 0 {
      assert s[0 := x][1..] == s[1..];
    } else {
      ValUpdate(b, s[1..], i - 1, x);
      assert s[i := x][1..] == s[1..][i - 1 := x];
      Distribute(Val(b, s[1..]), (x - s[i]) * Pow(b, i - 1), b);
      MulAssoc(x - s[i], b, Pow(b, i - 1));
      MulAssoc(b, x - s[i], Pow(b, i - 1));
    }
  }

  lemma {:induction false} ValBound(b: nat, s: seq<nat>)
    requires b > 0 && AllBelow(b, s)
    ensures Val(b, s) < Pow(b, |s|)
  {
    if s != [] {
      assert forall i | 0 <= i < |s[1..]| :: s[1..][i] == s[i + 1];
      ValBound(b, s[1..]);
      MulMono(Val(b, s[1..]) + 1, Pow(b, |s| - 1), b);
      Distribute(Val(b, s[1..]), 1, b);
    }
  }

  /** Zeros on top add nothing. */
  lemma {:induction false} ValTopZeros(b: nat, s: seq<nat>, k: nat)
    requires k <= |s| && forall i | k <= i < |s| :: s[i] == 0
    ensures Val(b, s) == Val(b, s[..k])
    decreases |s| - k
  {
    if k == |s| {
      assert s[..k] == s;
    } else {
      ValTopZeros(b, s, k + 1);
      ValPrefixNext(b, s, k);
    }
  }

  /** A nonzero top digit makes the number at least B^(length-1). */
  lemma ValTopDigit(b: nat, s: seq<nat>)
    requires s != [] && s[|s| - 1] > 0
    ensures Val(b, s) >= Pow(b, |s| - 1)
  {
    var k := |s| - 1;
    assert s[..k + 1] == s;
    ValPrefixNext(b, s, k);
    MulMono(1, s[k], Pow(b, k));
  }

  /** Splitting off the lowest digit is division by the base. */
  lemma ValDivMod(b: nat, s: seq<nat>)
    requires b > 0 && s != [] && s[0] < b
    ensures Val(b, s) / b == Val(b, s[1..]) && Val(b, s) % b == s[0]
  {
    DivModUnique(Val(b, s), b, Val(b, s[1..]), s[0]);
  }

  /** Equal-length digit strings for the same number are equal. */
  lemma {:induction false} ValInjective(b: nat, s: seq<nat>, t: seq<nat>)
    requires b > 0 && |s| == |t| && AllBelow(b, s) && AllBelow(b, t)
    requires Val(b, s) == Val(b, t)
    ensures s == t
  {
    if s != [] {
      ValDivMod(b, s);
      ValDivMod(b, t);
      ValInjective(b, s[1..], t[1..]);
      assert s == [s[0]] + s[1..] && t == [t[0]] + t[1..];
    }
  }
}
