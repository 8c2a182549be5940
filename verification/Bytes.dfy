/** Big-endian byte strings and the numbers they stand for. */
module Bytes {
  import opened Arith

  type Byte = x: nat | x < 256

  const SHA1_HASH_SIZE := 20

  /** mp_read_unsigned_bin: shift by a byte, add the next one. */
  function BeVal(s: seq<Byte>): nat {
    if s == [] then 0 else 256 * BeVal(s[..|s| - 1]) + s[|s| - 1]
  }

  /** mp_to_unsigned_bin: the bytes of x, most significant first, none for zero. */
  function ToBin(x: nat): seq<Byte> {
    if x == 0 then [] else ToBin(x / 256) + [x % 256]
  }

  /** STORE32H. */
  function Int32(x: nat): (r: seq<Byte>)
    requires x < 0x1_0000_0000
    ensures |r| == 4
  {
    [x / 0x100_0000, x / 0x1_0000 % 256, x / 0x100 % 256, x % 256]
  }

  function Zeros(n: nat): (r: seq<Byte>)
    ensures |r| == n && forall i | 0 <= i < n :: r[i] == 0
  {
    seq(n, _ => 0)
  }

  /** An SSH string: its length, then its bytes. */
  function SshString(s: seq<Byte>): seq<Byte>
    requires |s| < 0x1_0000_0000
  {
    Int32(|s|) + s
  }

  /** LOAD32H. */
  function Load32(a: nat, b: nat, c: nat, d: nat): nat {
    0x100_0000 * a + 0x1_0000 * b + 0x100 * c + d
  }

  lemma BeVal4(s: seq<Byte>)
    requires |s| == 4
    ensures BeVal(s) == Load32(s[0], s[1], s[2], s[3]) < 0x1_0000_0000
  {
    var a, b, c := s[..1], s[..2], s[..3];
    assert c[..2] == b && b[..1] == a && a[..0] == [];
    assert BeVal(a) == s[0];
    assert BeVal(b) == 256 * BeVal(a) + s[1];
    assert BeVal(c) == 256 * BeVal(b) + s[2];
  }

  lemma Int32RoundTrip(x: nat)
    requires x < 0x1_0000_0000
    ensures BeVal(Int32(x)) == x
  {
    BeVal4(Int32(x));
    Split32(x);
  }

  lemma Split32(x: nat)
    ensures Load32(x / 0x100_0000, x / 0x1_0000 % 256, x / 0x100 % 256, x % 256) == x
  {
    var y, z := x / 256, x / 256 / 256;
    assert x / 0x1_0000 == z && x / 0x100_0000 == z / 256;
    assert z == 256 * (z / 256) + z % 256 && y == 256 * z + y % 256;
  }

  lemma {:induction false} BinRoundTrip(x: nat)
    ensures BeVal(ToBin(x)) == x
  {
    if x > 0 {
      BinRoundTrip(x / 256);
      var s := ToBin(x);
      assert s[..|s| - 1] == ToBin(x / 256);
    }
  }

  lemma {:induction false} BeValConcat(s: seq<Byte>, t: seq<Byte>)
    ensures BeVal(s + t) == BeVal(s) * Pow(256, |t|) + BeVal(t)
  {
    if t == [] {
      assert s + t == s;
    } else {
      var t' := t[..|t| - 1];
      BeValConcat(s, t');
      assert (s + t)[..|s + t| - 1] == s + t';
      ConcatAlgebra(BeVal(s), Pow(256, |t'|));
    }
  }

  lemma ConcatAlgebra(v: nat, p: nat)
    ensures 256 * (v * p) == v * (256 * p)
  {
    MulAssoc(256, v, p);
    MulAssoc(v, 256, p);
  }

  lemma {:induction false} ZerosVal(n: nat)
    ensures BeVal(Zeros(n)) == 0
  {
    if n > 0 {
      ZerosVal(n - 1);
      assert Zeros(n)[..n - 1] == Zeros(n - 1);
    }
  }

  /** Leading zero bytes change nothing. */
  lemma PaddedVal(n: nat, s: seq<Byte>)
    ensures BeVal(Zeros(n) + s) == BeVal(s)
  {
    ZerosVal(n);
    BeValConcat(Zeros(n), s);
  }

  lemma {:induction false} BeValBound(s: seq<Byte>)
    ensures BeVal(s) < Pow(256, |s|)
  {
    if s != [] { BeValBound(s[..|s| - 1]); }
  }

  /** A string whose first byte is f stands for at least f * 256^(length - 1). */
  lemma BeValFirst(s: seq<Byte>)
    requires s != []
    ensures s[0] * Pow(256, |s| - 1) <= BeVal(s) < (s[0] + 1) * Pow(256, |s| - 1)
  {
    assert s == [s[0]] + s[1..];
    BeValConcat([s[0]], s[1..]);
    assert [s[0]][..0] == [];
    BeValBound(s[1..]);
    Distribute(s[0], 1, Pow(256, |s| - 1));
  }

  /** n bytes hold x exactly when x < 256^n. */
  lemma {:induction false} BinLength(x: nat, n: nat)
    ensures |ToBin(x)| <= n <==> x < Pow(256, n)
  {
    if x == 0 {
      PowPositive(256, n);
    } else if n > 0 {
      BinLength(x / 256, n - 1);
    }
  }

  lemma {:induction false} NoLeadingZero(x: nat)
    requires x > 0
    ensures ToBin(x) != [] && ToBin(x)[0] > 0
  {
    if x >= 256 { NoLeadingZero(x / 256); }
  }

  /** Equally long strings for the same number are equal. */
  lemma {:induction false} BeValInjective(s: seq<Byte>, t: seq<Byte>)
    requires |s| == |t| && BeVal(s) == BeVal(t)
    ensures s == t
  {
    if s != [] {
      var n := |s| - 1;
      BeValInjective(s[..n], t[..n]);
      assert s == s[..n] + [s[n]] && t == t[..n] + [t[n]];
    }
  }
}
