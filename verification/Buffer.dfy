/** Dropbear's buffer: a byte array with a used length and a position, and the mpint codec on it. */
module Buffers {
  import opened Prelude
  import opened Arith
  import opened Bytes
  import opened Digits
  import opened MpInts

  const BUF_MAX_INCR := 1_000_000_000
  const BUF_MAX_SIZE := 1_000_000_000
  const MAX_STRING_LEN := 1400

  /** 8240 bits. */
  const BUF_MAX_MPINT := 1030

  /** Bytes written at pos, over what was there. */
  function Overwrite(c: seq<Byte>, pos: nat, bytes: seq<Byte>): seq<Byte>
    requires pos <= |c|
  {
    c[..pos] + bytes + if pos + |bytes| <= |c| then c[pos + |bytes|..] else []
  }

  /** Two writes in a row are one write of both. */
  lemma OverwriteTwice(c: seq<Byte>, pos: nat, a: seq<Byte>, b: seq<Byte>)
    requires pos <= |c|
    ensures pos + |a| <= |Overwrite(c, pos, a)|
    ensures Overwrite(Overwrite(c, pos, a), pos + |a|, b) == Overwrite(c, pos, a + b)
  {}

  /** Methods return false where the source calls dropbear_exit, which never returns. */
  class Buffer {
    var data: array<Byte>
    var len: nat
    var pos: nat

    ghost predicate Valid()
      reads this
    {
      pos <= len <= data.Length <= BUF_MAX_SIZE
    }

    ghost function Contents(): seq<Byte>
      requires Valid()
      reads this, data
    {
      data[..len]
    }

    /** What has not been read yet. */
    ghost function Rest(): seq<Byte>
      requires Valid()
      reads this, data
    {
      data[pos..len]
    }

    constructor (size: nat)
      requires size <= BUF_MAX_SIZE
      ensures Valid() && fresh(data) && data.Length == size && Contents() == [] && pos == 0
    {
      data := new Byte[size](_ => 0);
      len := 0;
      pos := 0;
    }

    method SetLen(n: nat) returns (ok: bool)
      requires Valid() && n >= pos
      modifies this`len
      ensures Valid() && ok == (n <= data.Length)
      ensures len == if ok then n else old(len)
    {
      if n > data.Length { return false; }
      len := n;
      return true;
    }

    method IncrLen(incr: nat) returns (ok: bool)
      requires Valid()
      modifies this`len
      ensures Valid() && ok == (old(len) + incr <= data.Length)
      ensures len == if ok then old(len) + incr else old(len)
    {
      if incr > BUF_MAX_INCR || len + incr > data.Length { return false; }
      len := len + incr;
      return true;
    }

    method SetPos(n: nat) returns (ok: bool)
      requires Valid()
      modifies this`pos
      ensures Valid() && ok == (n <= len)
      ensures pos == if ok then n else old(pos)
    {
      if n > len { return false; }
      pos := n;
      return true;
    }

    method IncrPos(incr: int) returns (ok: bool)
      requires Valid()
      modifies this`pos
      ensures Valid() && ok == (0 <= old(pos) + incr <= len)
      ensures pos == if ok then old(pos) + incr else old(pos)
    {
      if incr > BUF_MAX_INCR || pos + incr > len || pos + incr < 0 { return false; }
      pos := pos + incr;
      return true;
    }

    method IncrWritePos(incr: nat) returns (ok: bool)
      requires Valid()
      modifies this`pos, this`len
      ensures Valid() && ok == (old(pos) + incr <= data.Length)
      ensures ok ==> pos == old(pos) + incr && len == Max(old(len), pos)
      ensures !ok ==> pos == old(pos) && len == old(len)
    {
      if incr > BUF_MAX_INCR || pos + incr > data.Length { return false; }
      pos := pos + incr;
      if pos > len { len := pos; }
      return true;
    }

    method GetByte() returns (ok: bool, b: Byte)
      requires Valid()
      modifies this`pos
      ensures Valid() && ok == (old(Rest()) != [])
      ensures ok ==> b == old(Rest())[0] && Rest() == old(Rest())[1..]
      ensures pos == old(pos) + if ok then 1 else 0
    {
      if pos >= len { return false, 0; }
      b := data[pos];
      pos := pos + 1;
      return true, b;
    }

    method PutByte(val: Byte) returns (ok: bool)
      requires Valid()
      modifies this, data
      ensures Valid() && data == old(data) && ok == (old(pos) < data.Length)
      ensures ok ==> pos == old(pos) + 1 && Contents() == Overwrite(old(Contents()), old(pos), [val])
    {
      if pos >= len {
        var grown := IncrLen(1);
        if !grown { return false; }
      }
      data[pos] := val;
      pos := pos + 1;
      return true;
    }

    /** buf_getwriteptr, memcpy, buf_incrwritepos. */
    method PutBytes(bytes: seq<Byte>) returns (ok: bool)
      requires Valid()
      modifies this, data
      ensures Valid() && data == old(data) && ok == (old(pos) + |bytes| <= data.Length)
      ensures ok ==> pos == old(pos) + |bytes| && Contents() == Overwrite(old(Contents()), old(pos), bytes)
    {
      if pos + |bytes| > data.Length { return false; }
      var i := 0;
      while i < |bytes|
        invariant 0 <= i <= |bytes|
        invariant forall j | 0 <= j < data.Length :: data[j] == if pos <= j < pos + i then bytes[j - pos] else old(data[j])
        modifies data
      {
        data[pos + i] := bytes[i];
        i := i + 1;
      }
      ok := IncrWritePos(|bytes|);
    }

    method PutInt(val: nat) returns (ok: bool)
      requires Valid() && val < 0x1_0000_0000
      modifies this, data
      ensures Valid() && data == old(data) && ok == (old(pos) + 4 <= data.Length)
      ensures ok ==> pos == old(pos) + 4 && Contents() == Overwrite(old(Contents()), old(pos), Int32(val))
    {
      ok := PutBytes(Int32(val));
    }

    method PutString(str: seq<Byte>) returns (ok: bool)
      requires Valid() && |str| < 0x1_0000_0000
      modifies this, data
      ensures Valid() && data == old(data) && ok == (old(pos) + 4 + |str| <= data.Length)
      ensures ok ==> pos == old(pos) + 4 + |str|
      ensures ok ==> Contents() == Overwrite(old(Contents()), old(pos), SshString(str))
    {
      ghost var c, p := Contents(), pos;
      ok := PutInt(|str|);
      if ok {
        OverwriteTwice(c, p, Int32(|str|), str);
        ok := PutBytes(str);
      }
    }

    /** buf_getptr and a copy, then buf_incrpos. */
    method GetBytes(n: nat) returns (ok: bool, bytes: seq<Byte>)
      requires Valid() && n <= BUF_MAX_INCR
      modifies this`pos
      ensures Valid() && ok == (n <= |old(Rest())|)
      ensures ok ==> bytes == old(Rest())[..n] && Rest() == old(Rest())[n..]
      ensures pos == old(pos) + if ok then n else 0
    {
      if pos + n > len { return false, []; }
      bytes := data[pos..pos + n];
      ok := IncrPos(n);
    }

    method GetInt() returns (ok: bool, val: nat)
      requires Valid()
      modifies this`pos
      ensures Valid() && ok == (4 <= |old(Rest())|)
      ensures ok ==> val == BeVal(old(Rest())[..4]) < 0x1_0000_0000 && Rest() == old(Rest())[4..]
      ensures pos == old(pos) + if ok then 4 else 0
    {
      var bytes;
      ok, bytes := GetBytes(4);
      if !ok { return false, 0; }
      BeVal4(bytes);
      val := Load32(bytes[0], bytes[1], bytes[2], bytes[3]);
    }

    method GetString() returns (ok: bool, str: seq<Byte>)
      requires Valid()
      modifies this`pos
      ensures Valid()
      ensures ok == (4 <= |old(Rest())| && BeVal(old(Rest())[..4]) <= Min(MAX_STRING_LEN, |old(Rest())| - 4))
      ensures ok ==> str == old(Rest())[4..4 + BeVal(old(Rest())[..4])]
      ensures ok ==> Rest() == old(Rest())[4 + |str|..] && pos == old(pos) + 4 + |str|
    {
      var n;
      ok, n := GetInt();
      if !ok || n > MAX_STRING_LEN { return false, []; }
      ok, str := GetBytes(n);
    }

    /** buf_putmpint. */
    method PutMpint(cfg: Config, mp: MpInt) returns (ok: bool)
      requires Valid() && cfg.Ok() && mp.Normal(cfg.Base()) && mp.dp as object != data
      requires mp.sign == ZPos ==> BitCount(mp.Mag(cfg.Base())) < 0x1_0000_0000
      modifies this, data
      ensures Valid() && data == old(data)
      ensures ok == (mp.sign == ZPos && old(pos) + |Mpint(old(mp.Mag(cfg.Base())))| <= data.Length)
      ensures ok ==> Contents() == Overwrite(old(Contents()), old(pos), Mpint(old(mp.Mag(cfg.Base()))))
      ensures ok ==> pos == old(pos) + |Mpint(old(mp.Mag(cfg.Base())))|
    {
      if mp.sign == Neg { return false; }
      var x := mp.Mag(cfg.Base());
      var n, pad := 0, 0;
      if !(mp.used == 1 && mp.dp[0] == 0) {
        n := CountBits(cfg, mp);
        BitCountIs(x, n);
        pad := if n % 8 == 0 then 1 else 0;
        n := n / 8 + 1;
      }
      ok := PutLengthAndBody(x, n, pad);
    }

    /** The writing half of buf_putmpint: the length, the pad byte, the number. */
    method PutLengthAndBody(x: nat, n: nat, pad: nat) returns (ok: bool)
      requires Valid() && BitCount(x) < 0x1_0000_0000
      requires n == BitCount(x) / 8 + 1 && pad == |SignPad(x)|
      modifies this, data
      ensures Valid() && data == old(data) && ok == (old(pos) + |Mpint(x)| <= data.Length)
      ensures ok ==> Contents() == Overwrite(old(Contents()), old(pos), Mpint(x)) && pos == old(pos) + |Mpint(x)|
    {
      ghost var c, p := Contents(), pos;
      ghost var head := Int32(n) + SignPad(x);
      WireShape(x, n, head);
      ok := PutInt(n);
      if !ok { return; }
      if n > 0 {
        if pad == 1 {
          OverwriteTwice(c, p, Int32(n), [0]);
          ok := PutByte(0);
          if !ok { return; }
        } else {
          assert head == Int32(n);
        }
        assert Contents() == Overwrite(c, p, head);
        OverwriteTwice(c, p, head, ToBin(x));
        ok := PutBytes(ToBin(x));
      }
    }

    /** buf_getmpint; `status` tells success, DROPBEAR_FAILURE and dropbear_exit apart. */
    method GetMpint() returns (status: MpintRead)
      requires Valid()
      modifies this`pos
      ensures Valid() && status == ReadMpint(old(Rest()))
      ensures status.Got? ==> Rest() == old(Rest())[status.used..]
    {
      var ok, n := GetInt();
      if !ok { return Exit; }
      if n == 0 { return Got(0, 4); }
      if n > BUF_MAX_MPINT { return Failure; }
      if pos + 1 > len { return Exit; }
      if data[pos] >= 128 { return Failure; }
      assert data[pos] == old(Rest())[4];
      var bytes;
      ok, bytes := GetBytes(n);
      if !ok { return Exit; }
      assert bytes == old(Rest())[4..4 + n];
      return Got(BeVal(bytes), 4 + n);
    }
  }

  datatype MpintRead = Got(value: nat, used: nat) | Failure | Exit

  /** What buf_getmpint makes of the unread bytes. */
  function ReadMpint(rest: seq<Byte>): MpintRead {
    if |rest| < 4 then Exit
    else
      var n := BeVal(rest[..4]);
      if n == 0 then Got(0, 4)
      else if n > BUF_MAX_MPINT then Failure
      else if |rest| < 5 then Exit
      else if rest[4] >= 128 then Failure
      else if |rest| < 4 + n then Exit
      else Got(BeVal(rest[4..4 + n]), 4 + n)
  }

  /** How many bits x takes; none for zero. */
  function BitCount(x: nat): nat {
    if x == 0 then 0 else 1 + BitCount(x / 2)
  }

  /** The bytes of an mpint: a zero byte when the bit count fills whole bytes, then the number. */
  function MpintBody(x: nat): seq<Byte> {
    SignPad(x) + ToBin(x)
  }

  function SignPad(x: nat): seq<Byte> {
    if BitCount(x) % 8 == 0 then [0] else []
  }

  /** The wire form buf_putmpint writes. */
  function Mpint(x: nat): seq<Byte>
    requires BitCount(x) < 0x1_0000_0000
  {
    BodyLength(x);
    SshString(MpintBody(x))
  }

  lemma {:induction false} BitCountBounds(x: nat)
    requires x > 0
    ensures BitLength(x, BitCount(x))
  {
    if x > 1 { BitCountBounds(x / 2); }
  }

  lemma BitCountIs(x: nat, n: nat)
    requires if x == 0 then n == 0 else BitLength(x, n)
    ensures n == BitCount(x)
  {
    if x > 0 {
      BitCountBounds(x);
      if n < BitCount(x) { BitsApart(x, n, BitCount(x)); }
      if BitCount(x) < n { BitsApart(x, BitCount(x), n); }
    }
  }

  /** No number has two bit lengths. */
  lemma BitsApart(x: nat, m: nat, n: nat)
    requires m < n && BitLength(x, m)
    ensures !BitLength(x, n)
  {
    PowMono(2, m, n - 1);
  }

  lemma {:induction false} BitCountShift(x: nat, e: nat)
    ensures BitCount(x) <= e <==> x < Pow(2, e)
  {
    if x > 0 {
      BitCountBounds(x);
      if BitCount(x) <= e { PowMono(2, BitCount(x), e); } else { PowMono(2, e, BitCount(x) - 1); }
    } else {
      PowPositive(2, e);
    }
  }

  lemma {:induction false} Pow256(n: nat)
    ensures Pow(256, n) == Pow(2, 8 * n)
  {
    if n > 0 {
      Pow256(n - 1);
      PowAdd(2, 8, 8 * (n - 1));
      assert Pow(2, 8) == 256 by { assert Pow(2, 4) == 16; PowAdd(2, 4, 4); }
    }
  }

  /** n bytes hold x exactly when 8n bits do. */
  lemma ByteCount(x: nat, n: nat)
    ensures |ToBin(x)| <= n <==> BitCount(x) <= 8 * n
  {
    BinLength(x, n);
    Pow256(n);
    BitCountShift(x, 8 * n);
  }

  /** mp_unsigned_bin_size: whole bytes of the bit count, rounded up. */
  lemma BinSize(x: nat)
    ensures |ToBin(x)| == BitCount(x) / 8 + if BitCount(x) % 8 != 0 then 1 else 0
  {
    var n := |ToBin(x)|;
    ByteCount(x, n);
    if n > 0 { ByteCount(x, n - 1); }
  }

  /** The length buf_putmpint announces is the length it writes. */
  lemma BodyLength(x: nat)
    ensures |MpintBody(x)| == BitCount(x) / 8 + 1
  {
    BinSize(x);
  }

  lemma WireShape(x: nat, n: nat, head: seq<Byte>)
    requires BitCount(x) < 0x1_0000_0000 && n == BitCount(x) / 8 + 1
    requires head == Int32(n) + SignPad(x)
    ensures Mpint(x) == head + ToBin(x) && |head + ToBin(x)| == 4 + n
  {
    BodyLength(x);
    Assoc(Int32(n), SignPad(x), ToBin(x));
  }

  /** The sign bit of an encoded number is clear. */
  lemma SignClear(x: nat)
    ensures MpintBody(x) != [] && MpintBody(x)[0] < 128
  {
    BodyLength(x);
    if BitCount(x) % 8 != 0 {
      var s := ToBin(x);
      NoLeadingZero(x);
      BinRoundTrip(x);
      BeValFirst(s);
      BinSize(x);
      TopBitClear(x, BitCount(x), s[0], |s| - 1);
    }
  }

  lemma TopBitClear(x: nat, bits: nat, first: nat, rest: nat)
    requires bits % 8 != 0 && rest == bits / 8 && bits == BitCount(x)
    requires first * Pow(256, rest) <= x
    ensures first < 128
  {
    BitCountShift(x, bits);
    Pow256(rest);
    PowMono(2, bits, 7 + 8 * rest);
    PowAdd(2, 7, 8 * rest);
    assert Pow(2, 7) == 128 by { assert Pow(2, 3) == 8; assert Pow(2, 4) == 16; PowAdd(2, 3, 4); }
    if first >= 128 { MulMono(128, first, Pow(256, rest)); }
  }

  /** Reading undoes writing, and consumes exactly the bytes written, whatever follows them. */
  lemma MpintRoundTrip(x: nat, tail: seq<Byte>)
    requires |MpintBody(x)| <= BUF_MAX_MPINT
    ensures BitCount(x) < 0x1_0000_0000 && ReadMpint(Mpint(x) + tail) == Got(x, |Mpint(x)|)
  {
    BodyLength(x);
    SignClear(x);
    BodyVal(x);
    StringRoundTrip(MpintBody(x), tail);
  }

  /** A short string whose first byte has the top bit clear reads back as the number it stands for. */
  lemma StringRoundTrip(body: seq<Byte>, tail: seq<Byte>)
    requires 0 < |body| <= BUF_MAX_MPINT && body[0] < 128
    ensures ReadMpint(SshString(body) + tail) == Got(BeVal(body), |SshString(body)|)
  {
    var wire := SshString(body) + tail;
    Int32RoundTrip(|body|);
    assert wire[..4] == Int32(|body|);
    assert wire[4..4 + |body|] == body && wire[4] == body[0];
  }

  lemma BodyVal(x: nat)
    ensures BeVal(MpintBody(x)) == x
  {
    BinRoundTrip(x);
    if BitCount(x) % 8 == 0 {
      assert MpintBody(x) == Zeros(1) + ToBin(x);
      PaddedVal(1, ToBin(x));
    } else {
      assert MpintBody(x) == ToBin(x);
    }
  }

  /** A string with a clear sign bit. */
  lemma SmallLead(s: seq<Byte>)
    requires s != [] && s[0] < 128
    ensures BeVal(s) < Pow(2, 7 + 8 * (|s| - 1))
  {
    var n := |s| - 1;
    BeValFirst(s);
    MulMono(s[0] + 1, 128, Pow(256, n));
    Pow256(n);
    PowAdd(2, 7, 8 * n);
    assert Pow(2, 7) == 128 by { assert Pow(2, 3) == 8; assert Pow(2, 4) == 16; PowAdd(2, 3, 4); }
  }

  /** No other non-negative two's-complement string for a positive x is as short. */
  lemma MpintMinimal(x: nat, s: seq<Byte>)
    requires x > 0 && s != [] && s[0] < 128 && BeVal(s) == x
    ensures |MpintBody(x)| <= |s| && (|s| == |MpintBody(x)| ==> s == MpintBody(x))
  {
    SmallLead(s);
    BitCountShift(x, 7 + 8 * (|s| - 1));
    BodyLength(x);
    if |s| == |MpintBody(x)| {
      BodyVal(x);
      BeValInjective(s, MpintBody(x));
    }
  }

  /** Zero in normal form has no digits, so it is written as one zero byte, not as an empty string. */
  lemma ZeroTakesOneByte()
    ensures MpintBody(0) == [0] && Mpint(0) == [0, 0, 0, 1, 0]
  {}
}
