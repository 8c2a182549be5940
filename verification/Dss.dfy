/** DSS signing and verification: the modular algebra and the forty-byte layout. */
module Dss {
  import opened Prelude
  import opened Arith
  import opened Modular
  import opened InvMod
  import opened Bytes
  import opened Buffers

  datatype DssKey = DssKey(p: nat, q: nat, g: nat, y: nat, x: nat)

  ghost predicate Prime(q: int) {
    q > 1 && forall d | d > 0 && Divides(d, q) :: d == 1 || d == q
  }

  /** The parameters of FIPS 186-3, section 4.1: q a prime of at most 160 bits, g of order q, y = g^x. */
  ghost predicate GoodKey(key: DssKey) {
    && key.p > 1 && Prime(key.q) && IsOdd(key.q) && key.q < Pow(256, SHA1_HASH_SIZE)
    && Pow(key.g, key.q) % key.p == 1
    && key.y == Pow(key.g, key.x) % key.p
  }

  /** x padded with leading zeros to n bytes. */
  function Padded(x: nat, n: nat): (r: seq<Byte>)
    requires |ToBin(x)| <= n
    ensures |r| == n
  {
    Zeros(n - |ToBin(x)|) + ToBin(x)
  }

  lemma PaddedRoundTrip(x: nat, n: nat)
    requires |ToBin(x)| <= n
    ensures BeVal(Padded(x, n)) == x
  {
    PaddedVal(n - |ToBin(x)|, ToBin(x));
    BinRoundTrip(x);
  }

  /** The padding loop and mp_to_unsigned_bin, as both signers use them. */
  method PutPadded(buf: Buffer, x: nat, n: nat) returns (ok: bool)
    requires buf.Valid()
    modifies buf, buf.data
    ensures buf.Valid() && buf.data == old(buf.data)
    ensures ok == (|ToBin(x)| <= n && old(buf.pos) + n <= buf.data.Length)
    ensures ok ==> buf.pos == old(buf.pos) + n
    ensures ok ==> buf.Contents() == Overwrite(old(buf.Contents()), old(buf.pos), Padded(x, n))
  {
    ghost var c, p := buf.Contents(), buf.pos;
    var writelen := |ToBin(x)|;
    if writelen > n { return false; }
    ok := PutZeros(buf, n - writelen);
    if !ok { return; }
    OverwriteTwice(c, p, Zeros(n - writelen), ToBin(x));
    ok := buf.PutBytes(ToBin(x));
  }

  method PutZeros(buf: Buffer, n: nat) returns (ok: bool)
    requires buf.Valid()
    modifies buf, buf.data
    ensures buf.Valid() && buf.data == old(buf.data)
    ensures n > 0 ==> ok == (old(buf.pos) + n <= buf.data.Length)
    ensures n == 0 ==> ok
    ensures ok ==> buf.pos == old(buf.pos) + n && buf.Contents() == Overwrite(old(buf.Contents()), old(buf.pos), Zeros(n))
  {
    ghost var c, p := buf.Contents(), buf.pos;
    ok := true;
    var i := 0;
    NoZeros(c, p);
    while i < n
      invariant 0 <= i <= n && ok && buf.Valid() && buf.data == old(buf.data)
      invariant buf.pos == p + i && buf.Contents() == Overwrite(c, p, Zeros(i))
    {
      AnotherZero(c, p, i);
      ok := buf.PutByte(0);
      if !ok { return; }
      i := i + 1;
    }
  }

  lemma NoZeros(c: seq<Byte>, p: nat)
    requires p <= |c|
    ensures c == Overwrite(c, p, Zeros(0))
  {
  }

  lemma AnotherZero(c: seq<Byte>, p: nat, i: nat)
    requires p <= |c|
    ensures p + i <= |Overwrite(c, p, Zeros(i))|
    ensures Overwrite(Overwrite(c, p, Zeros(i)), p + i, [0]) == Overwrite(c, p, Zeros(i + 1))
  {
    OverwriteTwice(c, p, Zeros(i), [0]);
    assert Zeros(i) + [0] == Zeros(i + 1);
  }

  /** r and s are a signature with nonce k on a message whose hash stands for h. */
  ghost predicate Signs(key: DssKey, h: nat, k: nat, r: nat, s: nat)
    requires key.p > 0 && key.q > 0
  {
    r == ExptMod(key.g, k, key.p) % key.q && s < key.q && (s * k) % key.q == (h + key.x * r) % key.q
  }

  const SSH_DSS: seq<Byte> := [115, 115, 104, 45, 100, 115, 115]

  function SignatureBytes(r: nat, s: nat): seq<Byte>
    requires |ToBin(r)| <= SHA1_HASH_SIZE && |ToBin(s)| <= SHA1_HASH_SIZE
  {
    SshString(SSH_DSS) + (Int32(2 * SHA1_HASH_SIZE) + (Padded(r, SHA1_HASH_SIZE) + Padded(s, SHA1_HASH_SIZE)))
  }

  /** buf_put_dss_sign, with the hash of the data and the random nonce as inputs. */
  method BufPutDssSign(buf: Buffer, key: DssKey, msghash: seq<Byte>, k: nat)
    returns (ok: bool, ghost r: nat, ghost s: nat)
    requires buf.Valid() && key.p > 0 && IsOdd(key.q) && 0 < k < key.q
    modifies buf, buf.data
    ensures buf.Valid() && buf.data == old(buf.data)
    ensures Coprime(k, key.q) ==> Signs(key, BeVal(msghash), k, r, s)
    ensures ok == (Coprime(k, key.q) && |ToBin(r)| <= SHA1_HASH_SIZE && |ToBin(s)| <= SHA1_HASH_SIZE
                   && old(buf.pos) + |SSH_DSS| + 48 <= buf.data.Length)
    ensures ok ==> buf.Contents() == Overwrite(old(buf.Contents()), old(buf.pos), SignatureBytes(r, s))
  {
    var dssM := BeVal(msghash);
    var temp1 := ExptMod(key.g, k, key.p);
    var dssR := temp1 % key.q;
    r := dssR;
    s := 0;
    temp1 := MulMod(dssR, key.x, key.q);
    var temp2 := (dssM + temp1) % key.q;
    ModOfMod(dssM + temp1, key.q);
    SmallMod(k, key.q);
    var inverse := Inverse(k, key.q);
    InverseFound(k, key.q);
    if inverse == None { return false, r, s; }
    temp1 := inverse.value;
    var dssS := MulMod(temp1, temp2, key.q);
    s := dssS;
    SignatureEquation(key.q, k, temp1, dssM, key.x, dssR, temp2, dssS);
    ok := WriteSignature(buf, dssR, dssS);
  }

  lemma SignatureEquation(q: nat, k: nat, w: int, h: nat, x: nat, r: nat, t: nat, s: nat)
    requires q > 1 && (k * w) % q == 1 && t == (h + (r * x) % q) % q && s == (w * t) % q
    ensures (s * k) % q == (h + x * r) % q
  {
    ModOfMod(w * t, q);
    CongMul(s, k, w * t, k, q);
    assert (w * t) * k == (k * w) * t by { MulAssoc(k, w, t); }
    SmallMod(1, q);
    CongMul(k * w, t, 1, t, q);
    ModOfMod(h + (r * x) % q, q);
    ModOfMod(r * x, q);
    CongAdd(h, (r * x) % q, h, r * x, q);
    assert r * x == x * r;
  }

  method WriteSignature(buf: Buffer, r: nat, s: nat) returns (ok: bool)
    requires buf.Valid()
    modifies buf, buf.data
    ensures buf.Valid() && buf.data == old(buf.data)
    ensures ok == (|ToBin(r)| <= SHA1_HASH_SIZE && |ToBin(s)| <= SHA1_HASH_SIZE
                   && old(buf.pos) + |SSH_DSS| + 48 <= buf.data.Length)
    ensures ok ==> buf.Contents() == Overwrite(old(buf.Contents()), old(buf.pos), SignatureBytes(r, s))
  {
    ghost var c, p := buf.Contents(), buf.pos;
    ok := buf.PutString(SSH_DSS);
    if !ok { return; }
    ghost var head := SshString(SSH_DSS);
    ok := buf.PutInt(2 * SHA1_HASH_SIZE);
    if !ok { return; }
    OverwriteTwice(c, p, head, Int32(40));
    head := head + Int32(40);
    ok := PutPadded(buf, r, SHA1_HASH_SIZE);
    if !ok { return; }
    OverwriteTwice(c, p, head, Padded(r, 20));
    head := head + Padded(r, 20);
    ok := PutPadded(buf, s, SHA1_HASH_SIZE);
    if !ok { return; }
    OverwriteTwice(c, p, head, Padded(s, 20));
    assert head + Padded(s, 20) == SignatureBytes(r, s);
  }

  /** v of FIPS 186-3, section 4.7, for an inverse w of s. */
  function VerifyValue(key: DssKey, h: nat, r: nat, w: nat): nat
    requires key.p > 0 && key.q > 0
  {
    MulMod(ExptMod(key.g, MulMod(h, w, key.q), key.p), ExptMod(key.y, MulMod(r, w, key.q), key.p), key.p) % key.q
  }

  ghost predicate Accepts(key: DssKey, h: nat, r: nat, s: nat)
    requires key.p > 0 && key.q > 0
  {
    && s < key.q && r < key.q && Coprime(s, key.q)
    && forall w: nat | (s * w) % key.q == 1 % key.q :: VerifyValue(key, h, r, w) == r
  }

  datatype VerifyResult = Accept | Reject | Fatal

  /** The string buf_getstring takes from the unread bytes, or nothing where it exits. */
  function Blob(rest: seq<Byte>): Option<seq<Byte>> {
    if 4 <= |rest| && BeVal(rest[..4]) <= Min(MAX_STRING_LEN, |rest| - 4)
    then Some(rest[4..4 + BeVal(rest[..4])]) else None
  }

  /** What buf_dss_verify asks of its inverse: it is answered exactly when the s half is not zero. */
  lemma VerifyReturns(key: DssKey, blob: seq<Byte>)
    requires key.q > 1 && IsOdd(key.q) && |blob| == 40 && BeVal(blob[20..]) < key.q
    ensures Returns(key.q, BeVal(blob[20..])) <==> BeVal(blob[20..]) != 0
  {
    ReturnsExactly(key.q, BeVal(blob[20..]));
    SmallMod(BeVal(blob[20..]), key.q);
  }

  /** The algorithm does not return when the s half is zero, so that input is excluded: see VerifyReturns. */
  ghost predicate SNonzero(rest: seq<Byte>) {
    Blob(rest).Some? && |Blob(rest).value| == 40 ==> BeVal(Blob(rest).value[20..]) != 0
  }

  /** buf_dss_verify, with the hash of the data as an input. */
  method BufDssVerify(buf: Buffer, key: DssKey, msghash: seq<Byte>) returns (result: VerifyResult)
    requires buf.Valid() && key.p > 0 && key.q > 1 && IsOdd(key.q) && SNonzero(buf.Rest())
    modifies buf`pos
    ensures buf.Valid()
    ensures match Blob(old(buf.Rest()))
            case None => result == Fatal
            case Some(blob) =>
              result == if |blob| == 40 && Accepts(key, BeVal(msghash), BeVal(blob[..20]), BeVal(blob[20..]))
                        then Accept else Reject
    ensures GoodKey(key) ==>
              (result == Accept <==> Blob(old(buf.Rest())).Some? && Signed(key, BeVal(msghash), Blob(old(buf.Rest())).value))
  {
    if GoodKey(key) { AcceptsSigned(key, BeVal(msghash), buf.Rest()); }
    result := VerifyBlob(buf, key, msghash);
  }

  /** A blob holds a signature: some nonce gives its halves. */
  ghost predicate Signed(key: DssKey, h: nat, blob: seq<Byte>)
    requires key.p > 0 && key.q > 0
  {
    |blob| == 2 * SHA1_HASH_SIZE && exists k: nat :: Signs(key, h, k, BeVal(blob[..20]), BeVal(blob[20..]))
  }

  lemma AcceptsSigned(key: DssKey, h: nat, rest: seq<Byte>)
    requires GoodKey(key) && SNonzero(rest)
    ensures Blob(rest).Some? && |Blob(rest).value| == 40 ==>
              (Accepts(key, h, BeVal(Blob(rest).value[..20]), BeVal(Blob(rest).value[20..]))
               <==> Signed(key, h, Blob(rest).value))
  {
    if Blob(rest).Some? && |Blob(rest).value| == 40 {
      DssExactly(key, h, BeVal(Blob(rest).value[..20]), BeVal(Blob(rest).value[20..]));
    }
  }

  /** The verifier itself. */
  method VerifyBlob(buf: Buffer, key: DssKey, msghash: seq<Byte>) returns (result: VerifyResult)
    requires buf.Valid() && key.p > 0 && key.q > 1 && IsOdd(key.q) && SNonzero(buf.Rest())
    modifies buf`pos
    ensures buf.Valid()
    ensures match Blob(old(buf.Rest()))
            case None => result == Fatal
            case Some(blob) =>
              result == if |blob| == 40 && Accepts(key, BeVal(msghash), BeVal(blob[..20]), BeVal(blob[20..]))
                        then Accept else Reject
  {
    var ok, str := buf.GetString();
    if !ok { return Fatal; }
    if |str| != 2 * SHA1_HASH_SIZE { return Reject; }
    var val1 := BeVal(str[SHA1_HASH_SIZE..]);
    ghost var s, h := val1, BeVal(msghash);
    if val1 >= key.q { return Reject; }
    SmallMod(val1, key.q);
    var inverse := Inverse(val1, key.q);
    InverseFound(val1, key.q);
    if inverse == None { return Reject; }
    var val2 := inverse.value;
    ghost var w := val2;
    val1 := BeVal(msghash);
    var val3 := MulMod(val1, val2, key.q);
    val1 := BeVal(str[..SHA1_HASH_SIZE]);
    if val1 >= key.q { return Reject; }
    var val4 := MulMod(val1, val2, key.q);
    val2 := ExptMod(key.g, val3, key.p);
    val3 := ExptMod(key.y, val4, key.p);
    val4 := MulMod(val2, val3, key.p);
    val2 := val4 % key.q;
    OneInverse(key, h, val1, s, w);
    return if val2 == val1 then Accept else Reject;
  }

  /** Which inverse of s is used makes no difference. */
  lemma OneInverse(key: DssKey, h: nat, r: nat, s: nat, w: nat)
    requires key.p > 0 && key.q > 1 && (s * w) % key.q == 1
    ensures (forall w': nat | (s * w') % key.q == 1 % key.q :: VerifyValue(key, h, r, w') == r)
            <==> VerifyValue(key, h, r, w) == r
  {
    SmallMod(1, key.q);
    forall w': nat | (s * w') % key.q == 1 % key.q
      ensures VerifyValue(key, h, r, w') == VerifyValue(key, h, r, w)
    {
      InverseUnique(s, w, w', key.q);
      CongMul(h, w, h, w', key.q);
      CongMul(r, w, r, w', key.q);
    }
  }

  /** Below a prime every positive number is coprime to it. */
  lemma CoprimeToPrime(k: nat, q: nat)
    requires Prime(q) && 0 < k < q
    ensures Coprime(k, q)
  {
    forall d | d > 0 && Common(d, k, q) ensures d == 1 {
      if d == q { SmallMod(k, q); }
    }
  }

  /** Exponents that agree modulo the order of g give the same power. */
  lemma PowModOrder(g: nat, p: nat, q: nat, e: nat, f: nat, t: nat)
    requires p > 0 && Pow(g, q) % p == 1 % p && e == f + q * t
    ensures Pow(g, e) % p == Pow(g, f) % p
  {
    MulMono(0, q, t);
    PowAdd(g, f, q * t);
    PowMul(g, q, t);
    CongPow(Pow(g, q), 1, t, p);
    PowOne(t);
    CongMul(Pow(g, f), Pow(g, q * t), Pow(g, f), 1, p);
  }

  lemma PowCongOrder(g: nat, p: nat, q: nat, e: nat, f: nat)
    requires p > 0 && q > 0 && Pow(g, q) % p == 1 % p && e % q == f % q
    ensures Pow(g, e) % p == Pow(g, f) % p
  {
    var t := CongTo(e, f, q);
    if t >= 0 {
      PowModOrder(g, p, q, e, f, t);
    } else {
      NegateProduct(q, t);
      PowModOrder(g, p, q, f, e, -t);
    }
  }

  /** g^u1 * y^u2 is g to the power u1 + x * u2. */
  lemma CombinedPower(key: DssKey, u1: nat, u2: nat)
    requires key.p > 0 && key.y == Pow(key.g, key.x) % key.p
    ensures MulMod(ExptMod(key.g, u1, key.p), ExptMod(key.y, u2, key.p), key.p)
            == Pow(key.g, u1 + MulNat(key.x, u2)) % key.p
  {
    var gx := Pow(key.g, key.x);
    ModOfMod(gx, key.p);
    CongPow(key.y, gx, u2, key.p);
    PowMul(key.g, key.x, u2);
    PowAdd(key.g, u1, MulNat(key.x, u2));
    ModOfMod(Pow(key.g, u1), key.p);
    ModOfMod(Pow(key.y, u2), key.p);
    CongMul(Pow(key.g, u1) % key.p, Pow(key.y, u2) % key.p, Pow(key.g, u1), Pow(gx, u2), key.p);
  }

  /** u1 + x * u2 is the nonce k modulo q. */
  lemma ExponentIsNonce(q: nat, h: nat, x: nat, r: nat, s: nat, k: nat, w: nat)
    requires q > 1 && (s * w) % q == 1 && (s * k) % q == (h + x * r) % q
    ensures (MulMod(h, w, q) + MulNat(x, MulMod(r, w, q))) % q == k % q
  {
    var u1, u2 := MulMod(h, w, q), MulMod(r, w, q);
    ModOfMod(h * w, q);
    ModOfMod(r * w, q);
    CongMul(x, u2, x, r * w, q);
    CongAdd(u1, x * u2, h * w, x * (r * w), q);
    MulAssoc(x, r, w);
    Distribute(h, x * r, w);
    CongMul(h + x * r, w, s * k, w, q);
    assert (s * k) * w == (s * w) * k by { MulAssoc(s, k, w); MulAssoc(s, w, k); }
    SmallMod(1, q);
    CongMul(s * w, k, 1, k, q);
  }

  /** u1 + x * u2 is a nonce for the pair, whatever s is the inverse of. */
  lemma NonceFromExponent(q: nat, h: nat, x: nat, r: nat, s: nat, w: nat)
    requires q > 1 && (s * w) % q == 1
    ensures var k := (MulMod(h, w, q) + MulNat(x, MulMod(r, w, q))) % q; (s * k) % q == (h + x * r) % q
  {
    var u1, u2 := MulMod(h, w, q), MulMod(r, w, q);
    var u := u1 + MulNat(x, u2);
    ModOfMod(h * w, q);
    ModOfMod(r * w, q);
    CongMul(x, u2, x, r * w, q);
    CongAdd(u1, x * u2, h * w, x * (r * w), q);
    MulAssoc(x, r, w);
    Distribute(h, x * r, w);
    ModOfMod(u, q);
    CongMul(s, u % q, s, (h + x * r) * w, q);
    assert s * ((h + x * r) * w) == (s * w) * (h + x * r) by { MulAssoc(s, w, h + x * r); }
    SmallMod(1, q);
    CongMul(s * w, h + x * r, 1, h + x * r, q);
  }

  /** DSS soundness: a pair that verifies is the signature with some nonce below q. */
  lemma DssSound(key: DssKey, h: nat, r: nat, s: nat) returns (k: nat)
    requires GoodKey(key) && s != 0 && Accepts(key, h, r, s)
    ensures k < key.q && Signs(key, h, k, r, s)
  {
    CoprimeToPrime(s, key.q);
    SmallMod(s, key.q);
    SmallMod(1, key.q);
    SmallMod(1, key.p);
    InverseFound(s, key.q);
    var w := Inverse(s, key.q).value;
    var u1, u2 := MulMod(h, w, key.q), MulMod(r, w, key.q);
    var u := u1 + MulNat(key.x, u2);
    k := u % key.q;
    NonceFromExponent(key.q, h, key.x, r, s, w);
    CombinedPower(key, u1, u2);
    ModOfMod(u, key.q);
    PowCongOrder(key.g, key.p, key.q, u, k);
    assert VerifyValue(key, h, r, w) == r;
  }

  /** The verifier accepts exactly the signatures with s != 0, on all pairs of numbers. */
  lemma DssExactly(key: DssKey, h: nat, r: nat, s: nat)
    requires GoodKey(key) && s != 0
    ensures Accepts(key, h, r, s) <==> exists k: nat :: Signs(key, h, k, r, s)
  {
    if Accepts(key, h, r, s) { var k := DssSound(key, h, r, s); }
    if k: nat :| Signs(key, h, k, r, s) { DssComplete(key, h, k, r, s); }
  }

  /** DSS completeness: every signature with s != 0 verifies. */
  lemma DssComplete(key: DssKey, h: nat, k: nat, r: nat, s: nat)
    requires GoodKey(key) && Signs(key, h, k, r, s) && s != 0
    ensures Accepts(key, h, r, s)
  {
    CoprimeToPrime(s, key.q);
    ModOfMod(ExptMod(key.g, k, key.p), key.q);
    SmallMod(1, key.q);
    SmallMod(1, key.p);
    forall w: nat | (s * w) % key.q == 1 % key.q ensures VerifyValue(key, h, r, w) == r {
      var u1, u2 := MulMod(h, w, key.q), MulMod(r, w, key.q);
      ExponentIsNonce(key.q, h, key.x, r, s, k, w);
      CombinedPower(key, u1, u2);
      PowCongOrder(key.g, key.p, key.q, u1 + MulNat(key.x, u2), k);
    }
  }

  /** The forty bytes the signer writes parse back to a pair the verifier accepts, whatever follows. */
  lemma DssBytesAccepted(key: DssKey, h: nat, k: nat, r: nat, s: nat, tail: seq<Byte>)
    requires GoodKey(key) && Signs(key, h, k, r, s) && s != 0
    ensures |ToBin(r)| <= SHA1_HASH_SIZE && |ToBin(s)| <= SHA1_HASH_SIZE
    ensures var rest := SignatureBytes(r, s)[4 + |SSH_DSS|..] + tail;
            && Blob(rest) == Some(Padded(r, SHA1_HASH_SIZE) + Padded(s, SHA1_HASH_SIZE))
            && SNonzero(rest)
            && Accepts(key, h, BeVal(Blob(rest).value[..20]), BeVal(Blob(rest).value[20..]))
  {
    ModOfMod(ExptMod(key.g, k, key.p), key.q);
    BinLength(r, SHA1_HASH_SIZE);
    BinLength(s, SHA1_HASH_SIZE);
    var blob := Padded(r, SHA1_HASH_SIZE) + Padded(s, SHA1_HASH_SIZE);
    var rest := SignatureBytes(r, s)[4 + |SSH_DSS|..] + tail;
    assert rest == Int32(40) + blob + tail;
    Int32RoundTrip(40);
    assert rest[..4] == Int32(40) && rest[4..44] == blob;
    assert blob[..20] == Padded(r, 20) && blob[20..] == Padded(s, 20);
    PaddedRoundTrip(r, SHA1_HASH_SIZE);
    PaddedRoundTrip(s, SHA1_HASH_SIZE);
    DssComplete(key, h, k, r, s);
  }
}
