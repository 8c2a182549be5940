/** RSA signing with blinding, and verification. */
module Rsa {
  import opened Prelude
  import opened Arith
  import opened Modular
  import opened InvMod
  import opened Bytes
  import opened Buffers
  import opened Dss

  const RSA_ASN1_MAGIC_LEN := 16
  const RSA_ASN1_MAGIC: seq<Byte> :=
    [0x00, 0x30, 0x21, 0x30, 0x09, 0x06, 0x05, 0x2b, 0x0e, 0x03, 0x02, 0x1a, 0x05, 0x00, 0x04, 0x14]
  const SSH_RSA: seq<Byte> := [115, 115, 104, 45, 114, 115, 97]
  const MIN_RSA_KEYLEN := 512

  datatype RsaKey = RsaKey(n: nat, e: nat, d: nat)

  /** A usable key: odd modulus of the least accepted length, and d undoing e for every residue. */
  ghost predicate GoodKey(key: RsaKey) {
    && BitCount(key.n) >= MIN_RSA_KEYLEN && IsOdd(key.n)
    && forall z: nat :: Pow(z, MulNat(key.e, key.d)) % key.n == z % key.n
  }

  function Ones(n: nat): (r: seq<Byte>)
    ensures |r| == n
  {
    seq(n, _ => 0xff)
  }

  /** EM = 01 | FF* | 00 | prefix | hash, one byte shorter than the modulus. */
  function PaddedMessage(nsize: nat, msghash: seq<Byte>): (r: seq<Byte>)
    requires nsize >= RSA_ASN1_MAGIC_LEN + SHA1_HASH_SIZE + 2 && |msghash| == SHA1_HASH_SIZE
    ensures |r| == nsize - 1
  {
    [0x01] + Ones(nsize - 2 - RSA_ASN1_MAGIC_LEN - SHA1_HASH_SIZE) + RSA_ASN1_MAGIC + msghash
  }

  /** Section 9.2.1 of RFC 2437, byte by byte. */
  lemma PaddedByPosition(nsize: nat, msghash: seq<Byte>)
    requires nsize >= RSA_ASN1_MAGIC_LEN + SHA1_HASH_SIZE + 2 && |msghash| == SHA1_HASH_SIZE
    ensures var em := PaddedMessage(nsize, msghash);
            && em[0] == 1 && (forall i | 1 <= i < nsize - 37 :: em[i] == 0xff) && em[nsize - 37] == 0
            && em[nsize - 36..nsize - 21] == [0x30, 0x21, 0x30, 0x09, 0x06, 0x05, 0x2b, 0x0e, 0x03, 0x02, 0x1a, 0x05, 0x00, 0x04, 0x14]
            && em[nsize - 21..] == msghash
  {
  }

  /** Messages of different hashes are padded to different numbers. */
  lemma PaddedApart(nsize: nat, a: seq<Byte>, b: seq<Byte>)
    requires nsize >= RSA_ASN1_MAGIC_LEN + SHA1_HASH_SIZE + 2 && |a| == |b| == SHA1_HASH_SIZE
    ensures BeVal(PaddedMessage(nsize, a)) == BeVal(PaddedMessage(nsize, b)) <==> a == b
  {
    if BeVal(PaddedMessage(nsize, a)) == BeVal(PaddedMessage(nsize, b)) {
      BeValInjective(PaddedMessage(nsize, a), PaddedMessage(nsize, b));
      PaddedByPosition(nsize, a);
      PaddedByPosition(nsize, b);
    }
  }

  /** rsa_pad_em. */
  method RsaPadEm(key: RsaKey, msghash: seq<Byte>) returns (em: nat)
    requires BitCount(key.n) >= MIN_RSA_KEYLEN && |ToBin(key.n)| <= BUF_MAX_SIZE && |msghash| == SHA1_HASH_SIZE
    ensures |ToBin(key.n)| >= 64 && em == BeVal(PaddedMessage(|ToBin(key.n)|, msghash)) < key.n
  {
    BinSize(key.n);
    var buf := PadBuffer(|ToBin(key.n)|, msghash);
    var bytes;
    var ok := buf.SetPos(0);
    assert buf.Rest() == PaddedMessage(|ToBin(key.n)|, msghash);
    ok, bytes := buf.GetBytes(buf.data.Length);
    assert bytes == PaddedMessage(|ToBin(key.n)|, msghash);
    EmBelowModulus(key.n, bytes);
    em := BeVal(bytes);
  }

  /** The padded message, written out. */
  method PadBuffer(nsize: nat, msghash: seq<Byte>) returns (buf: Buffer)
    requires 64 <= nsize <= BUF_MAX_SIZE && |msghash| == SHA1_HASH_SIZE
    ensures fresh(buf) && fresh(buf.data) && buf.Valid() && buf.data.Length == buf.len == nsize - 1
    ensures buf.Contents() == PaddedMessage(nsize, msghash)
  {
    buf := new Buffer(nsize - 1);
    var ok := buf.PutByte(0x01);
    var fill := nsize - 1 - RSA_ASN1_MAGIC_LEN - SHA1_HASH_SIZE;
    while buf.pos != fill
      invariant buf.Valid() && fresh(buf) && fresh(buf.data) && buf.data.Length == nsize - 1
      invariant 1 <= buf.pos <= fill && buf.Contents() == [0x01] + Ones(buf.pos - 1)
      decreases fill - buf.pos
    {
      ok := buf.PutByte(0xff);
    }
    ok := buf.PutBytes(RSA_ASN1_MAGIC);
    ok := buf.PutBytes(msghash);
  }

  /** One byte shorter than the modulus is below the modulus. */
  lemma EmBelowModulus(n: nat, bytes: seq<Byte>)
    requires n > 0 && |bytes| == |ToBin(n)| - 1
    ensures BeVal(bytes) < n
  {
    BeValBound(bytes);
    BinLength(n, |bytes|);
  }

  function RsaBytes(key: RsaKey, s: nat): seq<Byte>
    requires |ToBin(s)| <= |ToBin(key.n)| < 0x1_0000_0000
  {
    SshString(SSH_RSA) + (Int32(|ToBin(key.n)|) + Padded(s, |ToBin(key.n)|))
  }

  /** buf_put_rsa_sign with RSA_BLINDING; r is the random blinding value. */
  method BufPutRsaSign(buf: Buffer, key: RsaKey, msghash: seq<Byte>, r: nat) returns (ok: bool, ghost s: nat)
    requires buf.Valid() && GoodKey(key) && |ToBin(key.n)| <= BUF_MAX_SIZE && |msghash| == SHA1_HASH_SIZE
    requires 0 < r < key.n
    modifies buf, buf.data
    ensures buf.Valid() && |ToBin(key.n)| >= 64
    ensures Coprime(r, key.n) ==> s == Pow(BeVal(PaddedMessage(|ToBin(key.n)|, msghash)), key.d) % key.n
    ensures |ToBin(s)| <= |ToBin(key.n)|
    ensures ok == (Coprime(r, key.n) && old(buf.pos) + |SSH_RSA| + 8 + |ToBin(key.n)| <= buf.data.Length)
    ensures ok ==> buf.Contents() == Overwrite(old(buf.Contents()), old(buf.pos), RsaBytes(key, s))
  {
    var tmp1 := RsaPadEm(key, msghash);
    ghost var em := tmp1;
    s := 0;
    var tmp2 := r;
    var rsaS := ExptMod(tmp2, key.e, key.n);
    SmallMod(r, key.n);
    var inverse := Inverse(tmp2, key.n);
    InverseFound(tmp2, key.n);
    if inverse == None { return false, 0; }
    var tmp3 := inverse.value;
    tmp2 := MulMod(tmp1, rsaS, key.n);
    tmp1 := ExptMod(tmp2, key.d, key.n);
    ModOfMod(Pow(tmp2, key.d), key.n);
    rsaS := MulMod(tmp1, tmp3, key.n);
    BlindingCancels(key, em, r, tmp3);
    s := rsaS;
    SignatureFits(s, key.n);
    ok := WriteRsa(buf, key, rsaS);
  }

  lemma SignatureFits(s: nat, n: nat)
    requires s < n
    ensures |ToBin(s)| <= |ToBin(n)|
  {
    BinLength(n, |ToBin(n)|);
    BinLength(s, |ToBin(n)|);
  }

  method WriteRsa(buf: Buffer, key: RsaKey, s: nat) returns (ok: bool)
    requires buf.Valid() && |ToBin(s)| <= |ToBin(key.n)| <= BUF_MAX_SIZE
    modifies buf, buf.data
    ensures buf.Valid() && buf.data == old(buf.data)
    ensures ok == (old(buf.pos) + |SSH_RSA| + 8 + |ToBin(key.n)| <= buf.data.Length)
    ensures ok ==> buf.Contents() == Overwrite(old(buf.Contents()), old(buf.pos), RsaBytes(key, s))
  {
    ghost var c, p := buf.Contents(), buf.pos;
    var nsize := |ToBin(key.n)|;
    ok := buf.PutString(SSH_RSA);
    if !ok { return; }
    ghost var head := SshString(SSH_RSA);
    ok := buf.PutInt(nsize);
    if !ok { return; }
    OverwriteTwice(c, p, head, Int32(nsize));
    head := head + Int32(nsize);
    ok := PutPadded(buf, s, nsize);
    if !ok { return; }
    OverwriteTwice(c, p, head, Padded(s, nsize));
    assert head + Padded(s, nsize) == RsaBytes(key, s);
  }

  /** The blinded computation equals em^d: the factor r^(e*d) is r again and its inverse removes it. */
  lemma BlindingCancels(key: RsaKey, em: nat, r: nat, w: nat)
    requires GoodKey(key) && key.n > 0 && (r * w) % key.n == 1
    ensures MulMod(ExptMod(MulMod(em, ExptMod(r, key.e, key.n), key.n), key.d, key.n), w, key.n)
            == Pow(em, key.d) % key.n
  {
    var n := key.n;
    var blinded := MulMod(em, ExptMod(r, key.e, n), n);
    BlindedPower(key, em, r);
    var p, q := Pow(blinded, key.d), Pow(em, key.d);
    ModOfMod(p, n);
    ModOfMod(p % n * w, n);
    Unblind(n, p, q, r, w);
  }

  lemma BlindedPower(key: RsaKey, em: nat, r: nat)
    requires GoodKey(key) && key.n > 0
    ensures Pow(MulMod(em, ExptMod(r, key.e, key.n), key.n), key.d) % key.n == (Pow(em, key.d) * r) % key.n
  {
    var n, d := key.n, key.d;
    var re := Pow(r, key.e);
    ModOfMod(re, n);
    CongMul(em, re % n, em, re, n);
    ModOfMod(em * (re % n), n);
    MulMono(0, em, re);
    CongPow(MulMod(em, re % n, n), em * re, d, n);
    PowOfProduct(em, re, d);
    PowMul(r, key.e, d);
    assert Pow(r, MulNat(key.e, d)) % n == r % n;
    CongMul(Pow(em, d), Pow(re, d), Pow(em, d), r, n);
  }

  lemma Unblind(n: nat, p: nat, q: nat, r: nat, w: nat)
    requires n > 0 && (r * w) % n == 1 && p % n == (q * r) % n
    ensures (p % n * w) % n == q % n
  {
    ModOfMod(p, n);
    CongMul(p % n, w, q * r, w, n);
    MulAssoc(q, r, w);
    ModOfMod(r * w, n);
    CongMul(q, r * w, q, 1, n);
  }

  /** buf_rsa_verify on the unread bytes: the length must be the modulus', the rest of the buffer is s. */
  ghost predicate Verifies(key: RsaKey, em: nat, rest: seq<Byte>)
    requires key.n > 0 && |rest| >= 4
  {
    && BeVal(rest[..4]) == |ToBin(key.n)|
    && BeVal(rest[4..]) < key.n
    && ExptMod(BeVal(rest[4..]), key.e, key.n) == em
  }

  method BufRsaVerify(buf: Buffer, key: RsaKey, msghash: seq<Byte>) returns (result: VerifyResult)
    requires buf.Valid() && BitCount(key.n) >= MIN_RSA_KEYLEN && |ToBin(key.n)| <= BUF_MAX_SIZE
    requires |msghash| == SHA1_HASH_SIZE
    modifies buf`pos
    ensures buf.Valid() && |ToBin(key.n)| >= 64
    ensures result == if |old(buf.Rest())| < 4 then Fatal
                      else if Verifies(key, BeVal(PaddedMessage(|ToBin(key.n)|, msghash)), old(buf.Rest()))
                      then Accept else Reject
    ensures GoodKey(key) ==> (result == Accept <==> IsSignature(key, msghash, old(buf.Rest())))
  {
    BinSize(key.n);
    if GoodKey(key) && |buf.Rest()| >= 4 { AcceptsSignature(key, msghash, buf.Rest()); }
    result := VerifyRest(buf, key, msghash);
  }

  /** The length of the modulus, and then the padded hash to the power of d. */
  ghost predicate IsSignature(key: RsaKey, msghash: seq<Byte>, rest: seq<Byte>)
    requires key.n > 0 && |ToBin(key.n)| >= 64 && |msghash| == SHA1_HASH_SIZE
  {
    && |rest| >= 4 && BeVal(rest[..4]) == |ToBin(key.n)|
    && BeVal(rest[4..]) == Pow(BeVal(PaddedMessage(|ToBin(key.n)|, msghash)), key.d) % key.n
  }

  lemma AcceptsSignature(key: RsaKey, msghash: seq<Byte>, rest: seq<Byte>)
    requires GoodKey(key) && key.n > 0 && |ToBin(key.n)| >= 64 && |msghash| == SHA1_HASH_SIZE && |rest| >= 4
    ensures Verifies(key, BeVal(PaddedMessage(|ToBin(key.n)|, msghash)), rest) <==> IsSignature(key, msghash, rest)
  {
    EmBelowModulus(key.n, PaddedMessage(|ToBin(key.n)|, msghash));
    VerifiesExactly(key, BeVal(PaddedMessage(|ToBin(key.n)|, msghash)), rest);
  }

  /** The verifier itself. */
  method VerifyRest(buf: Buffer, key: RsaKey, msghash: seq<Byte>) returns (result: VerifyResult)
    requires buf.Valid() && BitCount(key.n) >= MIN_RSA_KEYLEN && |ToBin(key.n)| <= BUF_MAX_SIZE
    requires |msghash| == SHA1_HASH_SIZE
    modifies buf`pos
    ensures buf.Valid() && |ToBin(key.n)| >= 64
    ensures result == if |old(buf.Rest())| < 4 then Fatal
                      else if Verifies(key, BeVal(PaddedMessage(|ToBin(key.n)|, msghash)), old(buf.Rest()))
                      then Accept else Reject
  {
    BinSize(key.n);
    var ok, slen := buf.GetInt();
    if !ok { return Fatal; }
    if slen != |ToBin(key.n)| { return Reject; }
    var bytes;
    ok, bytes := buf.GetBytes(buf.len - buf.pos);
    assert bytes == old(buf.Rest())[4..];
    var rsaS := BeVal(bytes);
    if rsaS >= key.n { return Reject; }
    var em := RsaPadEm(key, msghash);
    var mdash := ExptMod(rsaS, key.e, key.n);
    return if em == mdash then Accept else Reject;
  }

  /** The verifier accepts exactly the signature: e undoes d on one side and d undoes e on the other. */
  lemma VerifiesExactly(key: RsaKey, em: nat, rest: seq<Byte>)
    requires GoodKey(key) && em < key.n && |rest| >= 4
    ensures Verifies(key, em, rest)
            <==> BeVal(rest[..4]) == |ToBin(key.n)| && BeVal(rest[4..]) == Pow(em, key.d) % key.n
  {
    var n, s := key.n, BeVal(rest[4..]);
    if Verifies(key, em, rest) {
      ModOfMod(Pow(s, key.e), n);
      CongPow(em, Pow(s, key.e), key.d, n);
      PowMul(s, key.e, key.d);
      assert Pow(s, MulNat(key.e, key.d)) % n == s % n;
      SmallMod(s, n);
    }
    if s == Pow(em, key.d) % n {
      ModOfMod(Pow(em, key.d), n);
      CongPow(s, Pow(em, key.d), key.e, n);
      PowMul(em, key.d, key.e);
      assert key.d * key.e == MulNat(key.e, key.d);
      SmallMod(em, n);
    }
  }

  /** Bytes accepted for two hashes mean equal hashes. */
  lemma OneHash(key: RsaKey, a: seq<Byte>, b: seq<Byte>, rest: seq<Byte>)
    requires key.n > 0 && |ToBin(key.n)| >= 64 && |a| == |b| == SHA1_HASH_SIZE && |rest| >= 4
    requires Verifies(key, BeVal(PaddedMessage(|ToBin(key.n)|, a)), rest)
    requires Verifies(key, BeVal(PaddedMessage(|ToBin(key.n)|, b)), rest)
    ensures a == b
  {
    PaddedApart(|ToBin(key.n)|, a, b);
  }

  /** What the signer writes, at the end of a buffer, is what the verifier accepts. */
  lemma RsaBytesVerify(key: RsaKey, em: nat, s: nat)
    requires GoodKey(key) && |ToBin(key.n)| <= BUF_MAX_SIZE && em < key.n && s == Pow(em, key.d) % key.n
    ensures |ToBin(s)| <= |ToBin(key.n)|
    ensures Verifies(key, em, RsaBytes(key, s)[4 + |SSH_RSA|..])
  {
    var n, nsize := key.n, |ToBin(key.n)|;
    ModOfMod(Pow(em, key.d), n);
    SignatureFits(s, n);
    var rest := RsaBytes(key, s)[4 + |SSH_RSA|..];
    assert rest == Int32(nsize) + Padded(s, nsize);
    assert rest[..4] == Int32(nsize) && rest[4..] == Padded(s, nsize);
    Int32RoundTrip(nsize);
    PaddedRoundTrip(s, nsize);
    CongPow(s, Pow(em, key.d), key.e, n);
    PowMul(em, key.d, key.e);
    assert key.d * key.e == MulNat(key.e, key.d);
    SmallMod(em, n);
  }
}
