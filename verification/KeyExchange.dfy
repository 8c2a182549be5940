/** Diffie-Hellman, the exchange hash, and the keys drawn from it, as each side computes them on its own. */
module KeyExchange {
  import opened Prelude
  import opened Arith
  import opened Modular
  import opened Bytes
  import opened MpInts
  import opened Buffers

  const KEXHASHBUF_MAX_INTS := 1700 + 130 + 130 + 130
  const MAX_KEY_LEN := 32
  const MAX_MAC_LEN := 64

  /** What one side contributes: its version string, its KEXINIT payload, its public value. */
  datatype Side = Side(ident: seq<Byte>, kexinit: seq<Byte>, pub: nat)

  predicate Short(s: seq<Byte>) { |s| < 0x1_0000_0000 }

  predicate Encodable(s: Side) { Short(s.ident) && Short(s.kexinit) && BitCount(s.pub) < 0x1_0000_0000 }

  function Opening(c: Side, s: Side): seq<Byte>
    requires Encodable(c) && Encodable(s)
  {
    SshString(c.ident) + SshString(s.ident) + SshString(c.kexinit) + SshString(s.kexinit)
  }

  /** Section 8 of RFC 4253: V_C, V_S, I_C, I_S, K_S, e, f, K. */
  function HashInput(c: Side, s: Side, hostkey: seq<Byte>, k: nat): seq<Byte>
    requires Encodable(c) && Encodable(s) && Short(hostkey) && BitCount(k) < 0x1_0000_0000
  {
    Opening(c, s) + (SshString(hostkey) + Mpint(c.pub) + Mpint(s.pub) + Mpint(k))
  }

  lemma {:induction false} BitCountMono(x: nat, y: nat)
    requires x <= y
    ensures BitCount(x) <= BitCount(y)
  {
    if x > 0 { BitCountMono(x / 2, y / 2); }
  }

  lemma Append(c: seq<Byte>, more: seq<Byte>)
    ensures Overwrite(c, |c|, more) == c + more
  {
  }

  method AppendString(buf: Buffer, s: seq<Byte>) returns (ok: bool)
    requires buf.Valid() && buf.pos == buf.len && Short(s)
    modifies buf, buf.data
    ensures buf.Valid() && buf.data == old(buf.data)
    ensures ok == (|old(buf.Contents())| + 4 + |s| <= buf.data.Length)
    ensures ok ==> buf.pos == buf.len && buf.Contents() == old(buf.Contents()) + SshString(s)
  {
    Append(buf.Contents(), SshString(s));
    ok := buf.PutString(s);
  }

  /** recv_msg_kexinit: the hash buffer, filled from the two version strings and the two KEXINIT payloads. */
  method StartKexHash(isClient: bool, localIdent: seq<Byte>, remoteIdent: seq<Byte>,
                      transkexinit: seq<Byte>, payload: seq<Byte>) returns (ok: bool, buf: Buffer)
    requires |localIdent| + |remoteIdent| + |transkexinit| + |payload| + KEXHASHBUF_MAX_INTS <= BUF_MAX_SIZE
    ensures ok && fresh(buf) && buf.Valid() && fresh(buf.data) && buf.pos == buf.len
    ensures buf.data.Length == |localIdent| + |remoteIdent| + |transkexinit| + |payload| + KEXHASHBUF_MAX_INTS
    ensures var us, them := Side(localIdent, transkexinit, 0), Side(remoteIdent, payload, 0);
            buf.Contents() == if isClient then Opening(us, them) else Opening(them, us)
  {
    buf := new Buffer(|localIdent| + |remoteIdent| + |transkexinit| + |payload| + KEXHASHBUF_MAX_INTS);
    if isClient {
      ok := FillOpening(buf, localIdent, remoteIdent, transkexinit, payload);
    } else {
      ok := FillOpening(buf, remoteIdent, localIdent, payload, transkexinit);
    }
  }

  method FillOpening(buf: Buffer, vc: seq<Byte>, vs: seq<Byte>, ic: seq<Byte>, is_: seq<Byte>) returns (ok: bool)
    requires buf.Valid() && buf.pos == 0 && buf.Contents() == []
    requires |vc| + |vs| + |ic| + |is_| + KEXHASHBUF_MAX_INTS <= buf.data.Length
    modifies buf, buf.data
    ensures ok && buf.Valid() && buf.data == old(buf.data) && buf.pos == buf.len
    ensures buf.Contents() == Opening(Side(vc, ic, 0), Side(vs, is_, 0))
  {
    ok := AppendString(buf, vc);
    assert [] + SshString(vc) == SshString(vc);
    ok := AppendString(buf, vs);
    ok := AppendString(buf, ic);
    ok := AppendString(buf, is_);
  }

  /** The shared secret, from the peer's public value. */
  function Secret(them: nat, priv: nat, p: nat): nat
    requires p > 0
  {
    ExptMod(them, priv, p)
  }

  /** kexdh_comb_key: false where the source exits, on a value out of range or a buffer too small. */
  method KexdhCombKey(isClient: bool, pubUs: nat, priv: nat, pubThem: nat, p: nat, hostkey: seq<Byte>, buf: Buffer)
    returns (ok: bool, k: nat)
    requires p > 0 && BitCount(p) < 0x1_0000_0000 && pubUs < p && Short(hostkey)
    requires buf.Valid() && buf.pos == buf.len
    modifies buf, buf.data
    ensures buf.Valid() && buf.data == old(buf.data)
    ensures ok ==> 0 < pubThem < p && k == Secret(pubThem, priv, p) && k < p
    ensures forall g: nat, y: nat | pubThem == ExptMod(g, y, p) :: k == Pow(g, MulNat(priv, y)) % p
    ensures BitCount(pubUs) < 0x1_0000_0000 && (0 < pubThem < p ==> BitCount(pubThem) < 0x1_0000_0000)
    ensures BitCount(Secret(pubThem, priv, p)) < 0x1_0000_0000
    ensures 0 < pubThem < p ==>
              var e, f := if isClient then pubUs else pubThem, if isClient then pubThem else pubUs;
              var tail := SshString(hostkey) + Mpint(e) + Mpint(f) + Mpint(Secret(pubThem, priv, p));
              ok == (|old(buf.Contents())| + |tail| <= buf.data.Length)
              && (ok ==> buf.Contents() == old(buf.Contents()) + tail)
  {
    ModOfMod(Pow(pubThem, priv), p);
    k := Secret(pubThem, priv, p);
    forall g: nat, y: nat | pubThem == ExptMod(g, y, p) ensures k == Pow(g, MulNat(priv, y)) % p {
      SecretIs(g, priv, y, p);
    }
    BitCountMono(k, p);
    BitCountMono(pubUs, p);
    if !(0 < pubThem < p) { return false, k; }
    BitCountMono(pubThem, p);
    var e, f := if isClient then pubUs else pubThem, if isClient then pubThem else pubUs;
    ok := PutRest(buf, hostkey, e, f, k);
  }

  method PutRest(buf: Buffer, hostkey: seq<Byte>, e: nat, f: nat, k: nat) returns (ok: bool)
    requires buf.Valid() && buf.pos == buf.len && Short(hostkey)
    requires BitCount(e) < 0x1_0000_0000 && BitCount(f) < 0x1_0000_0000 && BitCount(k) < 0x1_0000_0000
    modifies buf, buf.data
    ensures buf.Valid() && buf.data == old(buf.data)
    ensures var tail := SshString(hostkey) + Mpint(e) + Mpint(f) + Mpint(k);
            ok == (|old(buf.Contents())| + |tail| <= buf.data.Length)
            && (ok ==> buf.Contents() == old(buf.Contents()) + tail)
  {
    ghost var c := buf.Contents();
    ok := AppendString(buf, hostkey);
    if !ok { return; }
    ok := AppendBytes(buf, Mpint(e));
    if !ok { return; }
    ok := AppendBytes(buf, Mpint(f));
    if !ok { return; }
    ok := AppendBytes(buf, Mpint(k));
    Assoc(c, SshString(hostkey), Mpint(e));
    Assoc(c, SshString(hostkey) + Mpint(e), Mpint(f));
    Assoc(c, SshString(hostkey) + Mpint(e) + Mpint(f), Mpint(k));
  }

  method AppendBytes(buf: Buffer, s: seq<Byte>) returns (ok: bool)
    requires buf.Valid() && buf.pos == buf.len
    modifies buf, buf.data
    ensures buf.Valid() && buf.data == old(buf.data)
    ensures ok == (|old(buf.Contents())| + |s| <= buf.data.Length)
    ensures ok ==> buf.pos == buf.len && buf.Contents() == old(buf.Contents()) + s
  {
    Append(buf.Contents(), s);
    ok := buf.PutBytes(s);
  }

  // ---------------------------------------------------------------- agreement on K and on the hash input

  lemma SecretsAgree(g: nat, x: nat, y: nat, p: nat)
    requires p > 0
    ensures Secret(ExptMod(g, y, p), x, p) == Secret(ExptMod(g, x, p), y, p) == Pow(g, MulNat(x, y)) % p
  {
    SecretIs(g, x, y, p);
    SecretIs(g, y, x, p);
    Commutes(x, y);
  }

  /** The secret is g^(x*y) mod p, from the peer's public value g^y. */
  lemma SecretIs(g: nat, x: nat, y: nat, p: nat)
    requires p > 0
    ensures Secret(ExptMod(g, y, p), x, p) == Pow(g, MulNat(x, y)) % p
  {
    ModOfMod(Pow(g, y), p);
    CongPow(Pow(g, y) % p, Pow(g, y), x, p);
    PowMul(g, y, x);
    Commutes(x, y);
  }

  lemma Commutes(x: int, y: int)
    ensures x * y == y * x
  {
  }

  /** A run of both sides: what each has in its hash buffer and which secret, given what each has received. */
  ghost predicate Computed(isClient: bool, us: Side, them: Side, priv: nat, p: nat, hostkey: seq<Byte>,
                           contents: seq<Byte>, k: nat)
    requires Encodable(us) && Encodable(them) && Short(hostkey) && p > 0 && BitCount(k) < 0x1_0000_0000
  {
    && k == Secret(them.pub, priv, p)
    && contents == if isClient then HashInput(us, them, hostkey, k) else HashInput(them, us, hostkey, k)
  }

  /** Both phases together: the buffer holds the eight parts in the order of RFC 4253, whichever side this is. */
  method ExchangeHashInput(isClient: bool, us: Side, them: Side, priv: nat, p: nat, hostkey: seq<Byte>)
    returns (ok: bool, k: nat, contents: seq<Byte>)
    requires Encodable(us) && Encodable(them) && Short(hostkey)
    requires p > 0 && BitCount(p) < 0x1_0000_0000 && us.pub < p
    requires |us.ident| + |them.ident| + |us.kexinit| + |them.kexinit| + KEXHASHBUF_MAX_INTS <= BUF_MAX_SIZE
    ensures ok ==> BitCount(k) < 0x1_0000_0000 && Computed(isClient, us, them, priv, p, hostkey, contents, k)
    ensures !ok ==> !(0 < them.pub < p)
                    || |SshString(hostkey)| + |Mpint(us.pub)| + |Mpint(them.pub)| + 16 + 5 + |ToBin(Secret(them.pub, priv, p))|
                       > KEXHASHBUF_MAX_INTS
  {
    var buf;
    ok, buf := StartKexHash(isClient, us.ident, them.ident, us.kexinit, them.kexinit);
    ok, k := KexdhCombKey(isClient, us.pub, priv, them.pub, p, hostkey, buf);
    BodyLength(k);
    contents := buf.data[..buf.len];
  }

  /** Client and server hash the same bytes and hold the same K. */
  lemma KeyAgreement(g: nat, x: nat, y: nat, p: nat, c: Side, s: Side, hostkey: seq<Byte>,
                     cc: seq<Byte>, sc: seq<Byte>, kc: nat, ks: nat)
    requires p > 0 && Encodable(c) && Encodable(s) && Short(hostkey)
    requires c.pub == ExptMod(g, x, p) && s.pub == ExptMod(g, y, p)
    requires BitCount(kc) < 0x1_0000_0000 && BitCount(ks) < 0x1_0000_0000
    requires Computed(true, c, s, x, p, hostkey, cc, kc) && Computed(false, s, c, y, p, hostkey, sc, ks)
    ensures kc == ks == Pow(g, MulNat(x, y)) % p && cc == sc
  {
    SecretsAgree(g, x, y, p);
  }

  // ---------------------------------------------------------------- what the hash input binds

  lemma StringApart(s: seq<Byte>, t: seq<Byte>, x: seq<Byte>, y: seq<Byte>)
    requires Short(s) && Short(t) && SshString(s) + x == SshString(t) + y
    ensures s == t && x == y
  {
    assert (SshString(s) + x)[..4] == Int32(|s|) && (SshString(t) + y)[..4] == Int32(|t|);
    Int32RoundTrip(|s|);
    Int32RoundTrip(|t|);
    assert (SshString(s) + x)[4..] == s + x && (SshString(t) + y)[4..] == t + y;
    assert (s + x)[..|s|] == s && (t + y)[..|t|] == t && (s + x)[|s|..] == x && (t + y)[|t|..] == y;
  }

  lemma MpintApart(m: nat, n: nat, x: seq<Byte>, y: seq<Byte>)
    requires BitCount(m) < 0x1_0000_0000 && BitCount(n) < 0x1_0000_0000 && Mpint(m) + x == Mpint(n) + y
    ensures m == n && x == y
  {
    BodyLength(m);
    BodyLength(n);
    StringApart(MpintBody(m), MpintBody(n), x, y);
    BodyVal(m);
    BodyVal(n);
  }

  function Closing(hostkey: seq<Byte>, e: nat, f: nat, k: nat): seq<Byte>
    requires Short(hostkey) && BitCount(e) < 0x1_0000_0000 && BitCount(f) < 0x1_0000_0000 && BitCount(k) < 0x1_0000_0000
  {
    SshString(hostkey) + (Mpint(e) + (Mpint(f) + Mpint(k)))
  }

  /** Equal hash inputs are of the same eight parts: whoever signs the hash signs all of them. */
  lemma HashInputBinds(c: Side, s: Side, hostkey: seq<Byte>, k: nat, c': Side, s': Side, hostkey': seq<Byte>, k': nat)
    requires Encodable(c) && Encodable(s) && Short(hostkey) && BitCount(k) < 0x1_0000_0000
    requires Encodable(c') && Encodable(s') && Short(hostkey') && BitCount(k') < 0x1_0000_0000
    ensures HashInput(c, s, hostkey, k) == HashInput(c', s', hostkey', k')
            <==> c == c' && s == s' && hostkey == hostkey' && k == k'
  {
    if HashInput(c, s, hostkey, k) == HashInput(c', s', hostkey', k') {
      var tail, tail' := Closing(hostkey, c.pub, s.pub, k), Closing(hostkey', c'.pub, s'.pub, k');
      InTurn(c, s, hostkey, k);
      InTurn(c', s', hostkey', k');
      StringApart(c.ident, c'.ident, Rest3(c, s) + tail, Rest3(c', s') + tail');
      Rest3Apart(c, s, tail, c', s', tail');
      StringApart(hostkey, hostkey', Mpint(c.pub) + (Mpint(s.pub) + Mpint(k)), Mpint(c'.pub) + (Mpint(s'.pub) + Mpint(k')));
      MpintApart(c.pub, c'.pub, Mpint(s.pub) + Mpint(k), Mpint(s'.pub) + Mpint(k'));
      MpintApart(s.pub, s'.pub, Mpint(k), Mpint(k'));
      LastApart(k, k');
    }
  }

  lemma LastApart(k: nat, k': nat)
    requires BitCount(k) < 0x1_0000_0000 && BitCount(k') < 0x1_0000_0000 && Mpint(k) == Mpint(k')
    ensures k == k'
  {
    assert Mpint(k) + [] == Mpint(k') + [];
    MpintApart(k, k', [], []);
  }

  /** The opening behind the client's version string. */
  function Rest3(c: Side, s: Side): seq<Byte>
    requires Encodable(c) && Encodable(s)
  {
    SshString(s.ident) + (SshString(c.kexinit) + SshString(s.kexinit))
  }

  lemma InTurn(c: Side, s: Side, hostkey: seq<Byte>, k: nat)
    requires Encodable(c) && Encodable(s) && Short(hostkey) && BitCount(k) < 0x1_0000_0000
    ensures HashInput(c, s, hostkey, k) == SshString(c.ident) + (Rest3(c, s) + Closing(hostkey, c.pub, s.pub, k))
  {
    Assoc(SshString(c.ident), SshString(s.ident), SshString(c.kexinit));
    Assoc(SshString(c.ident), SshString(s.ident) + SshString(c.kexinit), SshString(s.kexinit));
    Assoc(SshString(s.ident), SshString(c.kexinit), SshString(s.kexinit));
    assert Opening(c, s) == SshString(c.ident) + Rest3(c, s);
    ClosingIs(hostkey, c.pub, s.pub, k);
    Assoc(SshString(c.ident), Rest3(c, s), Closing(hostkey, c.pub, s.pub, k));
  }

  lemma ClosingIs(hostkey: seq<Byte>, e: nat, f: nat, k: nat)
    requires Short(hostkey) && BitCount(e) < 0x1_0000_0000 && BitCount(f) < 0x1_0000_0000 && BitCount(k) < 0x1_0000_0000
    ensures SshString(hostkey) + Mpint(e) + Mpint(f) + Mpint(k) == Closing(hostkey, e, f, k)
  {
    Assoc(SshString(hostkey), Mpint(e), Mpint(f));
    Assoc(SshString(hostkey), Mpint(e) + Mpint(f), Mpint(k));
    Assoc(Mpint(e), Mpint(f), Mpint(k));
  }

  lemma Rest3Apart(c: Side, s: Side, tail: seq<Byte>, c': Side, s': Side, tail': seq<Byte>)
    requires Encodable(c) && Encodable(s) && Encodable(c') && Encodable(s') && Rest3(c, s) + tail == Rest3(c', s') + tail'
    ensures s.ident == s'.ident && c.kexinit == c'.kexinit && s.kexinit == s'.kexinit && tail == tail'
  {
    Rest3Is(c, s, tail);
    Rest3Is(c', s', tail');
    StringApart(s.ident, s'.ident, SshString(c.kexinit) + (SshString(s.kexinit) + tail),
                SshString(c'.kexinit) + (SshString(s'.kexinit) + tail'));
    StringApart(c.kexinit, c'.kexinit, SshString(s.kexinit) + tail, SshString(s'.kexinit) + tail');
    StringApart(s.kexinit, s'.kexinit, tail, tail');
  }

  lemma Rest3Is(c: Side, s: Side, tail: seq<Byte>)
    requires Encodable(c) && Encodable(s)
    ensures Rest3(c, s) + tail == SshString(s.ident) + (SshString(c.kexinit) + (SshString(s.kexinit) + tail))
  {
    Assoc(SshString(s.ident), SshString(c.kexinit) + SshString(s.kexinit), tail);
    Assoc(SshString(c.kexinit), SshString(s.kexinit), tail);
  }

  // ---------------------------------------------------------------- keys drawn from K and H

  /** SHA-1, of which only the length of its output matters here. */
  type Hash = seq<Byte> -> seq<Byte>

  ghost predicate IsSha1(h: Hash) { forall s :: |h(s)| == SHA1_HASH_SIZE }

  /** K1 || K2 || ... of section 7.2 of RFC 4253, n blocks of it; head is K || H and first is X || session_id. */
  function KeyStream(h: Hash, head: seq<Byte>, first: seq<Byte>, n: nat): seq<Byte> {
    if n == 0 then []
    else if n == 1 then h(head + first)
    else KeyStream(h, head, first, n - 1) + h(head + KeyStream(h, head, first, n - 1))
  }

  lemma {:induction false} KeyStreamLength(h: Hash, head: seq<Byte>, first: seq<Byte>, n: nat)
    requires IsSha1(h)
    ensures |KeyStream(h, head, first, n)| == SHA1_HASH_SIZE * n
  {
    if n > 1 { KeyStreamLength(h, head, first, n - 1); }
  }

  lemma {:induction false} KeyStreamPrefix(h: Hash, head: seq<Byte>, first: seq<Byte>, m: nat, n: nat)
    requires m <= n
    ensures KeyStream(h, head, first, m) <= KeyStream(h, head, first, n)
    decreases n
  {
    if m < n && n > 1 { KeyStreamPrefix(h, head, first, m, n - 1); }
  }

  /** The first len bytes of the stream, which any number of blocks that reaches so far agrees on. */
  function KeyBytes(h: Hash, head: seq<Byte>, first: seq<Byte>, len: nat): (r: seq<Byte>)
    requires IsSha1(h)
    ensures |r| == len
    ensures forall n: nat | SHA1_HASH_SIZE * n >= len :: r <= KeyStream(h, head, first, n)
  {
    KeyStreamLength(h, head, first, len);
    var r := KeyStream(h, head, first, len)[..len];
    assert forall n: nat | SHA1_HASH_SIZE * n >= len :: r <= KeyStream(h, head, first, n) by {
      forall n: nat | SHA1_HASH_SIZE * n >= len ensures r <= KeyStream(h, head, first, n) {
        EnoughBlocks(h, head, first, len, n);
      }
    }
    r
  }

  lemma EnoughBlocks(h: Hash, head: seq<Byte>, first: seq<Byte>, len: nat, n: nat)
    requires IsSha1(h) && SHA1_HASH_SIZE * n >= len
    ensures |KeyStream(h, head, first, len)| >= len
    ensures KeyStream(h, head, first, len)[..len] <= KeyStream(h, head, first, n)
  {
    KeyStreamLength(h, head, first, len);
    KeyStreamLength(h, head, first, n);
    if len <= n {
      KeyStreamPrefix(h, head, first, len, n);
    } else {
      KeyStreamPrefix(h, head, first, n, len);
    }
  }

  /** hashkeys: fills at least one block of the array, and every byte up to outlen. */
  method HashKeys(h: Hash, head: seq<Byte>, x: Byte, sessionId: seq<Byte>, out: array<Byte>, outlen: nat)
    requires IsSha1(h) && Max(SHA1_HASH_SIZE, outlen) <= out.Length
    modifies out
    ensures out[..outlen] == KeyBytes(h, head, [x] + sessionId, outlen)
  {
    var first := [x] + sessionId;
    Put(out, 0, h(head + first), SHA1_HASH_SIZE);
    var offset := SHA1_HASH_SIZE;
    ghost var n := 1;
    while offset < outlen
      invariant n >= 1 && offset == SHA1_HASH_SIZE * n
      invariant offset <= outlen ==> out[..offset] == KeyStream(h, head, first, n)
      invariant offset > outlen ==> out[..outlen] <= KeyStream(h, head, first, n)
      invariant offset <= outlen || n == 1 || out[..outlen] <= KeyStream(h, head, first, n)
    {
      var k2 := h(head + out[..offset]);
      ghost var before := out[..offset];
      Put(out, offset, k2, Min(outlen - offset, SHA1_HASH_SIZE));
      assert KeyStream(h, head, first, n + 1) == before + k2;
      offset := offset + SHA1_HASH_SIZE;
      n := n + 1;
    }
  }

  /** memcpy of the first n bytes. */
  method Put(out: array<Byte>, at: nat, s: seq<Byte>, n: nat)
    requires n <= |s| && at + n <= out.Length
    modifies out
    ensures out[..at + n] == old(out[..at]) + s[..n]
  {
    var i := 0;
    while i < n
      invariant 0 <= i <= n
      invariant forall j | 0 <= j < out.Length :: out[j] == if at <= j < at + i then s[j - at] else old(out[j])
    {
      out[at + i] := s[i];
      i := i + 1;
    }
  }

  /** What negotiation settled for one direction; no cipher or no MAC when there is none to key. */
  datatype Suite = Suite(hasCipher: bool, keysize: nat, hasMac: bool, mackeysize: nat)

  predicate FitsArrays(s: Suite) { s.keysize <= MAX_KEY_LEN && s.mackeysize <= MAX_MAC_LEN }

  /** The material one direction is started with. */
  datatype Material = Material(iv: seq<Byte>, key: seq<Byte>, mackey: seq<Byte>)

  function Draw(h: Hash, head: seq<Byte>, sessionId: seq<Byte>, s: Suite, iv: Byte, key: Byte, mac: Byte): Material
    requires IsSha1(h)
  {
    Material(if s.hasCipher then KeyBytes(h, head, [iv] + sessionId, SHA1_HASH_SIZE) else [],
             if s.hasCipher then KeyBytes(h, head, [key] + sessionId, s.keysize) else [],
             if s.hasMac then KeyBytes(h, head, [mac] + sessionId, s.mackeysize) else [])
  }

  const A: Byte := 65
  const B: Byte := 66
  const C: Byte := 67
  const D: Byte := 68
  const E: Byte := 69
  const F: Byte := 70

  /** The material of one direction, by section 7.2 of RFC 4253: A, C, E to the server and B, D, F from it. */
  function Direction(h: Hash, head: seq<Byte>, sessionId: seq<Byte>, toServer: bool, s: Suite): Material
    requires IsSha1(h)
  {
    if toServer then Draw(h, head, sessionId, s, A, C, E) else Draw(h, head, sessionId, s, B, D, F)
  }

  method HashKeysSeq(h: Hash, head: seq<Byte>, x: Byte, sessionId: seq<Byte>, outlen: nat) returns (r: seq<Byte>)
    requires IsSha1(h)
    ensures r == KeyBytes(h, head, [x] + sessionId, outlen)
  {
    var out := new Byte[Max(SHA1_HASH_SIZE, outlen)](_ => 0);
    HashKeys(h, head, x, sessionId, out, outlen);
    r := out[..outlen];
  }

  /** One side's keys for both directions, given the suites negotiated to and from the server. */
  ghost predicate Generated(isClient: bool, h: Hash, k: nat, hash: seq<Byte>, sessionId: seq<Byte>,
                            c2s: Suite, s2c: Suite, trans: Material, recv: Material)
    requires IsSha1(h) && BitCount(k) < 0x1_0000_0000
  {
    var head := Mpint(k) + hash;
    && trans == Direction(h, head, sessionId, isClient, if isClient then c2s else s2c)
    && recv == Direction(h, head, sessionId, !isClient, if isClient then s2c else c2s)
  }

  /** The end of read_kex_algos, then gen_new_keys. */
  method GenNewKeys(isClient: bool, h: Hash, k: nat, hash: seq<Byte>, sessionId: seq<Byte>, c2s: Suite, s2c: Suite)
    returns (t: Material, r: Material)
    requires IsSha1(h) && BitCount(k) < 0x1_0000_0000 && FitsArrays(c2s) && FitsArrays(s2c)
    ensures Generated(isClient, h, k, hash, sessionId, c2s, s2c, t, r)
  {
    var trans, recv := if isClient then c2s else s2c, if isClient then s2c else c2s;
    var head := Mpint(k) + hash;
    var c2sKeysize, s2cKeysize, macTrans, macRecv;
    if isClient {
      c2sKeysize, s2cKeysize, macTrans, macRecv := trans.keysize, recv.keysize, E, F;
    } else {
      c2sKeysize, s2cKeysize, macTrans, macRecv := recv.keysize, trans.keysize, F, E;
    }
    var c2sIv := HashKeysSeq(h, head, A, sessionId, SHA1_HASH_SIZE);
    var s2cIv := HashKeysSeq(h, head, B, sessionId, SHA1_HASH_SIZE);
    var c2sKey := HashKeysSeq(h, head, C, sessionId, c2sKeysize);
    var s2cKey := HashKeysSeq(h, head, D, sessionId, s2cKeysize);
    var transMac := HashKeysSeq(h, head, macTrans, sessionId, trans.mackeysize);
    var recvMac := HashKeysSeq(h, head, macRecv, sessionId, recv.mackeysize);
    t := Material(if !trans.hasCipher then [] else if isClient then c2sIv else s2cIv,
                  if !trans.hasCipher then [] else if isClient then c2sKey else s2cKey,
                  if trans.hasMac then transMac else []);
    r := Material(if !recv.hasCipher then [] else if isClient then s2cIv else c2sIv,
                  if !recv.hasCipher then [] else if isClient then s2cKey else c2sKey,
                  if recv.hasMac then recvMac else []);
  }

  /** Block i of the stream is the hash of K || H and all blocks before it, the first of K || H || X || session_id. */
  lemma StreamBlock(h: Hash, head: seq<Byte>, first: seq<Byte>, i: nat)
    requires IsSha1(h)
    ensures |KeyStream(h, head, first, i + 1)| == SHA1_HASH_SIZE * (i + 1)
    ensures KeyStream(h, head, first, i + 1)[SHA1_HASH_SIZE * i..]
         == h(head + if i == 0 then first else KeyStream(h, head, first, i + 1)[..SHA1_HASH_SIZE * i])
  {
    KeyStreamLength(h, head, first, i);
    KeyStreamLength(h, head, first, i + 1);
  }

  /** By section 7.2 of RFC 4253, letter by letter: the initial IVs in full and the leading bytes of the keys. */
  lemma LettersInUse(isClient: bool, h: Hash, k: nat, hash: seq<Byte>, sessionId: seq<Byte>, c2s: Suite, s2c: Suite,
                     t: Material, r: Material)
    requires IsSha1(h) && BitCount(k) < 0x1_0000_0000 && Generated(isClient, h, k, hash, sessionId, c2s, s2c, t, r)
    ensures var (toServer, fromServer) := if isClient then (t, r) else (r, t);
            && (c2s.hasCipher ==> toServer.iv == h(Mpint(k) + hash + ([65] + sessionId)))
            && (s2c.hasCipher ==> fromServer.iv == h(Mpint(k) + hash + ([66] + sessionId)))
            && (c2s.hasCipher ==> |toServer.key| == c2s.keysize && Agree(toServer.key, h(Mpint(k) + hash + ([67] + sessionId))))
            && (s2c.hasCipher ==> |fromServer.key| == s2c.keysize && Agree(fromServer.key, h(Mpint(k) + hash + ([68] + sessionId))))
            && (c2s.hasMac ==> |toServer.mackey| == c2s.mackeysize && Agree(toServer.mackey, h(Mpint(k) + hash + ([69] + sessionId))))
            && (s2c.hasMac ==> |fromServer.mackey| == s2c.mackeysize && Agree(fromServer.mackey, h(Mpint(k) + hash + ([70] + sessionId))))
  {
    var head := Mpint(k) + hash;
    FirstBlock(h, head, [A] + sessionId, SHA1_HASH_SIZE);
    FirstBlock(h, head, [B] + sessionId, SHA1_HASH_SIZE);
    FirstBlock(h, head, [C] + sessionId, c2s.keysize);
    FirstBlock(h, head, [D] + sessionId, s2c.keysize);
    FirstBlock(h, head, [E] + sessionId, c2s.mackeysize);
    FirstBlock(h, head, [F] + sessionId, s2c.mackeysize);
  }

  /** One is a prefix of the other. */
  predicate Agree(s: seq<Byte>, t: seq<Byte>) { s <= t || t <= s }

  lemma FirstBlock(h: Hash, head: seq<Byte>, first: seq<Byte>, len: nat)
    requires IsSha1(h)
    ensures Agree(KeyBytes(h, head, first, len), h(head + first))
    ensures len == SHA1_HASH_SIZE ==> KeyBytes(h, head, first, len) == h(head + first)
  {
    KeyStreamLength(h, head, first, len + 1);
    KeyStreamPrefix(h, head, first, 1, len + 1);
    var r, b, s := KeyBytes(h, head, first, len), h(head + first), KeyStream(h, head, first, len + 1);
    assert r <= s && b <= s;
    assert s[..len] == r && s[..SHA1_HASH_SIZE] == b;
  }

  /** What each side transmits with is what the other receives with, from the first exchange on. */
  lemma KeysCross(h: Hash, g: nat, x: nat, y: nat, p: nat, c: Side, s: Side, hostkey: seq<Byte>,
                  cc: seq<Byte>, sc: seq<Byte>, kc: nat, ks: nat, earlier: seq<Byte>, c2s: Suite, s2c: Suite,
                  ct: Material, cr: Material, st: Material, sr: Material)
    requires IsSha1(h) && p > 0 && Encodable(c) && Encodable(s) && Short(hostkey)
    requires c.pub == ExptMod(g, x, p) && s.pub == ExptMod(g, y, p)
    requires BitCount(kc) < 0x1_0000_0000 && BitCount(ks) < 0x1_0000_0000
    requires Computed(true, c, s, x, p, hostkey, cc, kc) && Computed(false, s, c, y, p, hostkey, sc, ks)
    requires Generated(true, h, kc, h(cc), SessionId(earlier, h(cc)), c2s, s2c, ct, cr)
    requires Generated(false, h, ks, h(sc), SessionId(earlier, h(sc)), c2s, s2c, st, sr)
    ensures ct == sr && st == cr
  {
    KeyAgreement(g, x, y, p, c, s, hostkey, cc, sc, kc, ks);
  }

  /** The session id is the hash of the first exchange; earlier is empty until then. */
  function SessionId(earlier: seq<Byte>, hash: seq<Byte>): seq<Byte> {
    if earlier == [] then hash else earlier
  }

  /** Later exchanges do not change it. */
  lemma SessionIdStays(first: seq<Byte>, hash: seq<Byte>)
    requires first != []
    ensures SessionId([], first) == first && SessionId(SessionId([], first), hash) == first
  {
  }
}
