/** Packets: padded, authenticated and enciphered by one side, cut up by the network, rebuilt by the other. */
module Framing {
  import opened Arith
  import opened Bytes

  const MIN_PACKET_LEN := 16
  const RECV_MAX_PAYLOAD_LEN := 32768
  const TRANS_MAX_PAYLOAD_LEN := 16384
  const RECV_MAX_PACKET_LEN := Max(35000, RECV_MAX_PAYLOAD_LEN + 100)
  const ZLIB_COMPRESS_INCR := 100
  const WORD32 := 0x1_0000_0000

  /** One direction's keys. enc and dec take the ciphertext so far, which is all a chaining mode depends on. */
  datatype Key = Key(bs: nat, enc: (seq<Byte>, seq<Byte>) -> seq<Byte>, dec: (seq<Byte>, seq<Byte>) -> seq<Byte>,
                     macSize: nat, mac: (nat, seq<Byte>) -> seq<Byte>)

  ghost predicate Ideal(k: Key) {
    && 8 <= k.bs <= 252 && k.macSize <= 64
    && (forall prev, b | |b| == k.bs :: |k.enc(prev, b)| == k.bs && k.dec(prev, k.enc(prev, b)) == b)
    && (forall prev, b | |b| == k.bs :: |k.dec(prev, b)| == k.bs)
    && (forall n, clear :: |k.mac(n, clear)| == k.macSize)
  }

  /** Block by block, each depending on the ciphertext before it. */
  function Encrypt(k: Key, prev: seq<Byte>, clear: seq<Byte>): (r: seq<Byte>)
    requires Ideal(k)
    ensures |clear| % k.bs == 0 ==> |r| == |clear|
    decreases |clear|
  {
    if |clear| < k.bs then
      assert |clear| % k.bs == 0 ==> |clear| == 0 by { SmallMod(|clear|, k.bs); }
      []
    else
      assert |clear| % k.bs == (|clear| - k.bs) % k.bs by { ModMinus(|clear|, k.bs); }
      var c := k.enc(prev, clear[..k.bs]);
      c + Encrypt(k, prev + c, clear[k.bs..])
  }

  function Decrypt(k: Key, prev: seq<Byte>, cipher: seq<Byte>): (r: seq<Byte>)
    requires Ideal(k)
    ensures |cipher| % k.bs == 0 ==> |r| == |cipher|
    decreases |cipher|
  {
    if |cipher| < k.bs then
      assert |cipher| % k.bs == 0 ==> |cipher| == 0 by { SmallMod(|cipher|, k.bs); }
      []
    else
      assert |cipher| % k.bs == (|cipher| - k.bs) % k.bs by { ModMinus(|cipher|, k.bs); }
      k.dec(prev, cipher[..k.bs]) + Decrypt(k, prev + cipher[..k.bs], cipher[k.bs..])
  }

  lemma ModMinus(x: int, m: int)
    requires 0 < m <= x
    ensures x % m == (x - m) % m
  {
    DivModFacts(x - m, m);
    Distribute((x - m) / m, 1, m);
    DivModUnique(x, m, (x - m) / m + 1, (x - m) % m);
  }

  lemma {:induction false} DecryptEncrypt(k: Key, prev: seq<Byte>, clear: seq<Byte>)
    requires Ideal(k) && |clear| % k.bs == 0
    ensures Decrypt(k, prev, Encrypt(k, prev, clear)) == clear
    decreases |clear|
  {
    if |clear| < k.bs {
      SmallMod(|clear|, k.bs);
    } else {
      ModMinus(|clear|, k.bs);
      var c := k.enc(prev, clear[..k.bs]);
      DecryptEncrypt(k, prev + c, clear[k.bs..]);
      var rest := Encrypt(k, prev + c, clear[k.bs..]);
      assert (c + rest)[..k.bs] == c && (c + rest)[k.bs..] == rest;
      assert clear == clear[..k.bs] + clear[k.bs..];
    }
  }

  /** Padding for a buffer of len bytes, length field included. */
  function PadLen(len: nat, bs: nat): nat
    requires bs > 0
  {
    DivModFacts(len, bs);
    var pad := bs - len % bs;
    var pad := if pad < 4 then pad + bs else pad;
    if len + pad < MIN_PACKET_LEN then pad + bs else pad
  }

  function Noise(noise: nat -> Byte, n: nat): (r: seq<Byte>)
    ensures |r| == n
  {
    seq(n, i requires 0 <= i < n => noise(i))
  }

  /** A payload and the random bytes drawn for its padding. */
  datatype Packet = Packet(payload: seq<Byte>, noise: nat -> Byte)

  predicate Sendable(p: Packet) { 1 <= |p.payload| <= TRANS_MAX_PAYLOAD_LEN }

  function Total(p: Packet, bs: nat): nat
    requires bs > 0
  {
    |p.payload| + 5 + PadLen(|p.payload| + 5, bs)
  }

  /** The size encrypt_packet reserves. */
  function BufSize(p: Packet, k: Key): nat {
    |p.payload| + 4 + 1 + Max(MIN_PACKET_LEN, k.bs) + 3 + k.macSize + ZLIB_COMPRESS_INCR + 1
  }

  /**
   * Section 6 of RFC 4253: block multiple, at least four bytes of padding, at least 16 in all. It fits what
   * was reserved, and leaves the room for compression alone unless blocks have 13 to 15 bytes.
   */
  lemma PacketShape(p: Packet, k: Key)
    requires Sendable(p) && 8 <= k.bs <= 252 && k.macSize <= 64
    ensures var pad := PadLen(|p.payload| + 5, k.bs);
            4 <= pad <= 255 && Total(p, k.bs) >= MIN_PACKET_LEN && Total(p, k.bs) >= k.bs
    ensures Total(p, k.bs) % k.bs == 0
    ensures Total(p, k.bs) + k.macSize + 1 <= BufSize(p, k)
    ensures k.bs <= 12 || k.bs >= 16 ==> Total(p, k.bs) + k.macSize + 1 + ZLIB_COMPRESS_INCR <= BufSize(p, k)
    ensures Total(p, k.bs) + k.macSize <= RECV_MAX_PACKET_LEN
  {
    var len := |p.payload| + 5;
    var m := len % k.bs;
    DivModFacts(len, k.bs);
    RoundUp(len, k.bs, 1);
    RoundUp(len, k.bs, 2);
    RoundUp(len, k.bs, 3);
    if len + (k.bs - m) < MIN_PACKET_LEN && k.bs - m >= 4 {
      assert k.bs <= 15;
    }
  }

  /** For every payload the padding stays out of the room for compression, at exactly these block sizes. */
  lemma CompressionRoom(k: Key)
    requires 8 <= k.bs <= 252 && k.macSize <= 64
    ensures (forall p | Sendable(p) :: Total(p, k.bs) + k.macSize + 1 + ZLIB_COMPRESS_INCR <= BufSize(p, k))
            <==> (k.bs <= 12 || k.bs >= 16)
  {
    if k.bs <= 12 || k.bs >= 16 {
      forall p | Sendable(p) ensures Total(p, k.bs) + k.macSize + 1 + ZLIB_COMPRESS_INCR <= BufSize(p, k) {
        PacketShape(p, k);
      }
    } else {
      var p := Packet([0], n => 0);
      OneByte(p, k.bs);
      assert Sendable(p);
    }
  }

  /** Its ten bytes with the least padding fill one such block, which is still below 16: a second one follows. */
  lemma OneByte(p: Packet, bs: nat)
    requires |p.payload| == 1 && 13 <= bs <= 15
    ensures Total(p, bs) == 2 * bs
  {
    SmallMod(6, bs);
  }

  lemma RoundUp(len: nat, bs: nat, n: nat)
    requires bs > 0
    ensures (len + n * bs - len % bs) % bs == 0
  {
    DivModFacts(len, bs);
    Distribute(len / bs, n, bs);
    DivModUnique(len + n * bs - len % bs, bs, len / bs + n, 0);
  }

  /** The packet before encryption. */
  function Clear(p: Packet, bs: nat): (r: seq<Byte>)
    requires Sendable(p) && 8 <= bs <= 252
    ensures |r| == Total(p, bs) && |r| % bs == 0 && |r| >= bs && |r| >= MIN_PACKET_LEN
  {
    PacketShape(p, Key(bs, (a, b) => [], (a, b) => [], 0, (a, b) => []));
    var pad := PadLen(|p.payload| + 5, bs);
    Int32(Total(p, bs) - 4) + [pad] + p.payload + Noise(p.noise, pad)
  }

  /** A direction's running state: the ciphertext so far and the sequence number of the next packet. */
  datatype Crypt = Crypt(prev: seq<Byte>, seqno: nat)

  /** What goes on the wire. */
  function Sealed(k: Key, c: Crypt, p: Packet): (r: seq<Byte>)
    requires Ideal(k) && Sendable(p)
    ensures |r| == Total(p, k.bs) + k.macSize
  {
    Encrypt(k, c.prev, Clear(p, k.bs)) + k.mac(c.seqno, Clear(p, k.bs))
  }

  function Advance(k: Key, c: Crypt, p: Packet): Crypt
    requires Ideal(k) && Sendable(p)
  {
    Crypt(c.prev + Encrypt(k, c.prev, Clear(p, k.bs)), (c.seqno + 1) % WORD32)
  }

  // ---------------------------------------------------------------- the receiver

  /**
   * got is what readbuf holds up to its position, its first block deciphered once complete; need is the
   * packet's length, 0 while that is unknown; prev is the ciphertext deciphered so far.
   */
  datatype Recv = Recv(got: seq<Byte>, need: nat, prev: seq<Byte>, seqno: nat, delivered: seq<seq<Byte>>)

  datatype Outcome = Go(recv: Recv) | Exit(why: string)

  predicate RecvOk(k: Key, r: Recv)
    requires k.bs > 0
  {
    if r.need == 0 then |r.got| < k.bs
    else k.bs <= |r.got| <= r.need && k.bs + k.macSize <= r.need <= RECV_MAX_PACKET_LEN && |r.prev| >= k.bs
         && (r.need - k.macSize) % k.bs == 0
  }

  /** How much one read() is asked for. */
  function Wanted(k: Key, r: Recv): nat
    requires k.bs > 0 && RecvOk(k, r)
  {
    (if r.need == 0 then k.bs else r.need) - |r.got|
  }

  lemma AtLeastOneBlock(x: nat, bs: nat)
    requires 0 < bs && x > 0 && x % bs == 0
    ensures x >= bs
  {
    if x < bs { SmallMod(x, bs); }
  }

  /** read_packet_init, given the bytes its read() returned; none when it was interrupted. */
  function ReadInit(k: Key, r: Recv, first: seq<Byte>): (o: Outcome)
    requires Ideal(k) && RecvOk(k, r) && r.need == 0 && |first| <= Wanted(k, r)
    ensures o.Go? ==> RecvOk(k, o.recv)
  {
    var all := r.got + first;
    if |all| < k.bs then Go(r.(got := all))
    else
      var block := k.dec(r.prev, all);
      var len := (BeVal(block[..4]) + 4 + k.macSize) % WORD32;
      if len > RECV_MAX_PACKET_LEN || len < MIN_PACKET_LEN + k.macSize || (len - k.macSize) % k.bs != 0
      then Exit("Integrity error (bad packet size)")
      else
        AtLeastOneBlock(len - k.macSize, k.bs);
        Go(r.(got := block, need := len, prev := r.prev + all))
  }

  /** decrypt_packet. */
  function DecryptPacket(k: Key, r: Recv): (o: Outcome)
    requires Ideal(k) && RecvOk(k, r) && r.need > 0 && |r.got| == r.need
    ensures o.Go? ==> RecvOk(k, o.recv)
  {
    var n := r.need - k.macSize;
    ModMinus(n, k.bs);
    var clear := r.got[..k.bs] + Decrypt(k, r.prev, r.got[k.bs..n]);
    if k.mac(r.seqno, clear) != r.got[n..] then Exit("Integrity error")
    else
      var len := (r.need - clear[4] - 4 - 1 - k.macSize) % WORD32;
      if len > RECV_MAX_PAYLOAD_LEN || len < 1 then Exit("Bad packet size")
      else
        PayloadFits(r.need - k.macSize, clear[4], len);
        Go(Recv([], 0, r.prev + r.got[k.bs..n], (r.seqno + 1) % WORD32, r.delivered + [clear[5..5 + len]]))
  }

  /** A packet announced is of a size section 6 of RFC 4253 allows and this program takes, or refused. */
  lemma SizesChecked(k: Key, r: Recv, first: seq<Byte>)
    requires Ideal(k) && RecvOk(k, r) && r.need == 0 && |first| <= Wanted(k, r)
    ensures var o := ReadInit(k, r, first);
            o.Go? && o.recv.need > 0 ==>
              16 <= o.recv.need - k.macSize && o.recv.need <= 35000 && (o.recv.need - k.macSize) % k.bs == 0
  {
  }

  /** The unsigned subtraction did not wrap, or its result was refused. */
  lemma PayloadFits(n: nat, pad: Byte, len: int)
    requires n <= RECV_MAX_PACKET_LEN && len == (n - pad - 5) % WORD32 && len <= RECV_MAX_PAYLOAD_LEN
    ensures 5 + len <= n && len == n - pad - 5
  {
  }

  /** The second half of read_packet; no bytes when read() had none. */
  function ReadRest(k: Key, r: Recv, second: seq<Byte>): (o: Outcome)
    requires Ideal(k) && RecvOk(k, r) && r.need > 0 && |second| <= Wanted(k, r)
    ensures o.Go? ==> RecvOk(k, o.recv)
  {
    var r1 := r.(got := r.got + second);
    if |r1.got| < r.need then Go(r1) else DecryptPacket(k, r1)
  }

  /** The queue of encrypted packets: bytes, a last byte that is never sent, and how many have gone. */
  datatype WriteBuf = WriteBuf(data: seq<Byte>, pos: nat)

  predicate Queued(w: WriteBuf) { w.pos + 1 < |w.data| }

  predicate AllQueued(q: seq<WriteBuf>) { forall i | 0 <= i < |q| :: Queued(q[i]) }

  function Unsent(w: WriteBuf): seq<Byte>
    requires Queued(w)
  {
    w.data[w.pos..|w.data| - 1]
  }

  function Pending(q: seq<WriteBuf>): seq<Byte>
    requires AllQueued(q)
  {
    if q == [] then [] else Unsent(q[0]) + Pending(q[1..])
  }

  lemma {:induction false} PendingConcat(q: seq<WriteBuf>, t: seq<WriteBuf>)
    requires AllQueued(q) && AllQueued(t)
    ensures AllQueued(q + t) && Pending(q + t) == Pending(q) + Pending(t)
  {
    if q == [] {
      assert q + t == t;
    } else {
      PendingConcat(q[1..], t);
      assert (q + t)[1..] == q[1..] + t;
    }
  }

  /** encrypt_packet, once the message may be sent. */
  datatype Send = Send(crypt: Crypt, queue: seq<WriteBuf>)

  function SealNext(k: Key, s: Send, p: Packet): Send
    requires Ideal(k) && Sendable(p)
  {
    Send(Advance(k, s.crypt, p), s.queue + [WriteBuf(Sealed(k, s.crypt, p) + [p.payload[0]], 0)])
  }
}
