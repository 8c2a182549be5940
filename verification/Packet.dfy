/** The sending and receiving halves of packet.c as they update the session, refining the functions of Framing. */
module Packets {
  import opened Arith
  import opened Bytes
  import opened Buffers
  import opened Framing
  import opened FramingRun

  class Sender {
    var key: Key
    var prev: seq<Byte>
    var transseq: nat
    var writequeue: seq<WriteBuf>

    function View(): Send
      reads this
    {
      Send(Crypt(prev, transseq), writequeue)
    }

    constructor (key: Key, transseq: nat)
      ensures this.key == key && View() == Send(Crypt([], transseq), [])
    {
      this.key, this.transseq, prev, writequeue := key, transseq, [], [];
    }

    /** encrypt_packet: the buffer it reserves is never too small, so no buffer operation exits. */
    method EncryptPacket(p: Packet) returns (ok: bool)
      requires Ideal(key) && Sendable(p)
      modifies this`prev, this`transseq, this`writequeue
      ensures ok && View() == SealNext(key, old(View()), p)
    {
      PacketShape(p, key);
      var w := new Buffer(BufSize(p, key));
      var laid, clear := LayOut(w, p, key);
      var sealed := Encrypt(key, prev, clear);
      ok := Finish(w, sealed, key.mac(transseq, clear), p.payload[0]);
      ok := laid && ok;
      writequeue := writequeue + [WriteBuf(w.data[..w.len], 0)];
      prev := prev + sealed;
      transseq := (transseq + 1) % WORD32;
    }

    /** encrypt_packet, and switch_keys behind it when the message is NEWKEYS: next is what it takes into use. */
    method EncryptThenSwitch(p: Packet, next: Key) returns (ok: bool)
      requires Ideal(key) && Sendable(p)
      modifies this
      ensures var s := SealNext(old(key), old(View()), p);
              ok && View() == s.(crypt := Behind(p.payload, 0, s.crypt).crypt)
      ensures key == if IsNewkeys(p.payload) then next else old(key)
    {
      ok := EncryptPacket(p);
      if p.payload[0] == NEWKEYS { key, prev := next, []; }
    }

    /** write_packet, when writev() took `written` bytes. */
    method WritePacket(written: nat)
      requires AllQueued(writequeue) && written <= |Pending(writequeue)|
      modifies this`writequeue
      ensures AllQueued(writequeue) && writequeue == Consume(old(writequeue), written)
      ensures Pending(writequeue) == old(Pending(writequeue))[written..]
    {
      ConsumeSends(writequeue, written);
      ghost var sent := Consume(writequeue, written);
      var left: nat := written;
      while left > 0
        invariant AllQueued(writequeue) && left <= |Pending(writequeue)|
        invariant Consume(writequeue, left) == sent
        decreases left + |writequeue|
      {
        var w := writequeue[0];
        var len := |w.data| - 1 - w.pos;
        if len > left {
          writequeue := [w.(pos := w.pos + left)] + writequeue[1..];
          left := 0;
        } else {
          left := left - len;
          writequeue := writequeue[1..];
        }
      }
    }
  }

  /** The ciphertext over the clear text, then the MAC, then the type byte that is never sent. */
  method Finish(w: Buffer, sealed: seq<Byte>, mac: seq<Byte>, ty: Byte) returns (ok: bool)
    requires w.Valid() && w.len == |sealed| && w.data.Length >= |sealed| + |mac| + 1
    modifies w, w.data
    ensures ok && w.Valid() && w.data == old(w.data) && w.Contents() == sealed + mac + [ty]
  {
    ghost var c := w.Contents();
    ok := w.SetPos(0);
    ok := w.PutBytes(sealed);
    ok := w.PutBytes(mac);
    ok := w.PutByte(ty);
    assert Overwrite(c, 0, sealed) == sealed;
    assert Overwrite(sealed, |sealed|, mac) == sealed + mac;
    assert Overwrite(sealed + mac, |sealed + mac|, [ty]) == sealed + mac + [ty];
  }

  /** The clear packet, written into a buffer at the offsets encrypt_packet uses. */
  method LayOut(w: Buffer, p: Packet, key: Key) returns (ok: bool, clear: seq<Byte>)
    requires w.Valid() && w.pos == 0 && w.Contents() == [] && w.data.Length == BufSize(p, key)
    requires Sendable(p) && 8 <= key.bs <= 252 && key.macSize <= 64
    modifies w, w.data
    ensures ok && w.Valid() && w.data == old(w.data)
    ensures clear == Clear(p, key.bs) == w.Contents()
  {
    PacketShape(p, key);
    ghost var zeros := PlacePayload(w, p.payload);
    var padlen := PaddingFor(w.len, key.bs);
    ok := PlaceRest(w, zeros, p.payload, padlen, Noise(p.noise, padlen));
    ClearIs(p, key.bs, padlen);
    clear := w.data[..w.len];
  }

  method PaddingFor(len: nat, bs: nat) returns (padlen: nat)
    requires bs > 0
    ensures padlen == PadLen(len, bs)
  {
    DivModFacts(len, bs);
    padlen := bs - len % bs;
    if padlen < 4 { padlen := padlen + bs; }
    if len + padlen < MIN_PACKET_LEN { padlen := padlen + bs; }
  }

  /** The two length fields in front of the payload, and the padding behind it. */
  method PlaceRest(w: Buffer, ghost zeros: seq<Byte>, ghost payload: seq<Byte>, padlen: Byte, noise: seq<Byte>)
    returns (ok: bool)
    requires w.Valid() && |zeros| == 5 && w.Contents() == Overwrite(zeros, 5, payload)
    requires |noise| == padlen && w.len + padlen <= w.data.Length && w.len + padlen < WORD32
    modifies w, w.data
    ensures ok && w.Valid() && w.data == old(w.data)
    ensures w.Contents() == Int32(|payload| + 5 + padlen - 4) + [padlen] + payload + noise
  {
    LayoutIs(zeros, payload, Int32(w.len + padlen - 4), padlen, noise);
    ok := PlaceHeader(w, w.len + padlen - 4, padlen);
    ok := w.PutBytes(noise);
  }

  lemma ClearIs(p: Packet, bs: nat, pad: Byte)
    requires Sendable(p) && 8 <= bs <= 252 && pad == PadLen(|p.payload| + 5, bs) && |p.payload| + 1 + pad < WORD32
    ensures Clear(p, bs) == Int32(|p.payload| + 5 + pad - 4) + [pad] + p.payload + Noise(p.noise, pad)
  {
  }

  method PlacePayload(w: Buffer, payload: seq<Byte>) returns (ghost zeros: seq<Byte>)
    requires w.Valid() && w.pos == 0 && w.Contents() == [] && w.data.Length >= |payload| + 5
    modifies w, w.data
    ensures w.Valid() && w.data == old(w.data)
    ensures |zeros| == 5 && w.Contents() == Overwrite(zeros, 5, payload)
  {
    var ok := w.SetLen(5);
    ok := w.SetPos(5);
    zeros := w.Contents();
    ok := w.PutBytes(payload);
  }

  method PlaceHeader(w: Buffer, size: nat, padlen: Byte) returns (ok: bool)
    requires w.Valid() && w.len >= 5 && size < WORD32
    modifies w, w.data
    ensures ok && w.Valid() && w.data == old(w.data) && w.pos == w.len == old(w.len)
    ensures w.Contents() == Overwrite(Overwrite(old(w.Contents()), 0, Int32(size)), 4, [padlen])
  {
    var end := w.len;
    ok := w.SetPos(0);
    ok := w.PutInt(size);
    ok := w.PutByte(padlen);
    ok := w.SetPos(end);
  }

  lemma LayoutIs(zeros: seq<Byte>, payload: seq<Byte>, size: seq<Byte>, padlen: Byte, noise: seq<Byte>)
    requires |zeros| == 5 && |size| == 4
    ensures var c := Overwrite(Overwrite(Overwrite(zeros, 5, payload), 0, size), 4, [padlen]);
            |c| == 5 + |payload| && Overwrite(c, |c|, noise) == size + [padlen] + payload + noise
  {
    var c1 := Overwrite(zeros, 5, payload);
    assert c1 == zeros + payload;
    var c2 := Overwrite(c1, 0, size);
    assert c2 == size + [zeros[4]] + payload;
    assert Overwrite(c2, 4, [padlen]) == size + [padlen] + payload;
  }

  class Receiver {
    var key: Key
    /** What readbuf holds up to its position, and its length once known. */
    var readbuf: seq<Byte>
    var len: nat
    var prev: seq<Byte>
    var recvseq: nat
    var payloads: seq<seq<Byte>>

    function View(): Recv
      reads this
    {
      Recv(readbuf, len, prev, recvseq, payloads)
    }

    constructor (key: Key, recvseq: nat)
      ensures this.key == key && View() == Recv([], 0, [], recvseq, [])
    {
      this.key, this.recvseq, readbuf, len, prev, payloads := key, recvseq, [], 0, [], [];
    }

    /** done says the length is now known; ok is false where the source exits. */
    method ReadPacketInit(got: seq<Byte>) returns (ok: bool, done: bool)
      requires Ideal(key) && RecvOk(key, View()) && len == 0 && |got| <= Wanted(key, View())
      modifies this`readbuf, this`len, this`prev
      ensures ok == ReadInit(key, old(View()), got).Go?
      ensures ok ==> View() == ReadInit(key, old(View()), got).recv && done == (len > 0)
    {
      readbuf := readbuf + got;
      if |readbuf| != key.bs { return true, false; }
      var cipher := readbuf;
      readbuf := key.dec(prev, cipher);
      var size := (BeVal(readbuf[..4]) + 4 + key.macSize) % WORD32;
      if size > RECV_MAX_PACKET_LEN || size < MIN_PACKET_LEN + key.macSize || (size - key.macSize) % key.bs != 0 {
        return false, false;
      }
      prev := prev + cipher;
      len := size;
      return true, true;
    }

    method DecryptPacketNow() returns (ok: bool)
      requires Ideal(key) && RecvOk(key, View()) && |readbuf| == len > 0
      modifies this`readbuf, this`len, this`prev, this`recvseq, this`payloads
      ensures ok == DecryptPacket(key, old(View())).Go?
      ensures ok ==> View() == DecryptPacket(key, old(View())).recv
    {
      var n := len - key.macSize;
      ModMinus(n, key.bs);
      var rest := readbuf[key.bs..n];
      var clear := readbuf[..key.bs] + Decrypt(key, prev, rest);
      if key.mac(recvseq, clear) != readbuf[n..] { return false; }
      ok := TakePayload(clear, rest);
    }

    /** The rest of decrypt_packet, once the MAC has been found right. */
    method TakePayload(clear: seq<Byte>, rest: seq<Byte>) returns (ok: bool)
      requires Ideal(key) && RecvOk(key, View()) && |readbuf| == len > 0 && rest == readbuf[key.bs..len - key.macSize]
      requires |clear| == len - key.macSize && clear == readbuf[..key.bs] + Decrypt(key, prev, rest)
      requires key.mac(recvseq, clear) == readbuf[len - key.macSize..]
      modifies this`readbuf, this`len, this`prev, this`recvseq, this`payloads
      ensures ok == DecryptPacket(key, old(View())).Go?
      ensures ok ==> View() == DecryptPacket(key, old(View())).recv
    {
      var size := (len - clear[4] - 4 - 1 - key.macSize) % WORD32;
      DecryptGives(key, View(), clear, size);
      if size > RECV_MAX_PAYLOAD_LEN || size < 1 { return false; }
      Deliver(clear[5..5 + size], rest);
      return true;
    }

    /** The payload is copied out, the buffer freed and the packet counted. */
    method Deliver(payload: seq<Byte>, rest: seq<Byte>)
      modifies this`readbuf, this`len, this`prev, this`recvseq, this`payloads
      ensures View() == Recv([], 0, old(prev) + rest, (old(recvseq) + 1) % WORD32, old(payloads) + [payload])
    {
      payloads := payloads + [payload];
      prev := prev + rest;
      readbuf, len := [], 0;
      recvseq := (recvseq + 1) % WORD32;
    }

    /** read_packet; first and second are what its two calls of read() return. */
    method ReadPacketNow(first: seq<Byte>, second: seq<Byte>) returns (ok: bool)
      requires Ideal(key) && RecvOk(key, View()) && (len == 0 ==> |first| <= Wanted(key, View()))
      requires var v := if len == 0 then ReadInit(key, View(), first) else Outcome.Go(View());
               v.Go? && v.recv.need > 0 ==> |second| <= Wanted(key, v.recv)
      modifies this`readbuf, this`len, this`prev, this`recvseq, this`payloads
      ensures var v := if old(len) == 0 then ReadInit(key, old(View()), first) else Outcome.Go(old(View()));
              var w := if v.Exit? || v.recv.need == 0 then v else ReadRest(key, v.recv, second);
              ok == w.Go? && (ok ==> View() == w.recv)
    {
      if len == 0 {
        var done;
        ok, done := ReadPacketInit(first);
        if !ok || !done { return; }
      }
      readbuf := readbuf + second;
      ok := true;
      if |readbuf| == len { ok := DecryptPacketNow(); }
    }

    /** process_packet on the payload just decrypted: recv_msg_newkeys takes next into use. */
    method ProcessPayload(next: Key)
      requires payloads != [] && len == 0 && readbuf == []
      modifies this`key, this`prev
      ensures var p := payloads[|payloads| - 1];
              View() == old(View()).(prev := Behind(p, 0, Crypt(old(prev), recvseq)).crypt.prev)
              && key == if IsNewkeys(p) then next else old(key)
      ensures Ideal(key) ==> RecvOk(key, View())
    {
      var p := payloads[|payloads| - 1];
      if |p| > 0 && p[0] == NEWKEYS { key, prev := next, []; }
    }
  }
}
