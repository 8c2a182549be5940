/**
 * Any chunking of writes and reads delivers the payloads sent, in order, and none is refused, whatever keys
 * come into use between packets: each side takes new ones right behind a NEWKEYS packet.
 */
module FramingRun {
  import opened Prelude
  import opened Arith
  import opened Bytes
  import opened Framing

  /** Queue of n bytes accepted by the kernel: the loop of write_packet. */
  function Consume(q: seq<WriteBuf>, written: nat): (r: seq<WriteBuf>)
    requires AllQueued(q) && written <= |Pending(q)|
    ensures AllQueued(r)
  {
    if written == 0 then q
    else
      var len := |q[0].data| - 1 - q[0].pos;
      if len > written then [q[0].(pos := q[0].pos + written)] + q[1..]
      else Consume(q[1..], written - len)
  }

  lemma {:induction false} ConsumeSends(q: seq<WriteBuf>, written: nat)
    requires AllQueued(q) && written <= |Pending(q)|
    ensures Pending(Consume(q, written)) == Pending(q)[written..]
    decreases |q|
  {
    if written > 0 {
      var len := |q[0].data| - 1 - q[0].pos;
      if len > written {
        assert ([q[0].(pos := q[0].pos + written)] + q[1..])[1..] == q[1..];
      } else {
        ConsumeSends(q[1..], written - len);
        assert (Unsent(q[0]) + Pending(q[1..]))[written..] == Pending(q[1..])[written - len..];
      }
    }
  }

  ghost predicate AllSendable(log: seq<Packet>) { forall i | 0 <= i < |log| :: Sendable(log[i]) }

  const NEWKEYS: Byte := 21

  predicate IsNewkeys(payload: seq<Byte>) { payload != [] && payload[0] == NEWKEYS }

  /** The keys of each epoch, the same at both ends. */
  type Keys = nat -> Key

  ghost predicate AllIdeal(keys: Keys) { forall e: nat :: Ideal(keys(e)) }

  /** Which keys are in use, and their running state. */
  datatype Place = Place(epoch: nat, crypt: Crypt)

  /** switch_keys behind a NEWKEYS: the next keys, with no ciphertext before them; the numbers run on. */
  function Behind(payload: seq<Byte>, epoch: nat, crypt: Crypt): Place {
    if IsNewkeys(payload) then Place(epoch + 1, Crypt([], crypt.seqno)) else Place(epoch, crypt)
  }

  ghost function Next(keys: Keys, pl: Place, p: Packet): Place
    requires AllIdeal(keys) && Sendable(p)
  {
    Behind(p.payload, pl.epoch, Advance(keys(pl.epoch), pl.crypt, p))
  }

  ghost function SealedAt(keys: Keys, pl: Place, p: Packet): (r: seq<Byte>)
    requires AllIdeal(keys) && Sendable(p)
    ensures |r| == Total(p, keys(pl.epoch).bs) + keys(pl.epoch).macSize
  {
    Sealed(keys(pl.epoch), pl.crypt, p)
  }

  /** The stream and the place after a list of packets. */
  ghost function StreamOf(keys: Keys, pl: Place, log: seq<Packet>): seq<Byte>
    requires AllIdeal(keys) && AllSendable(log)
    decreases |log|
  {
    if log == [] then [] else SealedAt(keys, pl, log[0]) + StreamOf(keys, Next(keys, pl, log[0]), log[1..])
  }

  ghost function After(keys: Keys, pl: Place, log: seq<Packet>): Place
    requires AllIdeal(keys) && AllSendable(log)
    decreases |log|
  {
    if log == [] then pl else After(keys, Next(keys, pl, log[0]), log[1..])
  }

  lemma StreamCons(keys: Keys, pl: Place, p: Packet, t: seq<Packet>)
    requires AllIdeal(keys) && Sendable(p) && AllSendable(t)
    ensures StreamOf(keys, pl, [p] + t) == SealedAt(keys, pl, p) + StreamOf(keys, Next(keys, pl, p), t)
    ensures After(keys, pl, [p] + t) == After(keys, Next(keys, pl, p), t)
  {
    assert ([p] + t)[1..] == t;
  }

  lemma StreamNone(keys: Keys, pl: Place)
    requires AllIdeal(keys)
    ensures StreamOf(keys, pl, []) == [] && After(keys, pl, []) == pl
  {
  }

  lemma FrontOf(log: seq<Packet>, p: Packet)
    requires log != [] && Sendable(p) && AllSendable(log)
    ensures log == [log[0]] + log[1..] && log + [p] == [log[0]] + (log[1..] + [p]) && AllSendable(log[1..] + [p])
  {
  }

  lemma {:induction false} AfterSnoc(keys: Keys, pl: Place, log: seq<Packet>, p: Packet)
    requires AllIdeal(keys) && Sendable(p) && AllSendable(log)
    ensures After(keys, pl, log + [p]) == Next(keys, After(keys, pl, log), p)
    decreases |log|
  {
    if log == [] {
      StreamNone(keys, Next(keys, pl, p));
      StreamCons(keys, pl, p, []);
      assert log + [p] == [p] + [];
    } else {
      FrontOf(log, p);
      AfterSnoc(keys, Next(keys, pl, log[0]), log[1..], p);
      StreamCons(keys, pl, log[0], log[1..] + [p]);
    }
  }

  lemma {:induction false} StreamSnoc(keys: Keys, pl: Place, log: seq<Packet>, p: Packet)
    requires AllIdeal(keys) && Sendable(p) && AllSendable(log)
    ensures StreamOf(keys, pl, log + [p]) == StreamOf(keys, pl, log) + SealedAt(keys, After(keys, pl, log), p)
    decreases |log|
  {
    if log == [] {
      StreamNone(keys, Next(keys, pl, p));
      StreamCons(keys, pl, p, []);
      assert log + [p] == [p] + [];
    } else {
      var pl1, t := Next(keys, pl, log[0]), log[1..];
      FrontOf(log, p);
      StreamSnoc(keys, pl1, t, p);
      StreamCons(keys, pl, log[0], t + [p]);
      Assoc(SealedAt(keys, pl, log[0]), StreamOf(keys, pl1, t), SealedAt(keys, After(keys, pl1, t), p));
    }
  }

  /** The whole link: everything submitted, the sender, the bytes in transit, the receiver, and the keys each uses. */
  datatype Net = Net(log: seq<Packet>, send: Send, sendEpoch: nat, wire: seq<Byte>, recv: Recv, recvEpoch: nat)

  ghost predicate NetOk(keys: Keys, net: Net)
    requires AllIdeal(keys)
  {
    RecvOk(keys(net.recvEpoch), net.recv) && AllQueued(net.send.queue)
  }

  /** A packet is sealed, the kernel takes some bytes, or read_packet runs and its reads return some. */
  datatype Step = Submit(p: Packet) | Write(n: nat) | Read(n1: nat, n2: nat)

  datatype Verdict = Goes(net: Net) | Dies(why: string)

  function Received(net: Net, o: Outcome, m: nat): Verdict
    requires m <= |net.wire|
  {
    match o
    case Go(r) => Goes(net.(recv := r, wire := net.wire[m..]))
    case Exit(why) => Dies(why)
  }

  /** The two reads of read_packet; n1 and n2 bound what they return. */
  function StartRead(k: Key, net: Net, n1: nat): (v: Verdict)
    requires Ideal(k) && RecvOk(k, net.recv) && net.recv.need == 0
    ensures v.Goes? ==> RecvOk(k, v.net.recv) && v.net == net.(recv := v.net.recv, wire := v.net.wire)
  {
    var m := Min(Min(n1, |net.wire|), Wanted(k, net.recv));
    Received(net, ReadInit(k, net.recv, net.wire[..m]), m)
  }

  function FinishRead(k: Key, net: Net, n2: nat): (v: Verdict)
    requires Ideal(k) && RecvOk(k, net.recv) && net.recv.need > 0
    ensures v.Goes? ==> RecvOk(k, v.net.recv) && v.net == net.(recv := v.net.recv, wire := v.net.wire)
  {
    var m := Min(Min(n2, |net.wire|), Wanted(k, net.recv));
    Received(net, ReadRest(k, net.recv, net.wire[..m]), m)
  }

  /** process_packet, when read_packet has completed one: recv_msg_newkeys takes the next keys into use. */
  function Process(net: Net, had: nat): Net
    requires had <= |net.recv.delivered|
  {
    var d, r := net.recv.delivered, net.recv;
    if |d| == had then net
    else
      var pl := Behind(d[|d| - 1], net.recvEpoch, Crypt(r.prev, r.seqno));
      net.(recv := r.(prev := pl.crypt.prev), recvEpoch := pl.epoch)
  }

  ghost function ReadStep(keys: Keys, net: Net, n1: nat, n2: nat): (v: Verdict)
    requires AllIdeal(keys) && NetOk(keys, net)
    ensures v.Goes? ==> NetOk(keys, v.net)
  {
    var k := keys(net.recvEpoch);
    var v := if net.recv.need == 0 then StartRead(k, net, n1) else Goes(net);
    if v.Dies? || v.net.recv.need == 0 then v
    else
      var w := FinishRead(k, v.net, n2);
      if w.Dies? then w else Goes(Process(w.net, |v.net.recv.delivered|))
  }

  /** encrypt_packet, and behind a NEWKEYS switch_keys. */
  ghost function SubmitStep(keys: Keys, net: Net, p: Packet): Net
    requires AllIdeal(keys) && Sendable(p)
  {
    var s := SealNext(keys(net.sendEpoch), net.send, p);
    var pl := Behind(p.payload, net.sendEpoch, s.crypt);
    net.(log := net.log + [p], send := s.(crypt := pl.crypt), sendEpoch := pl.epoch)
  }

  ghost function Take(keys: Keys, net: Net, s: Step): (v: Verdict)
    requires AllIdeal(keys) && NetOk(keys, net)
    ensures v.Goes? ==> NetOk(keys, v.net)
  {
    match s
    case Submit(p) =>
      if !Sendable(p) then Goes(net)
      else
        PacketShape(p, keys(net.sendEpoch));
        Goes(SubmitStep(keys, net, p))
    case Write(n) =>
      var m := Min(n, |Pending(net.send.queue)|);
      Goes(net.(send := net.send.(queue := Consume(net.send.queue, m)),
                wire := net.wire + Pending(net.send.queue)[..m]))
    case Read(n1, n2) => ReadStep(keys, net, n1, n2)
  }

  ghost function Run(keys: Keys, net: Net, steps: seq<Step>): (v: Verdict)
    requires AllIdeal(keys) && NetOk(keys, net)
    ensures v.Goes? ==> NetOk(keys, v.net)
    decreases |steps|
  {
    if steps == [] then Goes(net)
    else
      var v := Take(keys, net, steps[0]);
      if v.Dies? then v else Run(keys, v.net, steps[1..])
  }

  // ---------------------------------------------------------------- the invariant

  /** The receiver's bytes of the packet under way, as they came, and its state when that packet began. */
  function Raw(k: Key, r: Recv): (raw: seq<Byte>)
    requires k.bs > 0 && RecvOk(k, r)
    ensures |raw| == |r.got|
  {
    if r.need == 0 then r.got else r.prev[|r.prev| - k.bs..] + r.got[k.bs..]
  }

  function Began(k: Key, r: Recv): Crypt
    requires k.bs > 0 && RecvOk(k, r)
  {
    Crypt(if r.need == 0 then r.prev else r.prev[..|r.prev| - k.bs], r.seqno)
  }

  function Payloads(log: seq<Packet>): seq<seq<Byte>> {
    seq(|log|, i requires 0 <= i < |log| => log[i].payload)
  }

  /** How many NEWKEYS there are. */
  function Epochs(payloads: seq<seq<Byte>>): nat {
    if payloads == [] then 0
    else Epochs(payloads[..|payloads| - 1]) + if IsNewkeys(payloads[|payloads| - 1]) then 1 else 0
  }

  lemma EpochsSnoc(payloads: seq<seq<Byte>>, p: seq<Byte>)
    ensures Epochs(payloads + [p]) == Epochs(payloads) + if IsNewkeys(p) then 1 else 0
  {
    assert (payloads + [p])[..|payloads|] == payloads;
  }

  /** What is still to be delivered is exactly what is buffered, in transit and queued, sealed in step. */
  ghost predicate InStep(keys: Keys, e: nat, r: Recv, left: seq<Packet>, stream: seq<Byte>, end: Place)
    requires AllIdeal(keys)
  {
    var k := keys(e);
    && RecvOk(k, r) && AllSendable(left)
    && Raw(k, r) + stream == StreamOf(keys, Place(e, Began(k, r)), left)
    && end == After(keys, Place(e, Began(k, r)), left)
    && (r.need > 0 ==> left != [] && r.need == Total(left[0], k.bs) + k.macSize
                       && r.got[..k.bs] == Clear(left[0], k.bs)[..k.bs])
  }

  /** Lemmas on the way conclude NetInv(..) == NetInv(keys, net), or == inv: the invariant is handed on whole. */
  ghost predicate NetInv(keys: Keys, net: Net)
    requires AllIdeal(keys)
  {
    var n := |net.recv.delivered|;
    && AllQueued(net.send.queue) && n <= |net.log|
    && InStep(keys, net.recvEpoch, net.recv, net.log[n..], net.wire + Pending(net.send.queue),
              Place(net.sendEpoch, net.send.crypt))
    && net.recv.delivered == Payloads(net.log[..n])
    && net.recvEpoch == Epochs(net.recv.delivered) && net.sendEpoch == Epochs(Payloads(net.log))
  }

  lemma SubmitInStep(keys: Keys, e: nat, r: Recv, left: seq<Packet>, stream: seq<Byte>, end: Place, p: Packet)
    requires AllIdeal(keys) && InStep(keys, e, r, left, stream, end) && Sendable(p)
    ensures InStep(keys, e, r, left + [p], stream + SealedAt(keys, end, p), Next(keys, end, p))
  {
    StreamSnoc(keys, Place(e, Began(keys(e), r)), left, p);
    AfterSnoc(keys, Place(e, Began(keys(e), r)), left, p);
    Assoc(Raw(keys(e), r), stream, SealedAt(keys, end, p));
  }

  lemma QueueOne(q: seq<WriteBuf>, sealed: seq<Byte>, ty: Byte)
    requires AllQueued(q) && sealed != []
    ensures var q' := q + [WriteBuf(sealed + [ty], 0)]; AllQueued(q') && Pending(q') == Pending(q) + sealed
  {
    var w := WriteBuf(sealed + [ty], 0);
    PendingConcat(q, [w]);
    assert [w][1..] == [] && Unsent(w) == sealed;
  }

  lemma SubmitKeeps(keys: Keys, net: Net, p: Packet)
    requires AllIdeal(keys) && NetInv(keys, net) && Sendable(p)
    ensures NetInv(keys, SubmitStep(keys, net, p))
  {
    var k, n, net' := keys(net.sendEpoch), |net.recv.delivered|, SubmitStep(keys, net, p);
    var pend, sealed := Pending(net.send.queue), Sealed(k, net.send.crypt, p);
    SubmitInStep(keys, net.recvEpoch, net.recv, net.log[n..], net.wire + pend, Place(net.sendEpoch, net.send.crypt), p);
    assert net'.log[n..] == net.log[n..] + [p] && net'.log[..n] == net.log[..n];
    PacketShape(p, k);
    QueueOne(net.send.queue, sealed, p.payload[0]);
    Assoc(net.wire, pend, sealed);
    assert Payloads(net'.log) == Payloads(net.log) + [p.payload];
    EpochsSnoc(Payloads(net.log), p.payload);
  }

  lemma WriteKeeps(keys: Keys, net: Net, n: nat)
    requires AllIdeal(keys) && NetInv(keys, net)
    ensures NetInv(keys, Take(keys, net, Write(n)).net)
  {
    var p := Pending(net.send.queue);
    var m := Min(n, |p|);
    ConsumeSends(net.send.queue, m);
    assert net.wire + p == (net.wire + p[..m]) + p[m..];
  }

  /** The length field of a sealed packet's first block. */
  lemma LengthField(k: Key, p: Packet, block: seq<Byte>)
    requires Ideal(k) && Sendable(p) && block == Clear(p, k.bs)[..k.bs]
    ensures (BeVal(block[..4]) + 4 + k.macSize) % WORD32 == Total(p, k.bs) + k.macSize
    ensures Total(p, k.bs) + k.macSize <= RECV_MAX_PACKET_LEN && Total(p, k.bs) >= MIN_PACKET_LEN
    ensures Total(p, k.bs) % k.bs == 0
  {
    PacketShape(p, k);
    assert block[..4] == Clear(p, k.bs)[..4] == Int32(Total(p, k.bs) - 4);
    Int32RoundTrip(Total(p, k.bs) - 4);
    SmallMod(Total(p, k.bs) + k.macSize, WORD32);
  }

  /** The first block of a sealed packet deciphers to the first block of the packet. */
  lemma FirstBlock(k: Key, c: Crypt, p: Packet, first: seq<Byte>)
    requires Ideal(k) && Sendable(p) && first == Sealed(k, c, p)[..k.bs]
    ensures k.dec(c.prev, first) == Clear(p, k.bs)[..k.bs]
    ensures Encrypt(k, c.prev, Clear(p, k.bs)) == first + Encrypt(k, c.prev + first, Clear(p, k.bs)[k.bs..])
  {
    var clear := Clear(p, k.bs);
    assert Encrypt(k, c.prev, clear)[..k.bs] == k.enc(c.prev, clear[..k.bs]);
    assert first == Encrypt(k, c.prev, clear)[..k.bs];
  }

  lemma StreamHead(keys: Keys, pl: Place, left: seq<Packet>)
    requires AllIdeal(keys) && AllSendable(left)
    ensures left != [] ==>
              var s := SealedAt(keys, pl, left[0]);
              |StreamOf(keys, pl, left)| >= |s| && StreamOf(keys, pl, left)[..|s|] == s
    ensures left == [] ==> StreamOf(keys, pl, left) == []
  {
  }

  lemma InitKeeps(keys: Keys, e: nat, r: Recv, left: seq<Packet>, stream: seq<Byte>, end: Place, m: nat)
    requires AllIdeal(keys) && InStep(keys, e, r, left, stream, end) && r.need == 0
    requires m <= |stream| && m <= Wanted(keys(e), r)
    ensures var o := ReadInit(keys(e), r, stream[..m]);
            o.Go? && o.recv.delivered == r.delivered && InStep(keys, e, o.recv, left, stream[m..], end)
  {
    var k, all := keys(e), r.got + stream[..m];
    assert r.got + stream == all + stream[m..];
    if |all| == k.bs {
      StreamHead(keys, Place(e, Began(k, r)), left);
      InitComplete(k, r, left[0], all, stream[m..]);
    }
  }

  lemma InitComplete(k: Key, r: Recv, p: Packet, all: seq<Byte>, rest: seq<Byte>)
    requires Ideal(k) && Sendable(p) && RecvOk(k, r) && r.need == 0 && |all| == k.bs && r.got <= all
    requires |all + rest| >= Total(p, k.bs) + k.macSize
    requires (all + rest)[..Total(p, k.bs) + k.macSize] == Sealed(k, Began(k, r), p)
    ensures var o := ReadInit(k, r, all[|r.got|..]);
            o.Go? && Raw(k, o.recv) == all && Began(k, o.recv) == Began(k, r) && o.recv.delivered == r.delivered
            && o.recv.need == Total(p, k.bs) + k.macSize && o.recv.got == Clear(p, k.bs)[..k.bs]
  {
    PacketShape(p, k);
    HeadOf(all, rest, Sealed(k, Began(k, r), p), k.bs);
    FirstBlock(k, Began(k, r), p, all);
    LengthField(k, p, k.dec(r.prev, all));
    InitGives(k, r, all, Total(p, k.bs) + k.macSize);
  }

  /** read_packet_init on a whole first block whose length field is in order. */
  lemma InitGives(k: Key, r: Recv, all: seq<Byte>, len: nat)
    requires Ideal(k) && RecvOk(k, r) && r.need == 0 && |all| == k.bs && r.got <= all
    requires len == (BeVal(k.dec(r.prev, all)[..4]) + 4 + k.macSize) % WORD32
    requires MIN_PACKET_LEN + k.macSize <= len <= RECV_MAX_PACKET_LEN && (len - k.macSize) % k.bs == 0
    ensures var o := ReadInit(k, r, all[|r.got|..]);
            o == Go(r.(got := k.dec(r.prev, all), need := len, prev := r.prev + all))
            && Raw(k, o.recv) == all && Began(k, o.recv) == Began(k, r)
  {
    assert r.got + all[|r.got|..] == all;
    assert (r.prev + all)[|r.prev + all| - k.bs..] == all && (r.prev + all)[..|r.prev + all| - k.bs] == r.prev;
  }

  lemma HeadOf(a: seq<Byte>, rest: seq<Byte>, s: seq<Byte>, n: nat)
    requires |a| == n <= |s| <= |a + rest| && (a + rest)[..|s|] == s
    ensures a == s[..n]
  {
    assert (a + rest)[..n] == a;
    assert s[..n] == (a + rest)[..n];
  }

  predicate Arrived(k: Key, r: Recv, p: Packet)
    requires Ideal(k) && Sendable(p) && RecvOk(k, r)
  {
    && r.need == |r.got| == Total(p, k.bs) + k.macSize
    && Raw(k, r) == Sealed(k, Began(k, r), p) && r.got[..k.bs] == Clear(p, k.bs)[..k.bs]
  }

  /** Behind its first block, a packet that has arrived whole is the rest of its ciphertext and its MAC. */
  lemma ArrivedParts(k: Key, r: Recv, p: Packet)
    requires Ideal(k) && Sendable(p) && RecvOk(k, r) && Arrived(k, r, p)
    ensures var clear, n := Clear(p, k.bs), r.need - k.macSize;
            && r.got[k.bs..n] == Encrypt(k, r.prev, clear[k.bs..]) && r.got[n..] == k.mac(r.seqno, clear)
            && r.prev + r.got[k.bs..n] == Advance(k, Began(k, r), p).prev
  {
    var began, clear, n := Began(k, r), Clear(p, k.bs), r.need - k.macSize;
    var first := r.prev[|r.prev| - k.bs..];
    assert first == Raw(k, r)[..k.bs];
    FirstBlock(k, began, p, first);
    var rest := Encrypt(k, began.prev + first, clear[k.bs..]);
    assert r.prev == began.prev + first;
    Pieces(first, r.got[..k.bs], r.got[k.bs..], rest, k.mac(r.seqno, clear), r.got, k.bs, n);
    Assoc(began.prev, first, rest);
  }

  /** A packet that has arrived whole deciphers, passes its check and gives its payload back. */
  lemma PacketOpens(k: Key, r: Recv, p: Packet)
    requires Ideal(k) && Sendable(p) && RecvOk(k, r) && Arrived(k, r, p)
    ensures var c := Advance(k, Began(k, r), p);
            DecryptPacket(k, r) == Go(Recv([], 0, c.prev, c.seqno, r.delivered + [p.payload]))
  {
    var clear := Clear(p, k.bs);
    ArrivedParts(k, r, p);
    RestDeciphers(k, r.prev, clear);
    PayloadOf(p, k, r.need);
    DecryptGives(k, r, clear, |p.payload|);
  }

  /** With any other bytes in place of its MAC it is refused. */
  lemma BadMacRefused(k: Key, r: Recv, p: Packet, bad: seq<Byte>)
    requires Ideal(k) && Sendable(p) && RecvOk(k, r) && Arrived(k, r, p)
    requires |bad| == k.macSize && bad != k.mac(r.seqno, Clear(p, k.bs))
    ensures DecryptPacket(k, r.(got := r.got[..r.need - k.macSize] + bad)).Exit?
  {
    var n, altered := r.need - k.macSize, r.(got := r.got[..r.need - k.macSize] + bad);
    ArrivedParts(k, r, p);
    RestDeciphers(k, r.prev, Clear(p, k.bs));
    assert altered.got[..k.bs] == r.got[..k.bs] && altered.got[k.bs..n] == r.got[k.bs..n] && altered.got[n..] == bad;
  }

  /** decrypt_packet behind its MAC check. */
  lemma DecryptGives(k: Key, r: Recv, clear: seq<Byte>, len: nat)
    requires Ideal(k) && RecvOk(k, r) && r.need > 0 && |r.got| == r.need && |clear| == r.need - k.macSize
    requires clear == r.got[..k.bs] + Decrypt(k, r.prev, r.got[k.bs..r.need - k.macSize])
    requires k.mac(r.seqno, clear) == r.got[r.need - k.macSize..]
    requires len == (r.need - clear[4] - 4 - 1 - k.macSize) % WORD32
    ensures len > RECV_MAX_PAYLOAD_LEN || len < 1 ==> DecryptPacket(k, r).Exit?
    ensures 1 <= len <= RECV_MAX_PAYLOAD_LEN ==>
              5 + len <= |clear|
              && DecryptPacket(k, r) == Go(Recv([], 0, r.prev + r.got[k.bs..r.need - k.macSize],
                                                (r.seqno + 1) % WORD32, r.delivered + [clear[5..5 + len]]))
  {
    if len <= RECV_MAX_PAYLOAD_LEN { PayloadFits(r.need - k.macSize, clear[4], len); }
  }

  /** Cutting the packet where the receiver does. */
  lemma Pieces(first: seq<Byte>, block: seq<Byte>, tail: seq<Byte>, rest: seq<Byte>, mac: seq<Byte>, got: seq<Byte>,
               bs: nat, n: nat)
    requires |first| == |block| == bs && got == block + tail && first + tail == (first + rest) + mac
    requires n == |got| - |mac| && bs <= n
    ensures got[bs..n] == rest && got[n..] == mac
  {
    assert (first + tail)[bs..] == tail && (first + rest + mac)[bs..] == rest + mac;
  }

  lemma RestDeciphers(k: Key, prev: seq<Byte>, clear: seq<Byte>)
    requires Ideal(k) && |clear| >= k.bs && |clear| % k.bs == 0
    ensures clear[..k.bs] + Decrypt(k, prev, Encrypt(k, prev, clear[k.bs..])) == clear
  {
    ModMinus(|clear|, k.bs);
    DecryptEncrypt(k, prev, clear[k.bs..]);
  }

  lemma PayloadOf(p: Packet, k: Key, need: nat)
    requires Ideal(k) && Sendable(p) && need == Total(p, k.bs) + k.macSize
    ensures (need - Clear(p, k.bs)[4] - 4 - 1 - k.macSize) % WORD32 == |p.payload|
    ensures Clear(p, k.bs)[5..5 + |p.payload|] == p.payload
  {
    PacketShape(p, k);
    SmallMod(|p.payload|, WORD32);
  }

  lemma PartKeeps(keys: Keys, e: nat, r: Recv, left: seq<Packet>, stream: seq<Byte>, end: Place, m: nat)
    requires AllIdeal(keys) && InStep(keys, e, r, left, stream, end) && r.need > 0
    requires m <= |stream| && m <= Wanted(keys(e), r)
    ensures var r1 := r.(got := r.got + stream[..m]);
            InStep(keys, e, r1, left, stream[m..], end) && Began(keys(e), r1) == Began(keys(e), r)
  {
    RawGrows(keys(e), r, stream[..m]);
    Regroup(Raw(keys(e), r), stream, m);
  }

  lemma RawGrows(k: Key, r: Recv, more: seq<Byte>)
    requires k.bs > 0 && RecvOk(k, r) && r.need > 0 && |more| <= Wanted(k, r)
    ensures var r1 := r.(got := r.got + more);
            RecvOk(k, r1) && Raw(k, r1) == Raw(k, r) + more && Began(k, r1) == Began(k, r)
            && r1.got[..k.bs] == r.got[..k.bs]
  {
  }

  lemma Regroup(raw: seq<Byte>, stream: seq<Byte>, m: nat)
    requires m <= |stream|
    ensures (raw + stream[..m]) + stream[m..] == raw + stream
  {
  }

  /** What process_packet makes of a receiver that has just delivered a payload. */
  function Turned(payload: seq<Byte>, e: nat, r: Recv): (Recv, nat) {
    var pl := Behind(payload, e, Crypt(r.prev, r.seqno));
    (r.(prev := pl.crypt.prev), pl.epoch)
  }

  lemma WholeKeeps(keys: Keys, e: nat, r: Recv, left: seq<Packet>, stream: seq<Byte>, end: Place)
    requires AllIdeal(keys) && InStep(keys, e, r, left, stream, end) && r.need == |r.got| > 0
    ensures var o := DecryptPacket(keys(e), r);
            o.Go? && o.recv.delivered == r.delivered + [left[0].payload]
            && var (r', e') := Turned(left[0].payload, e, o.recv); InStep(keys, e', r', left[1..], stream, end)
  {
    var k, pl := keys(e), Place(e, Began(keys(e), r));
    StreamHead(keys, pl, left);
    var s, raw := SealedAt(keys, pl, left[0]), Raw(k, r);
    assert |s| == |raw| && (raw + stream)[..|s|] == s;
    assert raw == s;
    PacketOpens(k, r, left[0]);
    var (r', e') := Turned(left[0].payload, e, DecryptPacket(k, r).recv);
    TailOf(s, stream, StreamOf(keys, Next(keys, pl, left[0]), left[1..]));
    assert Place(e', Began(keys(e'), r')) == Next(keys, pl, left[0]);
    assert Raw(keys(e'), r') == [];
    assert [] + stream == stream;
  }

  lemma RestKeeps(keys: Keys, e: nat, r: Recv, left: seq<Packet>, stream: seq<Byte>, end: Place, m: nat)
    requires AllIdeal(keys) && InStep(keys, e, r, left, stream, end) && r.need > 0
    requires m <= |stream| && m <= Wanted(keys(e), r)
    ensures var o := ReadRest(keys(e), r, stream[..m]);
            o.Go? && (if m < Wanted(keys(e), r)
                      then o.recv.delivered == r.delivered && InStep(keys, e, o.recv, left, stream[m..], end)
                      else o.recv.delivered == r.delivered + [left[0].payload]
                           && var (r', e') := Turned(left[0].payload, e, o.recv);
                              InStep(keys, e', r', left[1..], stream[m..], end))
  {
    PartKeeps(keys, e, r, left, stream, end, m);
    if m == Wanted(keys(e), r) { WholeKeeps(keys, e, r.(got := r.got + stream[..m]), left, stream[m..], end); }
  }

  lemma TailOf(s: seq<Byte>, t: seq<Byte>, u: seq<Byte>)
    requires s + t == s + u
    ensures t == u
  {
    assert t == (s + t)[|s|..];
    assert u == (s + u)[|s|..];
  }

  /** The link once m bytes more have been read, with no packet complete and with one. */
  lemma ReadOn(keys: Keys, net: Net, r: Recv, m: nat)
    requires AllIdeal(keys) && NetInv(keys, net) && m <= |net.wire| && r.delivered == net.recv.delivered
    requires InStep(keys, net.recvEpoch, r, net.log[|r.delivered|..], (net.wire + Pending(net.send.queue))[m..],
                    Place(net.sendEpoch, net.send.crypt))
    ensures NetInv(keys, net.(recv := r, wire := net.wire[m..])) == NetInv(keys, net)
  {
    Cut(net.wire, Pending(net.send.queue), m);
  }

  lemma ReadWhole(keys: Keys, net: Net, r: Recv, e: nat, m: nat)
    requires AllIdeal(keys) && NetInv(keys, net) && m <= |net.wire| && |net.recv.delivered| < |net.log|
    requires r.delivered == net.recv.delivered + [net.log[|net.recv.delivered|].payload]
    requires e == net.recvEpoch + if IsNewkeys(net.log[|net.recv.delivered|].payload) then 1 else 0
    requires InStep(keys, e, r, net.log[|net.recv.delivered|..][1..], (net.wire + Pending(net.send.queue))[m..],
                    Place(net.sendEpoch, net.send.crypt))
    ensures NetInv(keys, net.(recv := r, recvEpoch := e, wire := net.wire[m..])) == NetInv(keys, net)
  {
    var d := |net.recv.delivered|;
    Cut(net.wire, Pending(net.send.queue), m);
    OneMore(net.log, d);
    EpochsSnoc(net.recv.delivered, net.log[d].payload);
  }

  /** read_packet consumes a prefix of what has arrived and stays in step, across a change of keys too. */
  lemma ReadKeeps(keys: Keys, net: Net, n1: nat, n2: nat)
    requires AllIdeal(keys) && NetInv(keys, net)
    ensures ReadStep(keys, net, n1, n2).Goes?
    ensures NetInv(keys, ReadStep(keys, net, n1, n2).net)
  {
    if net.recv.need == 0 {
      ReadFirst(keys, net, n1, n2);
    } else {
      FinishKeeps(keys, net, n2, NetInv(keys, net));
    }
  }

  lemma ReadFirst(keys: Keys, net: Net, n1: nat, n2: nat)
    requires AllIdeal(keys) && NetInv(keys, net) && net.recv.need == 0
    ensures ReadStep(keys, net, n1, n2).Goes?
    ensures NetInv(keys, ReadStep(keys, net, n1, n2).net) == NetInv(keys, net)
  {
    StartKeeps(keys, net, n1);
    var net1 := StartRead(keys(net.recvEpoch), net, n1).net;
    if net1.recv.need > 0 { FinishKeeps(keys, net1, n2, NetInv(keys, net)); }
  }

  lemma StartKeeps(keys: Keys, net: Net, n1: nat)
    requires AllIdeal(keys) && NetInv(keys, net) && net.recv.need == 0
    ensures var v := StartRead(keys(net.recvEpoch), net, n1); v.Goes? && (NetInv(keys, v.net) == NetInv(keys, net))
  {
    var k, pend := keys(net.recvEpoch), Pending(net.send.queue);
    var m := Min(Min(n1, |net.wire|), Wanted(k, net.recv));
    Cut(net.wire, pend, m);
    InitKeeps(keys, net.recvEpoch, net.recv, net.log[|net.recv.delivered|..], net.wire + pend,
              Place(net.sendEpoch, net.send.crypt), m);
    ReadOn(keys, net, ReadInit(k, net.recv, net.wire[..m]).recv, m);
  }

  lemma FinishKeeps(keys: Keys, net: Net, n2: nat, inv: bool)
    requires AllIdeal(keys) && inv && NetInv(keys, net) == inv && net.recv.need > 0
    ensures var v := FinishRead(keys(net.recvEpoch), net, n2);
            v.Goes? && |v.net.recv.delivered| >= |net.recv.delivered|
            && (NetInv(keys, Process(v.net, |net.recv.delivered|)) == inv)
  {
    var k, e, d, pend := keys(net.recvEpoch), net.recvEpoch, |net.recv.delivered|, Pending(net.send.queue);
    var m := Min(Min(n2, |net.wire|), Wanted(k, net.recv));
    Cut(net.wire, pend, m);
    RestKeeps(keys, e, net.recv, net.log[d..], net.wire + pend, Place(net.sendEpoch, net.send.crypt), m);
    var r := ReadRest(k, net.recv, net.wire[..m]).recv;
    if m < Wanted(k, net.recv) {
      ReadOn(keys, net, r, m);
    } else {
      var (r', e') := Turned(net.log[d].payload, e, r);
      ReadWhole(keys, net, r', e', m);
    }
  }

  lemma Cut(wire: seq<Byte>, pend: seq<Byte>, m: nat)
    requires m <= |wire|
    ensures (wire + pend)[..m] == wire[..m] && (wire + pend)[m..] == wire[m..] + pend
  {
  }

  lemma OneMore(log: seq<Packet>, d: nat)
    requires d < |log|
    ensures log[d..][1..] == log[d + 1..] && Payloads(log[..d + 1]) == Payloads(log[..d]) + [log[d..][0].payload]
  {
  }

  lemma TakeKeeps(keys: Keys, net: Net, s: Step)
    requires AllIdeal(keys) && NetInv(keys, net)
    ensures Take(keys, net, s).Goes? && NetInv(keys, Take(keys, net, s).net)
  {
    match s
    case Submit(p) => if Sendable(p) { SubmitKeeps(keys, net, p); }
    case Write(n) => WriteKeeps(keys, net, n);
    case Read(n1, n2) => ReadKeeps(keys, net, n1, n2);
  }

  lemma {:induction false} RunKeeps(keys: Keys, net: Net, steps: seq<Step>)
    requires AllIdeal(keys) && NetInv(keys, net)
    ensures Run(keys, net, steps).Goes? && NetInv(keys, Run(keys, net, steps).net)
    decreases |steps|
  {
    if steps != [] {
      TakeKeeps(keys, net, steps[0]);
      RunKeeps(keys, Take(keys, net, steps[0]).net, steps[1..]);
    }
  }

  /** Both ends before the first packet, with the same sequence number. */
  function Fresh(seqno: nat): Net {
    Net([], Send(Crypt([], seqno), []), 0, [], Recv([], 0, [], seqno, []), 0)
  }

  lemma PayloadsPrefix(log: seq<Packet>, n: nat)
    requires n <= |log|
    ensures Payloads(log[..n]) <= Payloads(log)
  {
  }

  /** No run refuses a packet, what is delivered is a prefix of what was sent, and once all bytes are in, all of it. */
  lemma EveryChunkingDelivers(keys: Keys, seqno: nat, steps: seq<Step>)
    requires AllIdeal(keys)
    ensures var v := Run(keys, Fresh(seqno), steps);
            v.Goes? && v.net.recv.delivered <= Payloads(v.net.log)
            && (v.net.wire == [] && Pending(v.net.send.queue) == [] && v.net.recv.got == []
                ==> v.net.recv.delivered == Payloads(v.net.log))
  {
    RunKeeps(keys, Fresh(seqno), steps);
    var net := Run(keys, Fresh(seqno), steps).net;
    var n := |net.recv.delivered|;
    StreamHead(keys, Place(net.recvEpoch, Began(keys(net.recvEpoch), net.recv)), net.log[n..]);
    PayloadsPrefix(net.log, n);
    if net.wire == [] && Pending(net.send.queue) == [] && net.recv.got == [] {
      assert net.log[n..] == [];
      assert net.log[..n] == net.log;
    }
  }

  /**
   * Wherever the reads and the key changes fall, the bytes read_packet holds are of one packet only, the next
   * one to deliver, and of one sealed under the very keys the receiver now uses: those of as many NEWKEYS as
   * have been delivered.
   */
  lemma NeverReadsAhead(keys: Keys, seqno: nat, steps: seq<Step>)
    requires AllIdeal(keys)
    ensures Run(keys, Fresh(seqno), steps).Goes?
    ensures var net := Run(keys, Fresh(seqno), steps).net;
            var n, k := |net.recv.delivered|, keys(net.recvEpoch);
            && net.recvEpoch == Epochs(net.recv.delivered) && net.sendEpoch == Epochs(Payloads(net.log))
            && n <= |net.log|
            && (net.recv.got != [] ==>
                  n < |net.log| && Sendable(net.log[n])
                  && Raw(k, net.recv) <= Sealed(k, Began(k, net.recv), net.log[n]))
  {
    RunKeeps(keys, Fresh(seqno), steps);
    var net := Run(keys, Fresh(seqno), steps).net;
    var n, k := |net.recv.delivered|, keys(net.recvEpoch);
    if net.recv.got != [] {
      var left, pl := net.log[n..], Place(net.recvEpoch, Began(k, net.recv));
      StreamHead(keys, pl, left);
      PacketShape(net.log[n], k);
      HeadIn(Raw(k, net.recv), net.wire + Pending(net.send.queue), SealedAt(keys, pl, net.log[n]));
    }
  }

  lemma HeadIn(raw: seq<Byte>, rest: seq<Byte>, s: seq<Byte>)
    requires |raw| <= |s| <= |raw + rest| && (raw + rest)[..|s|] == s
    ensures raw <= s
  {
    assert s[..|raw|] == (raw + rest)[..|raw|] == raw;
  }
}
