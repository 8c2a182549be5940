/** With 2^32 packets under the same keys the numbers come round: without chaining the first packet passes again. */
module FramingReplay {
  import opened Prelude
  import opened Arith
  import opened Modular
  import opened Bytes
  import opened Framing
  import opened FramingRun
  import opened FramingAltered

  /** The bytes on their way are a packet sealed for the receiver's own state, and it has nothing of one yet. */
  ghost predicate Offered(k: Key, net: Net, p: Packet)
    requires Ideal(k) && Sendable(p) && RecvOk(k, net.recv)
  {
    net.recv.got == [] && net.recv.need == 0 && net.wire == Sealed(k, Began(k, net.recv), p)
  }

  function Size(k: Key, p: Packet): nat
    requires k.bs > 0
  {
    Total(p, k.bs) + k.macSize
  }

  /** Its first block has been read. */
  lemma FirstIn(k: Key, net: Net, p: Packet) returns (r: Recv)
    requires Ideal(k) && Sendable(p) && RecvOk(k, net.recv) && Offered(k, net, p)
    ensures |net.wire| == Size(k, p) >= k.bs && RecvOk(k, r) && r.need == Size(k, p) && |r.got| == k.bs
    ensures StartRead(k, net, Size(k, p)) == Goes(net.(recv := r, wire := net.wire[k.bs..]))
    ensures Raw(k, r) == net.wire[..k.bs] && Began(k, r) == Began(k, net.recv)
    ensures r.delivered == net.recv.delivered && r.seqno == net.recv.seqno && r.got == Clear(p, k.bs)[..k.bs]
  {
    PacketShape(p, k);
    var first, second := net.wire[..k.bs], net.wire[k.bs..];
    assert first + second == net.wire && net.wire[..Size(k, p)] == net.wire;
    InitComplete(k, net.recv, p, first, second);
    assert first[|net.recv.got|..] == first;
    r := ReadInit(k, net.recv, first).recv;
  }

  /** And then the rest. */
  lemma RestIn(k: Key, net: Net, p: Packet, first: seq<Byte>) returns (r: Recv)
    requires Ideal(k) && Sendable(p) && RecvOk(k, net.recv) && net.recv.need == Size(k, p) && |net.recv.got| == k.bs
    requires Raw(k, net.recv) == first && first + net.wire == Sealed(k, Began(k, net.recv), p)
    requires net.recv.got == Clear(p, k.bs)[..k.bs]
    ensures r == net.recv.(got := net.recv.got + net.wire) && RecvOk(k, r) && Arrived(k, r, p)
    ensures Began(k, r) == Began(k, net.recv)
    ensures FinishRead(k, net, Size(k, p)) == Received(net, DecryptPacket(k, r), |net.wire|)
  {
    assert |net.wire| == Wanted(k, net.recv);
    RawGrows(k, net.recv, net.wire);
    assert net.wire[..|net.wire|] == net.wire;
    r := net.recv.(got := net.recv.got + net.wire);
  }

  /** Read whole, it is the packet that has arrived. */
  lemma AllIn(keys: Keys, net: Net, p: Packet) returns (r: Recv)
    requires AllIdeal(keys) && NetOk(keys, net) && Sendable(p) && Offered(keys(net.recvEpoch), net, p)
    ensures var k := keys(net.recvEpoch); RecvOk(k, r) && Arrived(k, r, p) && Began(k, r) == Began(k, net.recv)
    ensures r.seqno == net.recv.seqno && r.delivered == net.recv.delivered
    ensures var n := Size(keys(net.recvEpoch), p); Whole(keys, net, n, n) == Some(r)
  {
    var k := keys(net.recvEpoch);
    var r1 := FirstIn(k, net, p);
    var net1 := net.(recv := r1, wire := net.wire[k.bs..]);
    assert net.wire == net.wire[..k.bs] + net.wire[k.bs..];
    r := RestIn(k, net1, p, net.wire[..k.bs]);
    WholeOf(keys, net, net1, Size(k, p));
  }

  lemma WholeOf(keys: Keys, net: Net, net1: Net, n: nat)
    requires AllIdeal(keys) && NetOk(keys, net) && net.recv.need == 0
    requires StartRead(keys(net.recvEpoch), net, n) == Goes(net1) && net1.recv.need > 0
    requires |net1.wire| == Wanted(keys(net.recvEpoch), net1.recv) <= n
    ensures Whole(keys, net, n, n) == Some(net1.recv.(got := net1.recv.got + net1.wire))
  {
    assert net1.wire[..|net1.wire|] == net1.wire;
  }

  /** What the text deciphered of it is. */
  lemma DeciphersTo(k: Key, r: Recv, p: Packet)
    requires Ideal(k) && Sendable(p) && RecvOk(k, r) && Arrived(k, r, p)
    ensures r.need > 0 && Deciphered(k, r) == Clear(p, k.bs)
  {
    ArrivedParts(k, r, p);
    RestDeciphers(k, r.prev, Clear(p, k.bs));
  }

  /** Reading it delivers its payload and leaves the receiver with nothing of a packet again. */
  lemma ReadDelivers(keys: Keys, net: Net, p: Packet)
    requires AllIdeal(keys) && NetOk(keys, net) && Sendable(p) && !IsNewkeys(p.payload)
    requires Offered(keys(net.recvEpoch), net, p)
    ensures var k := keys(net.recvEpoch);
            var c := Advance(k, Began(k, net.recv), p);
            ReadStep(keys, net, Size(k, p), Size(k, p))
            == Goes(net.(recv := Recv([], 0, c.prev, c.seqno, net.recv.delivered + [p.payload]), wire := []))
  {
    var k := keys(net.recvEpoch);
    var r1 := FirstIn(k, net, p);
    var net1 := net.(recv := r1, wire := net.wire[k.bs..]);
    assert net.wire == net.wire[..k.bs] + net.wire[k.bs..];
    var r := RestIn(k, net1, p, net.wire[..k.bs]);
    PacketOpens(k, r, p);
    assert net1.wire[|net1.wire|..] == [];
  }

  // ---------------------------------------------------------------- one packet after the other

  /** A cipher whose blocks depend on nothing before them, as none and any cipher without chaining. */
  ghost predicate Stateless(k: Key) {
    forall prev, prev', b :: k.enc(prev, b) == k.enc(prev', b)
  }

  lemma {:induction false} SameBytes(k: Key, prev: seq<Byte>, prev': seq<Byte>, clear: seq<Byte>)
    requires Ideal(k) && Stateless(k)
    ensures Encrypt(k, prev, clear) == Encrypt(k, prev', clear)
    decreases |clear|
  {
    if |clear| >= k.bs {
      var c := k.enc(prev, clear[..k.bs]);
      assert c == k.enc(prev', clear[..k.bs]);
      SameBytes(k, prev + c, prev' + c, clear[k.bs..]);
    }
  }

  /** All sent has been delivered, nothing is on its way, and the keys have not changed. */
  ghost predicate Settled(w: Watched) {
    && w.net.send == Send(Crypt(w.net.recv.prev, w.net.recv.seqno), []) && w.net.wire == []
    && w.net.recv.got == [] && w.net.recv.need == 0 && w.net.sendEpoch == w.net.recvEpoch == 0
    && |w.net.recv.delivered| == |w.net.log|
  }

  /** A packet is submitted, written and read. */
  function OneGoes(k: Key, p: Packet): seq<Move>
    requires k.bs > 0
  {
    [Own(Submit(p)), Own(Write(Size(k, p))), Own(Read(Size(k, p), Size(k, p)))]
  }

  /** What the link and the sender are once it is sealed, once it is on its way, and once it has been delivered. */
  function Sealed1(k: Key, net: Net, p: Packet): Net
    requires Ideal(k) && Sendable(p)
  {
    var c := net.send.crypt;
    net.(log := net.log + [p], send := Send(Advance(k, c, p), [WriteBuf(Sealed(k, c, p) + [p.payload[0]], 0)]))
  }

  function Written1(k: Key, net: Net, p: Packet): Net
    requires Ideal(k) && Sendable(p)
  {
    var c := net.send.crypt;
    net.(log := net.log + [p], send := Send(Advance(k, c, p), []), wire := Sealed(k, c, p))
  }

  function Delivered1(k: Key, net: Net, p: Packet): Net
    requires Ideal(k) && Sendable(p)
  {
    var c := Advance(k, net.send.crypt, p);
    net.(log := net.log + [p], send := Send(c, []),
         recv := Recv([], 0, c.prev, c.seqno, net.recv.delivered + [p.payload]))
  }

  function Tagged1(k: Key, w: Watched, p: Packet): seq<Tag>
    requires Ideal(k) && Sendable(p)
  {
    w.tagged + [Tag(0, w.net.send.crypt.seqno, Clear(p, k.bs))]
  }

  lemma SealsOne(keys: Keys, w: Watched, p: Packet)
    requires AllIdeal(keys) && WatchedOk(keys, w) && Settled(w) && Sendable(p) && !IsNewkeys(p.payload)
    ensures Moved(keys, w, Own(Submit(p))) == Some(Watched(Sealed1(keys(0), w.net, p), Tagged1(keys(0), w, p)))
  {
    var q := WriteBuf(Sealed(keys(0), w.net.send.crypt, p) + [p.payload[0]], 0);
    assert w.net.send.queue + [q] == [q];
  }

  lemma OneQueued(sealed: seq<Byte>, ty: Byte)
    requires sealed != []
    ensures var q := [WriteBuf(sealed + [ty], 0)];
            AllQueued(q) && Pending(q) == sealed && Consume(q, |sealed|) == []
  {
    var q := [WriteBuf(sealed + [ty], 0)];
    assert q[1..] == [] && Unsent(q[0]) == sealed;
    assert Pending(q) == sealed + Pending([]);
  }

  lemma WritesOne(keys: Keys, w: Watched, p: Packet, w1: Watched)
    requires AllIdeal(keys) && Settled(w) && Sendable(p)
    requires w1.net == Sealed1(keys(0), w.net, p) && WatchedOk(keys, w1)
    ensures Moved(keys, w1, Own(Write(Size(keys(0), p)))) == Some(w1.(net := Written1(keys(0), w.net, p)))
  {
    var sealed := Sealed(keys(0), w.net.send.crypt, p);
    PacketShape(p, keys(0));
    OneQueued(sealed, p.payload[0]);
    assert sealed[..|sealed|] == sealed && [] + sealed == sealed;
  }

  lemma ReadsOne(keys: Keys, w: Watched, p: Packet, w2: Watched)
    requires AllIdeal(keys) && Settled(w) && Sendable(p) && !IsNewkeys(p.payload)
    requires w2.net == Written1(keys(0), w.net, p) && WatchedOk(keys, w2)
    ensures var m := Own(Read(Size(keys(0), p), Size(keys(0), p)));
            Moved(keys, w2, m) == Some(w2.(net := Delivered1(keys(0), w.net, p)))
  {
    ReadDelivers(keys, w2.net, p);
  }

  /** Nor is a MAC forged when the tag is among those computed. */
  lemma ReadUnforged(keys: Keys, w: Watched, p: Packet)
    requires AllIdeal(keys) && WatchedOk(keys, w) && Sendable(p) && Offered(keys(w.net.recvEpoch), w.net, p)
    requires Tag(w.net.recvEpoch, w.net.recv.seqno, Clear(p, keys(w.net.recvEpoch).bs)) in w.tagged
    ensures var n := Size(keys(w.net.recvEpoch), p); Unforged(keys, w, Own(Read(n, n)))
  {
    var r := AllIn(keys, w.net, p);
    DeciphersTo(keys(w.net.recvEpoch), r, p);
  }

  // ---------------------------------------------------------------- 2^32 of them

  lemma Cons(keys: Keys, w: Watched, m: Move, w1: Watched, rest: seq<Move>)
    requires AllIdeal(keys) && WatchedOk(keys, w) && WatchedOk(keys, w1) && Moved(keys, w, m) == Some(w1) && Unforged(keys, w, m)
    ensures AfterAll(keys, w, [m] + rest) == AfterAll(keys, w1, rest)
    ensures NeverForged(keys, w, [m] + rest) == NeverForged(keys, w1, rest)
  {
    assert ([m] + rest)[1..] == rest;
  }

  /** One round more, and whatever follows it. */
  lemma OneGoesOn(keys: Keys, w: Watched, p: Packet, more: seq<Move>) returns (w': Watched)
    requires AllIdeal(keys) && WatchedOk(keys, w) && Settled(w) && Sendable(p) && !IsNewkeys(p.payload)
    ensures WatchedOk(keys, w') && Settled(w') && w'.tagged == Tagged1(keys(0), w, p)
    ensures w'.net == Delivered1(keys(0), w.net, p)
    ensures AfterAll(keys, w, OneGoes(keys(0), p) + more) == AfterAll(keys, w', more)
    ensures NeverForged(keys, w, OneGoes(keys(0), p) + more) == NeverForged(keys, w', more)
  {
    var k, n := keys(0), Size(keys(0), p);
    var w1 := Watched(Sealed1(k, w.net, p), Tagged1(k, w, p));
    var w2 := w1.(net := Written1(k, w.net, p));
    w' := w1.(net := Delivered1(k, w.net, p));
    SealsOne(keys, w, p);
    WritesOne(keys, w, p, w1);
    ReadsOne(keys, w, p, w2);
    ReadUnforged(keys, w2, p);
    Cons(keys, w, Own(Submit(p)), w1, [Own(Write(n)), Own(Read(n, n))] + more);
    Cons(keys, w1, Own(Write(n)), w2, [Own(Read(n, n))] + more);
    Cons(keys, w2, Own(Read(n, n)), w', more);
    InThree(Own(Submit(p)), Own(Write(n)), Own(Read(n, n)), more);
  }

  lemma InThree(a: Move, b: Move, c: Move, more: seq<Move>)
    ensures [a, b, c] + more == [a] + ([b, c] + more) && [b, c] + more == [b] + ([c] + more)
  {
  }

  /** The same packet n times. */
  function Many(k: Key, p: Packet, n: nat): seq<Move>
    requires k.bs > 0
  {
    if n == 0 then [] else OneGoes(k, p) + Many(k, p, n - 1)
  }

  function Later(seqno: nat, n: nat): nat { if n == 0 then seqno else (seqno + n) % WORD32 }

  /** Settled again n packets later. */
  ghost predicate Ahead(w: Watched, w': Watched, n: nat) {
    && Settled(w') && w.tagged <= w'.tagged && |w'.net.log| == |w.net.log| + n
    && w'.net.recv.seqno == Later(w.net.recv.seqno, n)
  }

  lemma AheadAgain(w: Watched, w1: Watched, w': Watched, n: nat)
    requires Ahead(w, w1, 1) && Ahead(w1, w', n)
    ensures Ahead(w, w', n + 1)
  {
    NumbersAdd(w.net.recv.seqno, n + 1);
  }

  lemma OneAhead(k: Key, w: Watched, w': Watched, p: Packet)
    requires Ideal(k) && Sendable(p) && Settled(w) && Settled(w') && w'.net == Delivered1(k, w.net, p)
    requires w'.tagged == Tagged1(k, w, p)
    ensures Ahead(w, w', 1) && Tag(0, w.net.recv.seqno, Clear(p, k.bs)) in w'.tagged
  {
    StillThere(w.tagged, Tag(0, w.net.recv.seqno, Clear(p, k.bs)), w'.tagged);
  }

  /** These moves from here come to the same as those from there. */
  ghost predicate SameRun(keys: Keys, w: Watched, moves: seq<Move>, w': Watched, moves': seq<Move>)
    requires AllIdeal(keys) && WatchedOk(keys, w) && WatchedOk(keys, w')
  {
    AfterAll(keys, w, moves) == AfterAll(keys, w', moves') && NeverForged(keys, w, moves) == NeverForged(keys, w', moves')
  }

  lemma FirstOfMany(keys: Keys, w: Watched, p: Packet, n: nat, more: seq<Move>) returns (w': Watched)
    requires AllIdeal(keys) && WatchedOk(keys, w) && Settled(w) && Sendable(p) && !IsNewkeys(p.payload) && n > 0
    ensures WatchedOk(keys, w') && Ahead(w, w', 1) && Tag(0, w.net.recv.seqno, Clear(p, keys(0).bs)) in w'.tagged
    ensures SameRun(keys, w, Many(keys(0), p, n) + more, w', Many(keys(0), p, n - 1) + more)
  {
    w' := OneGoesOn(keys, w, p, Many(keys(0), p, n - 1) + more);
    Assoc(OneGoes(keys(0), p), Many(keys(0), p, n - 1), more);
    OneAhead(keys(0), w, w', p);
  }

  lemma {:induction false} ManyGoOn(keys: Keys, w: Watched, p: Packet, n: nat, more: seq<Move>) returns (w': Watched)
    requires AllIdeal(keys) && WatchedOk(keys, w) && Settled(w) && Sendable(p) && !IsNewkeys(p.payload)
    ensures WatchedOk(keys, w') && Ahead(w, w', n)
    ensures n > 0 ==> Tag(0, w.net.recv.seqno, Clear(p, keys(0).bs)) in w'.tagged
    ensures SameRun(keys, w, Many(keys(0), p, n) + more, w', more)
    decreases n
  {
    if n == 0 {
      w' := w;
      assert Many(keys(0), p, 0) + more == more;
    } else {
      var w1 := FirstOfMany(keys, w, p, n, more);
      w' := ManyGoOn(keys, w1, p, n - 1, more);
      AheadAgain(w, w1, w', n - 1);
    }
  }

  lemma NumbersAdd(seqno: nat, n: nat)
    requires n > 0
    ensures ((seqno + 1) % WORD32 + (n - 1)) % WORD32 == (seqno + n) % WORD32
  {
    ModOfMod(seqno + 1, WORD32);
    CongAdd((seqno + 1) % WORD32, n - 1, seqno + 1, n - 1, WORD32);
  }

  lemma StillThere(tagged: seq<Tag>, t: Tag, more: seq<Tag>)
    requires tagged + [t] <= more
    ensures tagged <= more && t in more
  {
    assert more[|tagged|] == (tagged + [t])[|tagged|] == t;
  }

  /** The bytes of the first packet, put on the link again behind 2^32 of them. */
  function Replayed(k: Key, seqno: nat, p: Packet): seq<Move>
    requires Ideal(k) && Sendable(p)
  {
    [Alter(Sealed(k, Crypt([], seqno), p)), Own(Read(Size(k, p), Size(k, p)))]
  }

  /** Then the first packet is delivered once more, and no MAC has been forged. */
  lemma WrapReplays(keys: Keys, seqno: nat, p: Packet)
    requires AllIdeal(keys) && Stateless(keys(0)) && seqno < WORD32 && Sendable(p) && !IsNewkeys(p.payload)
    ensures var moves := Many(keys(0), p, WORD32) + Replayed(keys(0), seqno, p);
            var r := AfterAll(keys, Begun(seqno), moves);
            && NeverForged(keys, Begun(seqno), moves) && r.Some?
            && |r.value.net.log| == WORD32 && |r.value.net.recv.delivered| == WORD32 + 1
  {
    var w := ManyGoOn(keys, Begun(seqno), p, WORD32, Replayed(keys(0), seqno, p));
    ComesRound(seqno);
    FirstAgain(keys, w, seqno, p);
  }

  lemma ComesRound(seqno: nat)
    requires seqno < WORD32
    ensures Later(seqno, WORD32) == seqno
  {
    SmallMod(seqno, WORD32);
    CongFrom(seqno + WORD32, seqno, WORD32, 1);
  }

  lemma FirstAgain(keys: Keys, w: Watched, seqno: nat, p: Packet)
    requires AllIdeal(keys) && Stateless(keys(0)) && Sendable(p) && !IsNewkeys(p.payload)
    requires WatchedOk(keys, w) && Settled(w) && w.net.recv.seqno == seqno && Tag(0, seqno, Clear(p, keys(0).bs)) in w.tagged
    ensures var again := Replayed(keys(0), seqno, p);
            var r := AfterAll(keys, w, again);
            NeverForged(keys, w, again) && r.Some? && r.value.net.log == w.net.log
            && |r.value.net.recv.delivered| == |w.net.recv.delivered| + 1
  {
    var k, again := keys(0), Replayed(keys(0), seqno, p);
    SameBytes(k, [], w.net.recv.prev, Clear(p, k.bs));
    var w1 := w.(net := w.net.(wire := Sealed(k, Crypt([], seqno), p)));
    assert Offered(k, w1.net, p);
    var w2 := FirstRead(keys, w1, p);
    Cons(keys, w, again[0], w1, [again[1]]);
    Cons(keys, w1, again[1], w2, []);
    assert again == [again[0]] + [again[1]] && [again[1]] == [again[1]] + [];
  }

  lemma FirstRead(keys: Keys, w: Watched, p: Packet) returns (w': Watched)
    requires AllIdeal(keys) && WatchedOk(keys, w) && w.net.recvEpoch == 0 && Sendable(p) && !IsNewkeys(p.payload)
    requires Offered(keys(0), w.net, p) && Tag(0, w.net.recv.seqno, Clear(p, keys(0).bs)) in w.tagged
    ensures var m := Own(Read(Size(keys(0), p), Size(keys(0), p))); Moved(keys, w, m) == Some(w') && Unforged(keys, w, m)
    ensures WatchedOk(keys, w') && w'.net.log == w.net.log && w'.tagged == w.tagged
    ensures |w'.net.recv.delivered| == |w.net.recv.delivered| + 1
  {
    ReadDelivers(keys, w.net, p);
    ReadUnforged(keys, w, p);
    w' := Moved(keys, w, Own(Read(Size(keys(0), p), Size(keys(0), p)))).value;
  }

  // ---------------------------------------------------------------- exactly

  /** Whatever the keys, with at most n packets under the same ones and no MAC forged, only what was sent is delivered. */
  ghost predicate SafeUpTo(n: nat) {
    forall keys: Keys, seqno: nat, moves: seq<Move>
      | AllIdeal(keys) && seqno < WORD32 && NeverForged(keys, Begun(seqno), moves) :: OnlySent(keys, seqno, moves, n)
  }

  ghost predicate OnlySent(keys: Keys, seqno: nat, moves: seq<Move>, n: nat)
    requires AllIdeal(keys)
  {
    var r := AfterAll(keys, Begun(seqno), moves);
    r.Some? && AtMost(r.value.net.log, n) ==> r.value.net.recv.delivered <= Payloads(r.value.net.log)
  }

  /** No cipher, and a MAC of the number alone. */
  function Plain(): Key { Key(8, (prev, b) => b, (prev, b) => b, 4, (n, clear) => Int32(n % WORD32)) }

  lemma PlainFits()
    ensures Ideal(Plain()) && Stateless(Plain())
  {
  }

  lemma SafeExactly(n: nat)
    ensures SafeUpTo(n) <==> n < WORD32
  {
    if n < WORD32 {
      forall keys: Keys, seqno: nat, moves: seq<Move>
        | AllIdeal(keys) && seqno < WORD32 && NeverForged(keys, Begun(seqno), moves)
        ensures OnlySent(keys, seqno, moves, n)
      {
        FewerStill(keys, seqno, moves, n);
      }
    } else {
      MoreThanSent(n);
    }
  }

  lemma MoreThanSent(n: nat)
    requires n >= WORD32
    ensures exists keys: Keys, seqno: nat, moves: seq<Move> ::
              AllIdeal(keys) && seqno < WORD32 && NeverForged(keys, Begun(seqno), moves) && !OnlySent(keys, seqno, moves, n)
  {
    var keys: Keys := e => Plain();
    PlainFits();
    assert AllIdeal(keys);
    var moves := OneTooMany(keys, Packet([94], i => 0), n);
  }

  lemma OneTooMany(keys: Keys, p: Packet, n: nat) returns (moves: seq<Move>)
    requires AllIdeal(keys) && Stateless(keys(0)) && Sendable(p) && !IsNewkeys(p.payload) && n >= WORD32
    ensures NeverForged(keys, Begun(0), moves) && !OnlySent(keys, 0, moves, n)
  {
    moves := Many(keys(0), p, WORD32) + Replayed(keys(0), 0, p);
    WrapReplays(keys, 0, p);
  }

  lemma FewerStill(keys: Keys, seqno: nat, moves: seq<Move>, n: nat)
    requires AllIdeal(keys) && seqno < WORD32 && NeverForged(keys, Begun(seqno), moves) && n < WORD32
    ensures OnlySent(keys, seqno, moves, n)
  {
    OnlyWhatWasSent(keys, seqno, moves);
  }
}
