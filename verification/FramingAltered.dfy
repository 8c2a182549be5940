/**
 * A link on which bytes may be altered, dropped, repeated or made up at any time. As far as no MAC is forged,
 * what is delivered is a prefix of what was sent, with fewer than 2^32 packets under the same keys and not with more.
 */
module FramingAltered {
  import opened Prelude
  import opened Arith
  import opened Modular
  import opened Bytes
  import opened Framing
  import opened FramingRun

  /** The two ends go on, or the bytes on their way become any others. */
  datatype Move = Own(step: Step) | Alter(wire: seq<Byte>)

  /** What the sender has computed a MAC of: under which keys, with which number. */
  datatype Tag = Tag(epoch: nat, seqno: nat, clear: seq<Byte>)

  datatype Watched = Watched(net: Net, tagged: seq<Tag>)

  ghost predicate WatchedOk(keys: Keys, w: Watched)
    requires AllIdeal(keys)
  {
    NetOk(keys, w.net)
  }

  /** The link after a move, if no end stops. */
  ghost function Moved(keys: Keys, w: Watched, m: Move): (r: Option<Watched>)
    requires AllIdeal(keys) && WatchedOk(keys, w)
    ensures r.Some? ==> WatchedOk(keys, r.value)
  {
    match m
    case Alter(wire) => Some(w.(net := w.net.(wire := wire)))
    case Own(s) =>
      var v := Take(keys, w.net, s);
      if v.Dies? then None
      else if s.Submit? && Sendable(s.p) then
        Some(Watched(v.net, w.tagged + [Tag(w.net.sendEpoch, w.net.send.crypt.seqno, Clear(s.p, keys(w.net.sendEpoch).bs))]))
      else Some(Watched(v.net, w.tagged))
  }

  ghost function AfterAll(keys: Keys, w: Watched, moves: seq<Move>): (r: Option<Watched>)
    requires AllIdeal(keys) && WatchedOk(keys, w)
    ensures r.Some? ==> WatchedOk(keys, r.value)
    decreases |moves|
  {
    if moves == [] then Some(w)
    else
      match Moved(keys, w, moves[0])
      case None => None
      case Some(w1) => AfterAll(keys, w1, moves[1..])
  }

  /** What decrypt_packet deciphers of a packet that has come in whole. */
  function Deciphered(k: Key, r: Recv): seq<Byte>
    requires Ideal(k) && RecvOk(k, r) && r.need > 0 && |r.got| == r.need
  {
    r.got[..k.bs] + Decrypt(k, r.prev, r.got[k.bs..r.need - k.macSize])
  }

  /** The bytes behind it are its MAC. */
  predicate Checks(k: Key, r: Recv)
    requires Ideal(k) && RecvOk(k, r) && r.need > 0 && |r.got| == r.need
  {
    r.got[r.need - k.macSize..] == k.mac(r.seqno, Deciphered(k, r))
  }

  /** Behind both reads, if they have brought in a whole packet. */
  ghost function Whole(keys: Keys, net: Net, n1: nat, n2: nat): (r: Option<Recv>)
    requires AllIdeal(keys) && NetOk(keys, net)
    ensures r.Some? ==> RecvOk(keys(net.recvEpoch), r.value) && r.value.need == |r.value.got| > 0
  {
    var k := keys(net.recvEpoch);
    var v := if net.recv.need == 0 then StartRead(k, net, n1) else Goes(net);
    if v.Dies? || v.net.recv.need == 0 then None
    else
      var m := Min(Min(n2, |v.net.wire|), Wanted(k, v.net.recv));
      if m < Wanted(k, v.net.recv) then None
      else Some(v.net.recv.(got := v.net.recv.got + v.net.wire[..m]))
  }

  /** A right MAC the receiver comes upon is one the sender has computed, of that text, with that number and those keys. */
  ghost predicate Unforged(keys: Keys, w: Watched, m: Move)
    requires AllIdeal(keys) && WatchedOk(keys, w)
  {
    m.Own? && m.step.Read? ==>
      var r := Whole(keys, w.net, m.step.n1, m.step.n2);
      r.Some? && Checks(keys(w.net.recvEpoch), r.value)
      ==> Tag(w.net.recvEpoch, r.value.seqno, Deciphered(keys(w.net.recvEpoch), r.value)) in w.tagged
  }

  ghost predicate NeverForged(keys: Keys, w: Watched, moves: seq<Move>)
    requires AllIdeal(keys) && WatchedOk(keys, w)
    decreases |moves|
  {
    moves == [] ||
    (Unforged(keys, w, moves[0])
     && var r := Moved(keys, w, moves[0]); r.Some? ==> NeverForged(keys, r.value, moves[1..]))
  }

  // ---------------------------------------------------------------- the invariant

  /** Under which keys packet i is sent, or the next one, behind all. */
  function EpochAt(log: seq<Packet>, i: nat): nat
    requires i <= |log|
  {
    Epochs(Payloads(log[..i]))
  }

  /** From no packet to a later one, or to the next, are there more than n under the same keys. */
  ghost predicate AtMost(log: seq<Packet>, n: nat) {
    forall i, j | 0 <= i < j <= |log| && EpochAt(log, i) == EpochAt(log, j) :: j - i <= n
  }

  ghost predicate TagIs(keys: Keys, seqno: nat, log: seq<Packet>, i: nat, t: Tag)
    requires AllIdeal(keys) && AllSendable(log) && i < |log|
  {
    t == Tag(EpochAt(log, i), (seqno + i) % WORD32, Clear(log[i], keys(EpochAt(log, i)).bs))
  }

  ghost predicate TaggedOk(keys: Keys, seqno: nat, log: seq<Packet>, tagged: seq<Tag>)
    requires AllIdeal(keys)
  {
    && AllSendable(log) && |tagged| == |log|
    && forall i | 0 <= i < |log| :: TagIs(keys, seqno, log, i, tagged[i])
  }

  ghost predicate Sending(keys: Keys, seqno: nat, log: seq<Packet>, tagged: seq<Tag>, e: nat, n: nat)
    requires AllIdeal(keys)
  {
    TaggedOk(keys, seqno, log, tagged) && e == EpochAt(log, |log|) && n == (seqno + |log|) % WORD32
  }

  ghost predicate Receiving(seqno: nat, log: seq<Packet>, r: Recv, e: nat) {
    && |r.delivered| <= |log| && r.delivered == Payloads(log[..|r.delivered|])
    && e == EpochAt(log, |r.delivered|) && r.seqno == (seqno + |r.delivered|) % WORD32
  }

  ghost predicate AlteredInv(keys: Keys, seqno: nat, w: Watched)
    requires AllIdeal(keys)
  {
    && Sending(keys, seqno, w.net.log, w.tagged, w.net.sendEpoch, w.net.send.crypt.seqno)
    && Receiving(seqno, w.net.log, w.net.recv, w.net.recvEpoch)
  }

  lemma Counts(seqno: nat, i: nat)
    ensures ((seqno + i) % WORD32 + 1) % WORD32 == (seqno + (i + 1)) % WORD32
  {
    ModOfMod(seqno + i, WORD32);
    CongAdd((seqno + i) % WORD32, 1, seqno + i, 1, WORD32);
  }

  /** Numbers that agree are of the same packet, when fewer than 2^32 lie between. */
  lemma SameNumber(seqno: nat, i: nat, j: nat)
    requires (seqno + i) % WORD32 == (seqno + j) % WORD32 && -WORD32 < i - j < WORD32
    ensures i == j
  {
    var t := CongTo(seqno + i, seqno + j, WORD32);
    assert i - j == WORD32 * t;
  }

  lemma LogGrows(log: seq<Packet>, p: Packet, i: nat)
    requires i <= |log|
    ensures EpochAt(log + [p], i) == EpochAt(log, i) && (log + [p])[..i] == log[..i]
  {
    assert (log + [p])[..i] == log[..i];
  }

  lemma NextEpoch(log: seq<Packet>, i: nat)
    requires i < |log|
    ensures Payloads(log[..i + 1]) == Payloads(log[..i]) + [log[i].payload]
    ensures EpochAt(log, i + 1) == EpochAt(log, i) + if IsNewkeys(log[i].payload) then 1 else 0
  {
    assert Payloads(log[..i + 1]) == Payloads(log[..i]) + [log[i].payload];
    EpochsSnoc(Payloads(log[..i]), log[i].payload);
  }

  lemma TaggedGrows(keys: Keys, seqno: nat, log: seq<Packet>, tagged: seq<Tag>, p: Packet, log': seq<Packet>, tagged': seq<Tag>)
    requires AllIdeal(keys) && TaggedOk(keys, seqno, log, tagged) && Sendable(p) && log' == log + [p]
    requires |tagged'| == |log'| && tagged' == tagged + [tagged'[|log|]] && TagIs(keys, seqno, log', |log|, tagged'[|log|])
    ensures TaggedOk(keys, seqno, log', tagged')
  {
    forall i | 0 <= i < |log'| ensures TagIs(keys, seqno, log', i, tagged'[i]) {
      LogGrows(log, p, i);
      if i < |log| {
        assert TagIs(keys, seqno, log, i, tagged[i]) && log'[i] == log[i] && tagged'[i] == tagged[i];
      }
    }
  }

  lemma SendingGrows(keys: Keys, seqno: nat, log: seq<Packet>, tagged: seq<Tag>, e: nat, n: nat, p: Packet)
    requires AllIdeal(keys) && Sending(keys, seqno, log, tagged, e, n) && Sendable(p)
    ensures Sending(keys, seqno, log + [p], tagged + [Tag(e, n, Clear(p, keys(e).bs))],
                    e + if IsNewkeys(p.payload) then 1 else 0, (n + 1) % WORD32)
  {
    LastTag(keys, seqno, log, tagged, e, n, p);
    TaggedGrows(keys, seqno, log, tagged, p, log + [p], tagged + [Tag(e, n, Clear(p, keys(e).bs))]);
    LogEnd(log, p);
    Counts(seqno, |log|);
  }

  lemma LastTag(keys: Keys, seqno: nat, log: seq<Packet>, tagged: seq<Tag>, e: nat, n: nat, p: Packet)
    requires AllIdeal(keys) && Sending(keys, seqno, log, tagged, e, n) && Sendable(p)
    ensures TagIs(keys, seqno, log + [p], |log|, Tag(e, n, Clear(p, keys(e).bs)))
  {
    LogGrows(log, p, |log|);
  }

  lemma ReceivingGrows(seqno: nat, log: seq<Packet>, p: Packet, r: Recv, e: nat)
    requires Receiving(seqno, log, r, e)
    ensures Receiving(seqno, log + [p], r, e)
  {
    LogGrows(log, p, |r.delivered|);
  }

  /** What submitting a packet does. */
  ghost predicate Submitted(keys: Keys, w: Watched, p: Packet, w': Watched)
    requires AllIdeal(keys) && Sendable(p)
  {
    && w'.net.log == w.net.log + [p] && w'.net.recv == w.net.recv && w'.net.recvEpoch == w.net.recvEpoch
    && w'.net.sendEpoch == w.net.sendEpoch + (if IsNewkeys(p.payload) then 1 else 0)
    && w'.net.send.crypt.seqno == (w.net.send.crypt.seqno + 1) % WORD32
    && w'.tagged == w.tagged + [Tag(w.net.sendEpoch, w.net.send.crypt.seqno, Clear(p, keys(w.net.sendEpoch).bs))]
  }

  lemma SubmitIs(keys: Keys, w: Watched, p: Packet)
    requires AllIdeal(keys) && WatchedOk(keys, w) && Sendable(p)
    ensures var r := Moved(keys, w, Own(Submit(p))); r.Some? && Submitted(keys, w, p, r.value)
  {
  }

  lemma SubmitSends(keys: Keys, seqno: nat, w: Watched, p: Packet, w': Watched)
    requires AllIdeal(keys) && AlteredInv(keys, seqno, w) && Sendable(p) && Submitted(keys, w, p, w')
    ensures AlteredInv(keys, seqno, w')
  {
    SendingGrows(keys, seqno, w.net.log, w.tagged, w.net.sendEpoch, w.net.send.crypt.seqno, p);
    ReceivingGrows(seqno, w.net.log, p, w.net.recv, w.net.recvEpoch);
  }

  lemma LogEnd(log: seq<Packet>, p: Packet)
    ensures EpochAt(log + [p], |log| + 1) == EpochAt(log, |log|) + if IsNewkeys(p.payload) then 1 else 0
  {
    LogGrows(log, p, |log|);
    NextEpoch(log + [p], |log|);
  }

  /** A text the sender has tagged with the number the receiver has come to is the next packet's. */
  lemma TagOfNext(keys: Keys, seqno: nat, log: seq<Packet>, tagged: seq<Tag>, n: nat, clear: seq<Byte>)
    requires AllIdeal(keys) && TaggedOk(keys, seqno, log, tagged) && n <= |log| && AtMost(log, WORD32 - 1)
    requires Tag(EpochAt(log, n), (seqno + n) % WORD32, clear) in tagged
    ensures n < |log| && Sendable(log[n]) && clear == Clear(log[n], keys(EpochAt(log, n)).bs)
  {
    var i :| 0 <= i < |log| && tagged[i] == Tag(EpochAt(log, n), (seqno + n) % WORD32, clear);
    SameNumber(seqno, i, n);
  }

  /** decrypt_packet without the right MAC. */
  lemma Unchecked(k: Key, r: Recv)
    requires Ideal(k) && RecvOk(k, r) && r.need == |r.got| > 0 && !Checks(k, r)
    ensures DecryptPacket(k, r).Exit?
  {
  }

  /** Whatever text comes out of the cipher, no payload is empty or longer than the source takes. */
  lemma PayloadsChecked(k: Key, r: Recv)
    requires Ideal(k) && RecvOk(k, r) && r.need > 0 && |r.got| == r.need
    ensures var o := DecryptPacket(k, r);
            o.Go? ==> exists payload :: o.recv.delivered == r.delivered + [payload] && 1 <= |payload| <= 32768
  {
    if DecryptPacket(k, r).Go? { var payload := PayloadOfChecked(k, r); }
  }

  lemma PayloadOfChecked(k: Key, r: Recv) returns (payload: seq<Byte>)
    requires Ideal(k) && RecvOk(k, r) && r.need > 0 && |r.got| == r.need && DecryptPacket(k, r).Go?
    ensures DecryptPacket(k, r).recv.delivered == r.delivered + [payload] && 1 <= |payload| <= 32768
  {
    if !Checks(k, r) { Unchecked(k, r); }
    ModMinus(r.need - k.macSize, k.bs);
    var clear := Deciphered(k, r);
    var len := (r.need - clear[4] - 4 - 1 - k.macSize) % WORD32;
    DecryptGives(k, r, clear, len);
    payload := clear[5..5 + len];
  }

  /** With it the payload is that of the text. */
  lemma CheckedGives(k: Key, r: Recv, p: Packet)
    requires Ideal(k) && RecvOk(k, r) && r.need == |r.got| > 0 && Sendable(p)
    requires Checks(k, r) && Deciphered(k, r) == Clear(p, k.bs)
    ensures var o := DecryptPacket(k, r);
            o.Go? && o.recv.delivered == r.delivered + [p.payload] && o.recv.seqno == (r.seqno + 1) % WORD32
  {
    ModMinus(r.need - k.macSize, k.bs);
    PayloadOf(p, k, r.need);
    DecryptGives(k, r, Clear(p, k.bs), |p.payload|);
  }

  /** What reading does: nothing to the sender, and to the receiver only what a packet that has come in whole does. */
  ghost predicate Came(keys: Keys, net: Net, r: Option<Recv>, net': Net)
    requires AllIdeal(keys) && (r.Some? ==> RecvOk(keys(net.recvEpoch), r.value) && r.value.need == |r.value.got| > 0)
  {
    && net'.log == net.log && net'.send == net.send && net'.sendEpoch == net.sendEpoch
    && (r.None? ==> net'.recv.delivered == net.recv.delivered && net'.recv.seqno == net.recv.seqno
                    && net'.recvEpoch == net.recvEpoch)
    && (r.Some? ==>
          var o := DecryptPacket(keys(net.recvEpoch), r.value);
          && r.value.delivered == net.recv.delivered && r.value.seqno == net.recv.seqno && o.Go?
          && (net'.recv, net'.recvEpoch) == AfterOne(o.recv, net.recvEpoch, |net.recv.delivered|))
  }

  /** The second read, with the packet whole and without. */
  lemma FinishIs(k: Key, net: Net, n2: nat)
    requires Ideal(k) && RecvOk(k, net.recv) && net.recv.need > 0
    ensures var m, v := Min(Min(n2, |net.wire|), Wanted(k, net.recv)), FinishRead(k, net, n2);
            v.Goes? ==> v.net == net.(recv := v.net.recv, wire := net.wire[m..])
                        && var r := net.recv.(got := net.recv.got + net.wire[..m]);
                           if m < Wanted(k, net.recv) then v.net.recv == r
                           else DecryptPacket(k, r).Go? && v.net.recv == DecryptPacket(k, r).recv
  {
  }

  lemma ReadIs(keys: Keys, net: Net, n1: nat, n2: nat)
    requires AllIdeal(keys) && NetOk(keys, net)
    ensures var v := ReadStep(keys, net, n1, n2); v.Goes? ==> Came(keys, net, Whole(keys, net, n1, n2), v.net)
  {
    var k := keys(net.recvEpoch);
    var v := if net.recv.need == 0 then StartRead(k, net, n1) else Goes(net);
    if v.Goes? && v.net.recv.need > 0 { FinishIs(k, v.net, n2); }
  }

  /** What process_packet does to the receiver. */
  function AfterOne(r: Recv, e: nat, had: nat): (Recv, nat) {
    if |r.delivered| <= had then (r, e) else Turned(r.delivered[|r.delivered| - 1], e, r)
  }

  /** One more of the packets sent has come in. */
  lemma DeliveredNext(seqno: nat, log: seq<Packet>, r: Recv, e: nat, o: Recv)
    requires Receiving(seqno, log, r, e) && |r.delivered| < |log|
    requires o.delivered == r.delivered + [log[|r.delivered|].payload] && o.seqno == (r.seqno + 1) % WORD32
    ensures var (r', e') := AfterOne(o, e, |r.delivered|); Receiving(seqno, log, r', e')
  {
    NextEpoch(log, |r.delivered|);
    Counts(seqno, |r.delivered|);
  }

  /** A whole packet that is not refused is the next one sent. */
  lemma WholeIsNext(keys: Keys, seqno: nat, log: seq<Packet>, tagged: seq<Tag>, e: nat, r: Recv)
    requires AllIdeal(keys) && TaggedOk(keys, seqno, log, tagged) && AtMost(log, WORD32 - 1) && Receiving(seqno, log, r, e)
    requires RecvOk(keys(e), r) && r.need == |r.got| > 0 && DecryptPacket(keys(e), r).Go?
    requires Checks(keys(e), r) ==> Tag(e, r.seqno, Deciphered(keys(e), r)) in tagged
    ensures var (r', e') := AfterOne(DecryptPacket(keys(e), r).recv, e, |r.delivered|); Receiving(seqno, log, r', e')
  {
    var n := |r.delivered|;
    if !Checks(keys(e), r) { Unchecked(keys(e), r); }
    TagOfNext(keys, seqno, log, tagged, n, Deciphered(keys(e), r));
    CheckedGives(keys(e), r, log[n]);
    DeliveredNext(seqno, log, r, e, DecryptPacket(keys(e), r).recv);
  }

  lemma ReadReceives(keys: Keys, seqno: nat, w: Watched, r: Option<Recv>, net': Net)
    requires AllIdeal(keys) && AlteredInv(keys, seqno, w) && AtMost(w.net.log, WORD32 - 1)
    requires r.Some? ==> RecvOk(keys(w.net.recvEpoch), r.value) && r.value.need == |r.value.got| > 0
    requires r.Some? && Checks(keys(w.net.recvEpoch), r.value)
             ==> Tag(w.net.recvEpoch, r.value.seqno, Deciphered(keys(w.net.recvEpoch), r.value)) in w.tagged
    requires Came(keys, w.net, r, net')
    ensures AlteredInv(keys, seqno, w.(net := net'))
  {
    if r.Some? { WholeIsNext(keys, seqno, w.net.log, w.tagged, w.net.recvEpoch, r.value); }
  }

  /** The kernel takes some bytes, or the bytes on their way change: neither end notices. */
  ghost predicate Unnoticed(w: Watched, w': Watched) {
    && w'.tagged == w.tagged && w'.net.log == w.net.log && w'.net.recv == w.net.recv
    && w'.net.recvEpoch == w.net.recvEpoch && w'.net.sendEpoch == w.net.sendEpoch
    && w'.net.send.crypt == w.net.send.crypt
  }

  lemma UnnoticedKeeps(keys: Keys, seqno: nat, w: Watched, w': Watched)
    requires AllIdeal(keys) && AlteredInv(keys, seqno, w) && Unnoticed(w, w')
    ensures AlteredInv(keys, seqno, w')
  {
  }

  lemma OtherIs(keys: Keys, w: Watched, m: Move)
    requires AllIdeal(keys) && WatchedOk(keys, w)
    requires m.Own? ==> m.step.Write? || (m.step.Submit? && !Sendable(m.step.p))
    ensures var r := Moved(keys, w, m); r.Some? && Unnoticed(w, r.value)
  {
  }

  lemma MoveKeeps(keys: Keys, seqno: nat, w: Watched, m: Move)
    requires AllIdeal(keys) && WatchedOk(keys, w) && AlteredInv(keys, seqno, w) && AtMost(w.net.log, WORD32 - 1)
    requires Unforged(keys, w, m)
    ensures var r := Moved(keys, w, m); r.Some? ==> AlteredInv(keys, seqno, r.value)
  {
    var r := Moved(keys, w, m);
    if m.Own? && m.step.Submit? && Sendable(m.step.p) {
      SubmitIs(keys, w, m.step.p);
      SubmitSends(keys, seqno, w, m.step.p, r.value);
    } else if m.Own? && m.step.Read? {
      ReadIs(keys, w.net, m.step.n1, m.step.n2);
      if r.Some? { ReadReceives(keys, seqno, w, Whole(keys, w.net, m.step.n1, m.step.n2), r.value.net); }
    } else {
      OtherIs(keys, w, m);
      UnnoticedKeeps(keys, seqno, w, r.value);
    }
  }

  /** What has been submitted stays submitted. */
  lemma {:induction false} LogsPrefix(keys: Keys, w: Watched, moves: seq<Move>)
    requires AllIdeal(keys) && WatchedOk(keys, w) && AfterAll(keys, w, moves).Some?
    ensures w.net.log <= AfterAll(keys, w, moves).value.net.log
    decreases |moves|
  {
    if moves != [] {
      var w1 := Moved(keys, w, moves[0]).value;
      assert w.net.log <= w1.net.log by { LogKept(keys, w, moves[0]); }
      LogsPrefix(keys, w1, moves[1..]);
    }
  }

  lemma LogKept(keys: Keys, w: Watched, m: Move)
    requires AllIdeal(keys) && WatchedOk(keys, w) && Moved(keys, w, m).Some?
    ensures w.net.log <= Moved(keys, w, m).value.net.log
  {
    if m.Own? && m.step.Read? { ReadIs(keys, w.net, m.step.n1, m.step.n2); }
  }

  lemma AtMostPrefix(log: seq<Packet>, more: seq<Packet>, n: nat)
    requires log <= more && AtMost(more, n)
    ensures AtMost(log, n)
  {
    forall i, j | 0 <= i < j <= |log| && EpochAt(log, i) == EpochAt(log, j) ensures j - i <= n {
      assert more[..i] == log[..i] && more[..j] == log[..j];
      assert EpochAt(more, i) == EpochAt(more, j);
    }
  }

  lemma {:induction false} MovesKeep(keys: Keys, seqno: nat, w: Watched, moves: seq<Move>)
    requires AllIdeal(keys) && WatchedOk(keys, w) && AlteredInv(keys, seqno, w) && NeverForged(keys, w, moves)
    requires AfterAll(keys, w, moves).Some? && AtMost(AfterAll(keys, w, moves).value.net.log, WORD32 - 1)
    ensures AlteredInv(keys, seqno, AfterAll(keys, w, moves).value)
    decreases |moves|
  {
    if moves != [] {
      LogsPrefix(keys, w, moves);
      AtMostPrefix(w.net.log, AfterAll(keys, w, moves).value.net.log, WORD32 - 1);
      MoveKeeps(keys, seqno, w, moves[0]);
      MovesKeep(keys, seqno, Moved(keys, w, moves[0]).value, moves[1..]);
    }
  }

  function Begun(seqno: nat): Watched { Watched(Fresh(seqno), []) }

  /**
   * Whatever is done to the bytes on their way, as long as no MAC is forged and fewer than 2^32 packets go out
   * under the same keys, the payloads delivered are the first ones sent, in order, none altered, left out or repeated.
   */
  lemma OnlyWhatWasSent(keys: Keys, seqno: nat, moves: seq<Move>)
    requires AllIdeal(keys) && seqno < WORD32 && NeverForged(keys, Begun(seqno), moves)
    ensures var r := AfterAll(keys, Begun(seqno), moves);
            r.Some? && AtMost(r.value.net.log, WORD32 - 1) ==>
              r.value.net.recv.delivered <= Payloads(r.value.net.log)
  {
    var r := AfterAll(keys, Begun(seqno), moves);
    if r.Some? && AtMost(r.value.net.log, WORD32 - 1) {
      SmallMod(seqno, WORD32);
      MovesKeep(keys, seqno, Begun(seqno), moves);
      PayloadsPrefix(r.value.net.log, |r.value.net.recv.delivered|);
    }
  }
}
