/** What one session keeps whatever its peer sends: the discipline of section 7.1 of RFC 4253, order, and counting. */
module RekeyKeeps {
  import opened Rekey

  predicate Held(ty: nat) { ty >= 50 || ty == 5 || ty == 6 || ty == 20 }

  /** NEWKEYS sealed so far. */
  function Switches(out: seq<Sealed>): (n: nat)
    ensures n <= |out|
  {
    if out == [] then 0
    else Switches(out[..|out| - 1]) + if out[|out| - 1].msg.ty == NEWKEYS then 1 else 0
  }

  /** Between our KEXINIT and our NEWKEYS. */
  predicate InKex(out: seq<Sealed>) {
    out != [] &&
    var ty := out[|out| - 1].msg.ty;
    ty == KEXINIT || (ty != NEWKEYS && InKex(out[..|out| - 1]))
  }

  /** The messages of the kinds that are held back. */
  function HeldOf(ms: seq<Msg>): seq<Msg> {
    if ms == [] then []
    else HeldOf(ms[..|ms| - 1]) + if Held(ms[|ms| - 1].ty) then [ms[|ms| - 1]] else []
  }

  function Msgs(out: seq<Sealed>): seq<Msg> {
    seq(|out|, i requires 0 <= i < |out| => out[i].msg)
  }

  ghost predicate WellSealed(out: seq<Sealed>) {
    forall i | 0 <= i < |out| :: out[i].epoch == Switches(out[..i]) && out[i].seqno == i % WORD32
  }

  ghost predicate Disciplined(out: seq<Sealed>) {
    forall i | 0 <= i < |out| && Held(out[i].msg.ty) :: !InKex(out[..i])
  }

  predicate Kexdh(ty: nat) { ty == KEXDH_INIT || ty == KEXDH_REPLY }

  /** The two messages of an exchange are sent within one. */
  ghost predicate KexOnly(out: seq<Sealed>) {
    forall i | 0 <= i < |out| && Kexdh(out[i].msg.ty) :: InKex(out[..i])
  }

  predicate GuessTag(m: Msg, guess: bool) { m.ty == KEXINIT ==> m.tag == if guess then 1 else 0 }

  ghost predicate Tags(out: seq<Sealed>, guess: bool) { forall i | 0 <= i < |out| :: GuessTag(out[i].msg, guess) }

  /** Each packet carries the count of packets before it, and the count of key switches before it. */
  ghost predicate TxInv(tx: Tx, gens: nat, dataAllowed: bool, guess: bool) {
    && WellSealed(tx.out) && tx.seqno == |tx.out| % WORD32 && tx.epoch == Switches(tx.out) == gens
    && Disciplined(tx.out) && KexOnly(tx.out) && dataAllowed == !InKex(tx.out) && Tags(tx.out, guess)
  }

  ghost predicate LineInv(line: Line, out: seq<Sealed>) {
    HeldOf(line.asked) == HeldOf(Msgs(out)) + line.queue && forall m | m in line.queue :: Held(m.ty) && Ordinary(m)
  }

  predicate RecvReady(s: Ses) { s.newkeys.Allocated? && s.newkeys.recvValid }

  predicate Flags(s: Ses) {
    var k := s.kex;
    && s.dataAllowed == !(k.sentKexinit && !k.sentNewkeys)
    && (k.recvKexinit ==> k.sentKexinit)
    && (k.sentNewkeys || k.recvNewkeys ==> k.recvKexinit)
    && !(k.sentNewkeys && k.recvNewkeys)
    && s.newkeys.Absent? == !k.sentKexinit
    && (s.newkeys.Allocated? ==> !s.newkeys.transValid)
    && (s.guess ==> s.client)
    && (RecvReady(s) <==> k.sentNewkeys)
    && |s.rx.gens| == s.rx.epoch + (if RecvReady(s) then 1 else 0)
  }

  /** Receive keys waiting for the peer's NEWKEYS let nothing else in, so they are the latest and the only ones. */
  predicate Guarded(s: Ses) {
    RecvReady(s) ==> s.gate.req0 == NEWKEYS && s.gate.req1 == 0 && !s.gate.ignoreNext && s.gate.last != KEXINIT
  }

  ghost predicate SesInv(s: Ses) {
    TxInv(s.tx, |s.rx.gens|, s.dataAllowed, s.guess) && LineInv(s.line, s.tx.out) && Flags(s)
  }

  /** A reply queue is only ever carried over to the next pass while data is not allowed. */
  predicate QueueOk(s: Ses) { s.line.queue != [] ==> !s.dataAllowed }

  /** Whoever has just seen a KEXINIT, or is about to ignore a packet, has sent a KEXINIT too. */
  predicate LastOk(s: Ses) { s.gate.ignoreNext || s.gate.last == KEXINIT ==> s.kex.sentKexinit }

  ghost predicate TopInv(s: Ses) {
    SesInv(s) && QueueOk(s) && Guarded(s) && LastOk(s)
  }

  // ---------------------------------------------------------------- appending one sealed message

  lemma MsgsSnoc(out: seq<Sealed>, x: Sealed)
    ensures Msgs(out + [x]) == Msgs(out) + [x.msg]
  {
  }

  lemma HeldSnoc(ms: seq<Msg>, m: Msg)
    ensures HeldOf(ms + [m]) == HeldOf(ms) + if Held(m.ty) then [m] else []
  {
    assert (ms + [m])[..|ms|] == ms;
  }

  lemma OutSnoc(out: seq<Sealed>, x: Sealed)
    ensures Switches(out + [x]) == Switches(out) + if x.msg.ty == NEWKEYS then 1 else 0
    ensures InKex(out + [x]) == (x.msg.ty == KEXINIT || (x.msg.ty != NEWKEYS && InKex(out)))
    ensures WellSealed(out) && x.epoch == Switches(out) && x.seqno == |out| % WORD32 ==> WellSealed(out + [x])
    ensures Disciplined(out) && (Held(x.msg.ty) ==> !InKex(out)) ==> Disciplined(out + [x])
  {
    var o := out + [x];
    assert o[..|out|] == out;
    forall i | 0 <= i < |out| ensures o[..i] == out[..i] {
    }
  }

  lemma KexOnlySnoc(out: seq<Sealed>, x: Sealed)
    requires KexOnly(out) && (Kexdh(x.msg.ty) ==> InKex(out))
    ensures KexOnly(out + [x])
  {
    var o := out + [x];
    assert o[..|out|] == out;
    forall i | 0 <= i < |out| ensures o[..i] == out[..i] {
    }
  }

  lemma NextSeq(n: nat)
    ensures (n % WORD32 + 1) % WORD32 == (n + 1) % WORD32
  {
  }

  /** Sealing one message: allowed says whether data may be sent before it, now whether it may after it. */
  lemma SealKeeps(tx: Tx, gens: nat, allowed: bool, now: bool, guess: bool, m: Msg)
    requires TxInv(tx, gens, allowed, guess) && (Held(m.ty) ==> allowed) && (Kexdh(m.ty) ==> !allowed) && GuessTag(m, guess)
    requires now == (m.ty != KEXINIT && (m.ty == NEWKEYS || allowed))
    ensures m.ty != NEWKEYS ==> TxInv(Seal(tx, m), gens, now, guess)
    ensures m.ty == NEWKEYS ==> TxInv(Seal(tx, m).(epoch := gens + 1), gens + 1, now, guess)
  {
    OutSnoc(tx.out, Sealed(m, tx.epoch, tx.seqno));
    KexOnlySnoc(tx.out, Sealed(m, tx.epoch, tx.seqno));
    NextSeq(|tx.out|);
  }

  /** A submitted message, sealed at once. */
  lemma LineSealed(line: Line, tx: Tx, m: Msg)
    requires LineInv(line, tx.out) && (Held(m.ty) ==> line.queue == [])
    ensures LineInv(line.(asked := line.asked + [m]), Seal(tx, m).out)
  {
    HeldSnoc(line.asked, m);
    MsgsSnoc(tx.out, Sealed(m, tx.epoch, tx.seqno));
    HeldSnoc(Msgs(tx.out), m);
    var h := HeldOf(Msgs(tx.out));
    if Held(m.ty) {
      assert (h + []) + [m] == (h + [m]) + [];
    } else {
      assert HeldOf(line.asked) + [] == HeldOf(line.asked);
      assert h + [] == h;
    }
  }

  /** A submitted message, held back. */
  lemma LineQueued(line: Line, out: seq<Sealed>, m: Msg)
    requires LineInv(line, out) && Held(m.ty) && Ordinary(m)
    ensures LineInv(Line(line.queue + [m], line.asked + [m]), out)
  {
    HeldSnoc(line.asked, m);
  }

  /** The oldest held message leaves. */
  lemma LineFlushed(asked: seq<Msg>, ms: seq<Msg>, tx: Tx)
    requires LineInv(Line(ms, asked), tx.out) && ms != []
    ensures LineInv(Line(ms[1..], asked), Seal(tx, ms[0]).out) && Held(ms[0].ty) && Ordinary(ms[0])
  {
    var m := ms[0];
    assert m in ms;
    MsgsSnoc(tx.out, Sealed(m, tx.epoch, tx.seqno));
    HeldSnoc(Msgs(tx.out), m);
    assert ms == [m] + ms[1..];
    assert HeldOf(Msgs(tx.out)) + ms == (HeldOf(Msgs(tx.out)) + [m]) + ms[1..];
  }

  /** Submitting m seals it, or holds it back during a key exchange. */
  lemma SubmitKeeps(s: Ses, m: Msg)
    requires SesInv(s) && QueueOk(s) && m.ty != KEXINIT && m.ty != NEWKEYS
    requires Ordinary(m) || OkayInKex(m.ty)
    requires Kexdh(m.ty) ==> !s.dataAllowed
    ensures SesInv(Submit(s, m)) && QueueOk(Submit(s, m))
  {
    if !s.dataAllowed && Held(m.ty) { SubmitHeld(s, m); } else { SubmitSealed(s, m); }
  }

  lemma SubmitHeld(s: Ses, m: Msg)
    requires SesInv(s) && QueueOk(s) && !s.dataAllowed && Held(m.ty) && Ordinary(m)
    ensures SesInv(Submit(s, m)) && QueueOk(Submit(s, m))
  {
    LineQueued(s.line, s.tx.out, m);
    SubmitIs(s, m);
  }

  lemma SubmitSealed(s: Ses, m: Msg)
    requires SesInv(s) && QueueOk(s) && m.ty != KEXINIT && m.ty != NEWKEYS && (s.dataAllowed || !Held(m.ty))
    requires Kexdh(m.ty) ==> !s.dataAllowed
    ensures SesInv(Submit(s, m)) && QueueOk(Submit(s, m))
  {
    SealKeeps(s.tx, |s.rx.gens|, s.dataAllowed, s.dataAllowed, s.guess, m);
    LineSealed(s.line, s.tx, m);
    SubmitIs(s, m);
  }

  /** A message of the held kinds waits while data is not allowed; any other is sealed at once. */
  lemma SubmitIs(s: Ses, m: Msg)
    ensures Submit(s, m) == if !s.dataAllowed && Held(m.ty) then s.(line := Line(s.line.queue + [m], s.line.asked + [m]))
                            else s.(line := s.line.(asked := s.line.asked + [m]), tx := Seal(s.tx, m))
  {
  }

  /** What a step that completes no key exchange leaves alone, and what it does not send. */
  ghost predicate Adds(out: seq<Sealed>, more: seq<Sealed>) {
    out <= more && forall i | |out| <= i < |more| :: more[i].msg.ty != NEWKEYS && more[i].msg.ty != KEXDH_REPLY
  }

  ghost predicate Plain(s: Ses, t: Ses) {
    && Adds(s.tx.out, t.tx.out) && t.rx == s.rx
    && t.kex.recvKexinit == s.kex.recvKexinit && t.kex.recvNewkeys == s.kex.recvNewkeys
    && t.kex.sentNewkeys == s.kex.sentNewkeys
    && t.gate.ignoreNext == s.gate.ignoreNext && t.gate.last == s.gate.last
    && t.client == s.client && t.guess == s.guess && RecvReady(t) == RecvReady(s)
  }

  lemma AddsAgain(s: seq<Sealed>, t: seq<Sealed>, u: seq<Sealed>)
    requires Adds(s, t) && Adds(t, u)
    ensures Adds(s, u)
  {
    forall i | |s| <= i < |u| ensures u[i].msg.ty != NEWKEYS && u[i].msg.ty != KEXDH_REPLY {
      if i < |t| { assert u[i] == t[i]; }
    }
  }

  lemma PlainAgain(s: Ses, t: Ses, u: Ses)
    requires Plain(s, t) && Plain(t, u)
    ensures Plain(s, u)
  {
    AddsAgain(s.tx.out, t.tx.out, u.tx.out);
  }

  lemma SubmitPlain(s: Ses, m: Msg)
    requires m.ty != NEWKEYS && m.ty != KEXDH_REPLY
    ensures Plain(s, Submit(s, m))
  {
  }

  ghost predicate Quiet(out: seq<Sealed>, more: seq<Sealed>) {
    out <= more && forall i | |out| <= i < |more| :: Ordinary(more[i].msg)
  }

  /** A step that sends ordinary messages at most. */
  ghost predicate Idle(s: Ses, t: Ses) {
    && Plain(s, t) && Quiet(s.tx.out, t.tx.out) && t.gate == s.gate && t.kex == s.kex && t.initSent == s.initSent
    && t.dh == s.dh && t.newkeys == s.newkeys
  }

  lemma QuietAgain(s: seq<Sealed>, t: seq<Sealed>, u: seq<Sealed>)
    requires Quiet(s, t) && Quiet(t, u)
    ensures Quiet(s, u)
  {
    forall i | |s| <= i < |u| ensures Ordinary(u[i].msg) {
      if i < |t| { assert u[i] == t[i]; }
    }
  }

  lemma IdleAgain(s: Ses, t: Ses, u: Ses)
    requires Idle(s, t) && Idle(t, u)
    ensures Idle(s, u)
  {
    PlainAgain(s, t, u);
    QuietAgain(s.tx.out, t.tx.out, u.tx.out);
  }

  lemma SubmitOne(s: Ses, m: Msg)
    requires SesInv(s) && QueueOk(s) && Ordinary(m)
    ensures SesInv(Submit(s, m)) && QueueOk(Submit(s, m)) && Idle(s, Submit(s, m))
  {
    SubmitKeeps(s, m);
    SubmitIdle(s, m);
  }

  lemma SubmitIdle(s: Ses, m: Msg)
    requires Ordinary(m)
    ensures Idle(s, Submit(s, m))
  {
  }

  lemma {:induction false} SubmitAllKeeps(s: Ses, ms: seq<Msg>)
    requires SesInv(s) && QueueOk(s) && forall i | 0 <= i < |ms| :: Ordinary(ms[i])
    ensures SesInv(SubmitAll(s, ms)) && QueueOk(SubmitAll(s, ms)) && Idle(s, SubmitAll(s, ms))
    decreases |ms|
  {
    if ms != [] {
      SubmitOne(s, ms[0]);
      SubmitAllKeeps(Submit(s, ms[0]), ms[1..]);
      IdleAgain(s, Submit(s, ms[0]), SubmitAll(s, ms));
    }
  }

  /** During a flush, ms is what is still to go out of the queue. */
  ghost predicate Flushing(s: Ses, ms: seq<Msg>) {
    && TxInv(s.tx, |s.rx.gens|, s.dataAllowed, s.guess) && Flags(s)
    && LineInv(Line(ms, s.line.asked), s.tx.out) && s.line.queue == [] && s.dataAllowed
  }

  lemma FlushOne(s: Ses, ms: seq<Msg>)
    requires Flushing(s, ms) && ms != []
    ensures var t := EncryptPacket(s, ms[0]);
            Flushing(t, ms[1..]) && Idle(s, t)
  {
    LineFlushed(s.line.asked, ms, s.tx);
    SealKeeps(s.tx, |s.rx.gens|, true, true, s.guess, ms[0]);
  }

  /** The held messages go out, in order. */
  lemma {:induction false} EncryptAllKeeps(s: Ses, ms: seq<Msg>)
    requires Flushing(s, ms)
    ensures var t := EncryptAll(s, ms);
            Flushing(t, []) && Idle(s, t)
    decreases |ms|
  {
    if ms != [] {
      FlushOne(s, ms);
      EncryptAllKeeps(EncryptPacket(s, ms[0]), ms[1..]);
      IdleAgain(s, EncryptPacket(s, ms[0]), EncryptAll(s, ms));
    }
  }

  lemma FlushKeeps(s: Ses)
    requires SesInv(s)
    ensures var t := Flush(s);
            SesInv(t) && QueueOk(t) && Idle(s, t)
  {
    if s.dataAllowed {
      assert Line(s.line.queue, s.line.asked) == s.line;
      EncryptAllKeeps(s.(line := s.line.(queue := [])), s.line.queue);
    }
  }

  lemma SendKexdhInitKeeps(s: Ses, draw: nat)
    requires SesInv(s) && QueueOk(s) && s.newkeys.Allocated? && !s.dataAllowed
    ensures var t := SendKexdhInit(s, draw);
            SesInv(t) && QueueOk(t) && Plain(s, t) && t.kex == s.kex && t.initSent == s.initSent
  {
    var s1 := s.(dh := Offering(s.dh, s.newkeys.algo, draw));
    assert SesInv(s1) && QueueOk(s1);
    SubmitKeeps(s1, Msg(KEXDH_INIT, s1.dh.val));
    SubmitPlain(s1, Msg(KEXDH_INIT, s1.dh.val));
  }

  lemma OfferKexKeeps(s: Ses)
    requires SesInv(s) && QueueOk(s) && !s.kex.sentKexinit
    ensures SesInv(OfferKex(s)) && QueueOk(OfferKex(s)) && Plain(s, OfferKex(s)) && !RecvReady(OfferKex(s))
  {
    var m := Msg(KEXINIT, if s.guess then 1 else 0);
    SealKeeps(s.tx, |s.rx.gens|, true, false, s.guess, m);
    LineSealed(s.line, s.tx, m);
    SubmitPlain(s, m);
  }

  lemma SendKexinitKeeps(s: Ses, draw: nat)
    requires SesInv(s) && QueueOk(s) && !s.kex.sentKexinit
    ensures var t := SendKexinit(s, draw);
            SesInv(t) && QueueOk(t) && Plain(s, t) && t.kex == s.kex.(sentKexinit := true) && t.initSent == s.initSent
            && !RecvReady(t) && (!s.client ==> t.gate == s.gate)
  {
    OfferKexKeeps(s);
    if s.guess {
      SendKexdhInitKeeps(OfferKex(s), draw);
      PlainAgain(s, OfferKex(s), SendKexinit(s, draw));
    }
  }

  /** The session right after our NEWKEYS, its keys generated and the transmit keys switched. */
  function Switched(s: Ses, x: Exchange): Ses {
    s.(tx := Seal(s.tx, Msg(NEWKEYS, 0)).(epoch := |s.rx.gens| + 1), line := s.line.(asked := s.line.asked + [Msg(NEWKEYS, 0)]),
       rx := s.rx.(gens := s.rx.gens + [x]), dataAllowed := true)
  }

  /** The part of the session a second NEWKEYS in the same exchange finishes. */
  function Settled(s: Ses, x: Exchange): Ses
    requires s.newkeys.Allocated?
  {
    var t := Switched(s, x);
    if s.kex.recvNewkeys
    then KexInitialise(t.(rx := t.rx.(epoch := |t.rx.gens|), kex := t.kex.(doneFirst := true)))
    else t.(kex := t.kex.(sentNewkeys := true, doneFirst := true), newkeys := Allocated(true, false, s.newkeys.algo))
  }

  lemma SendNewkeysIs(s: Ses, x: Exchange)
    ensures SendNewkeys(s, x).Crash? <==> s.newkeys.Absent?
    ensures SendNewkeys(s, x).Go? ==> SendNewkeys(s, x).ses == Settled(s, x) && s.kex.sentKexinit && s.kex.recvKexinit
  {
  }

  /** send_msg_newkeys: one NEWKEYS, one new generation, and the transmit keys switched right behind it. */
  lemma SendNewkeysKeeps(s: Ses, x: Exchange)
    requires SesInv(s) && !RecvReady(s) && s.newkeys.Allocated?
    ensures !SendNewkeys(s, x).Crash?
    ensures SendNewkeys(s, x).Go? ==> SendNewkeys(s, x).ses == Settled(s, x) && SesInv(Settled(s, x))
    ensures !s.kex.recvNewkeys ==> RecvReady(Settled(s, x)) && Settled(s, x).rx.epoch == s.rx.epoch
  {
    SendNewkeysIs(s, x);
    SealKeeps(s.tx, |s.rx.gens|, s.dataAllowed, true, s.guess, Msg(NEWKEYS, 0));
    LineSealed(s.line, s.tx, Msg(NEWKEYS, 0));
  }

  lemma RecvNewkeysKeeps(s: Ses)
    requires SesInv(s)
    ensures !RecvNewkeys(s).Crash?
    ensures RecvNewkeys(s).Go? ==>
              var t := RecvNewkeys(s).ses;
              SesInv(t) && !RecvReady(t) && t.rx.gens == s.rx.gens && t.rx.seqno == s.rx.seqno && t.tx == s.tx
              && t.gate == s.gate && t.initSent == s.initSent && t.client == s.client && t.guess == s.guess
              && t.dh == s.dh
              && (RecvReady(s) ==> t.rx.epoch == s.rx.epoch + 1
                                   && t.kex == Kex(false, false, false, false, false, s.kex.doneFirst))
  {
  }

  lemma RecvKexinitKeeps(s: Ses, tag: nat, env: KexEnv, draw: nat)
    requires SesInv(s) && QueueOk(s) && !RecvReady(s)
    ensures RecvKexinit(s, tag, env, draw).Crash? <==> s.kex.recvKexinit
    ensures RecvKexinit(s, tag, env, draw).Go? ==>
              var s1 := if s.kex.sentKexinit then s else SendKexinit(s, draw);
              Plain(s, s1) && RecvKexinit(s, tag, env, draw).ses == TookKexinit(s1, tag, env)
              && SesInv(TookKexinit(s1, tag, env)) && s1.initSent == s.initSent
              && s1.kex.sentKexinit && (!s.client ==> s1.gate == s.gate)
  {
    if RecvKexinit(s, tag, env, draw).Go? {
      var s1 := if s.kex.sentKexinit then s else SendKexinit(s, draw);
      if !s.kex.sentKexinit { SendKexinitKeeps(s, draw); }
      assert SesInv(s1) && !RecvReady(s1) && !s1.kex.sentNewkeys;
    }
  }

  // ---------------------------------------------------------------- the steps of one pass

  predicate SafeEnv(env: LoopEnv) {
    && (forall i | 0 <= i < |env.handler.replies| :: Ordinary(env.handler.replies[i]))
    && (forall i | 0 <= i < |env.channels| :: Ordinary(env.channels[i]))
    && (forall i | 0 <= i < |env.requests| :: Ordinary(env.requests[i]))
  }

  lemma CheckTimeoutsKeeps(s: Ses, timers: Timers)
    requires TopInv(s)
    ensures var t := CheckTimeouts(s, timers);
            TopInv(t) && Plain(s, t) && t.initSent == s.initSent
            && (!s.client ==> t.gate == s.gate)
  {
    var s1 := if !s.kex.sentKexinit && timers.rekey then SendKexinit(s, timers.draw) else s;
    if !s.kex.sentKexinit && timers.rekey { SendKexinitKeeps(s, timers.draw); }
    if timers.keepalive {
      KeepaliveKeeps(s1);
      PlainAgain(s, s1, Submit(s1, Msg(IGNORE, 0)));
    }
  }

  lemma KeepaliveKeeps(s: Ses)
    requires TopInv(s)
    ensures var t := Submit(s, Msg(IGNORE, 0));
            TopInv(t) && Idle(s, t)
  {
    SubmitOne(s, Msg(IGNORE, 0));
  }

  /** What a handler leaves behind in the middle of a pass. */
  ghost predicate MidInv(s: Ses) { SesInv(s) && Guarded(s) && LastOk(s) }

  /** Every handler keeps the invariant; only NEWKEYS is handled while receive keys wait. */
  lemma HandleKeeps(s: Ses, m: Msg, env: HandlerEnv)
    requires SesInv(s) && QueueOk(s) && s.gate.last == m.ty && !s.gate.ignoreNext
    requires RecvReady(s) ==> m.ty == NEWKEYS
    requires forall i | 0 <= i < |env.replies| :: Ordinary(env.replies[i])
    ensures Handle(s, m, env).Go? ==> MidInv(Handle(s, m, env).ses)
  {
    if m.ty == KEXINIT {
      RecvKexinitKeeps(s, m.tag, env.kex, env.draw);
    } else if m.ty == NEWKEYS {
      RecvNewkeysKeeps(s);
    } else if m.ty == KEXDH_INIT && !s.client {
      KexdhInitKeeps(s, m.tag, env.draw, env.ok);
    } else if m.ty == KEXDH_REPLY && s.client {
      KexdhReplyKeeps(s, m, env.ok);
    } else {
      SubmitAllKeeps(s, env.replies);
    }
  }

  /** A key exchange settled as x: keys generated, ours switched, NEWKEYS demanded of the peer. */
  ghost predicate Completed(s: Ses, t: Ses, x: Exchange) {
    && t.client == s.client && t.guess == s.guess && t.initSent == s.initSent && s.tx.out <= t.tx.out
    && t.rx.seqno == s.rx.seqno && t.rx.gens == s.rx.gens + [x]
    && t.gate == Gate(NEWKEYS, 0, s.gate.ignoreNext, s.gate.last)
    && (!s.kex.recvNewkeys ==> t.rx.epoch == s.rx.epoch && RecvReady(t)
                               && t.kex == s.kex.(sentNewkeys := true, doneFirst := true))
  }

  lemma SettledCompletes(s: Ses, x: Exchange)
    requires s.newkeys.Allocated?
    ensures Completed(s, RequireNewkeys(Settled(s, x)), x)
  {
  }

  lemma RequireKeeps(s: Ses)
    requires SesInv(s) && !s.gate.ignoreNext && s.gate.last != KEXINIT
    ensures MidInv(RequireNewkeys(s))
  {
  }

  /** The client takes a reply that answers its own value, and no other. */
  lemma KexdhReplyKeeps(s: Ses, m: Msg, ok: bool)
    requires SesInv(s) && !RecvReady(s) && s.gate.last == KEXDH_REPLY && !s.gate.ignoreNext
    ensures s.kex.sentKexinit && (s.initSent ==> s.dh.Offer?) ==> !RecvKexdhReply(s, m, ok).Crash?
    ensures RecvKexdhReply(s, m, ok).Go? ==>
              var t := RecvKexdhReply(s, m, ok).ses;
              MidInv(t) && s.initSent && s.dh.Offer? && m.tag == s.dh.val && Completed(s, t, Exchange(m.tag, m.pub))
  {
    if s.dh.Offer? && s.newkeys.Allocated? {
      var s1, x := s.(dh := NoOffer), Exchange(s.dh.val, m.pub);
      assert SesInv(s1);
      SendNewkeysKeeps(s1, x);
      SettledCompletes(s1, x);
      if RecvKexdhReply(s, m, ok).Go? { RequireKeeps(Settled(s1, x)); }
    }
  }

  /** The reply and NEWKEYS, back to back. */
  function Answer(s: Ses, x: Exchange): seq<Sealed> {
    [Sealed(Msg(KEXDH_REPLY, x.e, x.f), s.tx.epoch, s.tx.seqno), Sealed(Msg(NEWKEYS, 0), s.tx.epoch, (s.tx.seqno + 1) % WORD32)]
  }

  lemma AnswerCompletes(s: Ses, x: Exchange)
    requires s.newkeys.Allocated?
    ensures var t := RequireNewkeys(Settled(Submit(s, Msg(KEXDH_REPLY, x.e, x.f)), x));
            Completed(s, t, x) && t.tx.out == s.tx.out + Answer(s, x)
  {
  }

  /** The server answers with KEXDH_REPLY and NEWKEYS. */
  lemma KexdhInitKeeps(s: Ses, e: nat, f: nat, ok: bool)
    requires SesInv(s) && QueueOk(s) && !RecvReady(s) && s.gate.last == KEXDH_INIT && !s.gate.ignoreNext
    ensures !RecvKexdhInit(s, e, f, ok).Crash?
    ensures RecvKexdhInit(s, e, f, ok).Go? ==>
              var t := RecvKexdhInit(s, e, f, ok).ses;
              MidInv(t) && Completed(s, t, Exchange(e, f)) && t.tx.out == s.tx.out + Answer(s, Exchange(e, f))
  {
    if s.kex.recvKexinit {
      var r, x := Msg(KEXDH_REPLY, e, f), Exchange(e, f);
      SubmitKeeps(s, r);
      AnswerCompletes(s, x);
      SendNewkeysKeeps(Submit(s, r), x);
      if RecvKexdhInit(s, e, f, ok).Go? { RequireKeeps(Settled(Submit(s, r), x)); }
    }
  }

  lemma ProcessKeeps(s: Ses, m: Msg, env: HandlerEnv)
    requires TopInv(s) && forall i | 0 <= i < |env.replies| :: Ordinary(env.replies[i])
    ensures ProcessPacket(s, m, env).Go? ==> MidInv(ProcessPacket(s, m, env).ses)
  {
    var s0 := Counted(s, m);
    assert SesInv(s0) && QueueOk(s0);
    if m.ty != IGNORE && m.ty != DEBUG && m.ty != UNIMPLEMENTED && m.ty != DISCONNECT && Allowed(s0.gate, m.ty) {
      var s1 := if s0.gate.req0 != 0 then s0.(gate := s0.gate.(req0 := 0, req1 := 0)) else s0;
      assert SesInv(s1);
      if s1.gate.ignoreNext {
        assert SesInv(s1.(gate := s1.gate.(ignoreNext := false)));
      } else if env.authDone || m.ty <= MAX_UNAUTH_PACKET_TYPE {
        HandleKeeps(s1, m, env);
      }
    }
  }

  lemma CliLoopKeeps(s: Ses, sends: seq<Msg>, draw: nat)
    requires TopInv(s) && forall i | 0 <= i < |sends| :: Ordinary(sends[i])
    ensures CliSessionLoop(s, sends, draw).Go?
    ensures var t := CliSessionLoop(s, sends, draw).ses;
            TopInv(t) && Plain(s, t) && t.kex == s.kex && (!s.client ==> t.gate == s.gate)
  {
    if s.client && s.gate.last != 0 {
      if s.gate.last == KEXINIT && !s.initSent {
        CliStartsKex(s, CliSessionLoop(s, sends, draw).ses, draw);
      } else {
        var s1 := if s.kex.sentNewkeys then s.(initSent := false) else s;
        InitFlagKeeps(s, s1);
        if !s1.initSent && s1.kex.doneFirst { CliRequests(s, s1, sends); }
      }
    }
  }

  lemma InitFlagKeeps(s: Ses, t: Ses)
    requires TopInv(s) && t == s.(initSent := t.initSent)
    ensures TopInv(t) && Plain(s, t)
  {
  }

  lemma CliStartsKex(s: Ses, t: Ses, draw: nat)
    requires TopInv(s) && s.gate.last == KEXINIT && s.newkeys.Allocated?
    requires t == (if s.kex.firstMatches then s else SendKexdhInit(s, draw)).(initSent := true)
    ensures TopInv(t) && Plain(s, t) && t.kex == s.kex
  {
    SendKexdhInitKeeps(s, draw);
    var u := if s.kex.firstMatches then s else SendKexdhInit(s, draw);
    assert Plain(s, u) && TopInv(u);
    InitFlagKeeps(u, t);
    PlainAgain(s, u, t);
  }

  lemma CliRequests(s: Ses, s1: Ses, sends: seq<Msg>)
    requires TopInv(s1) && Plain(s, s1) && s1.kex == s.kex && s1.gate == s.gate
    requires forall i | 0 <= i < |sends| :: Ordinary(sends[i])
    ensures var t := SubmitAll(s1, sends); TopInv(t) && Plain(s, t) && Idle(s1, t)
  {
    SubmitAllKeeps(s1, sends);
    PlainAgain(s, s1, SubmitAll(s1, sends));
  }

  /** One pass between the packet and the loop handler. */
  function Flushed(s: Ses, env: LoopEnv): Ses { ChannelIo(Flush(s), env.channels) }

  lemma FlushedKeeps(s: Ses, env: LoopEnv)
    requires MidInv(s) && SafeEnv(env)
    ensures TopInv(Flushed(s, env)) && Idle(s, Flushed(s, env))
  {
    FlushKeeps(s);
    if s.dataAllowed {
      SubmitAllKeeps(Flush(s), env.channels);
      IdleAgain(s, Flush(s), Flushed(s, env));
    }
  }

  lemma RestKeeps(s: Ses, env: LoopEnv)
    requires MidInv(s) && SafeEnv(env)
    ensures Rest(s, env).Go?
    ensures var t := Rest(s, env).ses; TopInv(t) && Plain(s, t) && t.kex == s.kex && (!s.client ==> t.gate == s.gate)
  {
    FlushedKeeps(s, env);
    CliLoopKeeps(Flushed(s, env), env.requests, env.draw);
    PlainAgain(s, Flushed(s, env), Rest(s, env).ses);
  }

  /** One pass of the loop, whatever arrives, keeps everything or ends the session. */
  lemma IterationKeeps(s: Ses, arrived: seq<Msg>, env: LoopEnv)
    requires TopInv(s) && |arrived| <= 1 && SafeEnv(env)
    ensures Iteration(s, arrived, env).Go? ==> TopInv(Iteration(s, arrived, env).ses)
  {
    CheckTimeoutsKeeps(s, env.timers);
    var s1 := CheckTimeouts(s, env.timers);
    if arrived != [] { ProcessKeeps(s1, arrived[0], env.handler); }
    var s2 := if arrived == [] then Go(s1) else ProcessPacket(s1, arrived[0], env.handler);
    if s2.Go? { RestKeeps(s2.ses, env); }
  }

  lemma StartedKeeps(client: bool, guess: bool, draw: nat)
    requires guess ==> client
    ensures TopInv(Started(client, guess, draw)) && Plain(Blank(client, guess), Started(client, guess, draw))
    ensures var s := Started(client, guess, draw);
            !s.initSent && (!client ==> s.gate == Gate(KEXINIT, 0, false, 0)) && !s.kex.recvKexinit && s.kex.sentKexinit
  {
    assert TopInv(Blank(client, guess));
    SendKexinitKeeps(Blank(client, guess), draw);
  }

  /** A whole session against any peer: passes until one ends it. */
  datatype Pass = Pass(arrived: seq<Msg>, env: LoopEnv)

  ghost predicate SafePass(p: Pass) { |p.arrived| <= 1 && SafeEnv(p.env) }

  ghost predicate SafePasses(passes: seq<Pass>) { forall i | 0 <= i < |passes| :: SafePass(passes[i]) }

  ghost function Session(s: Ses, passes: seq<Pass>): Outcome
    requires SafePasses(passes)
    decreases |passes|
  {
    if passes == [] then Go(s)
    else
      var s1 :- Iteration(s, passes[0].arrived, passes[0].env);
      Session(s1, passes[1..])
  }

  lemma {:induction false} SessionKeeps(s: Ses, passes: seq<Pass>)
    requires TopInv(s) && SafePasses(passes)
    ensures Session(s, passes).Go? ==> TopInv(Session(s, passes).ses)
    decreases |passes|
  {
    if passes != [] {
      assert SafePass(passes[0]) && SafePasses(passes[1..]);
      IterationKeeps(s, passes[0].arrived, passes[0].env);
      var o := Iteration(s, passes[0].arrived, passes[0].env);
      if o.Go? { SessionKeeps(o.ses, passes[1..]); }
    }
  }

  lemma {:induction false} InKexSince(out: seq<Sealed>, i: nat, j: nat)
    requires i < j <= |out| && out[i].msg.ty == KEXINIT && !InKex(out[..j])
    ensures exists k :: i < k < j && out[k].msg.ty == NEWKEYS
    decreases j
  {
    assert out[..j][..j - 1] == out[..j - 1];
    if out[j - 1].msg.ty != NEWKEYS {
      assert j - 1 != i;
      InKexSince(out, i, j - 1);
    }
  }

  /** No service, authentication, channel or second KEXINIT message between our KEXINIT and our NEWKEYS. */
  lemma RekeyDiscipline(client: bool, guess: bool, draw: nat, passes: seq<Pass>, i: nat, j: nat)
    requires (guess ==> client) && SafePasses(passes)
    requires Session(Started(client, guess, draw), passes).Go?
    requires var out := Session(Started(client, guess, draw), passes).ses.tx.out;
             i < j < |out| && out[i].msg.ty == KEXINIT && Held(out[j].msg.ty)
    ensures var out := Session(Started(client, guess, draw), passes).ses.tx.out;
            exists k :: i < k < j && out[k].msg.ty == NEWKEYS
  {
    StartedKeeps(client, guess, draw);
    SessionKeeps(Started(client, guess, draw), passes);
    InKexSince(Session(Started(client, guess, draw), passes).ses.tx.out, i, j);
  }

  /** Messages of the held-back kinds leave in the order they were submitted, none lost, none twice. */
  lemma HeldInOrder(client: bool, guess: bool, draw: nat, passes: seq<Pass>)
    requires (guess ==> client) && SafePasses(passes)
    ensures var o := Session(Started(client, guess, draw), passes);
            o.Go? ==> HeldOf(o.ses.line.asked) == HeldOf(Msgs(o.ses.tx.out)) + o.ses.line.queue
                      && (o.ses.line.queue != [] ==> !o.ses.dataAllowed)
  {
    StartedKeeps(client, guess, draw);
    SessionKeeps(Started(client, guess, draw), passes);
    var o := Session(Started(client, guess, draw), passes);
    if o.Go? { LineSays(o.ses); }
  }

  lemma LineSays(s: Ses)
    requires TopInv(s)
    ensures HeldOf(s.line.asked) == HeldOf(Msgs(s.tx.out)) + s.line.queue && QueueOk(s)
  {
  }
}
