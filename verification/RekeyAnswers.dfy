/**
 * Which offer a reply answers. Unless the server finds a guess good that the client finds bad, and the client
 * draws another value for another method, the reply the client takes is the answer to the last KEXDH_INIT it has
 * sent, and no signature is found bad; without such a guess no KEXDH_INIT is refused either.
 */
module RekeyAnswers {
  import opened Rekey
  import opened RekeyKeeps
  import opened RekeyPair

  /**
   * Whether the guess in the n-th exchange is good, as the client and as the server find; and whether the client
   * always finds the method it guessed, so that dh_e is reused.
   */
  datatype Deal = Deal(client: nat -> bool, server: nat -> bool, reuse: bool)

  /** Whatever guess the server takes, the client sends nothing else for it, or the same again. */
  ghost predicate Sound(deal: Deal) { deal.reuse || forall n: nat :: deal.server(n) ==> deal.client(n) }

  /**
   * A client's packets as the server goes through them: how many KEXINITs, whether the next KEXDH_INIT is to be
   * ignored, of the exchange under way the values taken and the last one sent, and whether ever a value has come
   * to be taken behind another.
   */
  datatype Seen = Seen(n: nat, skip: bool, took: seq<nat>, sent: seq<nat>, twice: bool)

  function Noted(deal: Deal, v: Seen, m: Msg): Seen {
    if m.ty == KEXINIT then Seen(v.n + 1, m.tag == 1 && !deal.server(v.n), [], [], v.twice)
    else if m.ty == KEXDH_INIT then
      if v.skip then Seen(v.n, false, v.took, [m.tag], v.twice)
      else Seen(v.n, false, v.took + [m.tag], [m.tag], v.twice || v.took != [])
    else v
  }

  function See(deal: Deal, out: seq<Sealed>): Seen {
    if out == [] then Seen(0, false, [], [], false)
    else Noted(deal, See(deal, out[..|out| - 1]), out[|out| - 1].msg)
  }

  lemma SeeSnoc(deal: Deal, out: seq<Sealed>, x: Sealed)
    ensures See(deal, out + [x]) == Noted(deal, See(deal, out), x.msg)
  {
    assert (out + [x])[..|out|] == out;
  }

  lemma {:induction false} SeeQuiet(deal: Deal, out: seq<Sealed>, more: seq<Sealed>)
    requires Quiet(out, more)
    ensures See(deal, more) == See(deal, out)
    decreases |more|
  {
    if |more| > |out| {
      assert Quiet(out, more[..|more| - 1]);
      SeeQuiet(deal, out, more[..|more| - 1]);
    } else {
      assert more == out;
    }
  }

  /** A message of the key exchange goes out at once. */
  lemma SubmitSees(deal: Deal, s: Ses, m: Msg)
    requires s.dataAllowed || OkayInKex(m.ty)
    ensures See(deal, Submit(s, m).tx.out) == Noted(deal, See(deal, s.tx.out), m)
  {
    SeeSnoc(deal, s.tx.out, Sealed(m, s.tx.epoch, s.tx.seqno));
  }

  // ---------------------------------------------------------------- the client

  function Values(dh: Dh): seq<nat> { if dh.Offer? then [dh.val] else [] }

  /** Of an exchange under way: the values taken are the one on offer, and none has been taken before one is sent anew. */
  predicate OfferFits(deal: Deal, v: Seen, kex: Kex, guess: bool, initSent: bool, dh: Dh) {
    && v.n >= 1 && v.sent == (if initSent || guess then Values(dh) else [])
    && (forall e | e in v.took :: Values(dh) == [e])
    && (v.took != [] ==> initSent || (guess && (deal.reuse || deal.server(v.n - 1))))
    && (kex.recvKexinit ==> kex.firstMatches == (guess && deal.client(v.n - 1)))
  }

  /** What the client knows fits what it has sent, when it has handled `heard` KEXINITs. */
  predicate KexFits(deal: Deal, v: Seen, heard: nat, kex: Kex, guess: bool, initSent: bool, dh: Dh, newkeys: NewKeys) {
    && !v.skip && v.n == heard + (if kex.sentKexinit && !kex.recvKexinit then 1 else 0)
    && (kex.firstMatches ==> kex.recvKexinit)
    && (kex.sentKexinit && !kex.sentNewkeys ==> OfferFits(deal, v, kex, guess, initSent, dh))
    && (!deal.reuse ==> !v.twice)
    && (deal.reuse ==>
          (dh.Offer? ==> dh.algo == DH_GROUP1)
          && (kex.recvKexinit && !kex.sentNewkeys && newkeys.Allocated? ==> newkeys.algo == DH_GROUP1))
  }

  predicate ClientFits(deal: Deal, c: Ses, heard: nat) {
    KexFits(deal, See(deal, c.tx.out), heard, c.kex, c.guess, c.initSent, c.dh, c.newkeys)
  }

  lemma IdleFits(deal: Deal, c: Ses, t: Ses, heard: nat)
    requires ClientFits(deal, c, heard) && Idle(c, t)
    ensures ClientFits(deal, t, heard)
  {
    SeeQuiet(deal, c.tx.out, t.tx.out);
  }

  /** A KEXINIT, with the guessed packet behind it. */
  lemma KexinitFits(deal: Deal, c: Ses, draw: nat, heard: nat)
    requires ClientFits(deal, c, heard) && !c.kex.sentKexinit && !c.kex.recvKexinit && !c.kex.sentNewkeys && !c.initSent
    requires c.dataAllowed
    ensures ClientFits(deal, SendKexinit(c, draw), heard)
  {
    SubmitSees(deal, c, Msg(KEXINIT, if c.guess then 1 else 0));
    if c.guess {
      var s := OfferKex(c);
      var dh := Offering(s.dh, DH_GROUP1, draw);
      SubmitSees(deal, s.(dh := dh), Msg(KEXDH_INIT, dh.val));
    }
  }

  lemma TimeoutsFit(deal: Deal, c: Ses, timers: Timers, heard: nat)
    requires TopInv(c) && InitOk(c) && ClientFits(deal, c, heard)
    ensures ClientFits(deal, CheckTimeouts(c, timers), heard)
  {
    var c1 := if !c.kex.sentKexinit && timers.rekey then SendKexinit(c, timers.draw) else c;
    if !c.kex.sentKexinit && timers.rekey { KexinitFits(deal, c, timers.draw, heard); }
    if timers.keepalive {
      SubmitIdle(c1, Msg(IGNORE, 0));
      IdleFits(deal, c1, Submit(c1, Msg(IGNORE, 0)), heard);
    }
  }

  /** What a side makes of its n-th KEXINIT, when it does not end over it. */
  predicate Reads(deal: Deal, onClient: bool, n: nat, env: KexEnv) {
    env.matches ==>
      if onClient then env.allgood == deal.client(n) && (deal.reuse ==> env.algo == DH_GROUP1)
      else env.allgood == deal.server(n)
  }

  lemma TookFits(deal: Deal, s: Ses, m: Msg, env: KexEnv, heard: nat)
    requires ClientFits(deal, s, heard) && s.kex.sentKexinit && !s.kex.recvKexinit && !s.kex.sentNewkeys && env.matches
    requires Reads(deal, true, heard, env)
    ensures ClientFits(deal, TookKexinit(s, m.tag, env), heard + 1)
  {
  }

  lemma HandleFits(deal: Deal, s: Ses, m: Msg, env: HandlerEnv, heard: nat)
    requires SesInv(s) && QueueOk(s) && s.client && InitOk(s) && !s.kex.recvNewkeys && ClientFits(deal, s, heard)
    requires RecvReady(s) <==> m.ty == NEWKEYS
    requires m.ty == KEXINIT ==> Reads(deal, true, heard, env.kex)
    requires forall i | 0 <= i < |env.replies| :: Ordinary(env.replies[i])
    ensures Handle(s, m, env).Go? ==>
              ClientFits(deal, Handle(s, m, env).ses, heard + if m.ty == KEXINIT then 1 else 0)
  {
    if m.ty == KEXINIT {
      KexinitHandled(deal, s, m, env, heard);
    } else if m.ty == NEWKEYS {
      NewkeysFits(deal, s, heard);
    } else if m.ty == KEXDH_REPLY {
      ReplyFits(deal, s, m, env.ok, heard);
    } else {
      SubmitAllKeeps(s, env.replies);
      IdleFits(deal, s, SubmitAll(s, env.replies), heard);
    }
  }

  lemma KexinitHandled(deal: Deal, s: Ses, m: Msg, env: HandlerEnv, heard: nat)
    requires SesInv(s) && InitOk(s) && ClientFits(deal, s, heard) && !RecvReady(s) && Reads(deal, true, heard, env.kex)
    requires !s.kex.recvNewkeys
    ensures var o := RecvKexinit(s, m.tag, env.kex, env.draw); o.Go? ==> ClientFits(deal, o.ses, heard + 1)
  {
    if !s.kex.recvKexinit && env.kex.matches {
      var s1 := if s.kex.sentKexinit then s else SendKexinit(s, env.draw);
      if !s.kex.sentKexinit {
        KexinitFits(deal, s, env.draw, heard);
        KexinitOffers(s, env.draw);
      }
      TookFits(deal, s1, m, env.kex, heard);
    }
  }

  lemma NewkeysFits(deal: Deal, s: Ses, heard: nat)
    requires SesInv(s) && RecvReady(s) && ClientFits(deal, s, heard)
    ensures RecvNewkeys(s).Go? ==> ClientFits(deal, RecvNewkeys(s).ses, heard)
  {
    RecvNewkeysKeeps(s);
  }

  lemma ReplyFits(deal: Deal, s: Ses, m: Msg, ok: bool, heard: nat)
    requires SesInv(s) && !s.kex.recvNewkeys && InitOk(s) && ClientFits(deal, s, heard)
    ensures var o := RecvKexdhReply(s, m, ok); o.Go? ==> ClientFits(deal, o.ses, heard) == ClientFits(deal, s, heard)
  {
    if RecvKexdhReply(s, m, ok).Go? {
      var s1, x := s.(dh := NoOffer), Exchange(s.dh.val, m.pub);
      SendNewkeysIs(s1, x);
      SettledIs(s1, x);
      NewkeysSent(deal, s, RequireNewkeys(Settled(s1, x)), Sealed(Msg(NEWKEYS, 0), s.tx.epoch, s.tx.seqno), heard);
    }
  }

  lemma NewkeysSent(deal: Deal, s: Ses, t: Ses, x: Sealed, heard: nat)
    requires ClientFits(deal, s, heard) && t.tx.out == s.tx.out + [x] && x.msg.ty == NEWKEYS
    requires t.kex == s.kex.(sentNewkeys := true, doneFirst := true) && t.dh == NoOffer
    ensures ClientFits(deal, t, heard)
  {
    SeeSnoc(deal, s.tx.out, x);
  }

  lemma SettledIs(s: Ses, x: Exchange)
    requires s.newkeys.Allocated? && !s.kex.recvNewkeys
    ensures var t := RequireNewkeys(Settled(s, x));
            t.tx.out == s.tx.out + [Sealed(Msg(NEWKEYS, 0), s.tx.epoch, s.tx.seqno)]
            && t.kex == s.kex.(sentNewkeys := true, doneFirst := true) && t.dh == s.dh
  {
  }

  /** A packet that reaches no handler changes nothing here. */
  lemma CountedFits(deal: Deal, c: Ses, m: Msg, gate: Gate, heard: nat)
    ensures ClientFits(deal, Counted(c, m).(gate := gate), heard) == ClientFits(deal, c, heard)
    ensures ClientFits(deal, Passed(c, m), heard) == ClientFits(deal, c, heard)
    ensures InitOk(Passed(c, m)) == InitOk(c) && RecvReady(Passed(c, m)) == RecvReady(c)
    ensures Passed(c, m).kex == c.kex && Passed(c, m).client == c.client
  {
  }

  lemma ProcessFits(deal: Deal, c: Ses, m: Msg, env: HandlerEnv, heard: nat)
    requires TopInv(c) && c.client && !c.gate.ignoreNext && InitOk(c) && !c.kex.recvNewkeys && ClientFits(deal, c, heard)
    requires (m.ty == NEWKEYS ==> RecvReady(c)) && (m.ty == KEXINIT ==> Reads(deal, true, heard, env.kex))
    requires forall i | 0 <= i < |env.replies| :: Ordinary(env.replies[i])
    ensures var o := ProcessPacket(c, m, env);
            o.Go? ==> ClientFits(deal, o.ses, heard + if m.ty == KEXINIT then 1 else 0)
  {
    ProcessIs(c, m, env);
    if Reaches(c, m, env) {
      PassedKeeps(c, m);
      CountedFits(deal, c, m, c.gate, heard);
      HandleFits(deal, Passed(c, m), m, env, heard);
    } else if Skipped(c, m) {
      CountedFits(deal, c, m, ProcessPacket(c, m, env).ses.gate, heard);
    }
  }

  lemma LoopFits(deal: Deal, c: Ses, out: seq<Sealed>, got: nat, sends: seq<Msg>, draw: nat, heard: nat)
    requires TopInv(c) && Heard(c, out, got) && c.client && InitMid(c) && ClientFits(deal, c, heard) && Sound(deal)
    requires forall i | 0 <= i < |sends| :: Ordinary(sends[i])
    ensures var o := CliSessionLoop(c, sends, draw); o.Go? ==> ClientFits(deal, o.ses, heard)
  {
    if c.gate.last == KEXINIT && !c.initSent {
      assert c.kex.recvKexinit && !RecvReady(c) && c.kex.sentKexinit;
      StartFits(deal, c, draw, heard);
    } else if c.gate.last != 0 {
      RequestsFit(deal, c, sends, heard);
    }
  }

  /** The client's value goes out, unless the guess has been good. */
  lemma StartFits(deal: Deal, c: Ses, draw: nat, heard: nat)
    requires ClientFits(deal, c, heard) && c.kex.recvKexinit && c.kex.sentKexinit && !c.kex.sentNewkeys && !c.initSent
    requires c.newkeys.Allocated? && Sound(deal)
    ensures c.kex.firstMatches ==> ClientFits(deal, c.(initSent := true), heard)
    ensures !c.kex.firstMatches ==> ClientFits(deal, SendKexdhInit(c, draw).(initSent := true), heard)
  {
    var dh := Offering(c.dh, c.newkeys.algo, draw);
    SubmitSees(deal, c.(dh := dh), Msg(KEXDH_INIT, dh.val));
  }

  lemma RequestsFit(deal: Deal, c: Ses, sends: seq<Msg>, heard: nat)
    requires TopInv(c) && ClientFits(deal, c, heard) && forall i | 0 <= i < |sends| :: Ordinary(sends[i])
    ensures var c1 := if c.kex.sentNewkeys then c.(initSent := false) else c;
            ClientFits(deal, c1, heard) && ClientFits(deal, SubmitAll(c1, sends), heard)
  {
    var c1 := if c.kex.sentNewkeys then c.(initSent := false) else c;
    InitFlagKeeps(c, c1);
    SubmitAllKeeps(c1, sends);
    IdleFits(deal, c1, SubmitAll(c1, sends), heard);
  }

  lemma RestFits(deal: Deal, c: Ses, out: seq<Sealed>, got: nat, env: LoopEnv, heard: nat)
    requires MidInv(c) && Heard(c, out, got) && c.client && InitMid(c) && SafeEnv(env) && ClientFits(deal, c, heard) && Sound(deal)
    ensures Rest(c, env).Go? ==> ClientFits(deal, Rest(c, env).ses, heard)
  {
    FlushedKeeps(c, env);
    HeardPlain(c, Flushed(c, env), out, got);
    IdleFits(deal, c, Flushed(c, env), heard);
    LoopFits(deal, Flushed(c, env), out, got, env.requests, env.draw, heard);
  }

  // ---------------------------------------------------------------- the server

  /** The server ignores what the client's packets so far make it ignore. */
  lemma ProcessSkips(deal: Deal, s: Ses, m: Msg, env: HandlerEnv, v: Seen)
    requires ServerGate(s) && s.gate.ignoreNext == v.skip && (m.ty == KEXINIT ==> Reads(deal, false, v.n, env.kex))
    requires SesInv(s) && QueueOk(s) && Guarded(s)
    requires forall i | 0 <= i < |env.replies| :: Ordinary(env.replies[i])
    ensures var o := ProcessPacket(s, m, env); o.Go? ==> o.ses.gate.ignoreNext == Noted(deal, v, m).skip
  {
    ProcessIs(s, m, env);
    PassedKeeps(s, m);
    if Reaches(s, m, env) { HandleSkips(deal, Passed(s, m), m, env, v); }
  }

  lemma HandleSkips(deal: Deal, s: Ses, m: Msg, env: HandlerEnv, v: Seen)
    requires !s.client && !s.guess && !s.gate.ignoreNext && s.gate.last == m.ty && !v.skip && (m.ty == KEXINIT ==> Reads(deal, false, v.n, env.kex))
    requires SesInv(s) && QueueOk(s) && (RecvReady(s) ==> m.ty == NEWKEYS)
    requires forall i | 0 <= i < |env.replies| :: Ordinary(env.replies[i])
    ensures Handle(s, m, env).Go? ==> Handle(s, m, env).ses.gate.ignoreNext == Noted(deal, v, m).skip
  {
    if m.ty == KEXINIT {
      RecvKexinitKeeps(s, m.tag, env.kex, env.draw);
    } else if m.ty == NEWKEYS {
      RecvNewkeysKeeps(s);
    } else if m.ty == KEXDH_INIT {
      KexdhInitKeeps(s, m.tag, env.draw, env.ok);
    } else {
      SubmitAllKeeps(s, env.replies);
    }
  }

  /** The generations of the server change with the KEXDH_INIT it handles. */
  lemma ProcessGens(s: Ses, m: Msg, env: HandlerEnv)
    requires ServerGate(s) && SesInv(s) && QueueOk(s) && Guarded(s)
    requires forall i | 0 <= i < |env.replies| :: Ordinary(env.replies[i])
    ensures var o := ProcessPacket(s, m, env);
            o.Go? ==> o.ses.rx.gens == s.rx.gens
                      || (m.ty == KEXDH_INIT && !s.gate.ignoreNext && s.kex.recvKexinit && !RecvReady(s)
                          && o.ses.rx.gens == s.rx.gens + [Exchange(m.tag, env.draw)])
  {
    ProcessIs(s, m, env);
    PassedKeeps(s, m);
    if Reaches(s, m, env) { HandleGens(Passed(s, m), m, env); }
  }

  lemma HandleGens(s: Ses, m: Msg, env: HandlerEnv)
    requires !s.client && SesInv(s) && QueueOk(s) && (RecvReady(s) ==> m.ty == NEWKEYS)
    requires s.gate.last == m.ty && !s.gate.ignoreNext
    requires forall i | 0 <= i < |env.replies| :: Ordinary(env.replies[i])
    ensures var o := Handle(s, m, env);
            o.Go? ==> o.ses.rx.gens == s.rx.gens
                      || (m.ty == KEXDH_INIT && s.kex.recvKexinit && !RecvReady(s)
                          && o.ses.rx.gens == s.rx.gens + [Exchange(m.tag, env.draw)])
  {
    if m.ty == KEXINIT {
      RecvKexinitKeeps(s, m.tag, env.kex, env.draw);
    } else if m.ty == NEWKEYS {
      RecvNewkeysKeeps(s);
    } else if m.ty == KEXDH_INIT {
      KexdhInitKeeps(s, m.tag, env.draw, env.ok);
    } else {
      SubmitAllKeeps(s, env.replies);
    }
  }

  /** In an exchange the server has keys waiting once it has taken a value, and would take one until then. */
  predicate Waits(s: Ses, v: Seen) {
    s.kex.recvKexinit ==>
      (RecvReady(s) <==> v.took != []) && (RecvReady(s) || s.gate.req0 == 0 || s.gate.req0 == KEXDH_INIT)
  }

  lemma ProcessWaits(deal: Deal, s: Ses, m: Msg, env: HandlerEnv, v: Seen)
    requires ServerGate(s) && SesInv(s) && QueueOk(s) && Guarded(s) && s.gate.ignoreNext == v.skip && Waits(s, v)
    requires forall i | 0 <= i < |env.replies| :: Ordinary(env.replies[i])
    ensures var o := ProcessPacket(s, m, env); o.Go? ==> Waits(o.ses, Noted(deal, v, m))
  {
    ProcessIs(s, m, env);
    PassedKeeps(s, m);
    if Reaches(s, m, env) { HandleWaits(deal, Passed(s, m), m, env, v); }
  }

  lemma HandleWaits(deal: Deal, s: Ses, m: Msg, env: HandlerEnv, v: Seen)
    requires !s.client && !s.guess && !s.gate.ignoreNext && s.gate.last == m.ty && !v.skip && Waits(s, v)
    requires SesInv(s) && QueueOk(s) && (RecvReady(s) ==> m.ty == NEWKEYS)
    requires forall i | 0 <= i < |env.replies| :: Ordinary(env.replies[i])
    ensures Handle(s, m, env).Go? ==> Waits(Handle(s, m, env).ses, Noted(deal, v, m))
  {
    if m.ty == KEXINIT {
      RecvKexinitKeeps(s, m.tag, env.kex, env.draw);
    } else if m.ty == NEWKEYS {
      RecvNewkeysKeeps(s);
    } else if m.ty == KEXDH_INIT {
      KexdhInitKeeps(s, m.tag, env.draw, env.ok);
    } else {
      SubmitAllKeeps(s, env.replies);
    }
  }

  // ---------------------------------------------------------------- both

  /** While the client still waits for a reply the server has sent, that reply answers a value taken. */
  ghost predicate Linked(deal: Deal, out: seq<Sealed>, mine: nat, gens: seq<Exchange>) {
    |gens| == mine + 1 ==> InKex(out) && gens[mine].e in See(deal, out).took
  }

  /** Equations with it hand it on whole, as those with PairInv do (see RekeyPair.Kept). */
  ghost predicate Agreed(deal: Deal, p: Pair) {
    && PairInv(p)
    && ClientFits(deal, p.c, See(deal, p.s.tx.out[..p.gotC]).n)
    && p.s.gate.ignoreNext == See(deal, p.c.tx.out[..p.gotS]).skip && Waits(p.s, See(deal, p.c.tx.out[..p.gotS]))
    && Linked(deal, p.c.tx.out, |p.c.rx.gens|, p.s.rx.gens)
  }

  /** Within an exchange packets are only added to. */
  lemma {:induction false} Onward(deal: Deal, out: seq<Sealed>, more: seq<Sealed>)
    requires out <= more && InKex(out) && Switches(more) == Switches(out) && Disciplined(more)
    ensures InKex(more) && See(deal, out).took <= See(deal, more).took
    decreases |more|
  {
    if |more| > |out| {
      var init, x := more[..|more| - 1], more[|more| - 1];
      SwitchesMono(init, |out|);
      assert init[..|out|] == out && more == init + [x];
      DisciplinedInit(more);
      Onward(deal, out, init);
    } else {
      assert more == out;
    }
  }

  lemma DisciplinedInit(more: seq<Sealed>)
    requires Disciplined(more) && more != []
    ensures Disciplined(more[..|more| - 1])
    ensures Held(more[|more| - 1].msg.ty) ==> !InKex(more[..|more| - 1])
  {
    var init := more[..|more| - 1];
    forall i | 0 <= i < |init| && Held(init[i].msg.ty) ensures !InKex(init[..i]) {
      assert init[..i] == more[..i] && more[i] == init[i];
    }
  }

  /** The server is ahead of the client by at most the exchange whose reply is on its way. */
  lemma GensBound(p: Pair)
    requires PairInv(p)
    ensures |p.c.rx.gens| <= |p.s.rx.gens| <= |p.c.rx.gens| + 1
    ensures !RecvReady(p.s) ==> |p.s.rx.gens| == |p.c.rx.gens| == Switches(p.c.tx.out[..p.gotS])
  {
    IdsMono(p.s.tx.out, p.gotC);
    SwitchesMono(p.c.tx.out, p.gotS);
    SwitchCount(p.c);
  }

  /** In an exchange of its own, the client has had no value taken but the one it still offers. */
  lemma StillOffered(deal: Deal, c: Ses, heard: nat, e: nat)
    requires SesInv(c) && ClientFits(deal, c, heard) && InKex(c.tx.out) && e in See(deal, c.tx.out).took
    ensures c.dh.Offer? && c.dh.val == e && See(deal, c.tx.out).sent == [e]
  {
    var v := See(deal, c.tx.out);
    assert OfferFits(deal, v, c.kex, c.guess, c.initSent, c.dh) && Values(c.dh) == [e];
  }

  lemma LinkOnward(deal: Deal, out: seq<Sealed>, more: seq<Sealed>, mine: nat, gens: seq<Exchange>)
    requires Linked(deal, out, mine, gens) && out <= more && Disciplined(more) && Switches(out) == Switches(more)
    ensures Linked(deal, more, mine, gens)
  {
    if |gens| == mine + 1 { Onward(deal, out, more); }
  }

  lemma ClientLinked(deal: Deal, p: Pair, c: Ses)
    requires Agreed(deal, p) && p.c.tx.out <= c.tx.out && SesInv(c) && |c.rx.gens| >= |p.c.rx.gens|
    ensures Linked(deal, c.tx.out, |c.rx.gens|, p.s.rx.gens)
  {
    GensBound(p);
    if |c.rx.gens| == |p.c.rx.gens| {
      SwitchCount(p.c);
      SwitchCount(c);
      LinkOnward(deal, p.c.tx.out, c.tx.out, |c.rx.gens|, p.s.rx.gens);
    }
  }

  lemma ServerLinked(deal: Deal, p: Pair, m: Msg, gens: seq<Exchange>, f: nat)
    requires Agreed(deal, p) && p.gotS < |p.c.tx.out| && m == p.c.tx.out[p.gotS].msg && m.ty == KEXDH_INIT
    requires !p.s.gate.ignoreNext && p.s.kex.recvKexinit && !RecvReady(p.s)
    requires gens == p.s.rx.gens + [Exchange(m.tag, f)]
    ensures Linked(deal, p.c.tx.out, |p.c.rx.gens|, gens)
  {
    GensBound(p);
    SwitchCount(p.c);
    InitTaken(deal, p.c, p.gotS);
  }

  /** A value taken in an exchange still open at the client is one taken in that exchange. */
  lemma InitTaken(deal: Deal, c: Ses, n: nat)
    requires SesInv(c) && n < |c.tx.out| && c.tx.out[n].msg.ty == KEXDH_INIT
    requires InKex(c.tx.out[..n]) && !See(deal, c.tx.out[..n]).skip && Switches(c.tx.out[..n]) == Switches(c.tx.out)
    ensures InKex(c.tx.out) && c.tx.out[n].msg.tag in See(deal, c.tx.out).took
  {
    OneOnward(deal, c.tx.out, n);
  }

  lemma OneOnward(deal: Deal, out: seq<Sealed>, n: nat)
    requires Disciplined(out) && n < |out| && out[n].msg.ty == KEXDH_INIT
    requires InKex(out[..n]) && !See(deal, out[..n]).skip && Switches(out[..n]) == Switches(out)
    ensures InKex(out) && out[n].msg.tag in See(deal, out).took
  {
    Prefix(out, n);
    OutSnoc(out[..n], out[n]);
    SeeSnoc(deal, out[..n], out[n]);
    Onward(deal, out[..n + 1], out);
    var took := See(deal, out[..n + 1]).took;
    assert took[|took| - 1] == out[n].msg.tag && See(deal, out).took[|took| - 1] == took[|took| - 1];
  }

  /** The reply the client has next answers the value it offers, which is the last one it has sent. */
  lemma NextReply(deal: Deal, p: Pair)
    requires Agreed(deal, p) && p.gotC < |p.s.tx.out| && p.s.tx.out[p.gotC].msg.ty == KEXDH_REPLY
    ensures p.c.dh.Offer? && p.c.dh.val == p.s.tx.out[p.gotC].msg.tag
    ensures See(deal, p.c.tx.out).sent == [p.s.tx.out[p.gotC].msg.tag]
  {
    NextGen(p);
    LinkSays(deal, p.c, See(deal, p.s.tx.out[..p.gotC]).n, p.s.rx.gens, p.s.tx.out[p.gotC].msg.tag);
  }

  lemma LinkSays(deal: Deal, c: Ses, heard: nat, gens: seq<Exchange>, e: nat)
    requires SesInv(c) && ClientFits(deal, c, heard) && Linked(deal, c.tx.out, |c.rx.gens|, gens)
    requires |gens| == |c.rx.gens| + 1 && gens[|c.rx.gens|].e == e
    ensures c.dh.Offer? && c.dh.val == e && See(deal, c.tx.out).sent == [e]
  {
    StillOffered(deal, c, heard, e);
  }

  lemma NextGen(p: Pair)
    requires PairInv(p) && p.gotC < |p.s.tx.out| && p.s.tx.out[p.gotC].msg.ty == KEXDH_REPLY
    ensures |p.s.rx.gens| == |p.c.rx.gens| + 1 && p.s.rx.gens[|p.c.rx.gens|].e == p.s.tx.out[p.gotC].msg.tag
  {
    GensBound(p);
    NextId(p.s.tx.out, p.gotC);
  }

  lemma NextId(out: seq<Sealed>, n: nat)
    requires n < |out| && out[n].msg.ty == KEXDH_REPLY
    ensures var before := |Ids(out[..n])|; before < |Ids(out)| && Ids(out)[before].e == out[n].msg.tag
  {
    Prefix(out, n);
    IdsSnoc(out[..n], out[n]);
    IdsMono(out, n + 1);
  }

  // ---------------------------------------------------------------- one pass of each side

  /** The packet at hand, if it is a KEXINIT, is read as dealt. */
  predicate Deals(deal: Deal, onClient: bool, out: seq<Sealed>, got: nat, env: LoopEnv) {
    got < |out| && out[got].msg.ty == KEXINIT ==> Reads(deal, onClient, See(deal, out[..got]).n, env.handler.kex)
  }

  predicate StepDeals(deal: Deal, p: Pair, step: Step) {
    if step.onClient then Deals(deal, true, p.s.tx.out, p.gotC, step.env)
    else Deals(deal, false, p.c.tx.out, p.gotS, step.env)
  }

  lemma SeePrefix(deal: Deal, out: seq<Sealed>, more: seq<Sealed>, got: nat)
    requires out <= more && got <= |out|
    ensures See(deal, more[..got]) == See(deal, out[..got])
  {
    assert more[..got] == out[..got];
  }

  lemma ClientGoes(deal: Deal, p: Pair, c: Ses, got: nat)
    requires Agreed(deal, p) && PairInv(p.(c := c, gotC := got)) && p.c.tx.out <= c.tx.out
    requires |c.rx.gens| >= |p.c.rx.gens| && ClientFits(deal, c, See(deal, p.s.tx.out[..got]).n)
    ensures Agreed(deal, p.(c := c, gotC := got))
  {
    ClientLinked(deal, p, c);
    SeePrefix(deal, p.c.tx.out, c.tx.out, p.gotS);
  }

  /** The timers of the client. */
  lemma TimersAgree(deal: Deal, p: Pair, timers: Timers)
    requires Agreed(deal, p)
    ensures Agreed(deal, p.(c := CheckTimeouts(p.c, timers))) == Agreed(deal, p)
  {
    var c1 := CheckTimeouts(p.c, timers);
    ClientTimers(p, timers);
    HeardMore(p.s, p.c.tx.out, c1.tx.out, p.gotS);
    TimeoutsFit(deal, p.c, timers, See(deal, p.s.tx.out[..p.gotC]).n);
    ClientGoes(deal, p, c1, p.gotC);
  }

  /** Only a reply to another value makes a signature bad. */
  lemma BadOnlyFor(c: Ses, m: Msg, env: HandlerEnv)
    requires c.client && ProcessPacket(c, m, env) == Exit(BadSignature)
    ensures m.ty == KEXDH_REPLY && c.dh.Offer? && m.tag != c.dh.val
  {
    ProcessIs(c, m, env);
    if Reaches(c, m, env) { BadOnlyIn(Passed(c, m), m, env); }
  }

  lemma BadOnlyIn(s: Ses, m: Msg, env: HandlerEnv)
    requires s.client && Handle(s, m, env) == Exit(BadSignature)
    ensures m.ty == KEXDH_REPLY && s.dh.Offer? && m.tag != s.dh.val
  {
  }

  /** The reply that is next is to the value offered. */
  lemma NeverBad(deal: Deal, p: Pair, env: HandlerEnv)
    requires Agreed(deal, p) && p.gotC < |p.s.tx.out|
    ensures ProcessPacket(p.c, p.s.tx.out[p.gotC].msg, env) != Exit(BadSignature)
  {
    var m := p.s.tx.out[p.gotC].msg;
    if m.ty == KEXDH_REPLY { NextReply(deal, p); }
    if ProcessPacket(p.c, m, env) == Exit(BadSignature) { BadOnlyFor(p.c, m, env); }
  }

  lemma PacketFits(deal: Deal, c: Ses, out: seq<Sealed>, n: nat, env: HandlerEnv)
    requires TopInv(c) && c.client && !c.gate.ignoreNext && InitOk(c) && !c.kex.recvNewkeys && n < |out|
    requires ClientFits(deal, c, See(deal, out[..n]).n) && (out[n].msg.ty == NEWKEYS ==> RecvReady(c))
    requires out[n].msg.ty == KEXINIT ==> Reads(deal, true, See(deal, out[..n]).n, env.kex)
    requires forall i | 0 <= i < |env.replies| :: Ordinary(env.replies[i])
    ensures var o := ProcessPacket(c, out[n].msg, env);
            o.Go? ==> ClientFits(deal, o.ses, See(deal, out[..n + 1]).n)
  {
    ProcessFits(deal, c, out[n].msg, env, See(deal, out[..n]).n);
    SeeNext(deal, out, n);
  }

  lemma SeeNext(deal: Deal, out: seq<Sealed>, n: nat)
    requires n < |out|
    ensures See(deal, out[..n + 1]) == Noted(deal, See(deal, out[..n]), out[n].msg)
  {
    Prefix(out, n);
    SeeSnoc(deal, out[..n], out[n]);
  }

  /** In the middle of the client's pass, when it has come to c and heard `got` packets. */
  ghost predicate ClientMid(deal: Deal, p: Pair, c: Ses, got: nat) {
    ClientAt(c, p.s.tx.out, got, p.c.tx.out) && p.gotC <= got && ClientFits(deal, c, See(deal, p.s.tx.out[..got]).n)
  }

  /** The rest of the client's pass. */
  lemma RestAgrees(deal: Deal, p: Pair, c: Ses, got: nat, env: LoopEnv, agreed: bool) returns (c2: Ses)
    requires Sound(deal) && agreed && Agreed(deal, p) == agreed && ClientMid(deal, p, c, got) == agreed && SafeEnv(env)
    ensures Rest(c, env) == Go(c2) && (Agreed(deal, p.(c := c2, gotC := got)) == agreed)
  {
    RestFits(deal, c, p.s.tx.out, got, env, See(deal, p.s.tx.out[..got]).n);
    RestKeeps(c, env);
    c2 := ClientPassEnd(p, c, got, env, PairInv(p));
    MoreIds(p.s.tx.out, p.gotC, got);
    ClientGoes(deal, p, c2, got);
  }

  lemma MoreIds(out: seq<Sealed>, n: nat, k: nat)
    requires n <= k <= |out|
    ensures |Ids(out[..n])| <= |Ids(out[..k])|
  {
    IdsMono(out[..k], n);
    assert out[..k][..n] == out[..n];
  }

  /** A side ends over the values of an exchange: a reply to another, or, of values that may differ, one too many. */
  predicate Disturbed(deal: Deal, onClient: bool, why: Why) {
    why == BadSignature || (!deal.reuse && !onClient && why == UnexpectedPacket(KEXDH_INIT))
  }

  /** Still agreed, or ended for another reason. */
  ghost predicate StillAgreed(deal: Deal, v: Verdict) {
    !v.Crashes? && (v.Next? ==> Agreed(deal, v.pair)) && (v.Ends? ==> !Disturbed(deal, v.onClient, v.why))
  }

  lemma ClientAgrees(deal: Deal, p: Pair, arrives: bool, env: LoopEnv)
    requires Sound(deal) && Agreed(deal, p) && SafeEnv(env) && Deals(deal, true, p.s.tx.out, p.gotC, env)
    ensures StillAgreed(deal, Take(p, Step(true, arrives, env)))
  {
    if NextMsg(p.s.tx.out, p.gotC, arrives) == [] { QuietAgrees(deal, p, arrives, env); }
    else { ArrivalAgrees(deal, p, arrives, env); }
  }

  lemma QuietAgrees(deal: Deal, p: Pair, arrives: bool, env: LoopEnv)
    requires Sound(deal) && Agreed(deal, p) && SafeEnv(env) && NextMsg(p.s.tx.out, p.gotC, arrives) == []
    ensures StillAgreed(deal, Take(p, Step(true, arrives, env))) == Agreed(deal, p)
  {
    TimersAgree(deal, p, env.timers);
    var c2 := TakesNothing(deal, p.(c := CheckTimeouts(p.c, env.timers)), env);
    ClientTakesNone(p, arrives, env, c2);
  }

  lemma ArrivalAgrees(deal: Deal, p: Pair, arrives: bool, env: LoopEnv)
    requires Sound(deal) && Agreed(deal, p) && SafeEnv(env) && Deals(deal, true, p.s.tx.out, p.gotC, env)
    requires NextMsg(p.s.tx.out, p.gotC, arrives) != []
    ensures StillAgreed(deal, Take(p, Step(true, arrives, env))) == Agreed(deal, p)
  {
    var o, c2 := TimersThenPacket(deal, p, env);
    ClientEnds(deal, p, arrives, env, o, c2, Agreed(deal, p));
  }

  lemma ClientEnds(deal: Deal, p: Pair, arrives: bool, env: LoopEnv, o: Outcome, c2: Ses, agreed: bool)
    requires NextMsg(p.s.tx.out, p.gotC, arrives) != [] && agreed && !o.Crash? && o != Exit(BadSignature)
    requires o == ProcessPacket(CheckTimeouts(p.c, env.timers), p.s.tx.out[p.gotC].msg, env.handler)
    requires o.Go? ==> Rest(o.ses, env) == Go(c2) && (Agreed(deal, p.(c := c2, gotC := p.gotC + 1)) == agreed)
    ensures StillAgreed(deal, Take(p, Step(true, arrives, env))) == agreed
  {
    ClientTakesOne(p, arrives, env, o, c2);
  }

  lemma TimersThenPacket(deal: Deal, p: Pair, env: LoopEnv) returns (o: Outcome, c2: Ses)
    requires Sound(deal) && Agreed(deal, p) && SafeEnv(env) && p.gotC < |p.s.tx.out| && Deals(deal, true, p.s.tx.out, p.gotC, env)
    ensures o == ProcessPacket(CheckTimeouts(p.c, env.timers), p.s.tx.out[p.gotC].msg, env.handler)
    ensures !o.Crash? && o != Exit(BadSignature)
    ensures o.Go? ==> Rest(o.ses, env) == Go(c2) && (Agreed(deal, p.(c := c2, gotC := p.gotC + 1)) == Agreed(deal, p))
  {
    TimersAgree(deal, p, env.timers);
    var p1 := p.(c := CheckTimeouts(p.c, env.timers));
    o := ProcessPacket(p1.c, p.s.tx.out[p.gotC].msg, env.handler);
    c2 := TakesPacket(deal, p1, env, o);
    assert p1.(c := c2, gotC := p.gotC + 1) == p.(c := c2, gotC := p.gotC + 1);
  }

  lemma TakesNothing(deal: Deal, p: Pair, env: LoopEnv) returns (c2: Ses)
    requires Sound(deal) && Agreed(deal, p) && SafeEnv(env)
    ensures Rest(p.c, env) == Go(c2) && (Agreed(deal, p.(c := c2, gotC := p.gotC)) == Agreed(deal, p))
  {
    c2 := RestAgrees(deal, p, p.c, p.gotC, env, Agreed(deal, p));
  }

  lemma TakesPacket(deal: Deal, p: Pair, env: LoopEnv, o: Outcome) returns (c2: Ses)
    requires Sound(deal) && Agreed(deal, p) && p.gotC < |p.s.tx.out| && SafeEnv(env) && Deals(deal, true, p.s.tx.out, p.gotC, env)
    requires o == ProcessPacket(p.c, p.s.tx.out[p.gotC].msg, env.handler)
    ensures !o.Crash? && o != Exit(BadSignature)
    ensures o.Go? ==> Rest(o.ses, env) == Go(c2) && (Agreed(deal, p.(c := c2, gotC := p.gotC + 1)) == Agreed(deal, p))
  {
    c2 := p.c;
    NeverBad(deal, p, env.handler);
    PacketMid(deal, p, env.handler, o);
    if o.Go? { c2 := RestAgrees(deal, p, o.ses, p.gotC + 1, env, Agreed(deal, p)); }
  }

  lemma PacketMid(deal: Deal, p: Pair, env: HandlerEnv, o: Outcome)
    requires Agreed(deal, p) && p.gotC < |p.s.tx.out| && o == ProcessPacket(p.c, p.s.tx.out[p.gotC].msg, env)
    requires p.s.tx.out[p.gotC].msg.ty == KEXINIT ==> Reads(deal, true, See(deal, p.s.tx.out[..p.gotC]).n, env.kex)
    requires forall i | 0 <= i < |env.replies| :: Ordinary(env.replies[i])
    ensures !o.Crash? && (o.Go? ==> ClientMid(deal, p, o.ses, p.gotC + 1) == Agreed(deal, p))
  {
    FitsNext(deal, p, env, Agreed(deal, p));
    ClientReceives(p, p.c, env);
  }

  lemma FitsNext(deal: Deal, p: Pair, env: HandlerEnv, fits: bool)
    requires PairInv(p) && p.gotC < |p.s.tx.out| && forall i | 0 <= i < |env.replies| :: Ordinary(env.replies[i])
    requires fits && ClientFits(deal, p.c, See(deal, p.s.tx.out[..p.gotC]).n) == fits
    requires p.s.tx.out[p.gotC].msg.ty == KEXINIT ==> Reads(deal, true, See(deal, p.s.tx.out[..p.gotC]).n, env.kex)
    ensures var o := ProcessPacket(p.c, p.s.tx.out[p.gotC].msg, env);
            o.Go? ==> ClientFits(deal, o.ses, See(deal, p.s.tx.out[..p.gotC + 1]).n) == fits
  {
    ClientKnows(p, p.c);
    PacketFits(deal, p.c, p.s.tx.out, p.gotC, env);
  }

  lemma ServerGoes(deal: Deal, p: Pair, s: Ses, got: nat)
    requires Agreed(deal, p) && PairInv(p.(s := s, gotS := got)) && p.s.tx.out <= s.tx.out
    requires s.gate.ignoreNext == See(deal, p.c.tx.out[..got]).skip && Waits(s, See(deal, p.c.tx.out[..got]))
    requires Linked(deal, p.c.tx.out, |p.c.rx.gens|, s.rx.gens)
    ensures Agreed(deal, p.(s := s, gotS := got))
  {
    SeePrefix(deal, p.s.tx.out, s.tx.out, p.gotC);
  }

  /** In the middle of the server's pass, when it has come to s and heard `got` packets. */
  ghost predicate ServerMid(deal: Deal, p: Pair, s: Ses, got: nat) {
    && ServerAt(s, p.c.tx.out, got, p.s.tx.out) && s.gate.ignoreNext == See(deal, p.c.tx.out[..got]).skip
    && Waits(s, See(deal, p.c.tx.out[..got])) && Linked(deal, p.c.tx.out, |p.c.rx.gens|, s.rx.gens)
  }

  /** The rest of the server's pass. */
  lemma ServerRest(deal: Deal, p: Pair, s: Ses, got: nat, env: LoopEnv, agreed: bool) returns (s2: Ses)
    requires agreed && Agreed(deal, p) == agreed && ServerMid(deal, p, s, got) == agreed && SafeEnv(env)
    ensures Rest(s, env) == Go(s2) && (Agreed(deal, p.(s := s2, gotS := got)) == agreed)
  {
    RestKeeps(s, env);
    s2 := ServerPassEnd(p, s, got, env, PairInv(p));
    ServerGoes(deal, p, s2, got);
  }

  /** What the server's timers leave as it was. */
  lemma ServerTimed(p: Pair, timers: Timers)
    requires PairInv(p)
    ensures var s1 := CheckTimeouts(p.s, timers);
            TopInv(s1) && Plain(p.s, s1) && ServerGate(s1) && Served(s1.tx.out, s1.rx.gens)
            && Heard(s1, p.c.tx.out, p.gotS) && s1.gate == p.s.gate
  {
    ServerTimers(p, timers);
    CheckTimeoutsKeeps(p.s, timers);
  }

  lemma ServerAgrees(deal: Deal, p: Pair, arrives: bool, env: LoopEnv)
    requires Agreed(deal, p) && SafeEnv(env) && Deals(deal, false, p.c.tx.out, p.gotS, env)
    ensures StillAgreed(deal, Take(p, Step(false, arrives, env)))
  {
    if NextMsg(p.c.tx.out, p.gotS, arrives) == [] { ServerQuietAgrees(deal, p, arrives, env); }
    else { ServerArrivalAgrees(deal, p, arrives, env); }
  }

  lemma ServerQuietAgrees(deal: Deal, p: Pair, arrives: bool, env: LoopEnv)
    requires Agreed(deal, p) && SafeEnv(env) && NextMsg(p.c.tx.out, p.gotS, arrives) == []
    ensures StillAgreed(deal, Take(p, Step(false, arrives, env))) == Agreed(deal, p)
  {
    var s2 := ServerNothing(deal, p, env);
    ServerTakesNone(p, arrives, env, s2);
  }

  lemma ServerArrivalAgrees(deal: Deal, p: Pair, arrives: bool, env: LoopEnv)
    requires Agreed(deal, p) && SafeEnv(env) && Deals(deal, false, p.c.tx.out, p.gotS, env)
    requires NextMsg(p.c.tx.out, p.gotS, arrives) != []
    ensures StillAgreed(deal, Take(p, Step(false, arrives, env))) == Agreed(deal, p)
  {
    var o, s2 := ServerArrival(deal, p, env);
    ServerEnds(deal, p, arrives, env, o, s2, Agreed(deal, p));
  }

  lemma ServerEnds(deal: Deal, p: Pair, arrives: bool, env: LoopEnv, o: Outcome, s2: Ses, agreed: bool)
    requires NextMsg(p.c.tx.out, p.gotS, arrives) != [] && agreed && !o.Crash? && (o.Exit? ==> !Disturbed(deal, false, o.why))
    requires o == ProcessPacket(CheckTimeouts(p.s, env.timers), p.c.tx.out[p.gotS].msg, env.handler)
    requires o.Go? ==> Rest(o.ses, env) == Go(s2) && (Agreed(deal, p.(s := s2, gotS := p.gotS + 1)) == agreed)
    ensures StillAgreed(deal, Take(p, Step(false, arrives, env))) == agreed
  {
    ServerTakesOne(p, arrives, env, o, s2);
  }

  lemma ServerNothing(deal: Deal, p: Pair, env: LoopEnv) returns (s2: Ses)
    requires Agreed(deal, p) && SafeEnv(env)
    ensures Rest(CheckTimeouts(p.s, env.timers), env) == Go(s2)
    ensures Agreed(deal, p.(s := s2, gotS := p.gotS)) == Agreed(deal, p)
  {
    ServerMidTimed(deal, p, env.timers);
    s2 := ServerRest(deal, p, CheckTimeouts(p.s, env.timers), p.gotS, env, Agreed(deal, p));
  }

  lemma ServerMidTimed(deal: Deal, p: Pair, timers: Timers)
    requires Agreed(deal, p)
    ensures ServerMid(deal, p, CheckTimeouts(p.s, timers), p.gotS) == Agreed(deal, p)
  {
    ServerTimed(p, timers);
  }

  lemma ServerArrival(deal: Deal, p: Pair, env: LoopEnv) returns (o: Outcome, s2: Ses)
    requires Agreed(deal, p) && SafeEnv(env) && p.gotS < |p.c.tx.out| && Deals(deal, false, p.c.tx.out, p.gotS, env)
    ensures o == ProcessPacket(CheckTimeouts(p.s, env.timers), p.c.tx.out[p.gotS].msg, env.handler)
    ensures !o.Crash? && (o.Exit? ==> !Disturbed(deal, false, o.why))
    ensures o.Go? ==> Rest(o.ses, env) == Go(s2) && (Agreed(deal, p.(s := s2, gotS := p.gotS + 1)) == Agreed(deal, p))
  {
    var s1 := CheckTimeouts(p.s, env.timers);
    o := ProcessPacket(s1, p.c.tx.out[p.gotS].msg, env.handler);
    ServerTimed(p, env.timers);
    ServerPacketAgrees(deal, p, s1, env.handler, o);
    s2 := s1;
    if o.Go? { s2 := ServerRest(deal, p, o.ses, p.gotS + 1, env, Agreed(deal, p)); }
  }

  lemma ServerPacketAgrees(deal: Deal, p: Pair, s: Ses, env: HandlerEnv, o: Outcome)
    requires Agreed(deal, p) && p.gotS < |p.c.tx.out| && o == ProcessPacket(s, p.c.tx.out[p.gotS].msg, env)
    requires TopInv(s) && Plain(p.s, s) && ServerGate(s) && Served(s.tx.out, s.rx.gens) && Heard(s, p.c.tx.out, p.gotS)
    requires s.gate == p.s.gate
    requires p.c.tx.out[p.gotS].msg.ty == KEXINIT ==> Reads(deal, false, See(deal, p.c.tx.out[..p.gotS]).n, env.kex)
    requires forall i | 0 <= i < |env.replies| :: Ordinary(env.replies[i])
    ensures !o.Crash? && (o.Exit? ==> !Disturbed(deal, false, o.why))
    ensures o.Go? ==> ServerMid(deal, p, o.ses, p.gotS + 1) == Agreed(deal, p)
  {
    ServerReceives(p, s, env);
    ServerLinks(deal, p, s, env);
    NeverRefused(deal, p, Agreed(deal, p));
    ServerUndisturbed(deal, s, p.c.tx.out[p.gotS].msg, env);
  }

  lemma ServerUndisturbed(deal: Deal, s: Ses, m: Msg, env: HandlerEnv)
    requires !s.client && (m.ty == KEXDH_INIT ==> deal.reuse || Allowed(s.gate, KEXDH_INIT))
    ensures var o := ProcessPacket(s, m, env); o.Exit? ==> !Disturbed(deal, false, o.why)
  {
    ServerNeverBad(s, m, env);
    if ProcessPacket(s, m, env) == Exit(UnexpectedPacket(KEXDH_INIT)) { RefusedOnly(s, m, env); }
  }

  lemma ServerLinks(deal: Deal, p: Pair, s: Ses, env: HandlerEnv)
    requires Agreed(deal, p) && p.gotS < |p.c.tx.out| && forall i | 0 <= i < |env.replies| :: Ordinary(env.replies[i])
    requires ServerGate(s) && SesInv(s) && QueueOk(s) && Guarded(s) && Plain(p.s, s) && s.gate == p.s.gate
    requires p.c.tx.out[p.gotS].msg.ty == KEXINIT ==> Reads(deal, false, See(deal, p.c.tx.out[..p.gotS]).n, env.kex)
    ensures var o := ProcessPacket(s, p.c.tx.out[p.gotS].msg, env);
            o.Go? ==> o.ses.gate.ignoreNext == See(deal, p.c.tx.out[..p.gotS + 1]).skip
                      && Waits(o.ses, See(deal, p.c.tx.out[..p.gotS + 1]))
                      && Linked(deal, p.c.tx.out, |p.c.rx.gens|, o.ses.rx.gens)
  {
    PacketSkips(deal, s, p.c.tx.out, p.gotS, env);
    var o := ProcessPacket(s, p.c.tx.out[p.gotS].msg, env);
    if o.Go? && o.ses.rx.gens != s.rx.gens {
      ServerLinked(deal, p, p.c.tx.out[p.gotS].msg, o.ses.rx.gens, env.draw);
    }
  }

  lemma PacketSkips(deal: Deal, s: Ses, out: seq<Sealed>, n: nat, env: HandlerEnv)
    requires ServerGate(s) && SesInv(s) && QueueOk(s) && Guarded(s) && n < |out|
    requires s.gate.ignoreNext == See(deal, out[..n]).skip && Waits(s, See(deal, out[..n]))
    requires out[n].msg.ty == KEXINIT ==> Reads(deal, false, See(deal, out[..n]).n, env.kex)
    requires forall i | 0 <= i < |env.replies| :: Ordinary(env.replies[i])
    ensures var o := ProcessPacket(s, out[n].msg, env);
            o.Go? ==> o.ses.gate.ignoreNext == See(deal, out[..n + 1]).skip && Waits(o.ses, See(deal, out[..n + 1]))
                      && (o.ses.rx.gens == s.rx.gens
                          || (out[n].msg.ty == KEXDH_INIT && !s.gate.ignoreNext && s.kex.recvKexinit && !RecvReady(s)
                              && o.ses.rx.gens == s.rx.gens + [Exchange(out[n].msg.tag, env.draw)]))
  {
    ProcessSkips(deal, s, out[n].msg, env, See(deal, out[..n]));
    ProcessWaits(deal, s, out[n].msg, env, See(deal, out[..n]));
    ProcessGens(s, out[n].msg, env);
    SeeNext(deal, out, n);
  }

  lemma ServerNeverBad(s: Ses, m: Msg, env: HandlerEnv)
    requires !s.client
    ensures ProcessPacket(s, m, env) != Exit(BadSignature)
  {
    ProcessIs(s, m, env);
  }

  /** A KEXDH_INIT that is next is one the server ignores, or the first of its exchange: it is allowed. */
  lemma NeverRefused(deal: Deal, p: Pair, agreed: bool)
    requires agreed && Agreed(deal, p) == agreed && p.gotS < |p.c.tx.out|
    ensures p.c.tx.out[p.gotS].msg.ty == KEXDH_INIT ==> deal.reuse || Allowed(p.s.gate, KEXDH_INIT)
  {
    if !deal.reuse { InitAwaited(deal, p.s, p.c.tx.out, p.gotS); }
  }

  lemma InitAwaited(deal: Deal, s: Ses, out: seq<Sealed>, n: nat)
    requires n < |out| && !See(deal, out).twice && s.gate.ignoreNext == See(deal, out[..n]).skip && Waits(s, See(deal, out[..n]))
    requires ServerGate(s) && Heard(s, out, n) && Disciplined(out) && KexOnly(out)
    ensures out[n].msg.ty == KEXDH_INIT ==> Allowed(s.gate, KEXDH_INIT)
  {
    if out[n].msg.ty == KEXDH_INIT {
      assert Kexdh(out[n].msg.ty);
      SeeNext(deal, out, n);
      if See(deal, out[..n + 1]).twice { TwiceMono(deal, out, n + 1); }
    }
  }

  lemma RefusedOnly(s: Ses, m: Msg, env: HandlerEnv)
    requires ProcessPacket(s, m, env) == Exit(UnexpectedPacket(KEXDH_INIT))
    ensures m.ty == KEXDH_INIT && !Allowed(s.gate, KEXDH_INIT)
  {
  }

  lemma {:induction false} TwiceMono(deal: Deal, out: seq<Sealed>, n: nat)
    requires n <= |out| && See(deal, out[..n]).twice
    ensures See(deal, out).twice
    decreases |out|
  {
    if n < |out| {
      var init := out[..|out| - 1];
      assert init[..n] == out[..n];
      TwiceMono(deal, init, n);
    } else {
      assert out[..n] == out;
    }
  }

  // ---------------------------------------------------------------- every run

  /** In every step of the run the KEXINIT at hand, if any, is dealt with as agreed. */
  ghost predicate RunDeals(deal: Deal, p: Pair, steps: seq<Step>)
    decreases |steps|
  {
    steps == [] ||
    (StepDeals(deal, p, steps[0])
     && (Take(p, steps[0]).Next? ==> RunDeals(deal, Take(p, steps[0]).pair, steps[1..])))
  }

  lemma {:induction false} RunAgrees(deal: Deal, p: Pair, steps: seq<Step>, agreed: bool)
    requires Sound(deal) && agreed && Agreed(deal, p) == agreed && SafeSteps(steps) && RunDeals(deal, p, steps)
    ensures StillAgreed(deal, Run(p, steps)) == agreed
    decreases |steps|
  {
    if steps != [] {
      assert SafeEnv(steps[0].env) && SafeSteps(steps[1..]);
      StepAgrees(deal, p, steps[0], agreed);
      if Take(p, steps[0]).Next? { RunAgrees(deal, Take(p, steps[0]).pair, steps[1..], agreed); }
    }
  }

  lemma StepAgrees(deal: Deal, p: Pair, step: Step, agreed: bool)
    requires Sound(deal) && agreed && Agreed(deal, p) == agreed && SafeEnv(step.env) && StepDeals(deal, p, step)
    ensures StillAgreed(deal, Take(p, step)) == agreed
  {
    if step.onClient { ClientAgrees(deal, p, step.arrives, step.env); } else { ServerAgrees(deal, p, step.arrives, step.env); }
  }

  lemma OpenedAgrees(deal: Deal, guess: bool, draw: nat)
    ensures Agreed(deal, Opened(guess, draw))
  {
    OpenedInv(guess, draw);
    KexinitFits(deal, Blank(true, guess), draw, 0);
  }

  /**
   * No run so dealt ends over the values of an exchange, and the reply the client has next is the answer to the
   * value it offers and to the last KEXDH_INIT of its exchange.
   */
  lemma RepliesAnswer(deal: Deal, guess: bool, draw: nat, steps: seq<Step>)
    requires Sound(deal) && SafeSteps(steps) && RunDeals(deal, Opened(guess, draw), steps)
    ensures var v := Run(Opened(guess, draw), steps);
            (v.Ends? ==> !Disturbed(deal, v.onClient, v.why))
            && (v.Next? ==>
                  var p := v.pair;
                  p.gotC < |p.s.tx.out| && p.s.tx.out[p.gotC].msg.ty == KEXDH_REPLY ==>
                    var e := p.s.tx.out[p.gotC].msg.tag;
                    p.c.dh.Offer? && p.c.dh.val == e && See(deal, p.c.tx.out).sent == [e])
  {
    OpenedAgrees(deal, guess, draw);
    RunAgrees(deal, Opened(guess, draw), steps, true);
    var v := Run(Opened(guess, draw), steps);
    if v.Next? && v.pair.gotC < |v.pair.s.tx.out| && v.pair.s.tx.out[v.pair.gotC].msg.ty == KEXDH_REPLY {
      NextReply(deal, v.pair);
    }
  }
}
