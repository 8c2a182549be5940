/** What no packet achieves, whoever sends it: one side alone, in any state. */
module RekeyGuards {
  import opened Rekey

  lemma {:induction false} SubmitAllRx(s: Ses, ms: seq<Msg>)
    ensures SubmitAll(s, ms).rx == s.rx
    decreases |ms|
  {
    if ms != [] { SubmitAllRx(Submit(s, ms[0]), ms[1..]); }
  }

  /** The exchange a packet completes: on the client a reply to its own value, on the server a value while it is in one. */
  predicate Completes(s: Ses, m: Msg, env: HandlerEnv, x: Exchange) {
    && env.ok
    && if s.client then m.ty == 31 && s.initSent && s.dh.Offer? && s.dh.val == m.tag && x == Exchange(m.tag, m.pub)
       else m.ty == 30 && s.kex.recvKexinit && x == Exchange(m.tag, env.draw)
  }

  /** No packet brings new keys but one that completes an exchange whose values, and on the client whose signature, are good. */
  lemma KeysOnlyFrom(s: Ses, m: Msg, env: HandlerEnv)
    ensures var o := ProcessPacket(s, m, env);
            o.Go? && o.ses.rx.gens != s.rx.gens ==>
              exists x :: o.ses.rx.gens == s.rx.gens + [x] && Completes(s, m, env, x)
  {
    var s1 := Reached(s, m);
    if ProcessPacket(s, m, env).Go? && ProcessPacket(s, m, env).ses.rx.gens != s.rx.gens {
      HandleGens(s1, m, env);
      var x := if s.client then Exchange(m.tag, m.pub) else Exchange(m.tag, env.draw);
      assert Completes(s, m, env, x);
    }
  }

  /** The state a packet is handled in, when it is. */
  function Reached(s: Ses, m: Msg): Ses {
    var s1 := Counted(s, m);
    if s1.gate.req0 != 0 then s1.(gate := s1.gate.(req0 := 0, req1 := 0)) else s1
  }

  lemma SwitchGens(s: Ses)
    ensures SwitchKeys(s).Go? ==> SwitchKeys(s).ses.rx.gens == s.rx.gens
  {
  }

  lemma NewkeysGens(s: Ses, x: Exchange)
    ensures SendNewkeys(s, x).Go? ==> SendNewkeys(s, x).ses.rx.gens == s.rx.gens + [x]
  {
    var s1 := Submit(s, Msg(NEWKEYS, 0));
    var s2 := s1.(kex := s1.kex.(sentNewkeys := true, doneFirst := true), dataAllowed := true);
    if GenNewKeys(s2, x).Go? { SwitchGens(GenNewKeys(s2, x).ses); }
  }

  lemma KexinitGens(s: Ses, tag: nat, env: KexEnv, draw: nat)
    ensures RecvKexinit(s, tag, env, draw).Go? ==> RecvKexinit(s, tag, env, draw).ses.rx.gens == s.rx.gens
  {
  }

  lemma InitGens(s: Ses, e: nat, f: nat, ok: bool)
    ensures RecvKexdhInit(s, e, f, ok).Go? ==>
              ok && s.kex.recvKexinit && RecvKexdhInit(s, e, f, ok).ses.rx.gens == s.rx.gens + [Exchange(e, f)]
  {
    NewkeysGens(Submit(s, Msg(KEXDH_REPLY, e, f)), Exchange(e, f));
  }

  lemma ReplyGens(s: Ses, m: Msg, ok: bool)
    ensures RecvKexdhReply(s, m, ok).Go? ==>
              ok && s.initSent && s.dh.Offer? && s.dh.val == m.tag
              && RecvKexdhReply(s, m, ok).ses.rx.gens == s.rx.gens + [Exchange(m.tag, m.pub)]
  {
    if s.dh.Offer? { NewkeysGens(s.(dh := NoOffer), Exchange(s.dh.val, m.pub)); }
  }

  lemma HandleGens(s: Ses, m: Msg, env: HandlerEnv)
    ensures var o := Handle(s, m, env);
            o.Go? && o.ses.rx.gens != s.rx.gens ==>
              var x := if s.client then Exchange(m.tag, m.pub) else Exchange(m.tag, env.draw);
              o.ses.rx.gens == s.rx.gens + [x] && Completes(s, m, env, x)
  {
    if m.ty == KEXINIT { KexinitGens(s, m.tag, env.kex, env.draw); }
    else if m.ty == NEWKEYS { SwitchGens(s.(kex := s.kex.(recvNewkeys := true))); }
    else if m.ty == KEXDH_INIT && !s.client { InitGens(s, m.tag, env.draw, env.ok); }
    else if m.ty == KEXDH_REPLY && s.client { ReplyGens(s, m, env.ok); }
    else { SubmitAllRx(s, env.replies); }
  }

  /** Before authentication no packet of a later stage has any effect. */
  lemma LaterStageRefused(s: Ses, m: Msg, env: HandlerEnv)
    requires m.ty > 60 && !env.authDone
    ensures var o := ProcessPacket(s, m, env); o.Go? ==> s.gate.ignoreNext && o.ses.rx.gens == s.rx.gens && o.ses.tx == s.tx
  {
  }

  /** Behind the packet that completes an exchange the next is NEWKEYS, or one of the four taken at any time, or the last. */
  lemma NewkeysNext(s: Ses, m: Msg, env: HandlerEnv, next: Msg, env': HandlerEnv)
    requires ProcessPacket(s, m, env).Go? && ProcessPacket(s, m, env).ses.rx.gens != s.rx.gens
    ensures next.ty !in {1, 2, 3, 4, 21} ==> ProcessPacket(ProcessPacket(s, m, env).ses, next, env') == Exit(UnexpectedPacket(next.ty))
  {
    KeysOnlyFrom(s, m, env);
  }

  /** DISCONNECT ends the session in any state. */
  lemma DisconnectEnds(s: Ses, m: Msg, env: HandlerEnv)
    requires m.ty == 1
    ensures ProcessPacket(s, m, env).Exit?
  {
  }

  /** A keepalive that is due leaves at once, in the middle of a key exchange too. */
  lemma KeepaliveLeaves(s: Ses, draw: nat)
    ensures CheckTimeouts(s, Timers(false, draw, true)).tx.out == s.tx.out + [Sealed(Msg(2, 0), s.tx.epoch, s.tx.seqno)]
  {
  }
}
