/** A client and a server over a first-in first-out link each way: every packet meets the keys it was sealed with. */
module RekeyPair {
  import opened Rekey
  import opened RekeyKeeps

  /** gotC packets of the server's have reached the client, gotS of the client's the server. */
  datatype Pair = Pair(c: Ses, s: Ses, gotC: nat, gotS: nat)

  /** One pass of one side's loop, with or without the next packet on its link. */
  datatype Step = Step(onClient: bool, arrives: bool, env: LoopEnv)

  /** A run goes on, or one side ends it. */
  datatype Verdict = Next(pair: Pair) | Ends(onClient: bool, why: Why) | Crashes

  function NextMsg(out: seq<Sealed>, got: nat, arrives: bool): (r: seq<Msg>)
    ensures |r| <= 1
  {
    if arrives && got < |out| then [out[got].msg] else []
  }

  /** What a step comes to when its pass ends as o; q is the pair if the pass goes on. */
  function Came(onClient: bool, o: Outcome, q: Pair): Verdict {
    match o
    case Go(_) => Next(q)
    case Exit(why) => Ends(onClient, why)
    case Crash => Crashes
  }

  function Take(p: Pair, step: Step): Verdict {
    if step.onClient then
      var m := NextMsg(p.s.tx.out, p.gotC, step.arrives);
      var o := Iteration(p.c, m, step.env);
      Came(true, o, if o.Go? then p.(c := o.ses, gotC := p.gotC + |m|) else p)
    else
      var m := NextMsg(p.c.tx.out, p.gotS, step.arrives);
      var o := Iteration(p.s, m, step.env);
      Came(false, o, if o.Go? then p.(s := o.ses, gotS := p.gotS + |m|) else p)
  }

  function Run(p: Pair, steps: seq<Step>): Verdict
    decreases |steps|
  {
    if steps == [] then Next(p)
    else
      match Take(p, steps[0])
      case Next(p1) => Run(p1, steps[1..])
      case Ends(onClient, why) => Ends(onClient, why)
      case Crashes => Crashes
  }

  // ---------------------------------------------------------------- the invariant

  /** The exchanges that KEXDH_REPLY packets announce. */
  function Ids(out: seq<Sealed>): (ids: seq<Exchange>) {
    if out == [] then []
    else
      var m := out[|out| - 1].msg;
      Ids(out[..|out| - 1]) + if m.ty == KEXDH_REPLY then [Exchange(m.tag, m.pub)] else []
  }

  predicate EndsInReply(out: seq<Sealed>) { out != [] && out[|out| - 1].msg.ty == KEXDH_REPLY }

  /** NEWKEYS comes right after KEXDH_REPLY and nowhere else. */
  predicate Paired(out: seq<Sealed>) {
    out == [] ||
    (Paired(out[..|out| - 1]) && ((out[|out| - 1].msg.ty == NEWKEYS) == EndsInReply(out[..|out| - 1])))
  }

  predicate Served(out: seq<Sealed>, gens: seq<Exchange>) {
    Ids(out) == gens && Paired(out) && !EndsInReply(out)
  }

  /** What r has learnt from the first got packets of out. */
  ghost predicate Heard(r: Ses, out: seq<Sealed>, got: nat) {
    && got <= |out| && r.rx.seqno == got % WORD32 && r.rx.epoch == Switches(out[..got])
    && !r.kex.recvNewkeys && r.kex.recvKexinit == InKex(out[..got]) && r.kex.sentNewkeys == RecvReady(r)
    && r.gate.last == if got == 0 then 0 else out[got - 1].msg.ty
  }

  predicate ClientOk(c: Ses, out: seq<Sealed>, got: nat)
    requires got <= |out|
  {
    c.client && !c.gate.ignoreNext && c.rx.gens == Ids(out[..got])
  }

  /** The server ignores at most the guessed packet, which it demands right then. */
  predicate ServerGate(s: Ses) {
    && !s.client && !s.guess && s.gate.req1 == 0
    && (s.gate.ignoreNext ==> s.gate.req0 == KEXDH_INIT)
  }

  /** The client has a value to offer from its KEXINIT_SENT or its guess on until it has taken the reply. */
  predicate OfferOk(c: Ses) {
    && (c.kex.sentKexinit && !c.kex.sentNewkeys && (c.initSent || c.guess) ==> c.dh.Offer?)
    && (c.kex.firstMatches ==> c.guess)
  }

  /** At the top of the loop KEXDH_INIT_SENT is the state from the server's KEXINIT to our NEWKEYS. */
  predicate InitOk(c: Ses) { OfferOk(c) && (c.initSent <==> c.kex.recvKexinit && !c.kex.sentNewkeys) }

  /** Between the packet and the loop handler it may be one message behind. */
  predicate InitMid(c: Ses) {
    && OfferOk(c) && (c.initSent ==> c.kex.recvKexinit && (c.kex.sentNewkeys ==> c.gate.last == KEXDH_REPLY))
    && (c.kex.recvKexinit && !c.kex.sentNewkeys ==> c.initSent || c.gate.last == KEXINIT)
  }

  ghost predicate PairInv(p: Pair) {
    && TopInv(p.c) && TopInv(p.s)
    && Heard(p.c, p.s.tx.out, p.gotC) && Heard(p.s, p.c.tx.out, p.gotS)
    && ClientOk(p.c, p.s.tx.out, p.gotC) && InitOk(p.c)
    && ServerGate(p.s) && Served(p.s.tx.out, p.s.rx.gens)
  }

  // ---------------------------------------------------------------- counting

  lemma {:induction false} IdsMono(out: seq<Sealed>, n: nat)
    requires n <= |out|
    ensures Ids(out[..n]) <= Ids(out)
    decreases |out|
  {
    if n < |out| {
      var init := out[..|out| - 1];
      assert init[..n] == out[..n];
      IdsMono(init, n);
    } else {
      assert out[..n] == out;
    }
  }

  lemma {:induction false} SwitchesMono(out: seq<Sealed>, n: nat)
    requires n <= |out|
    ensures Switches(out[..n]) <= Switches(out)
    decreases |out|
  {
    if n < |out| {
      var init := out[..|out| - 1];
      assert init[..n] == out[..n];
      SwitchesMono(init, n);
    } else {
      assert out[..n] == out;
    }
  }

  lemma {:induction false} PairedPrefix(out: seq<Sealed>, n: nat)
    requires Paired(out) && n <= |out|
    ensures Paired(out[..n]) && |Ids(out[..n])| == Switches(out[..n]) + if EndsInReply(out[..n]) then 1 else 0
    decreases |out|
  {
    if n < |out| {
      var init := out[..|out| - 1];
      assert init[..n] == out[..n];
      PairedPrefix(init, n);
    } else {
      assert out[..n] == out;
      if out != [] {
        var init := out[..|out| - 1];
        PairedPrefix(init, |init|);
        assert init[..|init|] == init;
      }
    }
  }

  /** A NEWKEYS is next only where its KEXDH_REPLY has just been. */
  lemma {:induction false} ReplyBefore(out: seq<Sealed>, n: nat)
    requires Paired(out) && n < |out| && out[n].msg.ty == NEWKEYS
    ensures EndsInReply(out[..n])
    decreases |out|
  {
    var init := out[..|out| - 1];
    if n < |init| {
      assert init[..n] == out[..n];
      ReplyBefore(init, n);
    }
  }

  lemma IdsSnoc(out: seq<Sealed>, x: Sealed)
    ensures Ids(out + [x]) == Ids(out) + if x.msg.ty == KEXDH_REPLY then [Exchange(x.msg.tag, x.msg.pub)] else []
    ensures Paired(out + [x]) <==> Paired(out) && ((x.msg.ty == NEWKEYS) == EndsInReply(out))
  {
    assert (out + [x])[..|out|] == out;
  }

  lemma {:induction false} ServedAdds(out: seq<Sealed>, more: seq<Sealed>, gens: seq<Exchange>)
    requires Served(out, gens) && Adds(out, more)
    ensures Served(more, gens)
    decreases |more|
  {
    if |more| > |out| {
      var init := more[..|more| - 1];
      assert Adds(out, init);
      ServedAdds(out, init, gens);
      assert more == init + [more[|more| - 1]];
      IdsSnoc(init, more[|more| - 1]);
    } else {
      assert more == out;
    }
  }

  lemma ServedAnswer(s: Ses, gens: seq<Exchange>, x: Exchange)
    requires Served(s.tx.out, gens)
    ensures Served(s.tx.out + Answer(s, x), gens + [x])
  {
    var out, a := s.tx.out, Answer(s, x);
    IdsSnoc(out, a[0]);
    IdsSnoc(out + [a[0]], a[1]);
    assert out + a == out + [a[0]] + [a[1]];
  }

  lemma Prefix(out: seq<Sealed>, got: nat)
    requires got < |out|
    ensures out[..got + 1] == out[..got] + [out[got]]
  {
  }

  // ---------------------------------------------------------------- receiving

  lemma HeardPlain(r: Ses, t: Ses, out: seq<Sealed>, got: nat)
    requires Heard(r, out, got) && Plain(r, t)
    ensures Heard(t, out, got)
  {
  }

  lemma HeardMore(r: Ses, out: seq<Sealed>, more: seq<Sealed>, got: nat)
    requires Heard(r, out, got) && out <= more
    ensures Heard(r, more, got) && out[..got] == more[..got]
  {
    assert out[..got] == more[..got];
  }

  lemma CountedHeard(r: Ses, out: seq<Sealed>, got: nat)
    requires Heard(r, out, got) && got < |out| && out[got].msg.ty != NEWKEYS && out[got].msg.ty != KEXINIT
    ensures Heard(Counted(r, out[got].msg), out, got + 1)
  {
    Prefix(out, got);
    OutSnoc(out[..got], out[got]);
    NextSeq(got);
  }

  /** The state in which the handler runs: counted, demands met and cleared. */
  function Passed(r: Ses, m: Msg): Ses {
    var s := Counted(r, m);
    if s.gate.req0 != 0 then s.(gate := s.gate.(req0 := 0, req1 := 0)) else s
  }

  predicate Reaches(r: Ses, m: Msg, env: HandlerEnv) {
    && m.ty != IGNORE && m.ty != DEBUG && m.ty != UNIMPLEMENTED && m.ty != DISCONNECT && Allowed(r.gate, m.ty)
    && !r.gate.ignoreNext && (env.authDone || m.ty <= MAX_UNAUTH_PACKET_TYPE)
  }

  predicate Skipped(r: Ses, m: Msg) {
    m.ty == IGNORE || m.ty == DEBUG
    || (m.ty != UNIMPLEMENTED && m.ty != DISCONNECT && Allowed(r.gate, m.ty) && r.gate.ignoreNext)
  }

  lemma ProcessIs(r: Ses, m: Msg, env: HandlerEnv)
    ensures Reaches(r, m, env) ==> ProcessPacket(r, m, env) == Handle(Passed(r, m), m, env)
    ensures Skipped(r, m) ==> ProcessPacket(r, m, env).Go?
                              && var t := ProcessPacket(r, m, env).ses;
                              t == Counted(r, m).(gate := t.gate) && t.gate.last == m.ty
                              && (m.ty == IGNORE || m.ty == DEBUG ==> t.gate == Counted(r, m).gate)
                              && (m.ty != IGNORE && m.ty != DEBUG ==> !t.gate.ignoreNext && t.gate.req1 == (if r.gate.req0 == 0 then r.gate.req1 else 0))
    ensures !Reaches(r, m, env) && !Skipped(r, m) ==> ProcessPacket(r, m, env).Exit?
  {
  }

  lemma PassedKeeps(r: Ses, m: Msg)
    requires SesInv(r) && QueueOk(r)
    ensures SesInv(Passed(r, m)) && QueueOk(Passed(r, m)) && SesInv(Counted(r, m))
  {
  }

  /** One packet later: only KEXINIT and NEWKEYS change what has been heard of key exchanges. */
  lemma HeardNext(r: Ses, t: Ses, out: seq<Sealed>, got: nat)
    requires Heard(r, out, got) && got < |out|
    requires var m := out[got].msg;
             && t.rx.seqno == (r.rx.seqno + 1) % WORD32 && t.gate.last == m.ty
             && t.rx.epoch == r.rx.epoch + (if m.ty == NEWKEYS then 1 else 0)
             && t.kex.recvKexinit == (m.ty == KEXINIT || (m.ty != NEWKEYS && r.kex.recvKexinit))
             && !t.kex.recvNewkeys && t.kex.sentNewkeys == RecvReady(t)
    ensures Heard(t, out, got + 1)
  {
    Prefix(out, got);
    OutSnoc(out[..got], out[got]);
    NextSeq(got);
  }

  ghost predicate HeardAfter(o: Outcome, out: seq<Sealed>, got: nat) {
    !o.Crash? && (o.Go? ==> Heard(o.ses, out, got))
  }

  /** What handling one packet does to what has been heard, type by type. */
  lemma HandleHeard(r: Ses, out: seq<Sealed>, got: nat, env: HandlerEnv)
    requires TopInv(r) && Heard(r, out, got) && got < |out| && Disciplined(out)
    requires Reaches(r, out[got].msg, env) && forall i | 0 <= i < |env.replies| :: Ordinary(env.replies[i])
    requires out[got].msg.ty == NEWKEYS ==> RecvReady(r)
    requires r.client ==> InitOk(r)
    ensures HeardAfter(Handle(Passed(r, out[got].msg), out[got].msg, env), out, got + 1)
  {
    var m := out[got].msg;
    if m.ty == KEXINIT {
      KexinitHeard(r, out, got, env);
    } else if m.ty == NEWKEYS {
      NewkeysHeard(r, out, got);
    } else if m.ty == (if r.client then KEXDH_REPLY else KEXDH_INIT) {
      KexdhHeard(r, out, got, env);
    } else {
      RepliesHeard(r, out, got, env.replies);
    }
  }

  lemma NewkeysHeard(r: Ses, out: seq<Sealed>, got: nat)
    requires TopInv(r) && Heard(r, out, got) && got < |out| && out[got].msg.ty == NEWKEYS && RecvReady(r)
    ensures HeardAfter(RecvNewkeys(Passed(r, out[got].msg)), out, got + 1)
  {
    var s := Passed(r, out[got].msg);
    PassedKeeps(r, out[got].msg);
    RecvNewkeysKeeps(s);
    if RecvNewkeys(s).Go? { HeardNext(r, RecvNewkeys(s).ses, out, got); }
  }

  lemma RepliesHeard(r: Ses, out: seq<Sealed>, got: nat, replies: seq<Msg>)
    requires TopInv(r) && Heard(r, out, got) && got < |out| && out[got].msg.ty != KEXINIT && out[got].msg.ty != NEWKEYS
    requires forall i | 0 <= i < |replies| :: Ordinary(replies[i])
    ensures Heard(SubmitAll(Passed(r, out[got].msg), replies), out, got + 1)
  {
    var s := Passed(r, out[got].msg);
    PassedKeeps(r, out[got].msg);
    SubmitAllKeeps(s, replies);
    OrdinaryHeard(r, s, SubmitAll(s, replies), out, got);
  }

  lemma KexinitHeard(r: Ses, out: seq<Sealed>, got: nat, env: HandlerEnv)
    requires TopInv(r) && Heard(r, out, got) && got < |out| && Disciplined(out)
    requires Reaches(r, out[got].msg, env) && out[got].msg.ty == KEXINIT
    ensures HeardAfter(RecvKexinit(Passed(r, out[got].msg), out[got].msg.tag, env.kex, env.draw), out, got + 1)
  {
    var m := out[got].msg;
    var s := Passed(r, m);
    PassedKeeps(r, m);
    assert Held(out[got].msg.ty);
    RecvKexinitKeeps(s, m.tag, env.kex, env.draw);
    var o := RecvKexinit(s, m.tag, env.kex, env.draw);
    if o.Go? {
      var s1 := if s.kex.sentKexinit then s else SendKexinit(s, env.draw);
      TookHeard(r, s1, TookKexinit(s1, m.tag, env.kex), out, got, env);
    }
  }

  lemma TookHeard(r: Ses, s1: Ses, t: Ses, out: seq<Sealed>, got: nat, env: HandlerEnv)
    requires Heard(r, out, got) && got < |out| && out[got].msg.ty == KEXINIT && !RecvReady(r)
    requires Plain(Passed(r, out[got].msg), s1) && t == TookKexinit(s1, out[got].msg.tag, env.kex)
    ensures Heard(t, out, got + 1)
  {
    HeardNext(r, t, out, got);
  }

  lemma KexdhHeard(r: Ses, out: seq<Sealed>, got: nat, env: HandlerEnv)
    requires TopInv(r) && Heard(r, out, got) && got < |out|
    requires r.client ==> InitOk(r)
    requires out[got].msg.ty == if r.client then KEXDH_REPLY else KEXDH_INIT
    requires Reaches(r, out[got].msg, env)
    ensures var m := out[got].msg;
            HeardAfter(if r.client then RecvKexdhReply(Passed(r, m), m, env.ok)
                       else RecvKexdhInit(Passed(r, m), m.tag, env.draw, env.ok), out, got + 1)
  {
    var m := out[got].msg;
    var s := Passed(r, m);
    PassedKeeps(r, m);
    if r.client {
      KexdhReplyKeeps(s, m, env.ok);
      var o := RecvKexdhReply(s, m, env.ok);
      if o.Go? { CompletedHeard(r, s, o.ses, out, got, Exchange(m.tag, m.pub)); }
    } else {
      KexdhInitKeeps(s, m.tag, env.draw, env.ok);
      var o := RecvKexdhInit(s, m.tag, env.draw, env.ok);
      if o.Go? { CompletedHeard(r, s, o.ses, out, got, Exchange(m.tag, env.draw)); }
    }
  }

  lemma CompletedHeard(r: Ses, s: Ses, t: Ses, out: seq<Sealed>, got: nat, x: Exchange)
    requires Heard(r, out, got) && got < |out| && Completed(s, t, x) && s == Passed(r, out[got].msg)
    requires out[got].msg.ty != KEXINIT && out[got].msg.ty != NEWKEYS
    ensures Heard(t, out, got + 1)
  {
    HeardNext(r, t, out, got);
  }

  lemma OrdinaryHeard(r: Ses, s: Ses, t: Ses, out: seq<Sealed>, got: nat)
    requires Heard(r, out, got) && got < |out| && Plain(s, t) && s == Passed(r, out[got].msg)
    requires out[got].msg.ty != KEXINIT && out[got].msg.ty != NEWKEYS
    ensures Heard(t, out, got + 1)
  {
    HeardNext(r, t, out, got);
  }

  lemma ProcessHeard(r: Ses, out: seq<Sealed>, got: nat, env: HandlerEnv)
    requires TopInv(r) && Heard(r, out, got) && got < |out| && Disciplined(out)
    requires forall i | 0 <= i < |env.replies| :: Ordinary(env.replies[i])
    requires out[got].msg.ty == NEWKEYS ==> RecvReady(r)
    requires r.client ==> InitOk(r)
    requires r.gate.ignoreNext ==> r.gate.req0 == KEXDH_INIT && r.gate.req1 == 0
    ensures var o := ProcessPacket(r, out[got].msg, env);
            !o.Crash? && (o.Go? ==> Heard(o.ses, out, got + 1))
  {
    var m := out[got].msg;
    ProcessIs(r, m, env);
    if Reaches(r, m, env) {
      HandleHeard(r, out, got, env);
    } else if Skipped(r, m) {
      CountedHeard(r, out, got);
    }
  }

  /** What the client's handling of a packet does to the rest of its state. */
  ghost predicate ClientTook(c: Ses, m: Msg, t: Ses) {
    && t.client && t.guess == c.guess && !t.gate.ignoreNext && InitMid(t)
    && t.rx.gens == c.rx.gens + (if m.ty == KEXDH_REPLY then [Exchange(m.tag, m.pub)] else [])
    && c.tx.out <= t.tx.out
  }

  lemma ProcessClient(c: Ses, m: Msg, env: HandlerEnv)
    requires TopInv(c) && c.client && !c.gate.ignoreNext && InitOk(c) && !c.kex.recvNewkeys
    requires m.ty == KEXINIT ==> m.tag == 0
    requires m.ty == NEWKEYS ==> RecvReady(c)
    requires forall i | 0 <= i < |env.replies| :: Ordinary(env.replies[i])
    ensures ProcessPacket(c, m, env).Go? ==> ClientTook(c, m, ProcessPacket(c, m, env).ses)
  {
    ProcessIs(c, m, env);
    PassedKeeps(c, m);
    if Reaches(c, m, env) { HandleClient(Passed(c, m), m, env); }
  }

  lemma HandleClient(s: Ses, m: Msg, env: HandlerEnv)
    requires SesInv(s) && QueueOk(s) && s.client && !s.gate.ignoreNext && InitOk(s) && !s.kex.recvNewkeys
    requires s.gate.last == m.ty && (RecvReady(s) <==> m.ty == NEWKEYS) && (m.ty == KEXINIT ==> m.tag == 0)
    requires forall i | 0 <= i < |env.replies| :: Ordinary(env.replies[i])
    ensures Handle(s, m, env).Go? ==> ClientTook(s, m, Handle(s, m, env).ses)
  {
    if m.ty == KEXINIT {
      RecvKexinitKeeps(s, m.tag, env.kex, env.draw);
      KexinitTook(s, m, env);
    } else if m.ty == NEWKEYS {
      RecvNewkeysKeeps(s);
    } else if m.ty == KEXDH_REPLY {
      KexdhReplyKeeps(s, m, env.ok);
    } else {
      SubmitAllKeeps(s, env.replies);
    }
  }

  lemma KexinitTook(s: Ses, m: Msg, env: HandlerEnv)
    requires s.client && InitOk(s) && !s.gate.ignoreNext && s.gate.last == KEXINIT && m.tag == 0 && m.ty == KEXINIT
    requires s.kex.recvKexinit ==> s.kex.sentKexinit
    ensures var o := RecvKexinit(s, m.tag, env.kex, env.draw); o.Go? ==> ClientTook(s, m, o.ses)
  {
    if !s.kex.sentKexinit { KexinitOffers(s, env.draw); }
  }

  lemma KexinitOffers(s: Ses, draw: nat)
    requires InitOk(s) && !s.kex.sentKexinit && !s.kex.recvKexinit
    ensures var t := SendKexinit(s, draw);
            InitOk(t) && t.kex == s.kex.(sentKexinit := true) && t.client == s.client && t.guess == s.guess
            && t.initSent == s.initSent && t.gate.ignoreNext == s.gate.ignoreNext && t.gate.last == s.gate.last
            && t.rx == s.rx && s.tx.out <= t.tx.out
  {
  }

  lemma ProcessServer(s: Ses, m: Msg, env: HandlerEnv)
    requires TopInv(s) && ServerGate(s) && Served(s.tx.out, s.rx.gens)
    requires forall i | 0 <= i < |env.replies| :: Ordinary(env.replies[i])
    ensures ProcessPacket(s, m, env).Go? ==>
              var t := ProcessPacket(s, m, env).ses;
              ServerGate(t) && Served(t.tx.out, t.rx.gens) && s.tx.out <= t.tx.out
  {
    ProcessIs(s, m, env);
    PassedKeeps(s, m);
    if Reaches(s, m, env) { HandleServer(Passed(s, m), m, env); }
  }

  lemma HandleServer(s: Ses, m: Msg, env: HandlerEnv)
    requires SesInv(s) && QueueOk(s) && ServerGate(s) && Served(s.tx.out, s.rx.gens) && !s.gate.ignoreNext
    requires (RecvReady(s) ==> m.ty == NEWKEYS) && s.gate.last == m.ty
    requires forall i | 0 <= i < |env.replies| :: Ordinary(env.replies[i])
    ensures Handle(s, m, env).Go? ==>
              var t := Handle(s, m, env).ses;
              ServerGate(t) && Served(t.tx.out, t.rx.gens) && s.tx.out <= t.tx.out
  {
    if m.ty == KEXINIT {
      RecvKexinitKeeps(s, m.tag, env.kex, env.draw);
      if Handle(s, m, env).Go? {
        var s1 := if s.kex.sentKexinit then s else SendKexinit(s, env.draw);
        ServedAdds(s.tx.out, s1.tx.out, s.rx.gens);
      }
    } else if m.ty == NEWKEYS {
      RecvNewkeysKeeps(s);
    } else if m.ty == KEXDH_INIT {
      InitServed(s, m.tag, env.draw, env.ok);
    } else {
      SubmitAllKeeps(s, env.replies);
      ServedAdds(s.tx.out, SubmitAll(s, env.replies).tx.out, s.rx.gens);
    }
  }

  lemma InitServed(s: Ses, e: nat, f: nat, ok: bool)
    requires SesInv(s) && QueueOk(s) && ServerGate(s) && Served(s.tx.out, s.rx.gens) && !s.gate.ignoreNext
    requires !RecvReady(s) && s.gate.last == KEXDH_INIT
    ensures RecvKexdhInit(s, e, f, ok).Go? ==>
              var t := RecvKexdhInit(s, e, f, ok).ses;
              ServerGate(t) && Served(t.tx.out, t.rx.gens) && s.tx.out <= t.tx.out
  {
    KexdhInitKeeps(s, e, f, ok);
    ServedAnswer(s, s.rx.gens, Exchange(e, f));
  }

  /** The timers leave the client with something to offer. */
  lemma TimeoutsOffer(c: Ses, timers: Timers)
    requires TopInv(c) && InitOk(c)
    ensures InitOk(CheckTimeouts(c, timers))
  {
    var c1 := if !c.kex.sentKexinit && timers.rekey then SendKexinit(c, timers.draw) else c;
    if !c.kex.sentKexinit && timers.rekey { KexinitOffers(c, timers.draw); }
    KeepaliveInit(c1);
  }

  lemma KeepaliveInit(c: Ses)
    ensures InitOk(Submit(c, Msg(IGNORE, 0))) == InitOk(c)
  {
  }

  /** The client's loop handler, after a packet or without one. */
  lemma InitAfterLoop(c: Ses, out: seq<Sealed>, got: nat, sends: seq<Msg>, draw: nat)
    requires TopInv(c) && Heard(c, out, got) && c.client && InitMid(c)
    requires forall i | 0 <= i < |sends| :: Ordinary(sends[i])
    ensures CliSessionLoop(c, sends, draw).Go? && InitOk(CliSessionLoop(c, sends, draw).ses)
  {
    if c.gate.last == KEXINIT && !c.initSent {
      assert c.kex.recvKexinit && !RecvReady(c) && c.kex.sentKexinit;
    } else if c.gate.last != 0 {
      var c1 := if c.kex.sentNewkeys then c.(initSent := false) else c;
      InitFlagKeeps(c, c1);
      CliRequests(c, c1, sends);
    }
  }

  lemma RestClient(c: Ses, out: seq<Sealed>, got: nat, env: LoopEnv)
    requires MidInv(c) && Heard(c, out, got) && c.client && InitMid(c) && SafeEnv(env)
    ensures Rest(c, env).Go? && InitOk(Rest(c, env).ses)
  {
    FlushedKeeps(c, env);
    HeardPlain(c, Flushed(c, env), out, got);
    InitAfterLoop(Flushed(c, env), out, got, env.requests, env.draw);
  }

  // ---------------------------------------------------------------- one pass of each side

  /** When NEWKEYS arrives the keys for it are waiting. */
  lemma ClientReady(p: Pair)
    requires PairInv(p) && p.gotC < |p.s.tx.out| && p.s.tx.out[p.gotC].msg.ty == NEWKEYS
    ensures RecvReady(p.c)
  {
    PairedPrefix(p.s.tx.out, p.gotC);
    ReplyBefore(p.s.tx.out, p.gotC);
  }

  lemma ServerReady(p: Pair)
    requires PairInv(p) && p.gotS < |p.c.tx.out| && p.c.tx.out[p.gotS].msg.ty == NEWKEYS
    ensures RecvReady(p.s)
  {
    var out := p.c.tx.out;
    SwitchesNext(out, p.gotS);
    IdsMono(p.s.tx.out, p.gotC);
    SwitchCount(p.c);
    ReadyCount(p.s, p.c, Switches(out[..p.gotS + 1]), |Ids(p.s.tx.out[..p.gotC])|);
  }

  lemma SwitchesNext(out: seq<Sealed>, got: nat)
    requires got < |out| && out[got].msg.ty == NEWKEYS
    ensures Switches(out[..got]) + 1 == Switches(out[..got + 1]) <= Switches(out)
  {
    Prefix(out, got);
    OutSnoc(out[..got], out[got]);
    SwitchesMono(out, got + 1);
  }

  lemma SwitchCount(s: Ses)
    requires SesInv(s)
    ensures Switches(s.tx.out) == |s.rx.gens|
  {
  }

  lemma ReadyCount(s: Ses, c: Ses, n: nat, heard: nat)
    requires Flags(s) && s.rx.epoch + 1 == n <= |c.rx.gens| == heard <= |s.rx.gens|
    ensures RecvReady(s)
  {
  }

  /**
   * Whatever a step comes to, nothing crashes, the invariant holds, and no exchange message came out of turn.
   * Lemmas on the way to a step conclude Kept(..) == PairInv(p) where PairInv(p) is given: as one side of an equation
   * the invariant is handed on whole, and not taken apart into all its clauses at every lemma. A parameter inv is
   * what PairInv(p) is equal to, and likewise poised, and fits and agreed in what builds on this module.
   */
  ghost predicate Kept(v: Verdict) { !v.Crashes? && (v.Next? ==> PairInv(v.pair)) && (v.Ends? ==> !Spurious(v.why)) }

  /** One pass of the client keeps the invariant; so does one of the server. */
  lemma ClientPass(p: Pair, arrives: bool, env: LoopEnv)
    requires PairInv(p) && SafeEnv(env)
    ensures Kept(Take(p, Step(true, arrives, env)))
  {
    if NextMsg(p.s.tx.out, p.gotC, arrives) == [] { ClientQuiet(p, arrives, env); } else { ClientPacket(p, arrives, env); }
  }

  lemma ServerPass(p: Pair, arrives: bool, env: LoopEnv)
    requires PairInv(p) && SafeEnv(env)
    ensures Kept(Take(p, Step(false, arrives, env)))
  {
    if NextMsg(p.c.tx.out, p.gotS, arrives) == [] { ServerQuiet(p, arrives, env); } else { ServerPacket(p, arrives, env); }
  }

  lemma ClientTimers(p: Pair, timers: Timers)
    requires PairInv(p)
    ensures var c1 := CheckTimeouts(p.c, timers);
            TopInv(c1) && Plain(p.c, c1) && InitOk(c1) && Heard(c1, p.s.tx.out, p.gotC)
  {
    CheckTimeoutsKeeps(p.c, timers);
    TimeoutsOffer(p.c, timers);
    HeardPlain(p.c, CheckTimeouts(p.c, timers), p.s.tx.out, p.gotC);
  }

  /** What a step of the client is, without a packet and with one. */
  lemma ClientTakesNone(p: Pair, arrives: bool, env: LoopEnv, c2: Ses)
    requires NextMsg(p.s.tx.out, p.gotC, arrives) == [] && Rest(CheckTimeouts(p.c, env.timers), env) == Go(c2)
    ensures Take(p, Step(true, arrives, env)) == Next(p.(c := c2, gotC := p.gotC))
  {
  }

  lemma ClientTakesOne(p: Pair, arrives: bool, env: LoopEnv, o: Outcome, c2: Ses)
    requires NextMsg(p.s.tx.out, p.gotC, arrives) != []
    requires o == ProcessPacket(CheckTimeouts(p.c, env.timers), p.s.tx.out[p.gotC].msg, env.handler)
    requires o.Go? ==> Rest(o.ses, env) == Go(c2)
    ensures Take(p, Step(true, arrives, env)) == if o.Go? then Next(p.(c := c2, gotC := p.gotC + 1)) else Came(true, o, p)
  {
  }

  lemma ClientQuiet(p: Pair, arrives: bool, env: LoopEnv)
    requires PairInv(p) && SafeEnv(env) && NextMsg(p.s.tx.out, p.gotC, arrives) == []
    ensures Kept(Take(p, Step(true, arrives, env))) == PairInv(p)
  {
    ClientTimers(p, env.timers);
    var c2 := ClientPassEnd(p, CheckTimeouts(p.c, env.timers), p.gotC, env, PairInv(p));
    ClientTakesNone(p, arrives, env, c2);
  }

  lemma ClientPacket(p: Pair, arrives: bool, env: LoopEnv)
    requires PairInv(p) && SafeEnv(env) && NextMsg(p.s.tx.out, p.gotC, arrives) != []
    ensures Kept(Take(p, Step(true, arrives, env))) == PairInv(p)
  {
    var o, c2 := ClientArrival(p, env);
    ClientComes(p, arrives, env, o, c2, PairInv(p));
  }

  lemma ClientArrival(p: Pair, env: LoopEnv) returns (o: Outcome, c2: Ses)
    requires PairInv(p) && SafeEnv(env) && p.gotC < |p.s.tx.out|
    ensures o == ProcessPacket(CheckTimeouts(p.c, env.timers), p.s.tx.out[p.gotC].msg, env.handler) && Fair(o)
    ensures o.Go? ==> Rest(o.ses, env) == Go(c2) && (Kept(Next(p.(c := c2, gotC := p.gotC + 1))) == PairInv(p))
  {
    ClientTimers(p, env.timers);
    o := ProcessPacket(CheckTimeouts(p.c, env.timers), p.s.tx.out[p.gotC].msg, env.handler);
    c2 := ClientProcess(p, CheckTimeouts(p.c, env.timers), env, o);
  }

  lemma ClientComes(p: Pair, arrives: bool, env: LoopEnv, o: Outcome, c2: Ses, inv: bool)
    requires NextMsg(p.s.tx.out, p.gotC, arrives) != [] && inv && Fair(o)
    requires o == ProcessPacket(CheckTimeouts(p.c, env.timers), p.s.tx.out[p.gotC].msg, env.handler)
    requires o.Go? ==> Rest(o.ses, env) == Go(c2) && (Kept(Next(p.(c := c2, gotC := p.gotC + 1))) == inv)
    ensures Kept(Take(p, Step(true, arrives, env))) == inv
  {
    ClientTakesOne(p, arrives, env, o, c2);
  }

  lemma ClientProcess(p: Pair, c: Ses, env: LoopEnv, o: Outcome) returns (c2: Ses)
    requires PairInv(p) && p.gotC < |p.s.tx.out| && SafeEnv(env)
    requires TopInv(c) && Plain(p.c, c) && InitOk(c) && Heard(c, p.s.tx.out, p.gotC)
    requires o == ProcessPacket(c, p.s.tx.out[p.gotC].msg, env.handler)
    ensures Fair(o) && (o.Go? ==> Rest(o.ses, env) == Go(c2) && (Kept(Next(p.(c := c2, gotC := p.gotC + 1))) == PairInv(p)))
  {
    ClientReceives(p, c, env.handler);
    c2 := c;
    if o.Go? { c2 := ClientPassEnd(p, o.ses, p.gotC + 1, env, PairInv(p)); }
  }

  lemma ClientReceives(p: Pair, c: Ses, env: HandlerEnv)
    requires PairInv(p) && p.gotC < |p.s.tx.out| && forall i | 0 <= i < |env.replies| :: Ordinary(env.replies[i])
    requires TopInv(c) && Plain(p.c, c) && InitOk(c) && Heard(c, p.s.tx.out, p.gotC)
    ensures ClientFrom(ProcessPacket(c, p.s.tx.out[p.gotC].msg, env), p.s.tx.out, p.gotC + 1, p.c.tx.out) == PairInv(p)
  {
    ClientKnows(p, c);
    ClientTakesIn(c, p.s.tx.out, p.gotC, p.c.tx.out, env, PairInv(p));
  }

  lemma ServerReceives(p: Pair, s: Ses, env: HandlerEnv)
    requires PairInv(p) && p.gotS < |p.c.tx.out| && forall i | 0 <= i < |env.replies| :: Ordinary(env.replies[i])
    requires TopInv(s) && Plain(p.s, s) && ServerGate(s) && Served(s.tx.out, s.rx.gens) && Heard(s, p.c.tx.out, p.gotS)
    ensures ServerFrom(ProcessPacket(s, p.c.tx.out[p.gotS].msg, env), p.c.tx.out, p.gotS + 1, p.s.tx.out) == PairInv(p)
  {
    ServerKnows(p, s);
    ServerTakesIn(s, p.c.tx.out, p.gotS, p.s.tx.out, env, PairInv(p));
  }

  /** Either side in the middle of a pass, having heard `got` packets, when it had sent `prior` before it. */
  ghost predicate ClientAt(c: Ses, out: seq<Sealed>, got: nat, prior: seq<Sealed>) {
    MidInv(c) && Heard(c, out, got) && ClientOk(c, out, got) && InitMid(c) && prior <= c.tx.out
  }

  ghost predicate ServerAt(s: Ses, out: seq<Sealed>, got: nat, prior: seq<Sealed>) {
    MidInv(s) && Heard(s, out, got) && ServerGate(s) && Served(s.tx.out, s.rx.gens) && prior <= s.tx.out
  }

  /** What comes of handling a packet. */
  ghost predicate ClientFrom(o: Outcome, out: seq<Sealed>, got: nat, prior: seq<Sealed>) {
    Fair(o) && (o.Go? ==> ClientAt(o.ses, out, got, prior))
  }

  ghost predicate ServerFrom(o: Outcome, out: seq<Sealed>, got: nat, prior: seq<Sealed>) {
    Fair(o) && (o.Go? ==> ServerAt(o.ses, out, got, prior))
  }

  lemma ClientTakesIn(c: Ses, out: seq<Sealed>, got: nat, prior: seq<Sealed>, env: HandlerEnv, poised: bool)
    requires got < |out| && poised && ClientPoised(c, out, got, prior) == poised
    requires forall i | 0 <= i < |env.replies| :: Ordinary(env.replies[i])
    ensures ClientFrom(ProcessPacket(c, out[got].msg, env), out, got + 1, prior) == poised
  {
    Hears(c, out, got, env);
    LearnsFrom(c, out, got, env);
    var o := ProcessPacket(c, out[got].msg, env);
    if o.Go? { PrefixAgain(prior, c.tx.out, o.ses.tx.out); }
  }

  lemma ServerTakesIn(s: Ses, out: seq<Sealed>, got: nat, prior: seq<Sealed>, env: HandlerEnv, poised: bool)
    requires got < |out| && poised && ServerPoised(s, out, got, prior) == poised
    requires forall i | 0 <= i < |env.replies| :: Ordinary(env.replies[i])
    ensures ServerFrom(ProcessPacket(s, out[got].msg, env), out, got + 1, prior) == poised
  {
    Hears(s, out, got, env);
    ProcessServer(s, out[got].msg, env);
    var o := ProcessPacket(s, out[got].msg, env);
    if o.Go? { PrefixAgain(prior, s.tx.out, o.ses.tx.out); }
  }

  /** Either side with a packet next, and what it can count on of that packet. */
  ghost predicate ClientPoised(c: Ses, out: seq<Sealed>, got: nat, prior: seq<Sealed>)
    requires got < |out|
  {
    && TopInv(c) && InitOk(c) && Heard(c, out, got) && ClientOk(c, out, got) && prior <= c.tx.out
    && Disciplined(out) && KexOnly(out)
    && (out[got].msg.ty == KEXINIT ==> out[got].msg.tag == 0) && (out[got].msg.ty == NEWKEYS ==> RecvReady(c))
  }

  ghost predicate ServerPoised(s: Ses, out: seq<Sealed>, got: nat, prior: seq<Sealed>)
    requires got < |out|
  {
    && TopInv(s) && ServerGate(s) && Served(s.tx.out, s.rx.gens) && Heard(s, out, got) && prior <= s.tx.out
    && Disciplined(out) && KexOnly(out) && (out[got].msg.ty == NEWKEYS ==> RecvReady(s))
  }

  lemma ClientKnows(p: Pair, c: Ses)
    requires PairInv(p) && p.gotC < |p.s.tx.out|
    requires TopInv(c) && Plain(p.c, c) && InitOk(c) && Heard(c, p.s.tx.out, p.gotC)
    ensures ClientPoised(c, p.s.tx.out, p.gotC, p.c.tx.out) == PairInv(p)
  {
    if p.s.tx.out[p.gotC].msg.ty == NEWKEYS { ClientReady(p); }
    ServerTag(p);
  }

  lemma ServerKnows(p: Pair, s: Ses)
    requires PairInv(p) && p.gotS < |p.c.tx.out|
    requires TopInv(s) && Plain(p.s, s) && ServerGate(s) && Served(s.tx.out, s.rx.gens) && Heard(s, p.c.tx.out, p.gotS)
    ensures ServerPoised(s, p.c.tx.out, p.gotS, p.s.tx.out) == PairInv(p)
  {
    if p.c.tx.out[p.gotS].msg.ty == NEWKEYS { ServerReady(p); }
  }

  /** No null dereferenced, and no end for such a reason. */
  predicate Fair(o: Outcome) { !o.Crash? && (o.Exit? ==> !Spurious(o.why)) }

  /** Reasons to end that two peers of this kind never give each other. */
  predicate Spurious(why: Why) { why == UnexpectedNewkeys || why == PrematureInit || why == OutOfOrderReply }

  /** A key exchange message that reaches its handler finds the exchange where the handler wants it. */
  lemma NeverSpurious(r: Ses, out: seq<Sealed>, got: nat, env: HandlerEnv)
    requires TopInv(r) && Heard(r, out, got) && got < |out| && KexOnly(out)
    requires (out[got].msg.ty == NEWKEYS ==> RecvReady(r)) && (r.client ==> InitOk(r))
    ensures var o := ProcessPacket(r, out[got].msg, env); o.Exit? ==> !Spurious(o.why)
  {
    var m := out[got].msg;
    ProcessIs(r, m, env);
    assert Kexdh(out[got].msg.ty) ==> InKex(out[..got]);
    if Reaches(r, m, env) { HandlesInTime(Passed(r, m), m, env); } else { StopsEarly(r, m, env); }
  }

  lemma HandlesInTime(s: Ses, m: Msg, env: HandlerEnv)
    requires Flags(s) && (RecvReady(s) <==> m.ty == NEWKEYS) && (s.client ==> InitOk(s))
    requires Kexdh(m.ty) ==> s.kex.recvKexinit
    ensures Handle(s, m, env).Exit? ==> !Spurious(Handle(s, m, env).why)
  {
  }

  lemma StopsEarly(r: Ses, m: Msg, env: HandlerEnv)
    requires !Reaches(r, m, env)
    ensures var o := ProcessPacket(r, m, env); o.Exit? ==> !Spurious(o.why)
  {
  }

  lemma Hears(r: Ses, out: seq<Sealed>, got: nat, env: HandlerEnv)
    requires TopInv(r) && Heard(r, out, got) && got < |out| && Disciplined(out) && KexOnly(out)
    requires forall i | 0 <= i < |env.replies| :: Ordinary(env.replies[i])
    requires (out[got].msg.ty == NEWKEYS ==> RecvReady(r)) && (r.client ==> InitOk(r))
    requires r.gate.ignoreNext ==> r.gate.req0 == KEXDH_INIT && r.gate.req1 == 0
    ensures var o := ProcessPacket(r, out[got].msg, env);
            Fair(o) && (o.Go? ==> MidInv(o.ses) && Heard(o.ses, out, got + 1))
  {
    NeverSpurious(r, out, got, env);
    ProcessHeard(r, out, got, env);
    ProcessKeeps(r, out[got].msg, env);
  }

  lemma PrefixAgain(a: seq<Sealed>, b: seq<Sealed>, c: seq<Sealed>)
    requires a <= b <= c
    ensures a <= c
  {
  }

  lemma LearnsFrom(c: Ses, out: seq<Sealed>, got: nat, env: HandlerEnv)
    requires got < |out| && TopInv(c) && InitOk(c) && !c.kex.recvNewkeys && ClientOk(c, out, got)
    requires (out[got].msg.ty == KEXINIT ==> out[got].msg.tag == 0) && (out[got].msg.ty == NEWKEYS ==> RecvReady(c))
    requires forall i | 0 <= i < |env.replies| :: Ordinary(env.replies[i])
    ensures var o := ProcessPacket(c, out[got].msg, env);
            o.Go? ==> ClientOk(o.ses, out, got + 1) && InitMid(o.ses) && c.tx.out <= o.ses.tx.out
  {
    ProcessClient(c, out[got].msg, env);
    var o := ProcessPacket(c, out[got].msg, env);
    if o.Go? { TookOk(c, o.ses, out, got); }
  }

  /** The server guesses nothing. */
  lemma ServerTag(p: Pair)
    requires PairInv(p) && p.gotC < |p.s.tx.out|
    ensures p.s.tx.out[p.gotC].msg.ty == KEXINIT ==> p.s.tx.out[p.gotC].msg.tag == 0
  {
    assert GuessTag(p.s.tx.out[p.gotC].msg, p.s.guess);
  }

  lemma TookOk(c: Ses, t: Ses, out: seq<Sealed>, got: nat)
    requires got < |out| && ClientTook(c, out[got].msg, t) && ClientOk(c, out, got)
    ensures ClientOk(t, out, got + 1)
  {
    Prefix(out, got);
    IdsSnoc(out[..got], out[got]);
  }

  lemma ClientPassEnd(p: Pair, c: Ses, got: nat, env: LoopEnv, inv: bool) returns (c2: Ses)
    requires inv && PairInv(p) == inv && ClientAt(c, p.s.tx.out, got, p.c.tx.out) == inv && SafeEnv(env)
    ensures Rest(c, env) == Go(c2) && (Kept(Next(p.(c := c2, gotC := got))) == inv)
  {
    c2 := ClientRests(c, p.s.tx.out, got, p.c.tx.out, env);
    HeardMore(p.s, p.c.tx.out, c2.tx.out, p.gotS);
  }

  lemma ClientRests(c: Ses, out: seq<Sealed>, got: nat, prior: seq<Sealed>, env: LoopEnv) returns (c2: Ses)
    requires ClientAt(c, out, got, prior) && SafeEnv(env)
    ensures Rest(c, env) == Go(c2) && TopInv(c2) && Heard(c2, out, got) && ClientOk(c2, out, got) && InitOk(c2)
    ensures prior <= c2.tx.out
  {
    RestKeeps(c, env);
    RestClient(c, out, got, env);
    c2 := Rest(c, env).ses;
    HeardPlain(c, c2, out, got);
    PrefixAgain(prior, c.tx.out, c2.tx.out);
  }

  lemma ServerTimers(p: Pair, timers: Timers)
    requires PairInv(p)
    ensures var s1 := CheckTimeouts(p.s, timers);
            TopInv(s1) && Plain(p.s, s1) && ServerGate(s1) && Served(s1.tx.out, s1.rx.gens) && Heard(s1, p.c.tx.out, p.gotS)
  {
    var s1 := CheckTimeouts(p.s, timers);
    CheckTimeoutsKeeps(p.s, timers);
    HeardPlain(p.s, s1, p.c.tx.out, p.gotS);
    ServedAdds(p.s.tx.out, s1.tx.out, p.s.rx.gens);
  }

  lemma ServerTakesNone(p: Pair, arrives: bool, env: LoopEnv, s2: Ses)
    requires NextMsg(p.c.tx.out, p.gotS, arrives) == [] && Rest(CheckTimeouts(p.s, env.timers), env) == Go(s2)
    ensures Take(p, Step(false, arrives, env)) == Next(p.(s := s2, gotS := p.gotS))
  {
  }

  lemma ServerTakesOne(p: Pair, arrives: bool, env: LoopEnv, o: Outcome, s2: Ses)
    requires NextMsg(p.c.tx.out, p.gotS, arrives) != []
    requires o == ProcessPacket(CheckTimeouts(p.s, env.timers), p.c.tx.out[p.gotS].msg, env.handler)
    requires o.Go? ==> Rest(o.ses, env) == Go(s2)
    ensures Take(p, Step(false, arrives, env)) == if o.Go? then Next(p.(s := s2, gotS := p.gotS + 1)) else Came(false, o, p)
  {
  }

  lemma ServerQuiet(p: Pair, arrives: bool, env: LoopEnv)
    requires PairInv(p) && SafeEnv(env) && NextMsg(p.c.tx.out, p.gotS, arrives) == []
    ensures Kept(Take(p, Step(false, arrives, env))) == PairInv(p)
  {
    ServerTimers(p, env.timers);
    var s2 := ServerPassEnd(p, CheckTimeouts(p.s, env.timers), p.gotS, env, PairInv(p));
    ServerTakesNone(p, arrives, env, s2);
  }

  lemma ServerPacket(p: Pair, arrives: bool, env: LoopEnv)
    requires PairInv(p) && SafeEnv(env) && NextMsg(p.c.tx.out, p.gotS, arrives) != []
    ensures Kept(Take(p, Step(false, arrives, env))) == PairInv(p)
  {
    var o, s2 := ServerArrival(p, env);
    ServerComes(p, arrives, env, o, s2, PairInv(p));
  }

  lemma ServerArrival(p: Pair, env: LoopEnv) returns (o: Outcome, s2: Ses)
    requires PairInv(p) && SafeEnv(env) && p.gotS < |p.c.tx.out|
    ensures o == ProcessPacket(CheckTimeouts(p.s, env.timers), p.c.tx.out[p.gotS].msg, env.handler) && Fair(o)
    ensures o.Go? ==> Rest(o.ses, env) == Go(s2) && (Kept(Next(p.(s := s2, gotS := p.gotS + 1))) == PairInv(p))
  {
    ServerTimers(p, env.timers);
    o := ProcessPacket(CheckTimeouts(p.s, env.timers), p.c.tx.out[p.gotS].msg, env.handler);
    s2 := ServerProcess(p, CheckTimeouts(p.s, env.timers), env, o);
  }

  lemma ServerComes(p: Pair, arrives: bool, env: LoopEnv, o: Outcome, s2: Ses, inv: bool)
    requires NextMsg(p.c.tx.out, p.gotS, arrives) != [] && inv && Fair(o)
    requires o == ProcessPacket(CheckTimeouts(p.s, env.timers), p.c.tx.out[p.gotS].msg, env.handler)
    requires o.Go? ==> Rest(o.ses, env) == Go(s2) && (Kept(Next(p.(s := s2, gotS := p.gotS + 1))) == inv)
    ensures Kept(Take(p, Step(false, arrives, env))) == inv
  {
    ServerTakesOne(p, arrives, env, o, s2);
  }

  lemma ServerProcess(p: Pair, s: Ses, env: LoopEnv, o: Outcome) returns (s2: Ses)
    requires PairInv(p) && p.gotS < |p.c.tx.out| && SafeEnv(env)
    requires TopInv(s) && Plain(p.s, s) && ServerGate(s) && Served(s.tx.out, s.rx.gens) && Heard(s, p.c.tx.out, p.gotS)
    requires o == ProcessPacket(s, p.c.tx.out[p.gotS].msg, env.handler)
    ensures Fair(o) && (o.Go? ==> Rest(o.ses, env) == Go(s2) && (Kept(Next(p.(s := s2, gotS := p.gotS + 1))) == PairInv(p)))
  {
    ServerReceives(p, s, env.handler);
    s2 := s;
    if o.Go? { s2 := ServerPassEnd(p, o.ses, p.gotS + 1, env, PairInv(p)); }
  }

  lemma ServerPassEnd(p: Pair, s: Ses, got: nat, env: LoopEnv, inv: bool) returns (s2: Ses)
    requires inv && PairInv(p) == inv && ServerAt(s, p.c.tx.out, got, p.s.tx.out) == inv && SafeEnv(env)
    ensures Rest(s, env) == Go(s2) && (Kept(Next(p.(s := s2, gotS := got))) == inv)
  {
    s2 := ServerRests(s, p.c.tx.out, got, p.s.tx.out, env);
    HeardMore(p.c, p.s.tx.out, s2.tx.out, p.gotC);
  }

  lemma ServerRests(s: Ses, out: seq<Sealed>, got: nat, prior: seq<Sealed>, env: LoopEnv) returns (s2: Ses)
    requires ServerAt(s, out, got, prior) && SafeEnv(env)
    ensures Rest(s, env) == Go(s2) && TopInv(s2) && ServerAt(s2, out, got, prior)
  {
    RestKeeps(s, env);
    s2 := Rest(s, env).ses;
    HeardPlain(s, s2, out, got);
    ServedAdds(s.tx.out, s2.tx.out, s.rx.gens);
    PrefixAgain(prior, s.tx.out, s2.tx.out);
  }

  // ---------------------------------------------------------------- every run

  ghost predicate SafeSteps(steps: seq<Step>) { forall i | 0 <= i < |steps| :: SafeEnv(steps[i].env) }

  lemma StepKeeps(p: Pair, st: Step, inv: bool)
    requires inv && PairInv(p) == inv && SafeEnv(st.env)
    ensures Kept(Take(p, st)) == inv
  {
    if st.onClient { ClientPass(p, st.arrives, st.env); } else { ServerPass(p, st.arrives, st.env); }
  }

  lemma {:induction false} RunKeeps(p: Pair, steps: seq<Step>, inv: bool)
    requires inv && PairInv(p) == inv && SafeSteps(steps)
    ensures Kept(Run(p, steps)) == inv
    decreases |steps|
  {
    if steps != [] {
      var st := steps[0];
      assert SafeEnv(st.env) && SafeSteps(steps[1..]);
      StepKeeps(p, st, inv);
      if Take(p, st).Next? { RunKeeps(Take(p, st).pair, steps[1..], inv); }
    }
  }

  /** Both sides have opened with their KEXINIT; guess says the client sends a guessed packet, with draw, behind it. */
  function Opened(guess: bool, draw: nat): Pair { Pair(Started(true, guess, draw), Started(false, false, 0), 0, 0) }

  lemma OpenedInv(guess: bool, draw: nat)
    ensures PairInv(Opened(guess, draw))
  {
    StartedKeeps(true, guess, draw);
    StartedKeeps(false, false, 0);
    OpenedFrom(guess, Started(true, guess, draw), Started(false, false, 0));
  }

  lemma OpenedFrom(guess: bool, c: Ses, s: Ses)
    requires TopInv(c) && Plain(Blank(true, guess), c) && !c.initSent && OfferOk(c)
    requires TopInv(s) && Plain(Blank(false, false), s) && s.gate == Gate(KEXINIT, 0, false, 0)
    ensures PairInv(Pair(c, s, 0, 0))
  {
    HeardPlain(Blank(true, guess), c, s.tx.out, 0);
    HeardPlain(Blank(false, false), s, c.tx.out, 0);
    ServedAdds([], s.tx.out, []);
  }

  /** The exchange a generation of keys came from; generation 0 is no keys at all. */
  function KeyOf(gens: seq<Exchange>, epoch: nat): Exchange
    requires 0 < epoch <= |gens|
  {
    gens[epoch - 1]
  }

  /** r opens packet x with the keys and the sequence number it was sealed with by s. */
  predicate Opens(s: Ses, r: Ses, x: Sealed) {
    && x.seqno == r.rx.seqno && x.epoch == r.rx.epoch
    && x.epoch <= |s.rx.gens| && x.epoch <= |r.rx.gens|
    && (x.epoch > 0 ==> KeyOf(s.rx.gens, x.epoch) == KeyOf(r.rx.gens, x.epoch))
  }

  lemma NextOpens(p: Pair)
    requires PairInv(p)
    ensures p.gotC < |p.s.tx.out| ==> Opens(p.s, p.c, p.s.tx.out[p.gotC])
    ensures p.gotS < |p.c.tx.out| ==> Opens(p.c, p.s, p.c.tx.out[p.gotS])
  {
    IdsMono(p.s.tx.out, p.gotC);
    SwitchesMono(p.s.tx.out, p.gotC);
    SwitchesMono(p.c.tx.out, p.gotS);
  }

  /**
   * In every run, through any number of key exchanges and with replies held back, the next packet on
   * either link is opened under the keys and the number it was sealed with; null is never dereferenced, and
   * no run ends over a message of the key exchange out of turn.
   */
  lemma EpochsAgree(guess: bool, draw: nat, steps: seq<Step>)
    requires SafeSteps(steps)
    ensures var v := Run(Opened(guess, draw), steps);
            !v.Crashes? && (v.Ends? ==> !Spurious(v.why))
            && (v.Next? ==>
                  var p := v.pair;
                  (p.gotC < |p.s.tx.out| ==> Opens(p.s, p.c, p.s.tx.out[p.gotC]))
                  && (p.gotS < |p.c.tx.out| ==> Opens(p.c, p.s, p.c.tx.out[p.gotS])))
  {
    OpenedInv(guess, draw);
    RunKeeps(Opened(guess, draw), steps, true);
    if Run(Opened(guess, draw), steps).Next? { NextOpens(Run(Opened(guess, draw), steps).pair); }
  }
}
