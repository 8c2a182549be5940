/** First key exchanges from start to finish: the runs the theorems speak of include them. */
module RekeyRun {
  import opened Prelude
  import opened Rekey
  import opened RekeyKeeps
  import opened RekeyPair

  /** Nothing but the packet, for a verdict on the guess and a method: no timers, no data; e and f are the random draws. */
  function Only(allgood: bool, algo: int, e: nat, f: nat): LoopEnv {
    LoopEnv(Timers(false, 0, false), HandlerEnv([], KexEnv(true, allgood, algo), f, true, true), [], [], e)
  }

  function Agreeing(e: nat, f: nat): LoopEnv { Only(true, DH_GROUP1, e, f) }

  function KI(guess: bool): Msg { Msg(KEXINIT, if guess then 1 else 0) }
  function KD(e: nat): Msg { Msg(KEXDH_INIT, e) }
  function KR(e: nat, f: nat): Msg { Msg(KEXDH_REPLY, e, f) }
  const NK: Msg := Msg(NEWKEYS, 0)

  const OFFERED: Kex := Kex(true, false, false, false, false, false)
  const DONE: Kex := Kex(false, false, false, false, false, true)

  function Agreed(first: bool): Kex { Kex(true, true, false, false, first, false) }

  function Switching(first: bool): Kex { Kex(true, true, true, false, first, true) }

  function ClientOut(guess: bool, e: nat): seq<Sealed> {
    [Sealed(KI(guess), 0, 0), Sealed(KD(e), 0, 1), Sealed(NK, 0, 2)]
  }

  function ServerOut(e: nat, f: nat): seq<Sealed> { [Sealed(KI(false), 0, 0), Sealed(KR(e, f), 0, 1), Sealed(NK, 0, 2)] }

  /** The client with its KEXINIT gone, and the guessed packet if it guesses. */
  function ClientOffering(guess: bool, e: nat): Ses {
    if guess then
      Ses(true, true, OFFERED, Allocated(false, false, DH_GROUP1), Gate(KEXDH_REPLY, KEXINIT, false, 0), false,
          Offer(e, DH_GROUP1), false, Line([], [KI(true), KD(e)]),
          Tx(0, 2, [Sealed(KI(true), 0, 0), Sealed(KD(e), 0, 1)]), Rx(0, 0, []))
    else
      Ses(true, false, OFFERED, Allocated(false, false, KEX_NONE), Gate(KEXINIT, 0, false, 0), false,
          NoOffer, false, Line([], [KI(false)]), Tx(0, 1, [Sealed(KI(false), 0, 0)]), Rx(0, 0, []))
  }

  function ServerOffering(): Ses {
    Ses(false, false, OFFERED, Allocated(false, false, KEX_NONE), Gate(KEXINIT, 0, false, 0), false,
        NoOffer, false, Line([], [KI(false)]), Tx(0, 1, [Sealed(KI(false), 0, 0)]), Rx(0, 0, []))
  }

  /** The client with its value on the way, the server's KEXINIT handled. */
  function ClientAsked(guess: bool, e: nat): Ses {
    Ses(true, guess, Agreed(guess), Allocated(false, false, DH_GROUP1),
        if guess then Gate(0, 0, false, KEXINIT) else Gate(KEXDH_REPLY, KEXINIT, false, KEXINIT), true,
        Offer(e, DH_GROUP1), false, Line([], [KI(guess), KD(e)]),
        Tx(0, 2, [Sealed(KI(guess), 0, 0), Sealed(KD(e), 0, 1)]), Rx(0, 1, []))
  }

  function ServerWaiting(algo: int): Ses {
    Ses(false, false, Agreed(false), Allocated(false, false, algo), Gate(KEXDH_INIT, 0, false, KEXINIT), false,
        NoOffer, false, Line([], [KI(false)]), Tx(0, 1, [Sealed(KI(false), 0, 0)]), Rx(0, 1, []))
  }

  /** Our NEWKEYS sent, the peer's still to come. */
  function ClientHalf(guess: bool, e: nat, f: nat): Ses {
    Ses(true, guess, Switching(guess), Allocated(true, false, DH_GROUP1), Gate(NEWKEYS, 0, false, KEXDH_REPLY), false,
        NoOffer, true, Line([], [KI(guess), KD(e), NK]), Tx(1, 3, ClientOut(guess, e)), Rx(0, 2, [Exchange(e, f)]))
  }

  function ServerHalf(algo: int, e: nat, f: nat): Ses {
    Ses(false, false, Switching(false), Allocated(true, false, algo), Gate(NEWKEYS, 0, false, KEXDH_INIT), false,
        NoOffer, true, Line([], [KI(false), KR(e, f), NK]), Tx(1, 3, ServerOut(e, f)), Rx(0, 2, [Exchange(e, f)]))
  }

  /** The keys of the exchange in use both ways. */
  function Complete(half: Ses): Ses {
    half.(kex := DONE, newkeys := Absent, gate := Gate(0, 0, false, NEWKEYS), rx := Rx(1, 3, half.rx.gens))
  }

  lemma ClientTakesKexinit(guess: bool, e: nat, f: nat)
    ensures Iteration(ClientOffering(guess, e), [KI(false)], Agreeing(e, f)) == Go(ClientAsked(guess, e))
  {
  }

  lemma ServerTakesKexinit(guess: bool, algo: int, e: nat, f: nat)
    ensures Iteration(ServerOffering(), [KI(guess)], Only(true, algo, e, f)) == Go(ServerWaiting(algo))
  {
  }

  lemma ServerTakesInit(algo: int, e: nat, f: nat)
    ensures Iteration(ServerWaiting(algo), [KD(e)], Only(true, algo, e, f)) == Go(ServerHalf(algo, e, f))
  {
  }

  lemma ClientTakesReply(guess: bool, e: nat, f: nat)
    ensures Iteration(ClientAsked(guess, e), [KR(e, f)], Agreeing(e, f)) == Go(ClientHalf(guess, e, f))
  {
  }

  lemma ClientTakesNewkeys(guess: bool, e: nat, f: nat)
    ensures Iteration(ClientHalf(guess, e, f), [NK], Agreeing(e, f)) == Go(Complete(ClientHalf(guess, e, f)))
  {
  }

  lemma ServerTakesNewkeys(e: nat, f: nat)
    ensures Iteration(ServerHalf(DH_GROUP1, e, f), [NK], Agreeing(e, f)) == Go(Complete(ServerHalf(DH_GROUP1, e, f)))
  {
  }

  lemma RunsOn(p: Pair, st: Step, p2: Pair, rest: seq<Step>)
    requires Take(p, st) == Next(p2)
    ensures Run(p, [st] + rest) == Run(p2, rest)
  {
    assert ([st] + rest)[1..] == rest;
  }

  lemma OnClient(p: Pair, c2: Ses, env: LoopEnv, rest: seq<Step>)
    requires p.gotC < |p.s.tx.out| && Iteration(p.c, [p.s.tx.out[p.gotC].msg], env) == Go(c2)
    ensures Run(p, [Step(true, true, env)] + rest) == Run(p.(c := c2, gotC := p.gotC + 1), rest)
  {
    RunsOn(p, Step(true, true, env), p.(c := c2, gotC := p.gotC + 1), rest);
  }

  lemma OnServer(p: Pair, s2: Ses, env: LoopEnv, rest: seq<Step>)
    requires p.gotS < |p.c.tx.out| && Iteration(p.s, [p.c.tx.out[p.gotS].msg], env) == Go(s2)
    ensures Run(p, [Step(false, true, env)] + rest) == Run(p.(s := s2, gotS := p.gotS + 1), rest)
  {
    RunsOn(p, Step(false, true, env), p.(s := s2, gotS := p.gotS + 1), rest);
  }

  /** The last n of: client, server, server, client, client, server. */
  function Steps(env: LoopEnv, n: nat): seq<Step>
    requires n <= 6
  {
    if n == 0 then [] else [Step(n == 6 || n == 3 || n == 2, true, env)] + Steps(env, n - 1)
  }

  lemma Openings(guess: bool, e: nat, f: nat)
    ensures Opened(guess, e) == Pair(ClientOffering(guess, e), ServerOffering(), 0, 0)
    ensures SafeSteps(Steps(Agreeing(e, f), 6))
  {
    assert SafeEnv(Agreeing(e, f));
    AllSame(Agreeing(e, f), 6);
  }

  lemma {:induction false} AllSame(env: LoopEnv, n: nat)
    requires n <= 6
    ensures forall i | 0 <= i < |Steps(env, n)| :: Steps(env, n)[i].env == env
  {
    if n > 0 { AllSame(env, n - 1); }
  }

  lemma FirstHalf(guess: bool, e: nat, f: nat)
    ensures var env := Agreeing(e, f);
            Run(Pair(ClientOffering(guess, e), ServerOffering(), 0, 0), Steps(env, 6))
            == Run(Pair(ClientAsked(guess, e), ServerHalf(DH_GROUP1, e, f), 1, 2), Steps(env, 3))
  {
    var env := Agreeing(e, f);
    ClientTakesKexinit(guess, e, f);
    OnClient(Pair(ClientOffering(guess, e), ServerOffering(), 0, 0), ClientAsked(guess, e), env, Steps(env, 5));
    ServerTakesKexinit(guess, DH_GROUP1, e, f);
    OnServer(Pair(ClientAsked(guess, e), ServerOffering(), 1, 0), ServerWaiting(DH_GROUP1), env, Steps(env, 4));
    ServerTakesInit(DH_GROUP1, e, f);
    OnServer(Pair(ClientAsked(guess, e), ServerWaiting(DH_GROUP1), 1, 1), ServerHalf(DH_GROUP1, e, f), env, Steps(env, 3));
  }

  lemma SecondHalf(guess: bool, e: nat, f: nat)
    ensures var env := Agreeing(e, f);
            Run(Pair(ClientAsked(guess, e), ServerHalf(DH_GROUP1, e, f), 1, 2), Steps(env, 3))
            == Next(Pair(Complete(ClientHalf(guess, e, f)), Complete(ServerHalf(DH_GROUP1, e, f)), 3, 3))
  {
    var env := Agreeing(e, f);
    var ch, sh := ClientHalf(guess, e, f), ServerHalf(DH_GROUP1, e, f);
    ClientTakesReply(guess, e, f);
    OnClient(Pair(ClientAsked(guess, e), sh, 1, 2), ch, env, Steps(env, 2));
    ClientTakesNewkeys(guess, e, f);
    OnClient(Pair(ch, sh, 2, 2), Complete(ch), env, Steps(env, 1));
    ServerTakesNewkeys(e, f);
    OnServer(Pair(Complete(ch), sh, 3, 2), Complete(sh), env, Steps(env, 0));
  }

  /**
   * With a guess or without, and for all values the two sides draw: both end with the first keys in use both
   * ways, the same exchange behind them, and data allowed.
   */
  lemma FirstExchange(guess: bool, e: nat, f: nat)
    ensures var steps := Steps(Agreeing(e, f), 6);
            SafeSteps(steps)
            && Run(Opened(guess, e), steps)
               == Next(Pair(Complete(ClientHalf(guess, e, f)), Complete(ServerHalf(DH_GROUP1, e, f)), 3, 3))
  {
    Openings(guess, e, f);
    FirstHalf(guess, e, f);
    SecondHalf(guess, e, f);
  }

  // ---------------------------------------------------------------- a guess only the server finds good

  /** The value the client sends behind a guess of e it found bad: dh_e again, or another for another method. */
  function Second(algo: int, e: nat, again: nat): nat { if algo == DH_GROUP1 then e else again }

  /** The client found its guess bad and sent a second value, for the method negotiated. */
  function ClientAgain(algo: int, e: nat, again: nat): Ses {
    var val := Second(algo, e, again);
    Ses(true, true, Agreed(false), Allocated(false, false, algo), Gate(KEXDH_REPLY, KEXINIT, false, KEXINIT), true,
        Offer(val, algo), false, Line([], [KI(true), KD(e), KD(val)]),
        Tx(0, 3, [Sealed(KI(true), 0, 0), Sealed(KD(e), 0, 1), Sealed(KD(val), 0, 2)]), Rx(0, 1, []))
  }

  lemma ClientSendsAgain(algo: int, e: nat, again: nat, f: nat)
    ensures Iteration(ClientOffering(true, e), [KI(false)], Only(false, algo, again, f)) == Go(ClientAgain(algo, e, again))
  {
  }

  lemma ClientRefuses(algo: int, e: nat, again: nat, f: nat)
    requires algo != DH_GROUP1 && e != again
    ensures Iteration(ClientAgain(algo, e, again), [KR(e, f)], Only(false, algo, again, f)) == Exit(BadSignature)
  {
  }

  lemma ServerRefuses(algo: int, e: nat, val: nat, f: nat)
    ensures Iteration(ServerHalf(algo, e, f), [KD(val)], Only(true, algo, e, f)) == Exit(UnexpectedPacket(KEXDH_INIT))
  {
  }

  /** The client finds its guess bad, for method m; the server, for method n, finds it good. */
  function ClientBad(m: int, again: nat, f: nat): Step { Step(true, true, Only(false, m, again, f)) }

  function ServerGood(n: int, e: nat, f: nat): Step { Step(false, true, Only(true, n, e, f)) }

  /** Up to where the client has sent twice and the server has answered the guess. */
  lemma Diverge(m: int, n: int, e: nat, again: nat, f: nat, last: Step)
    ensures var c, s := ClientBad(m, again, f), ServerGood(n, e, f);
            Run(Opened(true, e), [c, s, s, last]) == Run(Pair(ClientAgain(m, e, again), ServerHalf(n, e, f), 1, 2), [last])
  {
    var c, s, client := ClientBad(m, again, f), ServerGood(n, e, f), ClientAgain(m, e, again);
    Openings(true, e, f);
    assert [c, s, s, last] == [c] + [s, s, last] && [s, s, last] == [s] + [s, last] && [s, last] == [s] + [last];
    ClientSendsAgain(m, e, again, f);
    OnClient(Pair(ClientOffering(true, e), ServerOffering(), 0, 0), client, c.env, [s, s, last]);
    ServerTakesKexinit(true, n, e, f);
    OnServer(Pair(client, ServerOffering(), 1, 0), ServerWaiting(n), s.env, [s, last]);
    ServerTakesInit(n, e, f);
    OnServer(Pair(client, ServerWaiting(n), 1, 1), ServerHalf(n, e, f), s.env, [last]);
  }

  /** For another method than the one guessed the reply is to a value the client offers no longer. */
  lemma DisagreementEnds(m: int, n: int, e: nat, again: nat, f: nat)
    requires m != DH_GROUP1 && e != again
    ensures var c, s := ClientBad(m, again, f), ServerGood(n, e, f);
            SafeSteps([c, s, s, c]) && Run(Opened(true, e), [c, s, s, c]) == Ends(true, BadSignature)
  {
    var c := ClientBad(m, again, f);
    Diverge(m, n, e, again, f, c);
    ClientRefuses(m, e, again, f);
  }

  /** For whatever method the server meets a second KEXDH_INIT when it has answered the first. */
  lemma SecondInitEnds(m: int, n: int, e: nat, again: nat, f: nat)
    ensures var c, s := ClientBad(m, again, f), ServerGood(n, e, f);
            SafeSteps([c, s, s, s]) && Run(Opened(true, e), [c, s, s, s]) == Ends(false, UnexpectedPacket(KEXDH_INIT))
  {
    Diverge(m, n, e, again, f, ServerGood(n, e, f));
    ServerRefuses(n, e, Second(m, e, again), f);
  }

  // ---------------------------------------------------------------- a guess sent while the server's data is on its way

  /** What process_packet takes at any time, one way or the other. */
  predicate Anytime(ty: nat) { ty == IGNORE || ty == DEBUG || ty == UNIMPLEMENTED || ty == DISCONNECT }

  lemma UnexpectedIs(s: Ses, m: Msg, env: HandlerEnv)
    ensures ProcessPacket(s, m, env) == Exit(UnexpectedPacket(m.ty)) <==> !Anytime(m.ty) && !Allowed(s.gate, m.ty)
  {
  }

  lemma GuessDemands(c: Ses, timers: Timers)
    requires c.guess && !c.kex.sentKexinit && timers.rekey
    ensures var g := CheckTimeouts(c, timers).gate; g.req0 == KEXDH_REPLY && g.req1 == KEXINIT
  {
  }

  /**
   * A client that guesses and starts a key exchange of its own demands KEXDH_REPLY or KEXINIT from then on:
   * whatever else the server sent before hearing of it, data above all, ends the session there and then.
   */
  lemma GuessedRekeyEnds(p: Pair, env: LoopEnv)
    requires p.c.guess && !p.c.kex.sentKexinit && env.timers.rekey && p.gotC < |p.s.tx.out|
    ensures var ty := p.s.tx.out[p.gotC].msg.ty;
            Take(p, Step(true, true, env)) == Ends(true, UnexpectedPacket(ty))
            <==> !Anytime(ty) && ty != KEXDH_REPLY && ty != KEXINIT
  {
    var m, c1 := p.s.tx.out[p.gotC].msg, CheckTimeouts(p.c, env.timers);
    GuessDemands(p.c, env.timers);
    UnexpectedIs(c1, m, env.handler);
    PassEnds(p.c, m, env);
  }

  /** Nothing behind the packet ends a pass for that reason. */
  lemma PassEnds(c: Ses, m: Msg, env: LoopEnv)
    ensures Iteration(c, [m], env) == Exit(UnexpectedPacket(m.ty))
            <==> ProcessPacket(CheckTimeouts(c, env.timers), m, env.handler) == Exit(UnexpectedPacket(m.ty))
  {
  }

  const CHANNEL_DATA := 94

  /** The server sends a channel message; the client's rekeying is due. */
  function ServerSends(e: nat, f: nat): Step {
    Step(false, false, Agreeing(e, f).(channels := [Msg(CHANNEL_DATA, 0)]))
  }

  function ClientRekeys(e: nat, f: nat, again: nat): Step {
    Step(true, true, Agreeing(e, f).(timers := Timers(true, again, false)))
  }

  lemma {:induction false} RunOn(p: Pair, steps: seq<Step>, more: seq<Step>, q: Pair)
    requires Run(p, steps) == Next(q)
    ensures Run(p, steps + more) == Run(q, more)
    decreases |steps|
  {
    if steps == [] {
      assert steps + more == more;
    } else {
      var p1 := Take(p, steps[0]).pair;
      RunOn(p1, steps[1..], more, q);
      RunsOn(p, steps[0], p1, steps[1..] + more);
      FirstApart(steps, more);
    }
  }

  /** The server, exchange over, with that message sent. */
  function ServerSent(e: nat, f: nat): Ses {
    var s, m := Complete(ServerHalf(DH_GROUP1, e, f)), Msg(CHANNEL_DATA, 0);
    s.(line := s.line.(asked := s.line.asked + [m]), tx := Seal(s.tx, m))
  }

  lemma ServerSendsIs(e: nat, f: nat)
    ensures Iteration(Complete(ServerHalf(DH_GROUP1, e, f)), [], ServerSends(e, f).env) == Go(ServerSent(e, f))
  {
    var m := Msg(CHANNEL_DATA, 0);
    assert [m][1..] == [];
    assert SubmitAll(Complete(ServerHalf(DH_GROUP1, e, f)), [m]) == ServerSent(e, f);
  }

  /**
   * It happens: for all values drawn, behind a first exchange with a good guess the server sends a channel
   * message, the client's rekeying is due before it arrives, and the session ends over it.
   */
  lemma RekeyUnderData(e: nat, f: nat, again: nat)
    ensures var steps := Steps(Agreeing(e, f), 6) + [ServerSends(e, f), ClientRekeys(e, f, again)];
            SafeSteps(steps) && Run(Opened(true, e), steps) == Ends(true, UnexpectedPacket(CHANNEL_DATA))
  {
    var last := ClientRekeys(e, f, again);
    FirstExchange(true, e, f);
    RunOn(Opened(true, e), Steps(Agreeing(e, f), 6), [ServerSends(e, f), last], Exchanged(e, f));
    DataOnItsWay(e, f, last);
    RekeyMeetsData(e, f, again);
    AllSafe(Steps(Agreeing(e, f), 6), ServerSends(e, f), last);
  }

  lemma AllSafe(steps: seq<Step>, x: Step, y: Step)
    requires SafeSteps(steps) && SafeEnv(x.env) && SafeEnv(y.env)
    ensures SafeSteps(steps + [x, y])
  {
  }

  lemma RekeyMeetsData(e: nat, f: nat, again: nat)
    ensures Run(Exchanged(e, f).(s := ServerSent(e, f)), [ClientRekeys(e, f, again)]) == Ends(true, UnexpectedPacket(CHANNEL_DATA))
  {
    GuessedRekeyEnds(Exchanged(e, f).(s := ServerSent(e, f)), ClientRekeys(e, f, again).env);
  }

  /** Both sides with a first exchange behind them. */
  function Exchanged(e: nat, f: nat): Pair {
    Pair(Complete(ClientHalf(true, e, f)), Complete(ServerHalf(DH_GROUP1, e, f)), 3, 3)
  }

  lemma DataOnItsWay(e: nat, f: nat, last: Step)
    ensures Run(Exchanged(e, f), [ServerSends(e, f), last]) == Run(Exchanged(e, f).(s := ServerSent(e, f)), [last])
  {
    ServerSendsIs(e, f);
    RunsOn(Exchanged(e, f), ServerSends(e, f), Exchanged(e, f).(s := ServerSent(e, f)), [last]);
    assert [ServerSends(e, f), last] == [ServerSends(e, f)] + [last];
  }
}
