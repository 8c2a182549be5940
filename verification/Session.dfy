/** The session as its handlers update it in place, refining the functions of Rekey and keeping their invariant. */
module Sessions {
  import opened Rekey
  import opened RekeyKeeps

  datatype Status = Running | Exited | Crashed

  function StatusOf(o: Outcome): Status {
    match o
    case Go(_) => Running
    case Exit(_) => Exited
    case Crash => Crashed
  }

  class Session {
    const client: bool
    const guess: bool
    var kex: Kex
    var newkeys: NewKeys
    var gate: Gate
    var initSent: bool
    var dh: Dh
    var dataAllowed: bool
    var line: Line
    var tx: Tx
    var rx: Rx

    function View(): Ses
      reads this
    {
      Ses(client, guess, kex, newkeys, gate, initSent, dh, dataAllowed, line, tx, rx)
    }

    /** The handler went on, and the session is what the function says; or it stopped where the function stops. */
    ghost predicate Did(o: Outcome, r: Status)
      reads this
    {
      r == StatusOf(o) && (o.Go? ==> View() == o.ses)
    }

    /** common_session_init and the first KEXINIT; only a client guesses. */
    constructor (client: bool, guess: bool, draw: nat)
      requires guess ==> client
      ensures View() == Started(client, guess, draw) && TopInv(View())
    {
      this.client, this.guess, dh := client, guess, NoOffer;
      kex := Kex(false, false, false, false, false, false);
      newkeys := Absent;
      gate := Gate(KEXINIT, 0, false, 0);
      initSent, dataAllowed := false, true;
      line, tx, rx := Line([], []), Tx(0, 0, []), Rx(0, 0, []);
      new;
      assert View() == Blank(client, guess);
      SendMsgKexinit(draw);
      StartedKeeps(client, guess, draw);
    }

    method Encrypt(m: Msg)
      modifies this`line, this`tx
      ensures View() == EncryptPacket(old(View()), m)
    {
      if !dataAllowed && !OkayInKex(m.ty) {
        line := line.(queue := line.queue + [m]);
        return;
      }
      tx := tx.(out := tx.out + [Sealed(m, tx.epoch, tx.seqno)]);
      tx := tx.(seqno := (tx.seqno + 1) % WORD32);
    }

    method Send(m: Msg)
      modifies this`line, this`tx
      ensures View() == Submit(old(View()), m)
    {
      line := line.(asked := line.asked + [m]);
      Encrypt(m);
    }

    method SendAll(ms: seq<Msg>)
      modifies this`line, this`tx
      ensures View() == SubmitAll(old(View()), ms)
    {
      ghost var start := View();
      var i := 0;
      while i < |ms|
        invariant 0 <= i <= |ms|
        invariant SubmitAll(View(), ms[i..]) == SubmitAll(start, ms)
      {
        assert ms[i..][0] == ms[i] && ms[i..][1..] == ms[i + 1..];
        Send(ms[i]);
        i := i + 1;
      }
    }

    method MaybeFlushReplyQueue()
      modifies this`line, this`tx
      ensures View() == Flush(old(View()))
    {
      if !dataAllowed { return; }
      var items := line.queue;
      line := line.(queue := []);
      ghost var start := View();
      var i := 0;
      while i < |items|
        invariant 0 <= i <= |items|
        invariant EncryptAll(View(), items[i..]) == EncryptAll(start, items)
      {
        assert items[i..][0] == items[i] && items[i..][1..] == items[i + 1..];
        Encrypt(items[i]);
        i := i + 1;
      }
    }

    /** draw is what gen_kexdh_vals comes up with, if it is asked. */
    method SendMsgKexdhInit(draw: nat)
      requires newkeys.Allocated?
      modifies this`line, this`tx, this`gate, this`dh
      ensures View() == SendKexdhInit(old(View()), draw)
    {
      if dh.NoOffer? || dh.algo != newkeys.algo { dh := Offer(draw, newkeys.algo); }
      Send(Msg(KEXDH_INIT, dh.val));
      gate := gate.(req0 := KEXDH_REPLY, req1 := KEXINIT);
    }

    method SendMsgKexinit(draw: nat)
      modifies this`line, this`tx, this`gate, this`dataAllowed, this`kex, this`newkeys, this`dh
      ensures View() == SendKexinit(old(View()), draw)
    {
      Send(Msg(KEXINIT, if guess then 1 else 0));
      dataAllowed := false;
      kex := kex.(sentKexinit := true);
      newkeys := Allocated(false, false, KEX_NONE);
      if guess {
        newkeys := newkeys.(algo := DH_GROUP1);
        SendMsgKexdhInit(draw);
      }
    }

    method SwitchKeysNow() returns (r: Status)
      modifies this`kex, this`newkeys, this`tx, this`rx
      ensures Did(SwitchKeys(old(View())), r)
    {
      if !(kex.sentKexinit && kex.recvKexinit) { return Exited; }
      if newkeys.Absent? { return Crashed; }
      if kex.recvNewkeys && newkeys.recvValid {
        rx := rx.(epoch := |rx.gens|);
        newkeys := newkeys.(recvValid := false);
      }
      if kex.sentNewkeys && newkeys.transValid {
        tx := tx.(epoch := |rx.gens|);
        newkeys := newkeys.(transValid := false);
      }
      if kex.sentNewkeys && kex.recvNewkeys {
        newkeys := Absent;
        kex := Kex(false, false, false, false, false, kex.doneFirst);
      }
      return Running;
    }

    method SendMsgNewkeys(x: Exchange) returns (r: Status)
      modifies this`line, this`tx, this`rx, this`dataAllowed, this`kex, this`newkeys
      ensures Did(SendNewkeys(old(View()), x), r)
    {
      Send(Msg(NEWKEYS, 0));
      kex := kex.(sentNewkeys := true, doneFirst := true);
      dataAllowed := true;
      if newkeys.Absent? { return Crashed; }
      rx := rx.(gens := rx.gens + [x]);
      newkeys := newkeys.(recvValid := true, transValid := true);
      r := SwitchKeysNow();
    }

    method RecvMsgNewkeys() returns (r: Status)
      modifies this`kex, this`newkeys, this`tx, this`rx
      ensures Did(RecvNewkeys(old(View())), r)
    {
      kex := kex.(recvNewkeys := true);
      r := SwitchKeysNow();
    }

    /** recv_msg_kexinit behind its own KEXINIT, with what read_kex_algos finds. */
    method TakeKexinit(tag: nat, env: KexEnv)
      modifies this`gate, this`kex, this`newkeys
      ensures View() == TookKexinit(old(View()), tag, env)
    {
      newkeys := Allocated(false, false, env.algo);
      if tag == 1 && !env.allgood { gate := gate.(ignoreNext := true); }
      if guess && env.allgood { kex := kex.(firstMatches := true); }
      if !client { gate := gate.(req0 := KEXDH_INIT); }
      kex := kex.(recvKexinit := true);
    }

    method RecvMsgKexinit(tag: nat, env: KexEnv, draw: nat) returns (r: Status)
      modifies this`line, this`tx, this`gate, this`dataAllowed, this`kex, this`newkeys, this`dh
      ensures Did(RecvKexinit(old(View()), tag, env, draw), r)
    {
      if kex.recvKexinit { return Crashed; }
      if !kex.sentKexinit { SendMsgKexinit(draw); }
      if !env.matches { return Exited; }
      TakeKexinit(tag, env);
      return Running;
    }

    method RecvMsgKexdhInit(e: nat, f: nat, good: bool) returns (r: Status)
      modifies this`line, this`tx, this`rx, this`gate, this`dataAllowed, this`kex, this`newkeys
      ensures Did(RecvKexdhInit(old(View()), e, f, good), r)
    {
      if !kex.recvKexinit || !good { return Exited; }
      Send(Msg(KEXDH_REPLY, e, f));
      r := SendMsgNewkeys(Exchange(e, f));
      if r == Running { gate := gate.(req0 := NEWKEYS, req1 := 0); }
    }

    method RecvMsgKexdhReply(m: Msg, good: bool) returns (r: Status)
      modifies this`line, this`tx, this`rx, this`gate, this`dataAllowed, this`kex, this`newkeys, this`dh
      ensures Did(RecvKexdhReply(old(View()), m, good), r)
    {
      if !initSent { return Exited; }
      if newkeys.Absent? { return Crashed; }
      if !good { return Exited; }
      if dh.NoOffer? { return Crashed; }
      var e := dh.val;
      dh := NoOffer;
      if m.tag != e { return Exited; }
      r := SendMsgNewkeys(Exchange(e, m.pub));
      if r == Running { gate := gate.(req0 := NEWKEYS, req1 := 0); }
    }

    method Dispatch(m: Msg, env: HandlerEnv) returns (r: Status)
      modifies this`line, this`tx, this`rx, this`gate, this`dataAllowed, this`kex, this`newkeys, this`dh
      ensures Did(Handle(old(View()), m, env), r)
    {
      if m.ty == KEXINIT {
        r := RecvMsgKexinit(m.tag, env.kex, env.draw);
      } else if m.ty == NEWKEYS {
        r := RecvMsgNewkeys();
      } else if m.ty == KEXDH_INIT && !client {
        r := RecvMsgKexdhInit(m.tag, env.draw, env.ok);
      } else if m.ty == KEXDH_REPLY && client {
        r := RecvMsgKexdhReply(m, env.ok);
      } else {
        SendAll(env.replies);
        r := Running;
      }
    }

    /** process_packet, with the count decrypt_packet makes. */
    method Process(m: Msg, env: HandlerEnv) returns (r: Status)
      modifies this`line, this`tx, this`rx, this`gate, this`dataAllowed, this`kex, this`newkeys, this`dh
      ensures Did(ProcessPacket(old(View()), m, env), r)
    {
      rx := rx.(seqno := (rx.seqno + 1) % WORD32);
      gate := gate.(last := m.ty);
      if m.ty == IGNORE || m.ty == DEBUG { return Running; }
      if m.ty == UNIMPLEMENTED || m.ty == DISCONNECT { return Exited; }
      if gate.req0 != 0 {
        if gate.req0 != m.ty && (gate.req1 == 0 || gate.req1 != m.ty) { return Exited; }
        gate := gate.(req0 := 0, req1 := 0);
      }
      if gate.ignoreNext {
        gate := gate.(ignoreNext := false);
        return Running;
      }
      if !env.authDone && m.ty > MAX_UNAUTH_PACKET_TYPE { return Exited; }
      r := Dispatch(m, env);
    }

    method CheckTimeoutsNow(timers: Timers)
      modifies this`line, this`tx, this`gate, this`dataAllowed, this`kex, this`newkeys, this`dh
      ensures View() == CheckTimeouts(old(View()), timers)
    {
      if !kex.sentKexinit && timers.rekey { SendMsgKexinit(timers.draw); }
      if timers.keepalive { Send(Msg(IGNORE, 0)); }
    }

    method CliLoop(sends: seq<Msg>, draw: nat) returns (r: Status)
      modifies this`line, this`tx, this`gate, this`initSent, this`dh
      ensures Did(CliSessionLoop(old(View()), sends, draw), r)
    {
      if !client || gate.last == 0 { return Running; }
      if gate.last == KEXINIT && !initSent {
        if !kex.firstMatches {
          if newkeys.Absent? { return Crashed; }
          SendMsgKexdhInit(draw);
        }
        initSent := true;
        return Running;
      }
      if initSent && kex.sentNewkeys { initSent := false; }
      if initSent || !kex.doneFirst { return Running; }
      SendAll(sends);
      return Running;
    }

    /** What follows the packet. */
    method RestOfPass(env: LoopEnv) returns (r: Status)
      modifies this`line, this`tx, this`gate, this`initSent, this`dh
      ensures Did(Rest(old(View()), env), r)
    {
      MaybeFlushReplyQueue();
      if dataAllowed { SendAll(env.channels); }
      r := CliLoop(env.requests, env.draw);
    }

    /** One pass of session_loop: whatever arrives, a session that goes on keeps its invariant. */
    method LoopOnce(arrived: seq<Msg>, env: LoopEnv) returns (r: Status)
      requires |arrived| <= 1
      modifies this
      ensures Did(Iteration(old(View()), arrived, env), r)
      ensures old(TopInv(View())) && SafeEnv(env) && r == Running ==> TopInv(View())
    {
      ghost var start := View();
      CheckTimeoutsNow(env.timers);
      if |arrived| == 1 {
        r := Process(arrived[0], env.handler);
        if r != Running { return; }
      }
      r := RestOfPass(env);
      if TopInv(start) && SafeEnv(env) { IterationKeeps(start, arrived, env); }
    }
  }
}
