/** One side of a session: what it seals and under which keys, through key exchanges and replies held back. */
module Rekey {
  const WORD32 := 0x1_0000_0000

  const IGNORE := 2
  const UNIMPLEMENTED := 3
  const DEBUG := 4
  const SERVICE_REQUEST := 5
  const SERVICE_ACCEPT := 6
  const DISCONNECT := 1
  const KEXINIT := 20
  const NEWKEYS := 21
  const KEXDH_INIT := 30
  const KEXDH_REPLY := 31
  const USERAUTH_REQUEST := 50
  const MAX_UNAUTH_PACKET_TYPE := 60

  /** The key exchange method the client guesses, the first in its table; 0 stands for none. */
  const KEX_NONE := 0
  const DH_GROUP1 := 1

  /**
   * tag stands for the payload: for KEXINIT 1 when first_kex_packet_follows is set, for KEXDH_INIT the client's
   * value e, for KEXDH_REPLY the e under its signed hash, with the server's value f as pub; else anything.
   */
  datatype Msg = Msg(ty: nat, tag: nat, pub: nat := 0)

  /** What the two sides hash and derive keys from: the client's value and the server's. */
  datatype Exchange = Exchange(e: nat, f: nat)

  /** A message as it was sealed: which generation of keys (0 before the first) and which sequence number. */
  datatype Sealed = Sealed(msg: Msg, epoch: nat, seqno: nat)

  datatype Kex = Kex(sentKexinit: bool, recvKexinit: bool, sentNewkeys: bool, recvNewkeys: bool,
                     firstMatches: bool, doneFirst: bool)

  /** ses.newkeys: absent, or with a valid flag for each direction and algo_kex. */
  datatype NewKeys = Absent | Allocated(recvValid: bool, transValid: bool, algo: int)

  /** The client's dh_e and dh_val_algo. */
  datatype Dh = NoOffer | Offer(val: nat, algo: int)

  /** requirenext, ignorenext and lastpacket. */
  datatype Gate = Gate(req0: nat, req1: nat, ignoreNext: bool, last: nat)

  /** ses.keys->trans as a generation of keys, transseq, and every packet sealed. */
  datatype Tx = Tx(epoch: nat, seqno: nat, out: seq<Sealed>)

  /** The reply queue, and every message submitted to encrypt_packet. */
  datatype Line = Line(queue: seq<Msg>, asked: seq<Msg>)

  /** ses.keys->recv as a generation, recvseq, and the exchanges keys were generated for. */
  datatype Rx = Rx(epoch: nat, seqno: nat, gens: seq<Exchange>)

  /**
   * guess says send_kex_first_guess is set; initSent is the client's kex_state KEXDH_INIT_SENT. tx.out,
   * line.asked and rx.gens are history.
   */
  datatype Ses = Ses(client: bool, guess: bool, kex: Kex, newkeys: NewKeys, gate: Gate, initSent: bool,
                     dh: Dh, dataAllowed: bool, line: Line, tx: Tx, rx: Rx)

  /** The messages of dropbear_exit and dropbear_close, in the order of their files. */
  datatype Why = UnexpectedNewkeys | NoMatchingAlgo | PrematureInit | DhError | OutOfOrderReply | BadKexPacket | BadSignature
               | Disconnected | UnexpectedPacket(ty: nat) | BeforeUserauth

  /** Exit is dropbear_exit or dropbear_close; Crash a null dereference. */
  datatype Outcome = Go(ses: Ses) | Exit(why: Why) | Crash {
    predicate IsFailure() { !Go? }
    function PropagateFailure(): Outcome requires !Go? { this }
    function Extract(): Ses requires Go? { ses }
  }

  /** packet_is_okay_kex. */
  predicate OkayInKex(ty: nat) {
    ty < USERAUTH_REQUEST && ty != SERVICE_REQUEST && ty != SERVICE_ACCEPT && ty != KEXINIT
  }

  function Seal(tx: Tx, m: Msg): Tx {
    Tx(tx.epoch, (tx.seqno + 1) % WORD32, tx.out + [Sealed(m, tx.epoch, tx.seqno)])
  }

  /** encrypt_packet. */
  function EncryptPacket(s: Ses, m: Msg): Ses {
    if !s.dataAllowed && !OkayInKex(m.ty) then s.(line := s.line.(queue := s.line.queue + [m]))
    else s.(tx := Seal(s.tx, m))
  }

  /** A message handed to encrypt_packet for the first time. */
  function Submit(s: Ses, m: Msg): Ses {
    EncryptPacket(s.(line := s.line.(asked := s.line.asked + [m])), m)
  }

  function SubmitAll(s: Ses, ms: seq<Msg>): Ses
    decreases |ms|
  {
    if ms == [] then s else SubmitAll(Submit(s, ms[0]), ms[1..])
  }

  function EncryptAll(s: Ses, ms: seq<Msg>): Ses
    decreases |ms|
  {
    if ms == [] then s else EncryptAll(EncryptPacket(s, ms[0]), ms[1..])
  }

  /** maybe_flush_reply_queue. */
  function Flush(s: Ses): Ses {
    if !s.dataAllowed then s else EncryptAll(s.(line := s.line.(queue := [])), s.line.queue)
  }

  /** The client's value: the one there is, if it is for the method of newkeys, else a new one, the random draw. */
  function Offering(dh: Dh, algo: int, draw: nat): Dh {
    if dh.Offer? && dh.algo == algo then dh else Offer(draw, algo)
  }

  /** send_msg_kexdh_init, once newkeys is there. */
  function SendKexdhInit(s: Ses, draw: nat): Ses
    requires s.newkeys.Allocated?
  {
    var dh := Offering(s.dh, s.newkeys.algo, draw);
    Submit(s.(dh := dh), Msg(KEXDH_INIT, dh.val)).(gate := s.gate.(req0 := KEXDH_REPLY, req1 := KEXINIT))
  }

  /** send_msg_kexinit before the guessed packet. */
  function OfferKex(s: Ses): Ses {
    Submit(s, Msg(KEXINIT, if s.guess then 1 else 0))
      .(dataAllowed := false, kex := s.kex.(sentKexinit := true),
        newkeys := Allocated(false, false, if s.guess then DH_GROUP1 else KEX_NONE))
  }

  /** send_msg_kexinit. */
  function SendKexinit(s: Ses, draw: nat): Ses {
    if s.guess then SendKexdhInit(OfferKex(s), draw) else OfferKex(s)
  }

  /** kexinitialise, after newkeys is freed. */
  function KexInitialise(s: Ses): Ses {
    s.(kex := Kex(false, false, false, false, false, s.kex.doneFirst), newkeys := Absent)
  }

  /** switch_keys. */
  function SwitchKeys(s: Ses): Outcome {
    if !(s.kex.sentKexinit && s.kex.recvKexinit) then Exit(UnexpectedNewkeys)
    else if s.newkeys.Absent? then Crash
    else
      var s1 := if s.kex.recvNewkeys && s.newkeys.recvValid
                then s.(rx := s.rx.(epoch := |s.rx.gens|), newkeys := s.newkeys.(recvValid := false)) else s;
      var s2 := if s1.kex.sentNewkeys && s1.newkeys.transValid
                then s1.(tx := s1.tx.(epoch := |s1.rx.gens|), newkeys := s1.newkeys.(transValid := false)) else s1;
      Go(if s2.kex.sentNewkeys && s2.kex.recvNewkeys then KexInitialise(s2) else s2)
  }

  /** gen_new_keys, for the exchange x. */
  function GenNewKeys(s: Ses, x: Exchange): Outcome {
    if s.newkeys.Absent? then Crash
    else Go(s.(rx := s.rx.(gens := s.rx.gens + [x]), newkeys := s.newkeys.(recvValid := true, transValid := true)))
  }

  /** send_msg_newkeys. */
  function SendNewkeys(s: Ses, x: Exchange): Outcome {
    var s1 := Submit(s, Msg(NEWKEYS, 0));
    var s2 := s1.(kex := s1.kex.(sentNewkeys := true, doneFirst := true), dataAllowed := true);
    var s3 :- GenNewKeys(s2, x);
    SwitchKeys(s3)
  }

  /** recv_msg_newkeys. */
  function RecvNewkeys(s: Ses): Outcome {
    SwitchKeys(s.(kex := s.kex.(recvNewkeys := true)))
  }

  /** What negotiation finds in a KEXINIT: whether every algorithm matches, if the guess was good, and the method. */
  datatype KexEnv = KexEnv(matches: bool, allgood: bool, algo: int)

  /** What recv_msg_kexinit does once our own KEXINIT has gone. */
  function TookKexinit(s: Ses, tag: nat, env: KexEnv): Ses {
    s.(newkeys := Allocated(false, false, env.algo),
       gate := Gate(if s.client then s.gate.req0 else KEXDH_INIT, s.gate.req1,
                    s.gate.ignoreNext || (tag == 1 && !env.allgood), s.gate.last),
       kex := s.kex.(recvKexinit := true, firstMatches := s.kex.firstMatches || (s.guess && env.allgood)))
  }

  /** recv_msg_kexinit; transkexinit is gone once one KEXINIT has been handled. */
  function RecvKexinit(s: Ses, tag: nat, env: KexEnv, draw: nat): Outcome {
    if s.kex.recvKexinit then Crash
    else if !env.matches then Exit(NoMatchingAlgo)
    else Go(TookKexinit(if s.kex.sentKexinit then s else SendKexinit(s, draw), tag, env))
  }

  function RequireNewkeys(s: Ses): Ses {
    s.(gate := s.gate.(req0 := NEWKEYS, req1 := 0))
  }

  /** recv_msg_kexdh_init on the server, for the client's value e; f is the server's random draw. */
  function RecvKexdhInit(s: Ses, e: nat, f: nat, ok: bool): Outcome {
    if !s.kex.recvKexinit then Exit(PrematureInit)
    else if !ok then Exit(DhError)
    else
      var s1 :- SendNewkeys(Submit(s, Msg(KEXDH_REPLY, e, f)), Exchange(e, f));
      Go(RequireNewkeys(s1))
  }

  /** recv_msg_kexdh_reply on the client: the signature is over the client's own value, or over another. */
  function RecvKexdhReply(s: Ses, m: Msg, ok: bool): Outcome {
    if !s.initSent then Exit(OutOfOrderReply)
    else if s.newkeys.Absent? then Crash
    else if !ok then Exit(BadKexPacket)
    else if s.dh.NoOffer? then Crash
    else if m.tag != s.dh.val then Exit(BadSignature)
    else
      var s1 :- SendNewkeys(s.(dh := NoOffer), Exchange(s.dh.val, m.pub));
      Go(RequireNewkeys(s1))
  }

  /** A message of no key-exchange type: what every other handler, listener or timer submits. */
  predicate Ordinary(m: Msg) {
    m.ty != KEXINIT && m.ty != NEWKEYS && m.ty != KEXDH_INIT && m.ty != KEXDH_REPLY
  }

  /** replies are what an ordinary handler submits, draw a random value, ok goes on with a key exchange, authDone gates late types. */
  datatype HandlerEnv = HandlerEnv(replies: seq<Msg>, kex: KexEnv, draw: nat, ok: bool, authDone: bool)

  function Handle(s: Ses, m: Msg, env: HandlerEnv): Outcome {
    if m.ty == KEXINIT then RecvKexinit(s, m.tag, env.kex, env.draw)
    else if m.ty == NEWKEYS then RecvNewkeys(s)
    else if m.ty == KEXDH_INIT && !s.client then RecvKexdhInit(s, m.tag, env.draw, env.ok)
    else if m.ty == KEXDH_REPLY && s.client then RecvKexdhReply(s, m, env.ok)
    else Go(SubmitAll(s, env.replies))
  }

  predicate Allowed(g: Gate, ty: nat) {
    g.req0 == 0 || g.req0 == ty || (g.req1 != 0 && g.req1 == ty)
  }

  /** decrypt_packet counts the packet, process_packet notes its type. */
  function Counted(s: Ses, m: Msg): Ses {
    s.(rx := s.rx.(seqno := (s.rx.seqno + 1) % WORD32), gate := s.gate.(last := m.ty))
  }

  /** process_packet, after decrypt_packet has counted the packet. */
  function ProcessPacket(s0: Ses, m: Msg, env: HandlerEnv): Outcome {
    var s := Counted(s0, m);
    if m.ty == IGNORE || m.ty == DEBUG then Go(s)
    else if m.ty == UNIMPLEMENTED || m.ty == DISCONNECT then Exit(Disconnected)
    else if !Allowed(s.gate, m.ty) then Exit(UnexpectedPacket(m.ty))
    else
      var s1 := if s.gate.req0 != 0 then s.(gate := s.gate.(req0 := 0, req1 := 0)) else s;
      if s1.gate.ignoreNext then Go(s1.(gate := s1.gate.(ignoreNext := false)))
      else if !env.authDone && m.ty > MAX_UNAUTH_PACKET_TYPE then Exit(BeforeUserauth)
      else Handle(s1, m, env)
  }

  /** What the timers have to say: whether to rekey, with a random draw, and to send a keepalive. */
  datatype Timers = Timers(rekey: bool, draw: nat, keepalive: bool)

  /** checktimeouts. */
  function CheckTimeouts(s: Ses, timers: Timers): Ses {
    var s1 := if !s.kex.sentKexinit && timers.rekey then SendKexinit(s, timers.draw) else s;
    if timers.keepalive then Submit(s1, Msg(IGNORE, 0)) else s1
  }

  /** channelio. */
  function ChannelIo(s: Ses, sends: seq<Msg>): Ses {
    if s.dataAllowed then SubmitAll(s, sends) else s
  }

  /** cli_sessionloop; sends are its service, authentication and channel requests, draw a random value. */
  function CliSessionLoop(s: Ses, sends: seq<Msg>, draw: nat): Outcome {
    if !s.client || s.gate.last == 0 then Go(s)
    else if s.gate.last == KEXINIT && !s.initSent then
      if s.kex.firstMatches then Go(s.(initSent := true))
      else if s.newkeys.Absent? then Crash
      else Go(SendKexdhInit(s, draw).(initSent := true))
    else
      var s1 := if s.kex.sentNewkeys then s.(initSent := false) else s;
      Go(if s1.initSent || !s1.kex.doneFirst then s1 else SubmitAll(s1, sends))
  }

  datatype LoopEnv = LoopEnv(timers: Timers, handler: HandlerEnv, channels: seq<Msg>, requests: seq<Msg>, draw: nat)

  /** What follows the packet in one pass. */
  function Rest(s: Ses, env: LoopEnv): Outcome {
    CliSessionLoop(ChannelIo(Flush(s), env.channels), env.requests, env.draw)
  }

  /** One pass of session_loop, with the packet that has arrived, if one has. */
  function Iteration(s: Ses, arrived: seq<Msg>, env: LoopEnv): Outcome
    requires |arrived| <= 1
  {
    var s1 := CheckTimeouts(s, env.timers);
    var s2 :- if arrived == [] then Go(s1) else ProcessPacket(s1, arrived[0], env.handler);
    Rest(s2, env)
  }

  /** common_session_init. */
  function Blank(client: bool, guess: bool): Ses {
    Ses(client, guess, Kex(false, false, false, false, false, false), Absent, Gate(KEXINIT, 0, false, 0),
        false, NoOffer, true, Line([], []), Tx(0, 0, []), Rx(0, 0, []))
  }

  /** The KEXINIT each side opens with, and the client's first random draw. */
  function Started(client: bool, guess: bool, draw: nat): Ses {
    SendKexinit(Blank(client, guess), draw)
  }
}
