/** Two peers running the same channel code over a reliable first-in first-out link each way. */
module ChannelPair {
  import opened Prelude
  import opened Arith
  import opened Bytes
  import opened ChannelModel
  import opened ChannelKeeps

  /** gotA counts the messages of a that b has handled, gotB those of b that a has handled. */
  datatype Pair = Pair(a: Chan, b: Chan, gotA: nat, gotB: nat)

  /** One side acts on its own, or handles the oldest message on its way to it. */
  datatype Step = Acts(onA: bool, ev: Event) | Handles(onA: bool, env: CloseEnv)

  datatype Verdict = Next(pair: Pair) | NotPossible | Dies(why: string)

  function Swap(p: Pair): Pair { Pair(p.b, p.a, p.gotB, p.gotA) }

  function SwapNext(v: Verdict): Verdict { if v.Next? then Next(Swap(v.pair)) else v }

  function ActOnA(p: Pair, ev: Event): Verdict {
    if !Enabled(p.a, ev) then NotPossible
    else match Local(p.a, ev) case Go(c) => Next(p.(a := c)) case Exit(why) => Dies(why)
  }

  function HandleOnB(p: Pair, env: CloseEnv): Verdict {
    if p.gotA >= |p.a.out| then NotPossible
    else
      match Deliver(p.b, p.a.out[p.gotA], env)
      case Go(c) => Next(p.(b := c, gotA := p.gotA + 1))
      case Exit(why) => Dies(why)
  }

  function Take(p: Pair, s: Step): Verdict {
    match s
    case Acts(onA, ev) => if onA then ActOnA(p, ev) else SwapNext(ActOnA(Swap(p), ev))
    case Handles(onA, env) => if onA then SwapNext(HandleOnB(Swap(p), env)) else HandleOnB(p, env)
  }

  /** The state after a run; a step that cannot be taken is skipped. */
  function Run(p: Pair, steps: seq<Step>): Verdict
    decreases |steps|
  {
    if steps == [] then Next(p)
    else
      match Take(p, steps[0])
      case Next(p1) => Run(p1, steps[1..])
      case NotPossible => Run(p, steps[1..])
      case Dies(why) => Dies(why)
  }

  /** A side as chan_initwritebuf and the open exchange leave it, peerLimit being the peer's window. */
  ghost predicate Opened(c: Chan, peerLimit: nat) {
    && 0 < c.recvLimit <= MAX_RECV_WINDOW
    && c.win.recv == c.recvLimit && c.win.trans == peerLimit && c.win.done == 0
    && c.flow == Flow([], c.flow.extrabuf, Streams([], []), Streams([], []), Streams([], []))
    && (c.flow.extrabuf == None || c.flow.extrabuf == Some([]))
    && c.flags == Flags(false, false, false, false, false, false, true, 0)
    && c.out == [] && (c.ty.sepfds ==> c.fds.err == FD_CLOSED)
  }

  // ---------------------------------------------------------------- the invariant of the pair

  function InFlight(out: seq<Msg>, got: nat): seq<Msg> { if got <= |out| then out[got..] else [] }

  /** One direction of the link: s sends, r receives, got of s's and back of r's messages have arrived. */
  ghost predicate Windows2(s: Chan, r: Chan, got: nat, back: nat) {
    s.win.trans + Carried(InFlight(s.out, got)) + Adjusts(InFlight(r.out, back))
      + |r.flow.lost.data| + |r.flow.lost.ext| == r.win.recv
  }

  function Arrived(f: Flow, ext: bool): seq<Byte> {
    Stream(f.delivered, ext) + Buffered(f, ext) + Stream(f.lost, ext)
  }

  ghost predicate InOrder(s: Chan, r: Chan, got: nat) {
    forall ext :: Stream(s.flow.taken, ext) == Arrived(r.flow, ext) + StreamOf(InFlight(s.out, got), ext)
  }

  ghost predicate Told(s: Chan, r: Chan, got: nat)
    requires got <= |s.out|
  {
    && (r.flags.recvClose <==> Close in s.out[..got])
    && (r.flags.recvEof <==> Close in s.out[..got] || Eof in s.out[..got])
  }

  ghost predicate Link(s: Chan, r: Chan, got: nat, back: nat) {
    got <= |s.out| && Windows2(s, r, got, back) && InOrder(s, r, got) && Told(s, r, got)
  }

  ghost predicate PairInv(p: Pair) {
    ChanInv(p.a) && ChanInv(p.b) && Link(p.a, p.b, p.gotA, p.gotB) && Link(p.b, p.a, p.gotB, p.gotA)
  }

  /** The sender's side moves. */
  lemma SenderEvolves(s: Chan, s': Chan, r: Chan, got: nat, back: nat)
    requires Link(s, r, got, back) && Evolves(s, s')
    ensures Link(s', r, got, back)
  {
    var added := Added(s, s');
    assert s'.out[got..] == s.out[got..] + added;
    assert s'.out[..got] == s.out[..got];
    CarriedConcat(s.out[got..], added);
    forall ext ensures Stream(s'.flow.taken, ext) == Arrived(r.flow, ext) + StreamOf(InFlight(s'.out, got), ext) {
      StreamConcat(s.out[got..], added, ext);
      Assoc(Arrived(r.flow, ext), StreamOf(s.out[got..], ext), StreamOf(added, ext));
    }
  }

  /** The receiver's side moves. */
  lemma ReceiverEvolves(s: Chan, r: Chan, r': Chan, got: nat, back: nat)
    requires Link(s, r, got, back) && Evolves(r, r') && back <= |r.out|
    ensures Link(s, r', got, back)
  {
    var added := Added(r, r');
    assert r'.out[back..] == r.out[back..] + added;
    AdjustsConcat(r.out[back..], added);
    forall ext ensures Arrived(r'.flow, ext) == Arrived(r.flow, ext) {
    }
    assert InOrder(s, r', got);
  }

  lemma ActKeeps(p: Pair, ev: Event)
    requires PairInv(p) && Enabled(p.a, ev)
    ensures ActOnA(p, ev).Next? && PairInv(ActOnA(p, ev).pair)
  {
    LocalKeeps(p.a, ev);
    var c := Local(p.a, ev).chan;
    SenderEvolves(p.a, c, p.b, p.gotA, p.gotB);
    ReceiverEvolves(p.b, p.a, c, p.gotB, p.gotA);
  }

  lemma NextMsg(out: seq<Msg>, got: nat)
    requires got < |out|
    ensures out[..got + 1] == out[..got] + [out[got]]
    ensures InFlight(out, got) == [out[got]] + InFlight(out, got + 1)
    ensures Carried(InFlight(out, got)) == BytesIn(out[got]) + Carried(InFlight(out, got + 1))
    ensures Adjusts(InFlight(out, got)) == AdjustIn(out[got]) + Adjusts(InFlight(out, got + 1))
    ensures forall ext :: StreamOf(InFlight(out, got), ext) == StreamIn(out[got], ext) + StreamOf(InFlight(out, got + 1), ext)
  {
    assert out[got..][1..] == out[got + 1..];
  }

  /** No message follows CLOSE, and no data follows EOF, so the receiver still expects this one. */
  lemma StillExpected(s: Chan, r: Chan, got: nat, back: nat)
    requires ChanInv(s) && ChanInv(r) && Link(s, r, got, back) && got < |s.out|
    ensures r.flags.present && !r.flags.recvClose && (IsData(s.out[got]) ==> !r.flags.recvEof)
  {
    NothingAfterClose(s.out, got);
  }

  lemma NothingAfterClose(out: seq<Msg>, got: nat)
    requires Orderly(out) && got < |out|
    ensures Close !in out[..got] && (IsData(out[got]) ==> Eof !in out[..got])
  {
    forall i | 0 <= i < got ensures MayFollow(out[i], out[got]) {
    }
  }

  /** There is a descriptor a stream's bytes can be written to, and for stderr a buffer that holds them till then. */
  predicate Writable(c: Chan, ext: bool) {
    if ext then c.ty.acceptsExt && c.flow.extrabuf != None && c.fds.err >= 0 else c.fds.write >= 0
  }

  /** The receiver after taking the payload of a data message, or throwing it away for want of a descriptor. */
  predicate TookIn(r: Chan, r': Chan, ext: bool, bytes: seq<Byte>) {
    || (!Writable(r, ext) && r' == Drop(r, ext, bytes))
    || (Writable(r, ext)
        && |bytes| <= r.win.recv
        && r' == r.(win := r.win.(recv := r.win.recv - |bytes|),
                    flow := SetBuffered(r.flow, ext, Buffered(r.flow, ext) + bytes)))
  }

  lemma RecvDataTakes(r: Chan, ext: bool, bytes: seq<Byte>)
    requires ChanInv(r) && !r.flags.recvEof && |bytes| <= r.win.recv
    ensures RecvData(r, ext, bytes).Go? && TookIn(r, RecvData(r, ext, bytes).chan, ext, bytes)
    ensures ChanInv(RecvData(r, ext, bytes).chan)
  {
    var r' := RecvData(r, ext, bytes).chan;
    assert Said(r'.flags, r'.out) && Quiet(r');
  }

  lemma TookInArrived(r: Chan, r': Chan, ext: bool, bytes: seq<Byte>, e: bool)
    requires ChanInv(r) && TookIn(r, r', ext, bytes)
    ensures Arrived(r'.flow, e) == Arrived(r.flow, e) + StreamIn(DataMsg(ext, bytes), e)
  {
    var d, b, l := Stream(r.flow.delivered, e), Buffered(r.flow, e), Stream(r.flow.lost, e);
    if e != ext {
      assert Arrived(r'.flow, e) == Arrived(r.flow, e);
    } else if r' == Drop(r, ext, bytes) {
      Assoc(d + b, l, bytes);
    } else {
      assert l == [];
      Assoc(d, b, bytes);
    }
  }

  lemma DataArrives(s: Chan, r: Chan, r': Chan, got: nat, back: nat, ext: bool, bytes: seq<Byte>)
    requires ChanInv(s) && ChanInv(r) && Link(s, r, got, back) && Link(r, s, back, got)
    requires got < |s.out| && s.out[got] == DataMsg(ext, bytes) && TookIn(r, r', ext, bytes)
    ensures Link(s, r', got + 1, back) && Link(r', s, back, got + 1)
  {
    NextMsg(s.out, got);
    var later := InFlight(s.out, got + 1);
    forall e ensures Stream(s.flow.taken, e) == Arrived(r'.flow, e) + StreamOf(later, e) {
      TookInArrived(r, r', ext, bytes, e);
      Assoc(Arrived(r.flow, e), StreamIn(s.out[got], e), StreamOf(later, e));
    }
    assert InOrder(s, r', got + 1);
    assert InOrder(r', s, back);
  }

  lemma AdjustArrives(s: Chan, r: Chan, got: nat, back: nat)
    requires ChanInv(s) && ChanInv(r) && Link(s, r, got, back) && Link(r, s, back, got)
    requires got < |s.out| && s.out[got].WindowAdjust?
    ensures var r' := RecvAdjust(r, s.out[got].incr);
            ChanInv(r') && Link(s, r', got + 1, back) && Link(r', s, back, got + 1)
  {
    NextMsg(s.out, got);
    var r' := RecvAdjust(r, s.out[got].incr);
    assert r'.win.trans == r.win.trans + s.out[got].incr;
    assert InOrder(s, r', got + 1) by { NothingCarried(s.out[got], InFlight(s.out, got + 1)); }
    assert InOrder(r', s, back);
  }

  lemma NothingCarried(m: Msg, rest: seq<Msg>)
    requires !IsData(m)
    ensures forall ext :: StreamIn(m, ext) + StreamOf(rest, ext) == StreamOf(rest, ext)
  {
  }

  /** EOF or CLOSE arrives: its flags are set, before check_close runs. */
  lemma EndArrives(s: Chan, r: Chan, r': Chan, got: nat, back: nat)
    requires ChanInv(s) && ChanInv(r) && Link(s, r, got, back) && Link(r, s, back, got)
    requires got < |s.out| && (s.out[got].Eof? || s.out[got].Close?)
    requires r' == Ended(r, s.out[got])
    ensures ChanInv(r') && Link(s, r', got + 1, back) && Link(r', s, back, got + 1)
  {
    NextMsg(s.out, got);
    assert InOrder(s, r', got + 1) by { NothingCarried(s.out[got], InFlight(s.out, got + 1)); }
    assert InOrder(r', s, back);
    assert Windows2(s, r', got + 1, back) && Windows2(r', s, back, got + 1);
    assert Told(s, r', got + 1);
    assert Told(r', s, back);
  }

  lemma HandleKeeps(p: Pair, env: CloseEnv)
    requires PairInv(p) && p.gotA < |p.a.out|
    ensures HandleOnB(p, env).Next? && PairInv(HandleOnB(p, env).pair)
  {
    StillExpected(p.a, p.b, p.gotA, p.gotB);
    var m := p.a.out[p.gotA];
    if IsData(m) {
      DataHandled(p, m.ExtData?, m.bytes, env);
    } else if m.WindowAdjust? {
      AdjustHandled(p);
    } else {
      EndHandled(p, Ended(p.b, m), env);
    }
  }

  lemma AdjustHandled(p: Pair)
    requires PairInv(p) && p.gotA < |p.a.out| && p.a.out[p.gotA].WindowAdjust?
    ensures PairInv(p.(b := RecvAdjust(p.b, p.a.out[p.gotA].incr), gotA := p.gotA + 1))
  {
    AdjustArrives(p.a, p.b, p.gotA, p.gotB);
  }

  lemma DataHandled(p: Pair, ext: bool, bytes: seq<Byte>, env: CloseEnv)
    requires PairInv(p) && p.gotA < |p.a.out| && p.a.out[p.gotA] == DataMsg(ext, bytes)
    requires p.b.flags.present && !p.b.flags.recvEof
    ensures RecvData(p.b, ext, bytes).Go?
    ensures PairInv(p.(b := RecvData(p.b, ext, bytes).chan, gotA := p.gotA + 1))
  {
    NextMsg(p.a.out, p.gotA);
    RecvDataTakes(p.b, ext, bytes);
    DataArrives(p.a, p.b, RecvData(p.b, ext, bytes).chan, p.gotA, p.gotB, ext, bytes);
  }

  /** The flags set on EOF or CLOSE before check_close runs. */
  function Ended(r: Chan, m: Msg): Chan {
    r.(flags := r.flags.(recvEof := true, recvClose := r.flags.recvClose || m.Close?))
  }

  lemma EndHandled(p: Pair, r: Chan, env: CloseEnv)
    requires PairInv(p) && p.gotA < |p.a.out| && (p.a.out[p.gotA].Eof? || p.a.out[p.gotA].Close?)
    requires r == Ended(p.b, p.a.out[p.gotA])
    requires r.flags.present
    ensures CheckClose(r, env).Go? && PairInv(p.(b := CheckClose(r, env).chan, gotA := p.gotA + 1))
  {
    EndArrives(p.a, p.b, r, p.gotA, p.gotB);
    CheckCloseKeeps(r, env);
    var c := CheckClose(r, env).chan;
    ReceiverEvolves(p.a, r, c, p.gotA + 1, p.gotB);
    SenderEvolves(r, c, p.a, p.gotB, p.gotA + 1);
  }

  lemma TakeKeeps(p: Pair, s: Step)
    requires PairInv(p)
    ensures !Take(p, s).Dies? && (Take(p, s).Next? ==> PairInv(Take(p, s).pair))
  {
    match s
    case Acts(onA, ev) =>
      var q := if onA then p else Swap(p);
      if Enabled(q.a, ev) { ActKeeps(q, ev); }
    case Handles(onA, env) =>
      var q := if onA then Swap(p) else p;
      if q.gotA < |q.a.out| { HandleKeeps(q, env); }
  }

  lemma OpenedPair(p: Pair)
    requires Opened(p.a, p.b.recvLimit) && Opened(p.b, p.a.recvLimit) && p.gotA == 0 && p.gotB == 0
    ensures PairInv(p)
  {
  }

  /**
   * No run of two such peers ends in "Oversized packet", "data after eof", "unknown channel" or a failed
   * window assertion, and every state of it satisfies the invariant.
   */
  lemma {:induction false} RunSafe(p: Pair, steps: seq<Step>)
    requires PairInv(p)
    ensures Run(p, steps).Next? && PairInv(Run(p, steps).pair)
    decreases |steps|
  {
    if steps != [] {
      TakeKeeps(p, steps[0]);
      RunSafe(if Take(p, steps[0]).Next? then Take(p, steps[0]).pair else p, steps[1..]);
    }
  }

  lemma EveryRunIsSafe(p: Pair, steps: seq<Step>)
    requires Opened(p.a, p.b.recvLimit) && Opened(p.b, p.a.recvLimit) && p.gotA == 0 && p.gotB == 0
    ensures Run(p, steps).Next? && PairInv(Run(p, steps).pair)
  {
    OpenedPair(p);
    RunSafe(p, steps);
  }

  // ---------------------------------------------------------------- what the invariant says to a user

  /** What may still be sent, plus what is on its way, never exceeds what the receiver is ready for. */
  lemma WindowNeverExceeded(p: Pair)
    requires PairInv(p)
    ensures p.a.win.trans + Carried(InFlight(p.a.out, p.gotA)) + Adjusts(InFlight(p.b.out, p.gotB)) <= p.b.win.recv
    ensures p.b.flow.lost == Streams([], []) ==>
              p.a.win.trans + Carried(InFlight(p.a.out, p.gotA)) + Adjusts(InFlight(p.b.out, p.gotB)) == p.b.win.recv
    ensures |p.b.flow.writebuf| + |ExtBytes(p.b.flow)| + p.a.win.trans + Carried(InFlight(p.a.out, p.gotA)) <= p.b.recvLimit
  {
    assert Windows2(p.a, p.b, p.gotA, p.gotB);
    assert WindowBalanced(p.b.win, p.b.flow, p.b.recvLimit);
  }

  /** The window never deadlocks: with nothing on its way, dropped or buffered the sender may send. */
  lemma WindowNeverDeadlocks(p: Pair)
    requires PairInv(p) && p.gotA == |p.a.out| && p.gotB == |p.b.out|
    requires p.b.flow.lost == Streams([], []) && p.b.flow.writebuf == [] && ExtBytes(p.b.flow) == []
    ensures p.a.win.trans > 0 && 3 * p.a.win.trans > 2 * p.b.recvLimit
  {
    assert Windows2(p.a, p.b, p.gotA, p.gotB);
    assert WindowBalanced(p.b.win, p.b.flow, p.b.recvLimit);
  }

  /** What was written out at one end is a prefix of what was read at the other, stream by stream. */
  lemma DeliveredInOrder(p: Pair, ext: bool)
    requires PairInv(p)
    ensures Stream(p.b.flow.delivered, ext) <= Stream(p.a.flow.taken, ext)
    ensures Stream(p.a.flow.taken, ext)
         == Stream(p.b.flow.delivered, ext) + Buffered(p.b.flow, ext) + Stream(p.b.flow.lost, ext)
            + StreamOf(InFlight(p.a.out, p.gotA), ext)
  {
    assert InOrder(p.a, p.b, p.gotA);
    assert Link(p.a, p.b, p.gotA, p.gotB);
  }

  /** A slot is freed only after CLOSE went both ways, and then no message for it is left on the way. */
  lemma FreedAfterBothCloses(p: Pair)
    requires PairInv(p) && !p.a.flags.present
    ensures Close in p.a.out && Close in p.b.out[..p.gotB] && p.gotB == |p.b.out|
    ensures p.a.flags.handlerRuns <= 1
  {
    assert Told(p.b, p.a, p.gotB);
    if p.gotB < |p.b.out| {
      NothingAfterClose(p.b.out, p.gotB);
      assert false;
    }
    assert p.b.out[..p.gotB] == p.b.out;
  }

  /** At most one EOF and one CLOSE are ever sent; nothing follows CLOSE; no data follows EOF. */
  lemma SentInOrder(p: Pair, i: nat, j: nat)
    requires PairInv(p) && i < j < |p.a.out|
    ensures !p.a.out[i].Close?
    ensures p.a.out[i].Eof? ==> !p.a.out[j].Eof? && !IsData(p.a.out[j])
  {
    assert MayFollow(p.a.out[i], p.a.out[j]);
  }
}
