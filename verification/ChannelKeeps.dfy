/** What one side of a channel keeps: balanced windows, an orderly message sequence, no byte unaccounted for. */
module ChannelKeeps {
  import opened Prelude
  import opened Arith
  import opened Bytes
  import opened ChannelModel

  predicate IsData(m: Msg) { m.Data? || m.ExtData? }

  /** Whether a message may be followed by another. */
  predicate MayFollow(m: Msg, next: Msg) {
    !m.Close? && (m.Eof? ==> !IsData(next) && !next.Eof?)
  }

  /** Close is last and unique, Eof is unique, and no data follows either. */
  ghost predicate Orderly(out: seq<Msg>) {
    forall i, j | 0 <= i < j < |out| :: MayFollow(out[i], out[j])
  }

  /** Every receive-window byte is advertised, written out but not yet announced, or buffered. */
  predicate WindowBalanced(w: Windows, f: Flow, limit: nat) {
    && w.recv + w.done + |f.writebuf| + |ExtBytes(f)| == limit
    && (w.done == 0 || w.done < limit / 3)
    && 0 < limit <= MAX_RECV_WINDOW
  }

  /** The close flags say what has been sent. */
  ghost predicate Said(f: Flags, out: seq<Msg>) {
    && Orderly(out)
    && (f.sentClose <==> Close in out)
    && (f.sentEof <==> Eof in out || f.sentClose)
  }

  /** A side that said EOF has nothing left to read from, and one that said CLOSE nothing open at all. */
  predicate Quiet(c: Chan) {
    && (c.flags.sentEof ==> DoneSending(c))
    && (c.flags.sentClose ==> c.fds.write == FD_CLOSED && c.fds.err == FD_CLOSED)
    && (c.ty.sepfds ==> c.fds.err == FD_CLOSED)
  }

  predicate HandlerOnce(f: Flags) {
    f.handlerRuns == (if f.handlerDone then 1 else 0) && (!f.present ==> f.sentClose && f.recvClose)
  }

  /** Bytes have been thrown away only where there is nowhere to write them, and there never is again. */
  predicate LossIsFinal(c: Chan) {
    && (c.flow.lost.data != [] ==> c.fds.write < 0)
    && (c.flow.lost.ext != [] ==> !c.ty.acceptsExt || c.flow.extrabuf == None || c.fds.err < 0)
  }

  ghost predicate ChanInv(c: Chan) {
    && WindowBalanced(c.win, c.flow, c.recvLimit)
    && Said(c.flags, c.out) && Quiet(c) && HandlerOnce(c.flags) && LossIsFinal(c)
  }

  function BytesIn(m: Msg): nat { if IsData(m) then |m.bytes| else 0 }

  function AdjustIn(m: Msg): nat { if m.WindowAdjust? then m.incr else 0 }

  function StreamIn(m: Msg, ext: bool): seq<Byte> { if (if ext then m.ExtData? else m.Data?) then m.bytes else [] }

  /** The data bytes, the window adjustments and the bytes of one stream that messages carry. */
  function Carried(out: seq<Msg>): nat {
    if out == [] then 0 else BytesIn(out[0]) + Carried(out[1..])
  }

  function Adjusts(out: seq<Msg>): nat {
    if out == [] then 0 else AdjustIn(out[0]) + Adjusts(out[1..])
  }

  function StreamOf(out: seq<Msg>, ext: bool): seq<Byte> {
    if out == [] then [] else StreamIn(out[0], ext) + StreamOf(out[1..], ext)
  }

  lemma {:induction false} CarriedConcat(s: seq<Msg>, t: seq<Msg>)
    ensures Carried(s + t) == Carried(s) + Carried(t)
  {
    if s == [] { assert s + t == t; } else { CarriedConcat(s[1..], t); assert (s + t)[1..] == s[1..] + t; }
  }

  lemma {:induction false} AdjustsConcat(s: seq<Msg>, t: seq<Msg>)
    ensures Adjusts(s + t) == Adjusts(s) + Adjusts(t)
  {
    if s == [] { assert s + t == t; } else { AdjustsConcat(s[1..], t); assert (s + t)[1..] == s[1..] + t; }
  }

  lemma {:induction false} StreamConcat(s: seq<Msg>, t: seq<Msg>, ext: bool)
    ensures StreamOf(s + t, ext) == StreamOf(s, ext) + StreamOf(t, ext)
  {
    if s == [] {
      assert s + t == t;
    } else {
      StreamConcat(s[1..], t, ext);
      assert (s + t)[1..] == s[1..] + t;
      Assoc(StreamIn(s[0], ext), StreamOf(s[1..], ext), StreamOf(t, ext));
    }
  }

  lemma OneMsg(m: Msg)
    ensures Carried([m]) == BytesIn(m) && Adjusts([m]) == AdjustIn(m)
    ensures forall ext :: StreamOf([m], ext) == StreamIn(m, ext)
  {
    assert [m][1..] == [];
  }

  /** From c1 to c2 the messages added account for the windows and for the bytes read. */
  predicate Accounts(w1: Windows, w2: Windows, added: seq<Msg>) {
    w1.trans == w2.trans + Carried(added) && w2.recv == w1.recv + Adjusts(added)
  }

  predicate Reads(t1: Streams, t2: Streams, added: seq<Msg>) {
    forall ext :: Stream(t2, ext) == Stream(t1, ext) + StreamOf(added, ext)
  }

  /** Bytes received are buffered or delivered, none twice, none lost. */
  predicate Passes(f1: Flow, f2: Flow) {
    && f2.lost == f1.lost
    && forall ext :: Stream(f2.delivered, ext) + Buffered(f2, ext) == Stream(f1.delivered, ext) + Buffered(f1, ext)
  }

  /** Descriptors change only by being closed. */
  predicate OnlyCloses(f1: Fds, f2: Fds) {
    && (f2.write == f1.write || f2.write == FD_CLOSED)
    && (f2.read == f1.read || f2.read == FD_CLOSED)
    && (f2.err == f1.err || f2.err == FD_CLOSED)
  }

  predicate SameSides(c1: Chan, c2: Chan) {
    && c2.ty == c1.ty && c2.recvLimit == c1.recvLimit && OnlyCloses(c1.fds, c2.fds)
    && c2.win.maxPacket == c1.win.maxPacket && (c2.flow.extrabuf == None <==> c1.flow.extrabuf == None)
    && c2.flags.recvEof == c1.flags.recvEof && c2.flags.recvClose == c1.flags.recvClose
  }

  /** c2 is c1 after acting on its own and adding these messages. */
  ghost predicate EvolvesWith(c1: Chan, c2: Chan, added: seq<Msg>) {
    && c2.out == c1.out + added
    && Accounts(c1.win, c2.win, added) && Reads(c1.flow.taken, c2.flow.taken, added)
    && Passes(c1.flow, c2.flow) && SameSides(c1, c2)
  }

  function Added(c1: Chan, c2: Chan): seq<Msg> {
    if |c1.out| <= |c2.out| then c2.out[|c1.out|..] else []
  }

  ghost predicate Evolves(c1: Chan, c2: Chan) {
    ChanInv(c2) && EvolvesWith(c1, c2, Added(c1, c2))
  }

  lemma AddedIs(c1: Chan, c2: Chan, added: seq<Msg>)
    requires EvolvesWith(c1, c2, added)
    ensures EvolvesWith(c1, c2, Added(c1, c2))
  {
    assert Added(c1, c2) == added;
  }

  lemma EvolvesAgain(c1: Chan, c2: Chan, c3: Chan)
    requires Evolves(c1, c2) && Evolves(c2, c3)
    ensures Evolves(c1, c3)
  {
    var s, t := Added(c1, c2), Added(c2, c3);
    CarriedConcat(s, t);
    AdjustsConcat(s, t);
    assert c3.out == c1.out + (s + t) by { Assoc(c1.out, s, t); }
    ReadsAgain(c1.flow.taken, c2.flow.taken, c3.flow.taken, s, t);
    assert Accounts(c1.win, c3.win, s + t);
    assert Passes(c1.flow, c3.flow);
    AddedIs(c1, c3, s + t);
  }

  lemma ReadsAgain(t1: Streams, t2: Streams, t3: Streams, s: seq<Msg>, t: seq<Msg>)
    requires Reads(t1, t2, s) && Reads(t2, t3, t)
    ensures Reads(t1, t3, s + t)
  {
    forall ext ensures Stream(t3, ext) == Stream(t1, ext) + StreamOf(s + t, ext) {
      StreamConcat(s, t, ext);
      Assoc(Stream(t1, ext), StreamOf(s, ext), StreamOf(t, ext));
    }
  }

  lemma EvolvesSilently(c1: Chan, c2: Chan)
    requires ChanInv(c2) && c2.out == c1.out && c2.win == c1.win && c2.flow == c1.flow && SameSides(c1, c2)
    ensures Evolves(c1, c2)
  {
    assert c2.out == c1.out + [];
    assert EvolvesWith(c1, c2, []);
    AddedIs(c1, c2, []);
  }

  lemma OrderlyAppend(out: seq<Msg>, m: Msg)
    requires Orderly(out) && Close !in out
    requires Eof in out ==> !IsData(m) && !m.Eof?
    ensures Orderly(out + [m])
  {
  }

  lemma CloseFdKeeps(c: Chan, fd: int, how: How)
    requires ChanInv(c)
    ensures Evolves(c, CloseFd(c, fd, how))
  {
    EvolvesSilently(c, CloseFd(c, fd, how));
  }

  lemma EmitKeeps(c: Chan, ext: bool, b: seq<Byte>)
    requires ChanInv(c) && |b| <= c.win.trans && !c.flags.sentEof && !c.flags.sentClose
    ensures Evolves(c, Emit(c, ext, b))
  {
    var m := DataMsg(ext, b);
    OneMsg(m);
    OrderlyAppend(c.out, m);
    assert EvolvesWith(c, Emit(c, ext, b), [m]);
    AddedIs(c, Emit(c, ext, b), [m]);
  }

  lemma SendDataKeeps(c: Chan, ext: bool, r: ReadResult)
    requires ChanInv(c) && c.flags.present && (ext ==> ErrIsRead(c)) && ReadFd(c, ext) >= 0
    ensures SendData(c, ext, r).Go? && Evolves(c, SendData(c, ext, r).chan) && SendData(c, ext, r).chan.flags == c.flags
  {
    var fd := ReadFd(c, ext);
    var maxlen := MaxLen(c.win, ext);
    if maxlen == 0 || r == Interrupted {
      EvolvesSilently(c, c);
    } else if r == NoData || r.bytes == [] {
      CloseFdKeeps(c, fd, ShutRd);
    } else {
      var b := r.bytes[..Min(|r.bytes|, maxlen)];
      EmitKeeps(c, ext, b);
      var c1 := Emit(c, ext, b);
      CloseFdKeeps(c1, fd, ShutRd);
      EvolvesAgain(c, c1, CloseFd(c1, fd, ShutRd));
    }
  }

  /** After Drain the window is balanced but recvdonelen may have passed a third of it. */
  lemma DrainPasses(c: Chan, ext: bool, n: nat)
    requires ChanInv(c) && (ext ==> !ErrIsRead(c)) && n <= |Buffered(c.flow, ext)|
    ensures Passes(c.flow, Drain(c, ext, n).flow) && ErrIsRead(Drain(c, ext, n)) == ErrIsRead(c)
    ensures var d := Drain(c, ext, n);
            d.win.recv + d.win.done + |d.flow.writebuf| + |ExtBytes(d.flow)| == d.recvLimit
  {
    var buf := Buffered(c.flow, ext);
    assert buf[..n] + buf[n..] == buf;
    Assoc(Stream(c.flow.delivered, ext), buf[..n], buf[n..]);
  }

  lemma AdjustKeeps(c: Chan, d: Chan)
    requires ChanInv(c) && !c.flags.sentClose && Passes(c.flow, d.flow) && d.flow.taken == c.flow.taken
    requires d == c.(win := d.win, flow := d.flow) && d.win == c.win.(done := d.win.done)
    requires ErrIsRead(d) == ErrIsRead(c)
    requires d.win.recv + d.win.done + |d.flow.writebuf| + |ExtBytes(d.flow)| == d.recvLimit
    ensures Evolves(c, AdjustWindow(d)) && WindowsFit(AdjustWindow(d))
  {
    var m := WindowAdjust(d.win.done);
    var e := AdjustWindow(d);
    var added := if d.win.done >= d.recvLimit / 3 then [m] else [];
    OneMsg(m);
    OrderlyAppend(c.out, m);
    assert e.out == c.out + added;
    assert Said(e.flags, e.out);
    assert Quiet(e) && LossIsFinal(e);
    assert Accounts(c.win, e.win, added);
    assert EvolvesWith(c, e, added);
    AddedIs(c, e, added);
  }

  lemma WriteOutKeeps(c: Chan, ext: bool, r: WriteResult)
    requires ChanInv(c) && (ext ==> !ErrIsRead(c)) && WriteFd(c, ext) >= 0
    ensures WriteOut(c, ext, r).Go? && Evolves(c, WriteOut(c, ext, r).chan)
  {
    if r == NotNow || r == Wrote(0) {
      EvolvesSilently(c, c);
    } else if r == WriteError {
      CloseFdKeeps(c, WriteFd(c, ext), ShutWr);
    } else {
      var n := Min(r.n, |Buffered(c.flow, ext)|);
      DrainPasses(c, ext, n);
      AdjustKeeps(c, Drain(c, ext, n));
    }
  }

  lemma SendEofKeeps(c: Chan)
    requires ChanInv(c) && !c.flags.sentEof && DoneSending(c)
    ensures Evolves(c, SendEof(c))
  {
    OneMsg(Eof);
    OrderlyAppend(c.out, Eof);
    assert EvolvesWith(c, SendEof(c), [Eof]);
    AddedIs(c, SendEof(c), [Eof]);
  }

  lemma CloseAllCloses(fds: Fds, sepfds: bool, errIsRead: bool)
    requires sepfds ==> fds.err == FD_CLOSED
    ensures CloseAll(fds, sepfds, errIsRead) == Fds(FD_CLOSED, FD_CLOSED, FD_CLOSED)
  {
  }

  lemma SendCloseKeeps(c: Chan)
    requires ChanInv(c) && !c.flags.sentClose && c.flags.present
    ensures Evolves(c, SendClose(c))
  {
    OneMsg(Close);
    OrderlyAppend(c.out, Close);
    CloseAllCloses(c.fds, c.ty.sepfds, ErrIsRead(c));
    var d := SendClose(c);
    assert Said(d.flags, d.out) && Quiet(d) && LossIsFinal(d);
    assert EvolvesWith(c, d, [Close]);
    AddedIs(c, d, [Close]);
  }

  lemma FlushReadKeeps(c: Chan, ext: bool, r: ReadResult)
    requires ChanInv(c) && c.flags.present
    ensures FlushRead(c, ext, r).Go? && Evolves(c, FlushRead(c, ext, r).chan)
    ensures FlushRead(c, ext, r).chan.flags == c.flags
  {
    if c.flags.flushing && (ext ==> ErrIsRead(c)) && ReadFd(c, ext) >= 0 && c.win.trans > 0 {
      SendDataKeeps(c, ext, r);
    } else {
      EvolvesSilently(c, c);
    }
  }

  lemma FinishSendingKeeps(c: Chan, allowed: bool)
    requires ChanInv(c) && c.flags.present
    ensures Evolves(c, FinishSending(c, allowed))
  {
    EvolvesSilently(c, c);
    var c1 := if !c.flags.sentEof && DoneSending(c) then SendEof(c) else c;
    if !c.flags.sentEof && DoneSending(c) { SendEofKeeps(c); }
    if DoneSending(c1) && c1.fds.write == FD_CLOSED && !c1.flags.sentClose && allowed && !WritePending(c1) {
      SendCloseKeeps(c1);
      EvolvesAgain(c, c1, SendClose(c1));
    }
  }

  lemma RemoveKeeps(c: Chan)
    requires ChanInv(c) && c.flags.sentClose && c.flags.recvClose
    ensures Evolves(c, Remove(c))
  {
    EvolvesSilently(c, Remove(c));
  }

  /** check_close trips no assertion and keeps everything. */
  lemma CheckCloseKeeps(c: Chan, env: CloseEnv)
    requires ChanInv(c) && c.flags.present
    ensures CheckClose(c, env).Go? && Evolves(c, CheckClose(c, env).chan)
  {
    var c0 := StartFlushing(c, env);
    EvolvesSilently(c, c0);
    var allowed := CloseAllowed(c0, env);
    if c0.flags.recvClose && !WritePending(c0) && allowed {
      CloseRepliedKeeps(c, c0);
    } else {
      EofSeenKeeps(c, c0, allowed);
      CheckCloseTail(c, EofSeen(c0, allowed), env, allowed);
    }
  }

  /** The writing side, closed when nothing more will come for it. */
  function EofSeen(c: Chan, allowed: bool): Chan {
    if (c.flags.recvEof && !WritePending(c)) || (c.ty.hasCheckClose && allowed) then CloseFd(c, c.fds.write, ShutWr) else c
  }

  lemma EofSeenKeeps(c: Chan, c0: Chan, allowed: bool)
    requires Evolves(c, c0)
    ensures Evolves(c, EofSeen(c0, allowed))
  {
    CloseFdKeeps(c0, c0.fds.write, ShutWr);
    EvolvesAgain(c, c0, CloseFd(c0, c0.fds.write, ShutWr));
  }

  lemma CloseRepliedKeeps(c: Chan, c0: Chan)
    requires Evolves(c, c0) && c0.flags.present && c0.flags.recvClose
    ensures Evolves(c, Remove(if c0.flags.sentClose then c0 else SendClose(c0)))
  {
    var c1 := if c0.flags.sentClose then c0 else SendClose(c0);
    if !c0.flags.sentClose {
      SendCloseKeeps(c0);
      EvolvesAgain(c, c0, c1);
    }
    RemoveKeeps(c1);
    EvolvesAgain(c, c1, Remove(c1));
  }

  lemma CheckCloseTail(c: Chan, c1: Chan, env: CloseEnv, allowed: bool)
    requires Evolves(c, c1) && c1.flags.present
    ensures FlushRead(c1, false, env.read1).Go?
    ensures var c2 := FlushRead(c1, false, env.read1).chan;
            FlushRead(c2, true, env.read2).Go? && Evolves(c, FinishSending(FlushRead(c2, true, env.read2).chan, allowed))
  {
    FlushReadKeeps(c1, false, env.read1);
    var c2 := FlushRead(c1, false, env.read1).chan;
    EvolvesAgain(c, c1, c2);
    FlushReadKeeps(c2, true, env.read2);
    var c3 := FlushRead(c2, true, env.read2).chan;
    EvolvesAgain(c, c2, c3);
    FinishSendingKeeps(c3, allowed);
    EvolvesAgain(c, c3, FinishSending(c3, allowed));
  }

  /** Whatever one side does on its own keeps its invariants, trips no assertion, and adds up. */
  lemma LocalKeeps(c: Chan, ev: Event)
    requires ChanInv(c) && Enabled(c, ev)
    ensures Local(c, ev).Go? && Evolves(c, Local(c, ev).chan)
  {
    match ev
    case ReadReady(ext, r) => SendDataKeeps(c, ext, r);
    case WriteReady(ext, w) => WriteOutKeeps(c, ext, w);
    case Check(env) => CheckCloseKeeps(c, env);
  }
}
