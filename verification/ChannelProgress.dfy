/** What a channel does get done: bytes on offer are sent, kept and written out, and a channel that is over is closed. */
module ChannelProgress {
  import opened Prelude
  import opened Arith
  import opened Bytes
  import opened ChannelModel
  import opened ChannelKeeps
  import opened ChannelPair

  /** Data for an open descriptor is kept, all of it, and nothing else changes but the window. */
  lemma DataKept(c: Chan, bytes: seq<Byte>)
    requires ChanInv(c) && !c.flags.recvEof && |bytes| <= c.win.recv && c.fds.write >= 0
    ensures RecvData(c, false, bytes)
         == Go(c.(win := c.win.(recv := c.win.recv - |bytes|), flow := c.flow.(writebuf := c.flow.writebuf + bytes)))
  {
  }

  /** So is data for an open stderr. */
  lemma ExtDataKept(c: Chan, bytes: seq<Byte>)
    requires ChanInv(c) && !c.flags.recvEof && |bytes| <= c.win.recv
    requires c.ty.acceptsExt && c.flow.extrabuf != None && c.fds.err >= 0
    ensures RecvData(c, true, bytes)
         == Go(c.(win := c.win.(recv := c.win.recv - |bytes|),
                  flow := c.flow.(extrabuf := Some(c.flow.extrabuf.value + bytes))))
  {
  }

  /** Of bytes on offer the most the window, the peer's limit and the payload buffer allow are sent, and taken. */
  lemma SendsWhatFits(c: Chan, bytes: seq<Byte>)
    requires ChanInv(c) && c.fds.read >= 0 && bytes != [] && c.win.trans > 0 && c.win.maxPacket > 0
    ensures var n := Min(Min(|bytes|, 16375), Min(c.win.trans, c.win.maxPacket));
            && 0 < n <= |bytes| && SendData(c, false, Offered(bytes)).Go?
            && var c' := SendData(c, false, Offered(bytes)).chan;
               c'.out == c.out + [Data(bytes[..n])] && c'.win == c.win.(trans := c.win.trans - n)
               && c'.flow == c.flow.(taken := c.flow.taken.(data := c.flow.taken.data + bytes[..n]))
               && (!c.flags.flushing ==> c'.fds == c.fds) && c'.flags == c.flags
  {
  }

  /** What write() takes has been delivered and left the buffer; a third of the window is announced at the latest. */
  lemma WritesOut(c: Chan, n: nat)
    requires ChanInv(c) && c.fds.write >= 0 && 0 < n <= |c.flow.writebuf|
    ensures WriteOut(c, false, Wrote(n)).Go?
    ensures var c' := WriteOut(c, false, Wrote(n)).chan;
            && c'.flow == c.flow.(writebuf := c.flow.writebuf[n..],
                                  delivered := c.flow.delivered.(data := c.flow.delivered.data + c.flow.writebuf[..n]))
            && c'.fds == c.fds && c'.flags == c.flags && c'.win.trans == c.win.trans
            && (if c.win.done + n >= c.recvLimit / 3
                then c'.out == c.out + [WindowAdjust(c.win.done + n)] && c'.win.recv == c.win.recv + c.win.done + n && c'.win.done == 0
                else c'.out == c.out && c'.win.recv == c.win.recv && c'.win.done == c.win.done + n)
  {
    WriteOutKeeps(c, false, Wrote(n));
  }

  // ---------------------------------------------------------------- over runs: what is lost

  lemma TakeNarrows(p: Pair, s: Step)
    requires PairInv(p) && Take(p, s).Next?
    ensures var q := Take(p, s).pair;
            OnlyCloses(p.a.fds, q.a.fds) && OnlyCloses(p.b.fds, q.b.fds)
  {
    match s
    case Acts(onA, ev) =>
      LocalKeeps(if onA then p.a else p.b, ev);
    case Handles(onA, env) =>
      var q := if onA then Swap(p) else p;
      HandleNarrows(q, env);
  }

  lemma HandleNarrows(p: Pair, env: CloseEnv)
    requires PairInv(p) && p.gotA < |p.a.out| && HandleOnB(p, env).Next?
    ensures OnlyCloses(p.b.fds, HandleOnB(p, env).pair.b.fds)
  {
    var m := p.a.out[p.gotA];
    StillExpected(p.a, p.b, p.gotA, p.gotB);
    if m.Eof? || m.Close? {
      EndArrives(p.a, p.b, Ended(p.b, m), p.gotA, p.gotB);
      CheckCloseKeeps(Ended(p.b, m), env);
    }
  }

  lemma {:induction false} RunNarrows(p: Pair, steps: seq<Step>)
    requires PairInv(p)
    ensures Run(p, steps).Next? && PairInv(Run(p, steps).pair)
    ensures OnlyCloses(p.a.fds, Run(p, steps).pair.a.fds) && OnlyCloses(p.b.fds, Run(p, steps).pair.b.fds)
    decreases |steps|
  {
    if steps != [] {
      TakeKeeps(p, steps[0]);
      if Take(p, steps[0]).Next? { TakeNarrows(p, steps[0]); }
      RunNarrows(if Take(p, steps[0]).Next? then Take(p, steps[0]).pair else p, steps[1..]);
    }
  }

  /** Why a side throws bytes away: its descriptor has been closed, or, at the start already, was not open. */
  predicate LostFor(c: Chan, start: Chan) {
    && (c.flow.lost.data != [] ==> c.fds.write == FD_CLOSED || c.fds.write == start.fds.write < 0)
    && (c.flow.lost.ext != [] ==>
          !c.ty.acceptsExt || c.flow.extrabuf == None || c.fds.err == FD_CLOSED || c.fds.err == start.fds.err < 0)
  }

  /** In every run bytes are lost at a side only once its descriptor for them is closed. */
  lemma LostOnlyWhenClosed(p: Pair, steps: seq<Step>)
    requires Opened(p.a, p.b.recvLimit) && Opened(p.b, p.a.recvLimit) && p.gotA == 0 && p.gotB == 0
    ensures Run(p, steps).Next? && LostFor(Run(p, steps).pair.a, p.a) && LostFor(Run(p, steps).pair.b, p.b)
  {
    OpenedPair(p);
    RunNarrows(p, steps);
  }

  // ---------------------------------------------------------------- over runs: what arrives

  /** a can read, b can write, and there is nothing on the way between them or waiting. */
  ghost predicate Ready(p: Pair) {
    && PairInv(p) && p.gotA == |p.a.out| && p.gotB == |p.b.out|
    && p.a.flags.present && p.b.flags.present && p.a.fds.read >= 0 && p.b.fds.write >= 0
    && !p.a.flags.flushing && p.a.win.maxPacket > 0
    && p.b.flow.writebuf == [] && ExtBytes(p.b.flow) == [] && p.b.flow.lost == Streams([], [])
  }

  const ANY_ENV := CloseEnv(false, false, NoData, NoData)

  /** a reads, b takes it in, b writes it out, and a hears of the window. */
  function Round(bytes: seq<Byte>, n: nat): seq<Step> {
    [Acts(true, ReadReady(false, Offered(bytes))), Handles(false, ANY_ENV),
     Acts(false, WriteReady(false, Wrote(n))), Handles(true, ANY_ENV)]
  }

  function Packet(p: Pair, bytes: seq<Byte>): nat {
    Min(Min(|bytes|, 16375), Min(p.a.win.trans, p.a.win.maxPacket))
  }

  lemma RunOn(p: Pair, s: Step, more: seq<Step>, q: Pair)
    requires Take(p, s) == Next(q)
    ensures Run(p, [s] + more) == Run(q, more)
  {
    assert ([s] + more)[1..] == more;
  }

  lemma {:induction false} RunAfter(p: Pair, steps: seq<Step>, more: seq<Step>)
    requires Run(p, steps).Next?
    ensures Run(p, steps + more) == Run(Run(p, steps).pair, more)
    decreases |steps|
  {
    if steps == [] {
      assert steps + more == more;
    } else {
      FirstApart(steps, more);
      assert (steps + more)[1..] == steps[1..] + more;
      RunAfter(if Take(p, steps[0]).Next? then Take(p, steps[0]).pair else p, steps[1..], more);
    }
  }

  /** The first step of a round: the bytes are on their way. */
  lemma Reads1(p: Pair, bytes: seq<Byte>) returns (q: Pair)
    requires Ready(p) && bytes != []
    ensures 0 < Packet(p, bytes) <= |bytes| && PairInv(q)
    ensures Take(p, Acts(true, ReadReady(false, Offered(bytes)))) == Next(q)
    ensures q.b == p.b && q.gotA == p.gotA && q.gotB == p.gotB && q.a.out == p.a.out + [Data(bytes[..Packet(p, bytes)])]
    ensures q.a.fds == p.a.fds && q.a.flags == p.a.flags && q.a.win.maxPacket == p.a.win.maxPacket
  {
    WindowNeverDeadlocks(p);
    SendsWhatFits(p.a, bytes);
    TakeKeeps(p, Acts(true, ReadReady(false, Offered(bytes))));
    q := Take(p, Acts(true, ReadReady(false, Offered(bytes)))).pair;
  }

  /** The second: they are in the buffer. */
  lemma Stores1(p: Pair, bytes: seq<Byte>) returns (q: Pair)
    requires PairInv(p) && p.gotA + 1 == |p.a.out| && p.a.out[p.gotA] == Data(bytes) && p.b.fds.write >= 0
    ensures PairInv(q) && Take(p, Handles(false, ANY_ENV)) == Next(q)
    ensures q.a == p.a && q.gotA == |p.a.out| && q.gotB == p.gotB
    ensures q.b == p.b.(win := q.b.win, flow := p.b.flow.(writebuf := p.b.flow.writebuf + bytes))
  {
    StillExpected(p.a, p.b, p.gotA, p.gotB);
    NextMsg(p.a.out, p.gotA);
    assert Windows2(p.a, p.b, p.gotA, p.gotB);
    DataKept(p.b, bytes);
    TakeKeeps(p, Handles(false, ANY_ENV));
    q := Take(p, Handles(false, ANY_ENV)).pair;
  }

  /** The third: they have been delivered. */
  lemma Writes1(p: Pair) returns (q: Pair)
    requires PairInv(p) && p.b.fds.write >= 0 && p.b.flags.present && p.b.flow.writebuf != []
    ensures PairInv(q) && Take(p, Acts(false, WriteReady(false, Wrote(|p.b.flow.writebuf|)))) == Next(q)
    ensures q.a == p.a && q.gotA == p.gotA && q.gotB == p.gotB && q.b.fds == p.b.fds && q.b.flags == p.b.flags
    ensures q.b.flow == p.b.flow.(writebuf := [],
                                  delivered := p.b.flow.delivered.(data := p.b.flow.delivered.data + p.b.flow.writebuf))
    ensures q.b.out == p.b.out || exists n :: q.b.out == p.b.out + [WindowAdjust(n)]
  {
    var n := |p.b.flow.writebuf|;
    WritesOut(p.b, n);
    assert p.b.flow.writebuf[..n] == p.b.flow.writebuf && p.b.flow.writebuf[n..] == [];
    TakeKeeps(p, Acts(false, WriteReady(false, Wrote(n))));
    q := Take(p, Acts(false, WriteReady(false, Wrote(n)))).pair;
  }

  /** The fourth: the window is open again. */
  lemma Hears1(p: Pair, n: nat) returns (q: Pair)
    requires PairInv(p) && p.gotB + 1 == |p.b.out| && p.b.out[p.gotB] == WindowAdjust(n)
    ensures PairInv(q) && Take(p, Handles(true, ANY_ENV)) == Next(q)
    ensures q.b == p.b && q.gotA == p.gotA && q.gotB == |p.b.out| && q.a == p.a.(win := q.a.win)
    ensures q.a.win.maxPacket == p.a.win.maxPacket
  {
    StillExpected(p.b, p.a, p.gotB, p.gotA);
    TakeKeeps(p, Handles(true, ANY_ENV));
    q := Take(p, Handles(true, ANY_ENV)).pair;
  }

  lemma LastStep(p: Pair, out: seq<Msg>) returns (q: Pair)
    requires PairInv(p) && p.gotB == |out| && (p.b.out == out || exists n :: p.b.out == out + [WindowAdjust(n)])
    ensures PairInv(q) && Run(p, [Handles(true, ANY_ENV)]) == Next(q)
    ensures q.b == p.b && q.gotA == p.gotA && q.gotB == |p.b.out| && q.a == p.a.(win := q.a.win)
    ensures q.a.win.maxPacket == p.a.win.maxPacket
  {
    assert [Handles(true, ANY_ENV)][1..] == [];
    if p.b.out == out {
      q := p;
    } else {
      var n :| p.b.out == out + [WindowAdjust(n)];
      q := Hears1(p, n);
    }
  }

  /** A round delivers at least one byte more, and leaves both sides ready for the next. */
  lemma RoundDelivers(p: Pair, bytes: seq<Byte>) returns (q: Pair)
    requires Ready(p) && bytes != []
    ensures var n := Packet(p, bytes);
            0 < n <= |bytes| && Run(p, Round(bytes, n)) == Next(q) && Ready(q)
            && q.b.flow.delivered.data == p.b.flow.delivered.data + bytes[..n]
  {
    var n, e := Packet(p, bytes), ANY_ENV;
    var p1 := Reads1(p, bytes);
    var p2 := Stores1(p1, bytes[..n]);
    assert [] + bytes[..n] == bytes[..n];
    var p3 := Writes1(p2);
    q := LastStep(p3, p.b.out);
    RunOn(p, Acts(true, ReadReady(false, Offered(bytes))), [Handles(false, e), Acts(false, WriteReady(false, Wrote(n))), Handles(true, e)], p1);
    RunOn(p1, Handles(false, e), [Acts(false, WriteReady(false, Wrote(n))), Handles(true, e)], p2);
    RunOn(p2, Acts(false, WriteReady(false, Wrote(n))), [Handles(true, e)], p3);
    InFour(bytes, n);
  }

  lemma InFour(bytes: seq<Byte>, n: nat)
    ensures var a, b, c, d := Acts(true, ReadReady(false, Offered(bytes))), Handles(false, ANY_ENV),
                              Acts(false, WriteReady(false, Wrote(n))), Handles(true, ANY_ENV);
            Round(bytes, n) == [a] + [b, c, d] && [b, c, d] == [b] + [c, d] && [c, d] == [c] + [d]
  {
  }

  /** Any bytes can be carried across, however many: no window, packet limit or buffer stops them for good. */
  lemma {:induction false} AllArrives(p: Pair, bytes: seq<Byte>) returns (steps: seq<Step>, q: Pair)
    requires Ready(p)
    ensures Run(p, steps) == Next(q) && Ready(q) && q.b.flow.delivered.data == p.b.flow.delivered.data + bytes
    decreases |bytes|
  {
    if bytes == [] {
      steps, q := [], p;
    } else {
      var n := Packet(p, bytes);
      var p1 := RoundDelivers(p, bytes);
      var rest;
      rest, q := AllArrives(p1, bytes[n..]);
      steps := Round(bytes, n) + rest;
      RunAfter(p, Round(bytes, n), rest);
      InParts(p.b.flow.delivered.data, bytes, n, p1.b.flow.delivered.data);
    }
  }

  lemma InParts(was: seq<Byte>, bytes: seq<Byte>, n: nat, now: seq<Byte>)
    requires n <= |bytes| && now == was + bytes[..n]
    ensures now + bytes[n..] == was + bytes
  {
  }

  /** Two peers just opened, one with something to read and one with somewhere to write. */
  lemma OpenedDelivers(p: Pair, bytes: seq<Byte>)
    requires Opened(p.a, p.b.recvLimit) && Opened(p.b, p.a.recvLimit) && p.gotA == 0 && p.gotB == 0
    requires p.a.fds.read >= 0 && p.b.fds.write >= 0 && p.a.win.maxPacket > 0
    ensures exists steps :: Run(p, steps).Next? && Run(p, steps).pair.b.flow.delivered.data == bytes
  {
    OpenedPair(p);
    assert Ready(p);
    var steps, q := AllArrives(p, bytes);
    assert [] + bytes == bytes;
  }

  // ---------------------------------------------------------------- closing

  predicate AllClosed(f: Fds) { f == Fds(FD_CLOSED, FD_CLOSED, FD_CLOSED) }

  /** With nothing open any more and closing allowed, CLOSE has been sent. */
  lemma ClosedSaysClose(c: Chan, env: CloseEnv)
    requires ChanInv(c) && c.flags.present && AllClosed(c.fds) && (c.ty.hasCheckClose ==> c.flags.handlerDone || env.check2)
    ensures CheckClose(c, env).Go? && Close in CheckClose(c, env).chan.out
  {
    CheckCloseKeeps(c, env);
  }

  /** A side with nothing more to read has said so. */
  lemma DoneSaysEof(c: Chan, env: CloseEnv)
    requires ChanInv(c) && c.flags.present
    ensures CheckClose(c, env).Go?
    ensures var r := CheckClose(c, env).chan;
            r.fds.read == FD_CLOSED && (r.flow.extrabuf != None || r.fds.err == FD_CLOSED) ==> Eof in r.out || Close in r.out
  {
    CheckCloseKeeps(c, env);
  }

  /** Nothing in a buffer waits for an open descriptor. */
  predicate NothingWaits(c: Chan) {
    && (c.fds.write >= 0 ==> c.flow.writebuf == [])
    && (c.fds.err >= 0 && c.flow.extrabuf != None ==> c.flow.extrabuf.value == [])
  }

  /** CLOSE is answered by CLOSE and the channel removed, as soon as nothing waits to be written and closing is allowed. */
  lemma CloseAnswered(c: Chan, env: CloseEnv)
    requires ChanInv(c) && c.flags.present && c.flags.recvClose && NothingWaits(c)
    requires c.ty.hasCheckClose ==> c.flags.handlerDone || env.check2
    ensures CheckClose(c, env).Go?
    ensures var r := CheckClose(c, env).chan;
            !r.flags.present && Close in r.out && AllClosed(r.fds) && (c.ty.hasCloseHandler ==> r.flags.handlerRuns == 1)
  {
    CheckCloseKeeps(c, env);
  }

  /** What check_close comes to when the channel is not removed and the writing side is closed. */
  lemma TailOf(c0: Chan, env: CloseEnv)
    requires ChanInv(c0) && c0.flags.present && StartFlushing(c0, env) == c0
    requires !(c0.flags.recvClose && !WritePending(c0) && CloseAllowed(c0, env))
    requires (c0.flags.recvEof && !WritePending(c0)) || (c0.ty.hasCheckClose && CloseAllowed(c0, env))
    ensures var c1 := CloseFd(c0, c0.fds.write, ShutWr);
            ChanInv(c1) && c1.fds.write == FD_CLOSED && CheckClose(c0, env).Go?
            && Evolves(c1, CheckClose(c0, env).chan)
  {
    var c1 := CloseFd(c0, c0.fds.write, ShutWr);
    CloseFdKeeps(c0, c0.fds.write, ShutWr);
    EvolvesSilently(c1, c1);
    CheckCloseTail(c1, c1, env, CloseAllowed(c0, env));
  }

  lemma FlushingStarted(c: Chan, env: CloseEnv)
    requires ChanInv(c)
    ensures var c0 := StartFlushing(c, env);
            ChanInv(c0) && StartFlushing(c0, env) == c0 && CheckClose(c0, env) == CheckClose(c, env)
            && c0 == c.(flags := c.flags.(flushing := c0.flags.flushing))
  {
    EvolvesSilently(c, StartFlushing(c, env));
  }

  /** Behind the peer's EOF the local side is told so, as soon as nothing waits to be written. */
  lemma EofPassedOn(c: Chan, env: CloseEnv)
    requires ChanInv(c) && c.flags.present && c.flags.recvEof && NothingWaits(c)
    ensures CheckClose(c, env).Go? && CheckClose(c, env).chan.fds.write == FD_CLOSED
  {
    FlushingStarted(c, env);
    var c0 := StartFlushing(c, env);
    if c0.flags.recvClose && CloseAllowed(c0, env) { CloseAnswered(c, env); } else { TailOf(c0, env); }
  }

  /** Reading to the end while flushing closes what is read from. */
  lemma FlushedOut(c: Chan, env: CloseEnv)
    requires ChanInv(c) && c.flags.present && c.flags.flushing && c.flow.extrabuf == None && c.fds.write == FD_CLOSED
    requires env.read1 == NoData && env.read2 == NoData && c.win.trans > 0 && c.win.maxPacket > 0
    requires c.fds.read >= FD_CLOSED && c.fds.err >= FD_CLOSED
    ensures FlushRead(c, false, env.read1).Go?
    ensures var c2 := FlushRead(c, false, env.read1).chan;
            FlushRead(c2, true, env.read2).Go? && FlushRead(c2, true, env.read2).chan == c.(fds := Fds(FD_CLOSED, FD_CLOSED, FD_CLOSED))
  {
  }

  /** A session whose process has ended, and whose output has been read to the end, is closed in one check. */
  lemma EndedCloses(c: Chan, env: CloseEnv)
    requires ChanInv(c) && c.flags.present && c.ty.hasCheckClose && !c.flags.handlerDone && env.check1 && env.check2
    requires env.read1 == NoData && env.read2 == NoData && c.win.trans > 0 && c.win.maxPacket > 0
    requires c.fds.read >= FD_CLOSED && c.fds.err >= FD_CLOSED && c.flow.extrabuf == None
    ensures CheckClose(c, env).Go?
    ensures var r := CheckClose(c, env).chan; AllClosed(r.fds) && Close in r.out
  {
    FlushingStarted(c, env);
    var c0 := StartFlushing(c, env);
    if c0.flags.recvClose && !WritePending(c0) {
      CloseAnswered(c, env);
    } else {
      TailOf(c0, env);
      FlushedOut(CloseFd(c0, c0.fds.write, ShutWr), env);
    }
  }

  // ---------------------------------------------------------------- over runs: closing

  /** A side whose descriptors are all closed, and whose type does not hold up the closing. */
  predicate Over(c: Chan) { AllClosed(c.fds) && !c.ty.hasCheckClose }

  /** CLOSE on its way to a side that is over frees its slot there. */
  lemma {:induction false} CloseFrees(p: Pair) returns (steps: seq<Step>, q: Pair)
    requires PairInv(p) && p.b.flags.present && Over(p.b) && Close in p.a.out
    ensures Run(p, steps) == Next(q) && PairInv(q) && q.a == p.a && q.gotB == p.gotB && !q.b.flags.present
    decreases |p.a.out| - p.gotA
  {
    if p.b.flags.recvClose {
      CloseAnswered(p.b, ANY_ENV);
      steps := [Acts(false, Check(ANY_ENV))];
      TakeKeeps(p, steps[0]);
      q := Take(p, steps[0]).pair;
      assert steps[1..] == [];
    } else {
      WholePrefix(p.a.out, p.gotA);
      var p1 := Handled(p);
      var rest := [];
      q := p1;
      if p1.b.flags.present { rest, q := CloseFrees(p1); }
      steps := [Handles(false, ANY_ENV)] + rest;
      RunOn(p, Handles(false, ANY_ENV), rest, p1);
    }
  }

  lemma WholePrefix(out: seq<Msg>, got: nat)
    ensures got == |out| ==> out[..got] == out
  {
  }

  lemma Handled(p: Pair) returns (q: Pair)
    requires PairInv(p) && Over(p.b) && p.gotA < |p.a.out|
    ensures Take(p, Handles(false, ANY_ENV)) == Next(q) && PairInv(q) && q.a == p.a && q.gotA == p.gotA + 1
    ensures q.gotB == p.gotB && Over(q.b)
  {
    TakeKeeps(p, Handles(false, ANY_ENV));
    HandleNarrows(p, ANY_ENV);
    q := Take(p, Handles(false, ANY_ENV)).pair;
    HandledType(p, ANY_ENV);
  }

  lemma HandledType(p: Pair, env: CloseEnv)
    requires PairInv(p) && p.gotA < |p.a.out| && HandleOnB(p, env).Next?
    ensures HandleOnB(p, env).pair.b.ty == p.b.ty
  {
    var m := p.a.out[p.gotA];
    StillExpected(p.a, p.b, p.gotA, p.gotB);
    if m.Eof? || m.Close? {
      EndArrives(p.a, p.b, Ended(p.b, m), p.gotA, p.gotB);
      CheckCloseKeeps(Ended(p.b, m), env);
    }
  }

  /** The same steps, seen from the other side. */
  function Mirror(steps: seq<Step>): seq<Step> {
    if steps == [] then []
    else [match steps[0] case Acts(onA, ev) => Acts(!onA, ev) case Handles(onA, env) => Handles(!onA, env)] + Mirror(steps[1..])
  }

  lemma {:induction false} RunMirror(p: Pair, steps: seq<Step>)
    ensures Run(Swap(p), Mirror(steps)) == SwapNext(Run(p, steps))
    decreases |steps|
  {
    if steps != [] {
      assert Mirror(steps)[1..] == Mirror(steps[1..]);
      RunMirror(if Take(p, steps[0]).Next? then Take(p, steps[0]).pair else p, steps[1..]);
    }
  }

  /** A side that is over says CLOSE when it is checked, if it has not yet. */
  lemma SaysClose(p: Pair) returns (q: Pair)
    requires PairInv(p) && p.a.flags.present && Over(p.a)
    ensures Take(p, Acts(true, Check(ANY_ENV))) == Next(q) && PairInv(q) && q.b == p.b && q.gotA == p.gotA && q.gotB == p.gotB
    ensures Close in q.a.out && Over(q.a)
  {
    ClosedSaysClose(p.a, ANY_ENV);
    CheckCloseKeeps(p.a, ANY_ENV);
    TakeKeeps(p, Acts(true, Check(ANY_ENV)));
    q := Take(p, Acts(true, Check(ANY_ENV))).pair;
  }

  /** Once both sides are over, both slots can be freed, each behind the other's CLOSE. */
  lemma BothFreed(p: Pair)
    requires PairInv(p) && p.a.flags.present && p.b.flags.present && Over(p.a) && Over(p.b)
    ensures exists steps ::
              Run(p, steps).Next? && !Run(p, steps).pair.a.flags.present && !Run(p, steps).pair.b.flags.present
  {
    var first := Acts(true, Check(ANY_ENV));
    var p1 := SaysClose(p);
    var steps2, p2 := CloseFrees(p1);
    var steps3, p3 := OtherFreed(p2);
    RunOn(p, first, steps2 + steps3, p1);
    RunAfter(p1, steps2, steps3);
    assert Run(p, [first] + (steps2 + steps3)) == Next(p3);
  }

  /** A side that is gone has said CLOSE, which frees the other. */
  lemma OtherFreed(p: Pair) returns (steps: seq<Step>, q: Pair)
    requires PairInv(p) && !p.b.flags.present && Over(p.a)
    ensures Run(p, steps) == Next(q) && !q.a.flags.present && q.b == p.b
  {
    if p.a.flags.present {
      var mirrored, m := CloseFrees(Swap(p));
      steps, q := Mirror(mirrored), Swap(m);
      RunMirror(Swap(p), mirrored);
    } else {
      steps, q := [], p;
    }
  }
}
