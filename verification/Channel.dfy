/** The channel as the handlers keep it: fields and two circular buffers, refining the functions on Chan. */
module Channels {
  import opened Prelude
  import opened Arith
  import opened Bytes
  import opened CircBuffers
  import opened ChannelModel
  import opened ChannelKeeps

  class Channel {
    const ty: ChanType
    const recvLimit: nat
    var win: Windows
    var fds: Fds
    var flags: Flags
    var writebuf: CircBuffer
    var extrabuf: CircBuffer?
    /** Messages handed to encrypt_packet. */
    var out: seq<Msg>
    ghost var taken: Streams
    ghost var delivered: Streams
    ghost var lost: Streams

    ghost predicate Valid()
      reads this`writebuf, this`extrabuf, writebuf, extrabuf, BufferData()
    {
      && writebuf.Valid() && 0 < recvLimit == writebuf.size
      && (extrabuf != null ==>
            extrabuf.Valid() && extrabuf.size == recvLimit && extrabuf != writebuf && extrabuf.data != writebuf.data)
    }

    ghost function BufferData(): (s: set<object>)
      reads this`writebuf, this`extrabuf, writebuf, extrabuf
    {
      {writebuf.data} + if extrabuf == null then {} else {extrabuf.data}
    }

    ghost function FlowView(): (f: Flow)
      reads this`writebuf, this`extrabuf, this`taken, this`delivered, this`lost, writebuf, extrabuf
    {
      Flow(writebuf.contents, if extrabuf == null then None else Some(extrabuf.contents), taken, delivered, lost)
    }

    ghost function View(): (c: Chan)
      reads this, writebuf, extrabuf
    {
      Chan(ty, recvLimit, win, fds, FlowView(), flags, out)
    }

    /** A side ready for data: newchannel, chan_initwritebuf, and the windows agreed on. */
    constructor (ty: ChanType, recvLimit: nat, transwindow: nat, transmaxpacket: nat, fds: Fds, buffersErr: bool)
      requires 0 < recvLimit <= MAX_RECV_WINDOW
      ensures Valid() && fresh(writebuf) && fresh(BufferData()) && (extrabuf != null ==> fresh(extrabuf))
      ensures View() == Chan(ty, recvLimit, Windows(recvLimit, transwindow, 0, transmaxpacket), fds,
                             Flow([], if buffersErr then Some([]) else None,
                                  Streams([], []), Streams([], []), Streams([], [])),
                             Flags(false, false, false, false, false, false, true, 0), [])
      ensures (ty.sepfds ==> fds.err == FD_CLOSED) ==> ChanInv(View())
    {
      this.ty, this.recvLimit, this.fds := ty, recvLimit, fds;
      win := Windows(recvLimit, transwindow, 0, transmaxpacket);
      flags := Flags(false, false, false, false, false, false, true, 0);
      out := [];
      taken, delivered, lost := Streams([], []), Streams([], []), Streams([], []);
      writebuf := new CircBuffer(recvLimit);
      extrabuf := null;
      new;
      if buffersErr {
        extrabuf := new CircBuffer(recvLimit);
      }
    }

    predicate ErrfdIsRead() reads this`extrabuf { extrabuf == null }

    predicate ErrfdIsWrite() reads this`extrabuf { !ErrfdIsRead() }

    method CloseChanFd(fd: int, how: How)
      modifies this`fds
      ensures Valid() == old(Valid())
      ensures fds == CloseOne(old(fds), ty.sepfds, ErrfdIsRead(), fd, how)
      ensures View() == CloseFd(old(View()), fd, how)
    {
      var closein, closeout := false, false;
      if ty.sepfds {
        if how == ShutRd { closeout := true; } else { closein := true; }
      } else {
        closein, closeout := true, true;
      }
      var now := fds;
      if closeout && fd == now.read { now := now.(read := FD_CLOSED); }
      if closeout && ErrfdIsRead() && fd == now.err { now := now.(err := FD_CLOSED); }
      if closein && fd == now.write { now := now.(write := FD_CLOSED); }
      if closein && ErrfdIsWrite() && fd == now.err { now := now.(err := FD_CLOSED); }
      fds := now;
    }

    method SendMsgChannelEof()
      modifies this`out, this`flags
      ensures Valid() == old(Valid())
      ensures View() == SendEof(old(View()))
    {
      out := out + [Eof];
      flags := flags.(sentEof := true);
    }

    method RunHandler()
      modifies this`flags
      ensures Valid() == old(Valid())
      ensures flags == RunCloseHandler(old(flags), ty)
    {
      if ty.hasCloseHandler && !flags.handlerDone {
        flags := flags.(handlerRuns := flags.handlerRuns + 1);
        flags := flags.(handlerDone := true);
      }
    }

    method SendMsgChannelClose()
      modifies this`out, this`flags, this`fds
      ensures Valid() == old(Valid())
      ensures View() == SendClose(old(View()))
    {
      RunHandler();
      out := out + [Close];
      flags := flags.(sentEof := true);
      flags := flags.(sentClose := true);
      CloseDescriptors();
    }

    /** The three close_chan_fd calls at its end. */
    method CloseDescriptors()
      modifies this`fds
      ensures Valid() == old(Valid())
      ensures fds == CloseAll(old(fds), ty.sepfds, ErrfdIsRead())
    {
      CloseChanFd(fds.read, ShutRd);
      CloseChanFd(fds.err, ShutRdWr);
      CloseChanFd(fds.write, ShutWr);
    }

    method RemoveChannel()
      modifies this`flags
      ensures Valid() == old(Valid())
      ensures View() == Remove(old(View()))
    {
      RunHandler();
      flags := flags.(present := false);
    }

    method Pending() returns (r: bool)
      requires Valid()
      ensures r == WritePending(View())
    {
      if fds.write >= 0 && writebuf.used > 0 { return true; }
      if fds.err >= 0 && extrabuf != null && extrabuf.used > 0 { return true; }
      return false;
    }

    method SendPacket(isExtended: bool, bytes: seq<Byte>)
      requires |bytes| <= win.trans
      modifies this`out, this`win, this`taken
      ensures Valid() == old(Valid())
      ensures View() == Emit(old(View()), isExtended, bytes)
    {
      win := win.(trans := win.trans - |bytes|);
      out := out + [DataMsg(isExtended, bytes)];
      taken := Append(taken, isExtended, bytes);
    }

    /** ok is false where the source stops on an assertion; a channel in order whose descriptor is open never does. */
    method SendMsgChannelData(isExtended: bool, r: ReadResult) returns (ok: bool)
      modifies this`out, this`win, this`taken, this`fds
      ensures Valid() == old(Valid())
      ensures ok == SendData(old(View()), isExtended, r).Go?
      ensures View() == if ok then SendData(old(View()), isExtended, r).chan else old(View())
      ensures old(ChanInv(View()) && flags.present && (isExtended ==> ErrIsRead(View())) && ReadFd(View(), isExtended) >= 0)
              ==> ok && Evolves(old(View()), View())
    {
      SendDataGood(View(), isExtended, r);
      ok := ReadAndSend(isExtended, r);
    }

    /** The function itself. */
    method ReadAndSend(isExtended: bool, r: ReadResult) returns (ok: bool)
      modifies this`out, this`win, this`taken, this`fds
      ensures Valid() == old(Valid())
      ensures ok == SendData(old(View()), isExtended, r).Go?
      ensures View() == if ok then SendData(old(View()), isExtended, r).chan else old(View())
    {
      if flags.sentClose { return false; }
      var fd := if isExtended then fds.err else fds.read;
      if fd < 0 { return false; }
      var maxlen := Min(win.trans, win.maxPacket);
      maxlen := Min(maxlen, TRANS_MAX_PAYLOAD_LEN - 1 - 4 - 4 - if isExtended then 4 else 0);
      if maxlen == 0 { return true; }
      if !r.Offered? || r.bytes == [] {
        if r != Interrupted { CloseChanFd(fd, ShutRd); }
        return true;
      }
      var len := Min(|r.bytes|, maxlen);
      SendPacket(isExtended, r.bytes[..len]);
      if flags.flushing && len < maxlen { CloseChanFd(fd, ShutRd); }
      return true;
    }

    /** The assertions that end writechannel. */
    method WindowChecks() returns (ok: bool)
      requires Valid()
      ensures ok == WindowsFit(View())
    {
      if win.recv > recvLimit { return false; }
      if win.recv > writebuf.size - writebuf.used { return false; }
      return extrabuf == null || win.recv <= extrabuf.size - extrabuf.used;
    }

    /** write() took n bytes: cbuf_incrread and the count. */
    method DrainBuffer(isExtended: bool, n: nat)
      requires Valid() && (isExtended ==> extrabuf != null) && n <= Linear(isExtended)
      modifies this`win, this`delivered, writebuf, extrabuf
      ensures Valid() && n <= |Buffered(old(View()).flow, isExtended)|
      ensures View() == Drain(old(View()), isExtended, n) && BufferData() == old(BufferData())
    {
      var cbuf := if isExtended then extrabuf else writebuf;
      win := win.(done := win.done + n);
      delivered := Append(delivered, isExtended, cbuf.contents[..n]);
      var done := cbuf.IncrRead(n);
    }

    method SendWindowAdjust()
      modifies this`win, this`out
      ensures Valid() == old(Valid())
      ensures View() == AdjustWindow(old(View()))
    {
      if win.done >= recvLimit / 3 {
        out := out + [WindowAdjust(win.done)];
        win := win.(recv := win.recv + win.done);
        win := win.(done := 0);
      }
    }

    /** How much one write() is offered: cbuf_readlen. */
    function Linear(isExtended: bool): int
      requires isExtended ==> extrabuf != null
      reads this`writebuf, this`extrabuf, writebuf, extrabuf
    {
      var cbuf := if isExtended then extrabuf else writebuf;
      Min(cbuf.used, cbuf.size - cbuf.readpos)
    }

    method WroteSome(isExtended: bool, n: nat) returns (ok: bool)
      requires Valid() && (isExtended ==> extrabuf != null) && n <= Linear(isExtended)
      modifies this`win, this`out, this`delivered, writebuf, extrabuf
      ensures Valid() && BufferData() == old(BufferData()) && n <= |Buffered(old(View()).flow, isExtended)|
      ensures View() == AdjustWindow(Drain(old(View()), isExtended, n)) && ok == WindowsFit(View())
    {
      DrainBuffer(isExtended, n);
      SendWindowAdjust();
      ok := WindowChecks();
    }

    /** writechannel; write() takes at most the linear run it is offered. */
    method WriteChannel(isExtended: bool, r: WriteResult) returns (ok: bool)
      requires Valid() && (isExtended ==> extrabuf != null)
      requires r.Wrote? ==> r.n <= Linear(isExtended)
      modifies this`win, this`out, this`fds, this`delivered, writebuf, extrabuf
      ensures Valid() == old(Valid()) && BufferData() == old(BufferData())
      ensures ok == WriteOut(old(View()), isExtended, r).Go?
      ensures ok ==> View() == WriteOut(old(View()), isExtended, r).chan
      ensures old(ChanInv(View()) && WriteFd(View(), isExtended) >= 0) ==> ok && Evolves(old(View()), View())
    {
      ghost var c := View();
      if ChanInv(c) && WriteFd(c, isExtended) >= 0 { WriteOutKeeps(c, isExtended, r); }
      if !r.Wrote? || r.n == 0 {
        if r == WriteError { CloseChanFd(if isExtended then fds.err else fds.write, ShutWr); }
        return true;
      }
      ok := WroteSome(isExtended, r.n);
      WroteIs(c, isExtended, r.n);
    }

    /** common_recv_msg_channel_data; ok is false where the source exits. */
    method CommonRecvMsgChannelData(isExtended: bool, payload: seq<Byte>) returns (ok: bool)
      requires Valid() && (isExtended ==> ty.acceptsExt)
      modifies this`win, this`lost, writebuf, extrabuf, BufferData()
      ensures Valid() && BufferData() == old(BufferData())
      ensures ok == RecvData(old(View()), isExtended, payload).Go?
      ensures ok ==> View() == RecvData(old(View()), isExtended, payload).chan
    {
      if flags.recvEof { return false; }
      var fd := if isExtended then fds.err else fds.write;
      var cbuf: CircBuffer? := if isExtended then extrabuf else writebuf;
      if fd < 0 || cbuf == null {
        lost := Append(lost, isExtended, payload);
        return true;
      }
      ok := StorePayload(isExtended, payload);
    }

    /** The rest of it, when there is somewhere to put the payload. */
    method StorePayload(isExtended: bool, payload: seq<Byte>) returns (ok: bool)
      requires Valid() && (isExtended ==> extrabuf != null)
      modifies this`win, writebuf, extrabuf, BufferData()
      ensures Valid() && BufferData() == old(BufferData())
      ensures ok == StoreData(old(View()), isExtended, payload).Go?
      ensures ok ==> View() == StoreData(old(View()), isExtended, payload).chan
    {
      var cbuf: CircBuffer := if isExtended then extrabuf else writebuf;
      if |payload| > cbuf.size - cbuf.used { return false; }
      var stored, _ := WriteAll(cbuf, payload);
      if win.recv < |payload| { return false; }
      win := win.(recv := win.recv - |payload|);
      ok := win.recv <= recvLimit;
    }

    method RecvMsgChannelWindowAdjust(incr: nat)
      modifies this`win
      ensures View() == RecvAdjust(old(View()), incr)
    {
      var capped := Min(incr, TRANS_MAX_WIN_INCR);
      win := win.(trans := win.trans + capped);
      win := win.(trans := Min(win.trans, TRANS_MAX_WINDOW));
    }

    method FlushReads(env: CloseEnv) returns (ok: bool)
      modifies this`out, this`win, this`taken, this`fds
      ensures Valid() == old(Valid())
      ensures var o := FlushBoth(old(View()), env); ok == o.Go? && (ok ==> View() == o.chan)
    {
      ok := true;
      if flags.flushing {
        if fds.read >= 0 && win.trans > 0 {
          ok := ReadAndSend(false, env.read1);
          if !ok { return; }
        }
        if ErrfdIsRead() && fds.err >= 0 && win.trans > 0 {
          ok := ReadAndSend(true, env.read2);
        }
      }
    }

    method FinishUp(closeAllowed: bool)
      requires Valid()
      modifies this`out, this`flags, this`fds
      ensures Valid() == old(Valid())
      ensures View() == FinishSending(old(View()), closeAllowed)
    {
      if !flags.sentEof && fds.read == FD_CLOSED && (ErrfdIsWrite() || fds.err == FD_CLOSED) {
        SendMsgChannelEof();
      }
      FinishClose(closeAllowed);
    }

    method FinishClose(closeAllowed: bool)
      requires Valid()
      modifies this`out, this`flags, this`fds
      ensures Valid() == old(Valid())
      ensures View() == CloseSending(old(View()), closeAllowed)
    {
      var pending := Pending();
      if fds.read == FD_CLOSED && fds.write == FD_CLOSED && (ErrfdIsWrite() || fds.err == FD_CLOSED)
         && !flags.sentClose && closeAllowed && !pending {
        SendMsgChannelClose();
      }
    }

    method BeginClose(env: CloseEnv) returns (closeAllowed: bool)
      modifies this`flags
      ensures Valid() == old(Valid())
      ensures View() == StartFlushing(old(View()), env) && closeAllowed == CloseAllowed(View(), env)
    {
      closeAllowed := false;
      if !flags.flushing && !flags.handlerDone && ty.hasCheckClose && env.check1 {
        flags := flags.(flushing := true);
      }
      if !ty.hasCheckClose || flags.handlerDone || env.check2 {
        closeAllowed := true;
      }
    }

    method ReplyToClose()
      modifies this`out, this`fds, this`flags
      ensures Valid() == old(Valid())
      ensures View() == Remove(if old(flags.sentClose) then old(View()) else SendClose(old(View())))
    {
      if !flags.sentClose { SendMsgChannelClose(); }
      RemoveChannel();
    }

    /** What check_close does to a channel it does not remove, once it has seen to the writing side. */
    method FlushAndFinish(env: CloseEnv, closeAllowed: bool) returns (ok: bool)
      requires Valid()
      modifies this`out, this`win, this`taken, this`fds, this`flags
      ensures Valid() == old(Valid())
      ensures var o := FlushBoth(old(View()), env);
              ok == o.Go? && (ok ==> View() == FinishSending(o.chan, closeAllowed))
    {
      ok := FlushReads(env);
      if ok { FinishUp(closeAllowed); }
    }

    /** check_close; a channel in order never fails an assertion in it. */
    method CheckCloseNow(env: CloseEnv) returns (ok: bool)
      requires Valid()
      modifies this`out, this`win, this`taken, this`fds, this`flags
      ensures Valid() == old(Valid()) && ok == CheckClose(old(View()), env).Go?
      ensures ok ==> View() == CheckClose(old(View()), env).chan
      ensures old(ChanInv(View()) && flags.present) ==> ok && Evolves(old(View()), View())
    {
      CheckCloseGood(View(), env);
      ok := CheckAndClose(env);
    }

    /** The function itself. */
    method CheckAndClose(env: CloseEnv) returns (ok: bool)
      requires Valid()
      modifies this`out, this`win, this`taken, this`fds, this`flags
      ensures Valid() == old(Valid()) && ok == CheckClose(old(View()), env).Go?
      ensures ok ==> View() == CheckClose(old(View()), env).chan
    {
      CheckCloseIs(View(), env);
      var closeAllowed := BeginClose(env);
      var pending := Pending();
      if flags.recvClose && !pending && closeAllowed {
        ReplyToClose();
        return true;
      }
      if (flags.recvEof && !pending) || (ty.hasCheckClose && closeAllowed) {
        CloseChanFd(fds.write, ShutWr);
      }
      ok := FlushAndFinish(env, closeAllowed);
    }

    method RecvMsgChannelEof(env: CloseEnv) returns (ok: bool)
      requires Valid() && flags.present
      modifies this`out, this`win, this`taken, this`fds, this`flags
      ensures Valid() == old(Valid()) && ok == Deliver(old(View()), Eof, env).Go?
      ensures ok ==> View() == Deliver(old(View()), Eof, env).chan
    {
      flags := flags.(recvEof := true);
      ok := CheckAndClose(env);
    }

    method RecvMsgChannelClose(env: CloseEnv) returns (ok: bool)
      requires Valid() && flags.present
      modifies this`out, this`win, this`taken, this`fds, this`flags
      ensures Valid() == old(Valid()) && ok == Deliver(old(View()), Close, env).Go?
      ensures ok ==> View() == Deliver(old(View()), Close, env).chan
    {
      flags := flags.(recvEof := true);
      flags := flags.(recvClose := true);
      ok := CheckAndClose(env);
    }
  }

  lemma WroteIs(c: Chan, isExtended: bool, n: nat)
    requires 0 < n <= |Buffered(c.flow, isExtended)|
    ensures var d := AdjustWindow(Drain(c, isExtended, n));
            WriteOut(c, isExtended, Wrote(n)) == if WindowsFit(d) then Go(d) else Exit("assertion in writechannel")
  {
  }

  /** Both reads made while flushing. */
  function FlushBoth(c: Chan, env: CloseEnv): Outcome {
    var c1 :- FlushRead(c, false, env.read1);
    FlushRead(c1, true, env.read2)
  }

  /** check_close, cut where the method is. */
  lemma SendDataGood(c: Chan, ext: bool, r: ReadResult)
    ensures ChanInv(c) && c.flags.present && (ext ==> ErrIsRead(c)) && ReadFd(c, ext) >= 0
            ==> SendData(c, ext, r).Go? && Evolves(c, SendData(c, ext, r).chan)
  {
    if ChanInv(c) && c.flags.present && (ext ==> ErrIsRead(c)) && ReadFd(c, ext) >= 0 { SendDataKeeps(c, ext, r); }
  }

  lemma CheckCloseGood(c: Chan, env: CloseEnv)
    ensures ChanInv(c) && c.flags.present ==> CheckClose(c, env).Go? && Evolves(c, CheckClose(c, env).chan)
  {
    if ChanInv(c) && c.flags.present { CheckCloseKeeps(c, env); }
  }

  lemma CheckCloseIs(c: Chan, env: CloseEnv)
    ensures var c0 := StartFlushing(c, env);
            var allowed := CloseAllowed(c0, env);
            var c1 := if (c0.flags.recvEof && !WritePending(c0)) || (c0.ty.hasCheckClose && allowed)
                      then CloseFd(c0, c0.fds.write, ShutWr) else c0;
            var o := FlushBoth(c1, env);
            CheckClose(c, env) == if c0.flags.recvClose && !WritePending(c0) && allowed
                                  then Go(Remove(if c0.flags.sentClose then c0 else SendClose(c0)))
                                  else if o.Go? then Go(FinishSending(o.chan, allowed)) else o
  {
  }
}
