/** What one side does with one confirmed channel, as functions on its state. */
module ChannelModel {
  import opened Prelude
  import opened Arith
  import opened Bytes

  const FD_CLOSED := -1
  const TRANS_MAX_WINDOW := 500_000_000
  const TRANS_MAX_WIN_INCR := 500_000_000
  const TRANS_MAX_PAYLOAD_LEN := 16384
  const MAX_RECV_WINDOW := 1024 * 1024

  datatype How = ShutRd | ShutWr | ShutRdWr

  datatype Msg = Data(bytes: seq<Byte>) | ExtData(bytes: seq<Byte>) | WindowAdjust(incr: nat) | Eof | Close

  /** acceptsExt: the type is the client session, the only one whose stderr data is not ignored. */
  datatype ChanType = ChanType(sepfds: bool, hasCheckClose: bool, hasCloseHandler: bool, acceptsExt: bool)

  datatype Streams = Streams(data: seq<Byte>, ext: seq<Byte>)

  /** done is recvdonelen, the bytes written out locally and not yet announced; maxPacket is transmaxpacket. */
  datatype Windows = Windows(recv: nat, trans: nat, done: nat, maxPacket: nat)

  datatype Fds = Fds(write: int, read: int, err: int)

  /** extrabuf is absent when errfd is read from. The rest is history: see Chan. */
  datatype Flow = Flow(writebuf: seq<Byte>, extrabuf: Option<seq<Byte>>,
                       taken: Streams, delivered: Streams, lost: Streams)

  /** present says the slot is occupied; handlerRuns counts the runs of the type's close handler. */
  datatype Flags = Flags(sentClose: bool, recvClose: bool, sentEof: bool, recvEof: bool,
                         handlerDone: bool, flushing: bool, present: bool, handlerRuns: nat)

  /**
   * recvLimit is opts.recv_window and out is every message handed to encrypt_packet. History only: out,
   * handlerRuns, and the bytes taken from the local side, delivered to it, and lost because its
   * descriptor was closed.
   */
  datatype Chan = Chan(ty: ChanType, recvLimit: nat, win: Windows, fds: Fds, flow: Flow, flags: Flags, out: seq<Msg>)

  /** Exit stands for dropbear_exit and for a failed dropbear_assert. */
  datatype Outcome = Go(chan: Chan) | Exit(why: string) {
    predicate IsFailure() { Exit? }
    function PropagateFailure(): Outcome requires Exit? { this }
    function Extract(): Chan requires Go? { chan }
  }

  /** What read() gives: bytes on offer, end of file or an error, or EINTR. */
  datatype ReadResult = Offered(bytes: seq<Byte>) | NoData | Interrupted

  datatype WriteResult = Wrote(n: nat) | WriteError | NotNow

  function ExtBytes(w: Flow): seq<Byte> {
    if w.extrabuf.Some? then w.extrabuf.value else []
  }

  predicate ErrIsRead(c: Chan) { c.flow.extrabuf == None }

  function CloseOne(fds: Fds, sepfds: bool, errIsRead: bool, fd: int, how: How): Fds {
    var closeout := !sepfds || how == ShutRd;
    var closein := !sepfds || how != ShutRd;
    Fds(if closein && fd == fds.write then FD_CLOSED else fds.write,
        if closeout && fd == fds.read then FD_CLOSED else fds.read,
        if (if errIsRead then closeout else closein) && fd == fds.err then FD_CLOSED else fds.err)
  }

  /** close_chan_fd. */
  function CloseFd(c: Chan, fd: int, how: How): Chan {
    c.(fds := CloseOne(c.fds, c.ty.sepfds, ErrIsRead(c), fd, how))
  }

  function RunCloseHandler(f: Flags, ty: ChanType): Flags {
    if ty.hasCloseHandler && !f.handlerDone then f.(handlerDone := true, handlerRuns := f.handlerRuns + 1) else f
  }

  /** send_msg_channel_eof. */
  function SendEof(c: Chan): Chan {
    c.(out := c.out + [Eof], flags := c.flags.(sentEof := true))
  }

  /** The three close_chan_fd calls of send_msg_channel_close. */
  function CloseAll(fds: Fds, sepfds: bool, errIsRead: bool): Fds {
    var f1 := CloseOne(fds, sepfds, errIsRead, fds.read, ShutRd);
    var f2 := CloseOne(f1, sepfds, errIsRead, f1.err, ShutRdWr);
    CloseOne(f2, sepfds, errIsRead, f2.write, ShutWr)
  }

  /** send_msg_channel_close. */
  function SendClose(c: Chan): Chan {
    c.(out := c.out + [Close],
       flags := RunCloseHandler(c.flags, c.ty).(sentEof := true, sentClose := true),
       fds := CloseAll(c.fds, c.ty.sepfds, ErrIsRead(c)))
  }

  /** remove_channel. */
  function Remove(c: Chan): Chan {
    c.(flags := RunCloseHandler(c.flags, c.ty).(present := false))
  }

  /** write_pending. */
  predicate WritePending(c: Chan) {
    (c.fds.write >= 0 && |c.flow.writebuf| > 0) || (c.fds.err >= 0 && |ExtBytes(c.flow)| > 0)
  }

  /** The most a data packet may carry: the window, the peer's packet limit, and the payload buffer. */
  function MaxLen(w: Windows, ext: bool): nat {
    Min(Min(w.trans, w.maxPacket), TRANS_MAX_PAYLOAD_LEN - 1 - 4 - 4 - if ext then 4 else 0)
  }

  function Stream(s: Streams, ext: bool): seq<Byte> { if ext then s.ext else s.data }

  function Append(s: Streams, ext: bool, bytes: seq<Byte>): Streams {
    if ext then s.(ext := s.ext + bytes) else s.(data := s.data + bytes)
  }

  function Buffered(w: Flow, ext: bool): seq<Byte> { if ext then ExtBytes(w) else w.writebuf }

  function SetBuffered(w: Flow, ext: bool, bytes: seq<Byte>): Flow {
    if ext then w.(extrabuf := Some(bytes)) else w.(writebuf := bytes)
  }

  function DataMsg(ext: bool, bytes: seq<Byte>): Msg { if ext then ExtData(bytes) else Data(bytes) }

  /** The descriptor a stream is read from, and the one it is written to. */
  function ReadFd(c: Chan, ext: bool): int { if ext then c.fds.err else c.fds.read }

  function WriteFd(c: Chan, ext: bool): int { if ext then c.fds.err else c.fds.write }

  /** A data message leaves: window, history and queue move together. */
  function Emit(c: Chan, ext: bool, b: seq<Byte>): Chan
    requires |b| <= c.win.trans
  {
    c.(win := c.win.(trans := c.win.trans - |b|), out := c.out + [DataMsg(ext, b)],
       flow := c.flow.(taken := Append(c.flow.taken, ext, b)))
  }

  /** send_msg_channel_data. */
  function SendData(c: Chan, ext: bool, r: ReadResult): Outcome {
    var fd := ReadFd(c, ext);
    if c.flags.sentClose || fd < 0 then Exit("assertion in send_msg_channel_data")
    else
      var maxlen := MaxLen(c.win, ext);
      if maxlen == 0 || r == Interrupted then Go(c)
      else if r == NoData || r.bytes == [] then Go(CloseFd(c, fd, ShutRd))
      else
        var b := r.bytes[..Min(|r.bytes|, maxlen)];
        var c1 := Emit(c, ext, b);
        Go(if c.flags.flushing && |b| < maxlen then CloseFd(c1, fd, ShutRd) else c1)
  }

  /** The window adjustment of writechannel, once a third of the window has been written out. */
  function AdjustWindow(c: Chan): Chan {
    if c.win.done >= c.recvLimit / 3
    then c.(out := c.out + [WindowAdjust(c.win.done)], win := c.win.(recv := c.win.recv + c.win.done, done := 0))
    else c
  }

  /** Up to n bytes of a buffer go to the local side. */
  function Drain(c: Chan, ext: bool, n: nat): Chan
    requires n <= |Buffered(c.flow, ext)|
  {
    var buf := Buffered(c.flow, ext);
    c.(win := c.win.(done := c.win.done + n),
       flow := SetBuffered(c.flow, ext, buf[n..]).(delivered := Append(c.flow.delivered, ext, buf[..n])))
  }

  /** The assertions at the end of writechannel. */
  predicate WindowsFit(c: Chan) {
    && c.win.recv <= c.recvLimit
    && c.win.recv + |c.flow.writebuf| <= c.recvLimit
    && c.win.recv + |ExtBytes(c.flow)| <= c.recvLimit
  }

  /** writechannel, given what write() answered. */
  function WriteOut(c: Chan, ext: bool, r: WriteResult): Outcome {
    if r == NotNow || r == Wrote(0) then Go(c)
    else if r == WriteError then Go(CloseFd(c, WriteFd(c, ext), ShutWr))
    else
      var c1 := AdjustWindow(Drain(c, ext, Min(r.n, |Buffered(c.flow, ext)|)));
      if WindowsFit(c1) then Go(c1) else Exit("assertion in writechannel")
  }

  /** Whether a stream's bytes are taken: its descriptor is open and, for stderr, buffered at all. */
  predicate Takes(c: Chan, ext: bool) {
    if ext then c.ty.acceptsExt && !ErrIsRead(c) && c.fds.err >= 0 else c.fds.write >= 0
  }

  function Drop(c: Chan, ext: bool, bytes: seq<Byte>): Chan {
    c.(flow := c.flow.(lost := Append(c.flow.lost, ext, bytes)))
  }

  /** common_recv_msg_channel_data, with recv_msg_channel_extended_data in front of it for stderr. */
  function RecvData(c: Chan, ext: bool, bytes: seq<Byte>): Outcome {
    if ext && !c.ty.acceptsExt then Go(Drop(c, ext, bytes))
    else if c.flags.recvEof then Exit("Received data after eof")
    else if !Takes(c, ext) then Go(Drop(c, ext, bytes))
    else StoreData(c, ext, bytes)
  }

  /** The rest of it, when there is somewhere to put the bytes. */
  function StoreData(c: Chan, ext: bool, bytes: seq<Byte>): Outcome {
    var buf := Buffered(c.flow, ext);
    if |bytes| > c.recvLimit - |buf| then Exit("Oversized packet")
    else if c.win.recv < |bytes| || c.win.recv - |bytes| > c.recvLimit
    then Exit("assertion in common_recv_msg_channel_data")
    else Go(c.(win := c.win.(recv := c.win.recv - |bytes|), flow := SetBuffered(c.flow, ext, buf + bytes)))
  }

  /** recv_msg_channel_window_adjust. */
  function RecvAdjust(c: Chan, incr: nat): Chan {
    c.(win := c.win.(trans := Min(c.win.trans + Min(incr, TRANS_MAX_WIN_INCR), TRANS_MAX_WINDOW)))
  }

  /** What the environment answers during check_close: the type's own check, twice, and two reads. */
  datatype CloseEnv = CloseEnv(check1: bool, check2: bool, read1: ReadResult, read2: ReadResult)

  predicate DoneSending(c: Chan) {
    c.fds.read == FD_CLOSED && (!ErrIsRead(c) || c.fds.err == FD_CLOSED)
  }

  predicate CloseAllowed(c: Chan, env: CloseEnv) {
    !c.ty.hasCheckClose || c.flags.handlerDone || env.check2
  }

  function StartFlushing(c: Chan, env: CloseEnv): Chan {
    if !c.flags.flushing && !c.flags.handlerDone && c.ty.hasCheckClose && env.check1
    then c.(flags := c.flags.(flushing := true)) else c
  }

  /** One of the two reads made while flushing. */
  function FlushRead(c: Chan, ext: bool, r: ReadResult): Outcome {
    if c.flags.flushing && (ext ==> ErrIsRead(c)) && ReadFd(c, ext) >= 0 && c.win.trans > 0
    then SendData(c, ext, r) else Go(c)
  }

  /** The EOF and CLOSE decisions at the end of check_close. */
  function FinishSending(c: Chan, allowed: bool): Chan {
    CloseSending(if !c.flags.sentEof && DoneSending(c) then SendEof(c) else c, allowed)
  }

  function CloseSending(c: Chan, allowed: bool): Chan {
    if DoneSending(c) && c.fds.write == FD_CLOSED && !c.flags.sentClose && allowed && !WritePending(c)
    then SendClose(c) else c
  }

  /** check_close. */
  function CheckClose(c: Chan, env: CloseEnv): Outcome {
    var c0 := StartFlushing(c, env);
    var allowed := CloseAllowed(c0, env);
    if c0.flags.recvClose && !WritePending(c0) && allowed
    then Go(Remove(if c0.flags.sentClose then c0 else SendClose(c0)))
    else
      var c1 := if (c0.flags.recvEof && !WritePending(c0)) || (c0.ty.hasCheckClose && allowed)
                then CloseFd(c0, c0.fds.write, ShutWr) else c0;
      var c2 :- FlushRead(c1, false, env.read1);
      var c3 :- FlushRead(c2, true, env.read2);
      Go(FinishSending(c3, allowed))
  }

  /** A message from the peer, dispatched to its handler. */
  function Deliver(c: Chan, m: Msg, env: CloseEnv): Outcome {
    if !c.flags.present then Exit("unknown channel")
    else
      match m
      case Data(bytes) => RecvData(c, false, bytes)
      case ExtData(bytes) => RecvData(c, true, bytes)
      case WindowAdjust(incr) => Go(RecvAdjust(c, incr))
      case Eof => CheckClose(c.(flags := c.flags.(recvEof := true)), env)
      case Close => CheckClose(c.(flags := c.flags.(recvEof := true, recvClose := true)), env)
  }

  /** What channelio does with a channel when select() reports its descriptors. */
  datatype Event = ReadReady(ext: bool, r: ReadResult) | WriteReady(ext: bool, w: WriteResult) | Check(env: CloseEnv)

  predicate Enabled(c: Chan, ev: Event) {
    c.flags.present &&
    match ev
    case ReadReady(ext, _) => (ext ==> ErrIsRead(c)) && ReadFd(c, ext) >= 0
    case WriteReady(ext, _) => (ext ==> !ErrIsRead(c)) && WriteFd(c, ext) >= 0
    case Check(_) => true
  }

  function Local(c: Chan, ev: Event): Outcome
    requires Enabled(c, ev)
  {
    match ev
    case ReadReady(ext, r) => SendData(c, ext, r)
    case WriteReady(ext, w) => WriteOut(c, ext, w)
    case Check(env) => CheckClose(c, env)
  }
}
