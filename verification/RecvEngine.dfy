/** The receive side of one connected socket (iocpsock_lolevel.c), with whole handlers as steps, except
    that in burst mode the completion thread may run between the test in `RepostRecvs`, its post, and its
    clearing of `needRecvRestart`.

    The Tcl thread runs `IocpInputProc` with `RepostRecvs`, and `IocpClose2Proc`; the completion
    thread runs `HandleIo`; the kernel fills posted receives.  The kernel is an oracle bound by what
    the single completion thread relies on: receives are filled in the order they were posted and
    the port is first in, first out.  The mode is flow-controlled or burst detection and does not
    change.  `held` lists the buffers that running code owns; it is empty between handlers. */
module RecvEngine {
  import opened Common
  import opened ReceiveMerge

  const WSAENOBUFS := 10055
  const WSAENOTCONN := 10057
  const WSA_OPERATION_ABORTED := 995
  const IOCP_RECV_BUFSIZE := 4096

  datatype Mode = FlowCtrl | BurstDetect

  /** A completion on the port: the buffer, with any error stored in it, and the port's own error. */
  datatype Completion = Completion(b: Buf, wsaErr: int)

  /** What posting touches: the counters `outstandingRecvs` and `outstandingOps`, the receives not
      yet filled, the port, what the peer still sends, and the buffers outside every list. */
  datatype Io = Io(
    recvs: int, ops: int,
    kernel: seq<Buf>, port: seq<Completion>, remaining: seq<Byte>,
    held: seq<nat>, freed: seq<nat>, nextId: nat)

  /** The bits of `flags`. */
  datatype Flags = Flags(async: bool, eof: bool, closing: bool, closable: bool)

  /** In burst mode, RepostRecvs still has to post, or has posted and still has to clear
      needRecvRestart. */
  datatype Restart = NoRestart | ToPost | ToClear

  /** Bytes handed to Tcl, whether a read reported an error, and whether one lost bytes. */
  datatype History = History(delivered: seq<Byte>, failed: bool, lost: bool)

  datatype Sock = Sock(
    // SocketInfo
    mode: Mode, recvCap: int, bufCap: nat, needRestart: bool, flags: Flags, pending: seq<Buf>,
    io: Io,
    // how far RepostRecvs has got, whether the disconnect is in flight, and whether the socket was freed
    restart: Restart, disconnecting: bool, gone: bool, hist: History)

  // ----- buffers -----

  /** `GetBufferObj`. */
  function Get(io: Io): Io {
    io.(held := io.held + [io.nextId], nextId := io.nextId + 1)
  }

  /** `FreeBufferObj` of the buffer taken last. */
  function Free(io: Io): Io
    requires |io.held| > 0
  {
    Drop(io).(freed := io.freed + [io.held[|io.held| - 1]])
  }

  /** The buffer taken last goes to a list. */
  function Drop(io: Io): Io
    requires |io.held| > 0
  {
    io.(held := io.held[..|io.held| - 1])
  }

  predicate Holds(io: Io, b: Buf) {
    |io.held| > 0 && io.held[|io.held| - 1] == b.id && b.data == [] && b.buflen > 0
  }

  // ----- posting -----

  /** What WSARecv does: queue the receive, complete it at once with n bytes, or fail. */
  datatype Outcome = IoPending | Done(n: nat) | Fail(err: int)

  /** The oracle's answer where the kernel can give it, otherwise IoPending.  A receive completes at
      once only when every earlier one is filled. */
  function Respond(io: Io, b: Buf, oracle: seq<Outcome>): Outcome {
    if |oracle| == 0 then IoPending
    else match oracle[0]
      case IoPending => IoPending
      case Fail(e) => if e != NO_ERROR then Fail(e) else IoPending
      case Done(n) =>
        if io.kernel == [] && n <= b.buflen && n <= |io.remaining| && (n == 0 ==> io.remaining == [])
        then Done(n) else IoPending
  }

  function Tail(oracle: seq<Outcome>): seq<Outcome> {
    if |oracle| == 0 then [] else oracle[1..]
  }

  /** What posting reads of the socket: the receive cap, and whether it is at EOF or closing. */
  datatype Gate = Gate(cap: int, shut: bool)

  function GateOf(s: Sock): Gate { Gate(s.recvCap, s.flags.eof || s.flags.closing) }

  /** The resulting state, the return code, and whether a burst was detected. */
  datatype Posted = Posted(io: Io, rc: int, again: bool)

  /** `PostOverlappedRecv` without its recursion. */
  function PostOne(g: Gate, io: Io, b: Buf, useBurst: bool, force: bool, oracle: seq<Outcome>): Posted
    requires Holds(io, b)
  {
    if g.shut then Posted(io, WSAENOTCONN, false)
    else if io.recvs + 1 > g.cap then Posted(io, WSAENOBUFS, false)
    else
      var up := Drop(io).(recvs := io.recvs + 1, ops := io.ops + 1);
      var b1 := b.(err := NO_ERROR);
      match Respond(io, b, oracle)
      case IoPending => Posted(up.(kernel := io.kernel + [b1]), NO_ERROR, false)
      case Fail(e) =>
        if force then Posted(up.(port := io.port + [Completion(b1.(err := e), NO_ERROR)]), NO_ERROR, false)
        else Posted(io, e, false)
      case Done(n) =>
        Posted(up.(port := io.port + [Completion(b1.(data := io.remaining[..n]), NO_ERROR)],
                   remaining := io.remaining[n..]), NO_ERROR, n > 0 && useBurst)
  }

  function Room(g: Gate, io: Io): nat {
    if g.cap > io.recvs then g.cap - io.recvs else 0
  }

  /** `PostOverlappedRecv`, which on a burst keeps posting until a receive stays pending or the cap is
      reached. */
  function PostRecv(g: Gate, io: Io, b: Buf, useBurst: bool, force: bool, oracle: seq<Outcome>): (p: Posted)
    requires Holds(io, b)
    ensures p.rc == NO_ERROR ==> p.io.held == io.held[..|io.held| - 1]
    ensures p.rc != NO_ERROR ==> p.io == io
    decreases Room(g, io), 0
  {
    var p := PostOne(g, io, b, useBurst, force, oracle);
    if p.again then Posted(GetAndPost(g, p.io, b.buflen, true, Tail(oracle)), NO_ERROR, false) else p
  }

  /** Every caller but one: take a new buffer, post it with errors forced to the port, and recycle
      the buffer when that is refused. */
  function GetAndPost(g: Gate, io: Io, buflen: nat, useBurst: bool, oracle: seq<Outcome>): (t: Io)
    requires buflen > 0
    ensures t.held == io.held
    decreases Room(g, io), 1
  {
    var p := PostRecv(g, Get(io), Buf(io.nextId, buflen, [], NO_ERROR), useBurst, true, oracle);
    if p.rc != NO_ERROR then Free(p.io) else p.io
  }

  /** `GetAndPost` on the whole socket. */
  function Post(s: Sock, buflen: nat, useBurst: bool, oracle: seq<Outcome>): Sock
    requires buflen > 0
  {
    s.(io := GetAndPost(GateOf(s), s.io, buflen, useBurst, oracle))
  }

  // ----- the completion thread -----

  /** `IocpPushRecvAlertToTcl`, as far as the list is concerned. */
  function PushPending(s: Sock, b: Buf): Sock
    requires |s.io.held| > 0
  {
    s.(pending := s.pending + [b], io := Drop(s.io))
  }

  function FreeHeld(s: Sock): Sock
    requires |s.io.held| > 0
  {
    s.(io := Free(s.io))
  }

  /** The end of `HandleIo`: drops the operation's reference and frees the socket on the last one. */
  function Finish(s: Sock): (t: Sock)
    ensures t.hist == s.hist && t.flags == s.flags && t.recvCap == s.recvCap
  {
    var io := s.io.(ops := s.io.ops - 1);
    if io.ops <= 0 && s.flags.closable
    then s.(pending := [], io := io.(freed := io.freed + Ids(s.pending)), gone := true)
    else s.(io := io)
  }

  function Effective(c: Completion): Buf {
    c.b.(err := if c.b.err == NO_ERROR then c.wsaErr else c.b.err)
  }

  /** What `HandleIo` does about a replacement when data came in. */
  function Refill(s: Sock, oracle: seq<Outcome>): (t: Sock)
    ensures t.io.held == s.io.held && t.pending == s.pending && t.hist == s.hist
  {
    if s.mode == FlowCtrl then s
    else if |s.pending| < s.bufCap then Post(s, IOCP_RECV_BUFSIZE, true, oracle)
    else s.(needRestart := true)
  }

  /** `HandleIo` for OP_READ after the buffer is off the port and its receive is no longer counted;
      `refilled` is what the socket becomes if the buffer holds data. */
  function HandleReadBody(s: Sock, b: Buf, refilled: Sock): (t: Sock)
    requires |s.io.held| > 0 && |refilled.io.held| > 0
    ensures refilled.hist == s.hist ==> t.hist == s.hist
  {
    if |b.data| > 0 then PushPending(refilled, b)
    else if s.flags.closing then FreeHeld(s.(flags := s.flags.(closable := true)))
    else if b.err == WSAENOBUFS then FreeHeld(s.(recvCap := s.recvCap - 1))
    else PushPending(s.(needRestart := s.needRestart || s.mode == BurstDetect), b)
  }

  function TakeOffPort(s: Sock, counted: bool): (t: Sock)
    requires |s.io.port| > 0
    ensures t.io.held == s.io.held + [s.io.port[0].b.id] && t.hist == s.hist
  {
    s.(io := s.io.(port := s.io.port[1..], held := s.io.held + [s.io.port[0].b.id],
                   recvs := if counted then s.io.recvs - 1 else s.io.recvs))
  }

  /** `HandleIo` for OP_READ; an aborted receive is not taken off `outstandingRecvs`. */
  function HandleRead(s: Sock, oracle: seq<Outcome>): (t: Sock)
    requires |s.io.port| > 0
    ensures t.hist == s.hist
  {
    if s.io.port[0].wsaErr == WSA_OPERATION_ABORTED then HandleAborted(s) else HandleCompleted(s, oracle)
  }

  function HandleAborted(s: Sock): (t: Sock)
    requires |s.io.port| > 0
    ensures t.hist == s.hist
  {
    Finish(FreeHeld(TakeOffPort(s, false)))
  }

  function HandleCompleted(s: Sock, oracle: seq<Outcome>): (t: Sock)
    requires |s.io.port| > 0
    ensures t.hist == s.hist
  {
    var t := TakeOffPort(s, true);
    Finish(HandleReadBody(t, Effective(s.io.port[0]), Refill(t, oracle)))
  }

  function HandleDisconnect(s: Sock): Sock {
    Finish(s.(disconnecting := false, io := s.io.(ops := s.io.ops - 1), flags := s.flags.(closable := true)))
  }

  // ----- the Tcl thread -----

  /** `RepostRecvs`, in burst mode only up to its test. */
  function Repost(s: Sock, toRead: nat, oracle: seq<Outcome>): (t: Sock)
    requires toRead > 0
    ensures t.hist == s.hist
  {
    if s.flags.eof then s
    else if s.mode == FlowCtrl then Post(s, toRead, false, oracle)
    else if s.needRestart && |s.pending| < s.bufCap then s.(restart := ToPost)
    else s
  }

  /** Its post in burst mode. */
  function PostRestart(s: Sock, oracle: seq<Outcome>): (t: Sock)
    ensures t.hist == s.hist
  {
    if s.restart == ToPost then Post(s, IOCP_RECV_BUFSIZE, true, oracle).(restart := ToClear) else s
  }

  /** Its end in burst mode. */
  function ClearRestart(s: Sock): Sock {
    if s.restart == ToClear then s.(needRestart := false, restart := NoRestart) else s
  }

  /** What the merge does to the socket. */
  function Take(s: Sock, toRead: nat): (t: Sock)
    ensures t.io.held == s.io.held
  {
    var m := Read(s.flags.async, s.pending, toRead);
    s.(pending := m.rest, io := s.io.(freed := s.io.freed + m.freed),
       flags := s.flags.(eof := s.flags.eof || m.eof),
       hist := History(s.hist.delivered + Given(m), s.hist.failed || (m.ret.Error? && s.pending != []),
                       s.hist.lost || Losing(s.flags.async, s.pending, toRead)))
  }

  /** `IocpInputProc`: the merge, then the reposting unless an error is returned. */
  function InputProc(s: Sock, toRead: nat, oracle: seq<Outcome>): Sock
    requires toRead > 0
  {
    if Read(s.flags.async, s.pending, toRead).ret.Error? then Take(s, toRead)
    else Repost(Take(s, toRead), toRead, oracle)
  }

  /** `IocpClose2Proc` for a connected socket: the artificial reference and the disconnect. */
  function Close(s: Sock): Sock {
    s.(io := s.io.(ops := s.io.ops + 2), flags := s.flags.(closing := true), disconnecting := true)
  }

  // ----- the kernel -----

  /** A receive may complete with n bytes and an error; without error, zero bytes mean that the peer
      has nothing more to send or that the socket is closing. */
  predicate CanComplete(s: Sock, n: nat, err: int) {
    && |s.io.kernel| > 0 && n <= s.io.kernel[0].buflen && n <= |s.io.remaining|
    && err != WSA_OPERATION_ABORTED
    && (n == 0 && err == NO_ERROR ==> s.io.remaining == [] || s.flags.closing)
  }

  function Complete(s: Sock, n: nat, err: int): Sock
    requires CanComplete(s, n, err)
  {
    s.(io := s.io.(kernel := s.io.kernel[1..], remaining := s.io.remaining[n..],
                   port := s.io.port + [Completion(s.io.kernel[0].(data := s.io.remaining[..n]), err)]))
  }

  /** Closing cancels a posted receive. */
  function Abort(s: Sock, i: nat): Sock
    requires i < |s.io.kernel|
  {
    s.(io := s.io.(kernel := s.io.kernel[..i] + s.io.kernel[i + 1..],
                   port := s.io.port + [Completion(s.io.kernel[i], WSA_OPERATION_ABORTED)]))
  }

  // ----- runs -----

  datatype Action =
    | KernelComplete(n: nat, err: int) | KernelAbort(i: nat)
    | PortRead(oracle: seq<Outcome>) | PortDisconnect
    | TclRead(toRead: nat, oracle: seq<Outcome>) | TclPost(oracle: seq<Outcome>) | TclClear
    | TclBlocking(async: bool) | TclClose

  predicate Enabled(s: Sock, a: Action) {
    !s.gone && match a
    case KernelComplete(n, err) => CanComplete(s, n, err)
    case KernelAbort(i) => s.flags.closing && i < |s.io.kernel|
    case PortRead(_) => |s.io.port| > 0
    case PortDisconnect => s.disconnecting
    case TclRead(toRead, _) => !s.flags.closing && s.restart == NoRestart && toRead > 0
    case TclPost(_) => s.restart == ToPost
    case TclClear => s.restart == ToClear
    case TclBlocking(_) => !s.flags.closing && s.restart == NoRestart
    case TclClose => !s.flags.closing && s.restart == NoRestart
  }

  /** One step; an action that is not enabled changes nothing. */
  function Next(s: Sock, a: Action): Sock {
    if !Enabled(s, a) then s
    else match a
      case KernelComplete(n, err) => Complete(s, n, err)
      case KernelAbort(i) => Abort(s, i)
      case PortRead(oracle) => HandleRead(s, oracle)
      case PortDisconnect => HandleDisconnect(s)
      case TclRead(toRead, oracle) => InputProc(s, toRead, oracle)
      case TclPost(oracle) => PostRestart(s, oracle)
      case TclClear => ClearRestart(s)
      case TclBlocking(async) => s.(flags := s.flags.(async := async))
      case TclClose => Close(s)
  }

  datatype Params = Params(mode: Mode, recvCap: nat, bufCap: nat, async: bool, stream: seq<Byte>)

  /** A socket that has just connected. */
  function Unopened(p: Params): Sock {
    Sock(p.mode, p.recvCap, p.bufCap, false, Flags(p.async, false, false, false), [],
         Io(0, 0, [], [], p.stream, [], [], 0), NoRestart, false, false, History([], false, false))
  }

  /** The socket with its first receive posted. */
  function Init(p: Params, oracle: seq<Outcome>): Sock {
    Post(Unopened(p), IOCP_RECV_BUFSIZE, false, oracle)
  }

  function Run(p: Params, oracle: seq<Outcome>, actions: seq<Action>): Sock {
    if |actions| == 0 then Init(p, oracle)
    else Next(Run(p, oracle, actions[..|actions| - 1]), actions[|actions| - 1])
  }
}
