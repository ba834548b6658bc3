/** The receive side of `SocketInfo` as the source updates it: fields changed in place, each method
    tied to the function of module RecvEngine that specifies it. */
module RecvSocket {
  import opened Common
  import opened ReceiveMerge
  import opened RecvEngine
  import opened RecvSafety
  import opened RecvRuns
  import opened RecvLive
  import opened RecvErrors
  import opened RecvFlow

  /** What is outside `SocketInfo`: the kernel's side, and the buffers on no list. */
  datatype World = World(
    kernel: seq<Buf>, port: seq<Completion>, remaining: seq<Byte>,
    held: seq<nat>, freed: seq<nat>, nextId: nat)

  /** How far the socket's life has got. */
  datatype Stage = Stage(restart: Restart, disconnecting: bool, gone: bool)

  function IoOf(recvs: int, ops: int, w: World): Io {
    Io(recvs, ops, w.kernel, w.port, w.remaining, w.held, w.freed, w.nextId)
  }

  class SocketInfo {
    const recvMode: Mode
    const outstandingRecvBufferCap: nat
    var outstandingRecvCap: int
    var outstandingRecvs: int
    var outstandingOps: int
    var needRecvRestart: bool
    var flags: Flags
    var llPendingRecv: seq<Buf>
    var world: World
    var stage: Stage
    var history: History

    function IoView(): Io
      reads this
    {
      IoOf(outstandingRecvs, outstandingOps, world)
    }

    function GateView(): Gate
      reads this
    {
      Gate(outstandingRecvCap, flags.eof || flags.closing)
    }

    function View(): Sock
      reads this
    {
      Sock(recvMode, outstandingRecvCap, outstandingRecvBufferCap, needRecvRestart, flags, llPendingRecv,
           IoView(), stage.restart, stage.disconnecting, stage.gone, history)
    }

    constructor (p: Params)
      ensures View() == Unopened(p)
    {
      recvMode, outstandingRecvCap, outstandingRecvBufferCap := p.mode, p.recvCap, p.bufCap;
      outstandingRecvs, outstandingOps, needRecvRestart := 0, 0, false;
      flags, llPendingRecv := Flags(p.async, false, false, false), [];
      world, stage := World([], [], p.stream, [], [], 0), Stage(NoRestart, false, false);
      history := History([], false, false);
    }

    method GetBufferObj(buflen: nat) returns (b: Buf)
      modifies this`world
      ensures b == Buf(old(IoView()).nextId, buflen, [], NO_ERROR)
      ensures IoView() == Get(old(IoView()))
    {
      b := Buf(world.nextId, buflen, [], NO_ERROR);
      world := world.(held := world.held + [world.nextId], nextId := world.nextId + 1);
    }

    /** The buffer taken last leaves the hands of the running code. */
    method GiveUp()
      requires |IoView().held| > 0
      modifies this`world
      ensures IoView() == Drop(old(IoView()))
    {
      world := world.(held := world.held[..|world.held| - 1]);
    }

    method FreeBufferObj()
      requires |IoView().held| > 0
      modifies this`world
      ensures IoView() == Free(old(IoView()))
      ensures View() == FreeHeld(old(View()))
    {
      var id := world.held[|world.held| - 1];
      GiveUp();
      world := world.(freed := world.freed + [id]);
    }

    /** `PostQueuedCompletionStatus`, for the buffer taken last. */
    method PostToPort(b: Buf)
      requires |IoView().held| > 0
      modifies this`world
      ensures IoView() == Drop(old(IoView())).(port := old(IoView()).port + [Completion(b, NO_ERROR)])
    {
      GiveUp();
      world := world.(port := world.port + [Completion(b, NO_ERROR)]);
    }

    /** `WSARecv`: queues the receive, completes it at once, or refuses it. */
    method WSARecv(b: Buf, oracle: seq<Outcome>) returns (outcome: Outcome)
      requires Holds(IoView(), b)
      modifies this`world
      ensures outcome == Respond(old(IoView()), b, oracle)
      ensures outcome.IoPending? ==> IoView() == Drop(old(IoView())).(kernel := old(IoView()).kernel + [b])
      ensures outcome.Fail? ==> IoView() == old(IoView())
      ensures outcome.Done? ==>
                var io := old(IoView());
                && outcome.n <= |io.remaining|
                && IoView() == Drop(io).(
                     port := io.port + [Completion(b.(data := io.remaining[..outcome.n]), NO_ERROR)],
                     remaining := io.remaining[outcome.n..])
    {
      outcome := Respond(IoView(), b, oracle);
      if outcome.IoPending? {
        GiveUp();
        world := world.(kernel := world.kernel + [b]);
      } else if outcome.Done? {
        PostToPort(b.(data := world.remaining[..outcome.n]));
        world := world.(remaining := world.remaining[outcome.n..]);
      }
    }

    /** `PostOverlappedRecv`: NO_ERROR means that the buffer now belongs to the kernel or the port.  A
        refusal says why, and an error forced to the port is the kernel's. */
    method PostOverlappedRecv(buf: Buf, useBurst: bool, forcePostOnError: bool, oracle: seq<Outcome>) returns (rc: int)
      requires Holds(IoView(), buf)
      modifies this`world, this`outstandingRecvs, this`outstandingOps
      ensures var p := PostRecv(GateView(), old(IoView()), buf, useBurst, forcePostOnError, oracle);
              rc == p.rc && IoView() == p.io
      ensures GateView().shut ==> rc == WSAENOTCONN
      ensures !GateView().shut && old(outstandingRecvs) >= outstandingRecvCap ==> rc == WSAENOBUFS
      ensures !GateView().shut && old(outstandingRecvs) < outstandingRecvCap && forcePostOnError
              && |oracle| > 0 && oracle[0].Fail? && oracle[0].err != NO_ERROR ==>
                rc == NO_ERROR && Answered(old(IoView()), IoView(), buf, [], oracle[0].err)
      decreases Room(GateView(), IoView()), 0
    {
      PostSays(GateView(), IoView(), buf, useBurst, forcePostOnError, oracle);
      var b := buf.(err := NO_ERROR);
      if flags.eof || flags.closing {
        return WSAENOTCONN;
      }
      outstandingRecvs := outstandingRecvs + 1;
      if outstandingRecvs > outstandingRecvCap {
        outstandingRecvs := outstandingRecvs - 1;
        return WSAENOBUFS;
      }
      outstandingOps := outstandingOps + 1;
      var outcome := WSARecv(b, oracle);
      match outcome {
        case IoPending =>
        case Fail(e) =>
          if forcePostOnError {
            PostToPort(b.(err := e));
          } else {
            outstandingOps := outstandingOps - 1;
            outstandingRecvs := outstandingRecvs - 1;
            return e;
          }
        case Done(n) =>
          if n > 0 && useBurst {
            PostNewRecv(b.buflen, true, Tail(oracle));
          }
      }
      rc := NO_ERROR;
    }

    /** Takes a new buffer, posts it with errors forced to the port, and recycles it when refused. */
    method PostNewRecv(buflen: nat, useBurst: bool, oracle: seq<Outcome>)
      requires buflen > 0
      modifies this`world, this`outstandingRecvs, this`outstandingOps
      ensures IoView() == GetAndPost(GateView(), old(IoView()), buflen, useBurst, oracle)
      decreases Room(GateView(), IoView()), 1
    {
      var b := GetBufferObj(buflen);
      var rc := PostOverlappedRecv(b, useBurst, true, oracle);
      if rc != NO_ERROR {
        FreeBufferObj();
      }
    }

    /** `RepostRecvs` without the completion thread stepping in.  A socket that progresses ends up with a
        receive in flight, or with as many unread buffers as its cap allows. */
    method RepostRecvs(chanBufSize: nat, oracle: seq<Outcome>, ghost p: Params)
      requires chanBufSize > 0 && Inv(View(), p) && !stage.gone && !flags.closing && stage.restart == NoRestart
      modifies this`world, this`outstandingRecvs, this`outstandingOps, this`needRecvRestart
      ensures View() == Reposted(old(View()), chanBufSize, oracle)
      ensures Inv(View(), p)
      ensures old(Open(View())) && old(InFlight(IoView()) > 0 || (recvMode == BurstDetect ==> needRecvRestart)) ==>
                InFlight(View().io) > 0 || |View().pending| >= View().bufCap
      ensures recvMode == FlowCtrl ==> InFlight(View().io) <= old(InFlight(View().io)) + 1
    {
      ghost var s := View();
      RepostKeeps(s, chanBufSize, oracle, p);
      if Open(s) && (InFlight(s.io) > 0 || (s.mode == BurstDetect ==> s.needRestart)) {
        RepostGoesOn(s, chanBufSize, oracle, p);
      }
      FlowReposts(s, chanBufSize, oracle, p);
      PostReplacement(chanBufSize, oracle);
    }

    /** The body of `RepostRecvs`. */
    method PostReplacement(chanBufSize: nat, oracle: seq<Outcome>)
      requires chanBufSize > 0 && stage.restart == NoRestart
      modifies this`world, this`outstandingRecvs, this`outstandingOps, this`needRecvRestart
      ensures View() == Reposted(old(View()), chanBufSize, oracle)
    {
      if flags.eof {
        return;
      }
      if recvMode == FlowCtrl {
        PostNewRecv(chanBufSize, false, oracle);
      } else if needRecvRestart && |llPendingRecv| < outstandingRecvBufferCap {
        PostNewRecv(IOCP_RECV_BUFSIZE, true, oracle);
        needRecvRestart := false;
      }
    }

    /** `IocpPushRecvAlertToTcl`, as far as the list is concerned. */
    method PushRecv(b: Buf)
      requires |View().io.held| > 0
      modifies this`world, this`llPendingRecv
      ensures View() == PushPending(old(View()), b)
    {
      llPendingRecv := llPendingRecv + [b];
      GiveUp();
    }

    /** Replaces a receive that brought data, or leaves that to the reads when the cap is hit. */
    method ReplaceRecv(oracle: seq<Outcome>)
      modifies this`world, this`outstandingRecvs, this`outstandingOps, this`needRecvRestart
      ensures View() == Refill(old(View()), oracle)
    {
      if recvMode == BurstDetect {
        if |llPendingRecv| < outstandingRecvBufferCap {
          PostNewRecv(IOCP_RECV_BUFSIZE, true, oracle);
        } else {
          needRecvRestart := true;
        }
      }
    }

    /** `HandleIo` for OP_READ, between taking the completion and the end of the operation.  The buffer
        leaves the handler's hands: for the end of the list, or freed if it holds no bytes. */
    method HandleOpRead(b: Buf, oracle: seq<Outcome>, ghost p: Params)
      requires InHand(View(), b, p)
      modifies this
      ensures View() == HandleReadBody(old(View()), b, Refill(old(View()), oracle))
      ensures Settled(View(), p)
      ensures var ends := b.data == [] && old(flags.closing);
              var refused := b.data == [] && !old(flags.closing) && b.err == WSAENOBUFS;
              && (if ends || refused then llPendingRecv == old(llPendingRecv) && CountIn(world.freed, b.id) == 1
                  else llPendingRecv == old(llPendingRecv) + [b])
              && flags == old(flags).(closable := old(flags.closable) || ends)
              && outstandingRecvCap == old(outstandingRecvCap) - (if refused then 1 else 0)
    {
      ghost var s := View();
      ReadSettles(s, b, oracle, p);
      HandedOn(s, b, oracle, p);
      if |b.data| > 0 {
        ReplaceRecv(oracle);
        PushRecv(b);
      } else {
        HandleNoData(b);
      }
    }

    /** The same for a receive that brought no bytes: EOF, an error, or a socket that is closing. */
    method HandleNoData(b: Buf)
      requires |View().io.held| > 0 && |b.data| == 0
      modifies this
      ensures old(flags.closing) ==> View() == FreeHeld(old(View()).(flags := old(flags).(closable := true)))
      ensures !old(flags.closing) && b.err == WSAENOBUFS ==>
                View() == FreeHeld(old(View()).(recvCap := old(outstandingRecvCap) - 1))
      ensures !old(flags.closing) && b.err != WSAENOBUFS ==>
                View() == PushPending(old(View()).(needRestart := old(needRecvRestart) || recvMode == BurstDetect), b)
    {
      if flags.closing {
        flags := flags.(closable := true);
        assert View() == old(View()).(flags := old(flags).(closable := true));
        FreeBufferObj();
      } else if b.err == WSAENOBUFS {
        outstandingRecvCap := outstandingRecvCap - 1;
        assert View() == old(View()).(recvCap := old(outstandingRecvCap) - 1);
        FreeBufferObj();
      } else {
        needRecvRestart := needRecvRestart || recvMode == BurstDetect;
        assert View() == old(View()).(needRestart := needRecvRestart);
        PushRecv(b);
      }
    }

    /** `FreeSocketInfo`, as far as the buffers are concerned. */
    method FreeSocketInfo()
      modifies this`llPendingRecv, this`world, this`stage
      ensures llPendingRecv == [] && stage == old(stage).(gone := true)
      ensures world == old(world).(freed := old(world).freed + Ids(old(llPendingRecv)))
    {
      ghost var w, all := world, llPendingRecv;
      while |llPendingRecv| > 0
        invariant stage == old(stage) && world == w.(freed := world.freed)
        invariant world.freed + Ids(llPendingRecv) == w.freed + Ids(all)
        decreases |llPendingRecv|
      {
        var b := llPendingRecv[0];
        assert world.freed + [b.id] + Ids(llPendingRecv[1..]) == world.freed + Ids(llPendingRecv);
        llPendingRecv, world := llPendingRecv[1..], world.(freed := world.freed + [b.id]);
      }
      stage := stage.(gone := true);
    }

    /** The end of `HandleIo`: the socket is freed exactly when it is closable and nothing else is in
        flight, and then so is each of its buffers, once. */
    method EndOperation(ghost p: Params)
      requires Settled(View(), p)
      modifies this`outstandingOps, this`llPendingRecv, this`world, this`stage
      ensures View() == Finish(old(View()))
      ensures Inv(View(), p)
      ensures FreedIfLast(View())
    {
      FinishSettled(View(), p);
      GoneIff(View(), p);
      DropReference();
    }

    method DropReference()
      modifies this`outstandingOps, this`llPendingRecv, this`world, this`stage
      ensures View() == Finish(old(View()))
    {
      outstandingOps := outstandingOps - 1;
      if outstandingOps <= 0 && flags.closable {
        FreeSocketInfo();
      }
    }

    /** Takes the first completion off the port. */
    method GetQueuedCompletion() returns (c: Completion)
      requires |View().io.port| > 0
      modifies this`world
      ensures c == old(View()).io.port[0] && View() == TakeOffPort(old(View()), false)
    {
      c := world.port[0];
      world := world.(port := world.port[1..], held := world.held + [c.b.id]);
    }

    /** `HandleIo` for the first completion on the port, an OP_READ. */
    method HandleIo(oracle: seq<Outcome>, ghost p: Params)
      requires |View().io.port| > 0 && Inv(View(), p) && !stage.gone
      modifies this
      ensures View() == HandleRead(old(View()), oracle)
      ensures Inv(View(), p)
    {
      ghost var s := View();
      var c := GetQueuedCompletion();
      if c.wsaErr == WSA_OPERATION_ABORTED {
        TakeOffInHand(s, false, p);
        FreeSettles(View(), Effective(c), p);
        FreeBufferObj();
      } else {
        TakeOffInHand(s, true, p);
        outstandingRecvs := outstandingRecvs - 1;
        assert View() == TakeOffPort(s, true);
        HandleOpRead(Effective(c), oracle, p);
      }
      EndOperation(p);
    }

    /** `HandleIo` for OP_DISCONNECT: the socket becomes closable, and is freed at once exactly when no
        receive is in flight; otherwise just those are still counted. */
    method HandleIoDisconnect(ghost p: Params)
      requires Inv(View(), p) && !stage.gone && stage.disconnecting
      modifies this
      ensures View() == HandleDisconnect(old(View()))
      ensures Inv(View(), p) && flags.closable && !stage.disconnecting
      ensures stage.gone <==> old(InFlight(IoView())) == 0
      ensures !stage.gone ==> outstandingOps == InFlight(IoView()) == old(InFlight(IoView()))
    {
      ghost var s := View();
      DisconnectSettles(s, p);
      stage := stage.(disconnecting := false);
      outstandingOps := outstandingOps - 1;
      flags := flags.(closable := true);
      assert View() == Disconnected(s);
      EndOperation(p);
    }

    /** `IocpClose2Proc` for a connected socket, with `PostOverlappedDisconnect`: two references more
        than receives in flight, and no receive is posted any more. */
    method IocpClose2Proc(ghost p: Params)
      requires Inv(View(), p) && !flags.closing && stage.restart == NoRestart
      modifies this`outstandingOps, this`flags, this`stage
      ensures View() == Close(old(View()))
      ensures Inv(View(), p) && outstandingOps == InFlight(IoView()) + 2
      ensures forall b, useBurst, force, oracle :: Holds(IoView(), b) ==>
                PostRecv(GateView(), IoView(), b, useBurst, force, oracle) == Posted(IoView(), WSAENOTCONN, false)
    {
      CloseInv(View(), p);
      outstandingOps := outstandingOps + 1;
      flags := flags.(closing := true);
      outstandingOps := outstandingOps + 1;
      stage := stage.(disconnecting := true);
    }
  }

  // ----- what the handlers do, for the contracts above -----

  lemma ClearInv(s: Sock, p: Params)
    requires Inv(s, p)
    ensures Inv(ClearRestart(s), p)
  {
  }

  /** The whole of `RepostRecvs`. */
  function Reposted(s: Sock, toRead: nat, oracle: seq<Outcome>): Sock
    requires toRead > 0
  {
    ClearRestart(PostRestart(Repost(s, toRead, oracle), oracle))
  }

  lemma RepostKeeps(s: Sock, toRead: nat, oracle: seq<Outcome>, p: Params)
    requires toRead > 0 && Inv(s, p) && !s.gone && !s.flags.closing && s.restart == NoRestart
    ensures Inv(Reposted(s, toRead, oracle), p)
  {
    var u := Repost(s, toRead, oracle);
    RepostInv(s, toRead, oracle, p);
    PostRestartInv(u, oracle, p);
    ClearInv(PostRestart(u, oracle), p);
  }

  lemma PostThenClear(u: Sock, oracle: seq<Outcome>, p: Params)
    requires Inv(u, p) && !u.gone && Open(u)
    requires InFlight(u.io) > 0 || u.restart == ToPost || |u.pending| >= u.bufCap
    ensures var t := ClearRestart(PostRestart(u, oracle)); InFlight(t.io) > 0 || |t.pending| >= t.bufCap
  {
    if u.restart == ToPost {
      PostStepProgresses(u, oracle, p);
    }
  }

  lemma RepostGoesOn(s: Sock, toRead: nat, oracle: seq<Outcome>, p: Params)
    requires toRead > 0 && Inv(s, p) && !s.gone && !s.flags.closing && s.restart == NoRestart && Open(s)
    requires InFlight(s.io) > 0 || (s.mode == BurstDetect ==> s.needRestart)
    ensures var t := Reposted(s, toRead, oracle); InFlight(t.io) > 0 || |t.pending| >= t.bufCap
  {
    RepostProgresses(s, toRead, oracle, p);
    RepostInv(s, toRead, oracle, p);
    PostThenClear(Repost(s, toRead, oracle), oracle, p);
  }

  /** The socket is freed exactly when it is closable and nothing is in flight, and then each buffer was
      freed once. */
  ghost predicate FreedIfLast(s: Sock) {
    && (s.gone <==> s.flags.closable && InFlight(s.io) == 0 && !s.disconnecting)
    && (s.gone ==> forall id: nat :: CountIn(s.io.freed, id) == if id < s.io.nextId then 1 else 0)
  }

  /** What becomes of the buffer in hand. */
  lemma HandedOn(s: Sock, b: Buf, oracle: seq<Outcome>, p: Params)
    requires InHand(s, b, p)
    ensures var t := HandleReadBody(s, b, Refill(s, oracle));
            var ends := b.data == [] && s.flags.closing;
            var refused := b.data == [] && !s.flags.closing && b.err == WSAENOBUFS;
            && (if ends || refused then t.pending == s.pending && CountIn(t.io.freed, b.id) == 1
                else t.pending == s.pending + [b])
            && t.flags == s.flags.(closable := s.flags.closable || ends)
            && t.recvCap == s.recvCap - (if refused then 1 else 0)
  {
    RefillChanges(s, oracle);
    if b.data == [] && (s.flags.closing || b.err == WSAENOBUFS) {
      FreedOnce(s, b, oracle, p);
    }
  }

  lemma FreedOnce(s: Sock, b: Buf, oracle: seq<Outcome>, p: Params)
    requires InHand(s, b, p) && b.data == [] && (s.flags.closing || b.err == WSAENOBUFS)
    ensures CountIn(HandleReadBody(s, b, Refill(s, oracle)).io.freed, b.id) == 1
  {
    var t := HandleReadBody(s, b, Refill(s, oracle));
    ReadSettles(s, b, oracle, p);
    assert OwnedOnce(s.pending, s.io, b.id) && OwnedOnce(t.pending, t.io, b.id);
    assert t.io.freed == s.io.freed + [b.id];
    CountInAppend(s.io.freed, b.id, b.id);
    CountInAppend([], b.id, b.id);
  }

  /** What `PostOverlappedRecv` reports and puts on the port when it is refused. */
  lemma PostSays(g: Gate, io: Io, b: Buf, useBurst: bool, force: bool, oracle: seq<Outcome>)
    requires Holds(io, b)
    ensures var p := PostRecv(g, io, b, useBurst, force, oracle);
            && (g.shut ==> p.rc == WSAENOTCONN)
            && (!g.shut && io.recvs >= g.cap ==> p.rc == WSAENOBUFS)
            && (!g.shut && io.recvs < g.cap && force && |oracle| > 0 && oracle[0].Fail? && oracle[0].err != NO_ERROR ==>
                  p.rc == NO_ERROR && Answered(io, p.io, b, [], oracle[0].err))
  {
    RefusedWith(g, io, b, useBurst, force, oracle);
    if !g.shut && io.recvs < g.cap && force && |oracle| > 0 && oracle[0].Fail? && oracle[0].err != NO_ERROR {
      ForcedError(g, io, b, useBurst, oracle, oracle[0].err);
    }
  }

  lemma FlowReposts(s: Sock, toRead: nat, oracle: seq<Outcome>, p: Params)
    requires toRead > 0 && Inv(s, p) && s.restart == NoRestart
    ensures s.mode == FlowCtrl ==> InFlight(Reposted(s, toRead, oracle).io) <= InFlight(s.io) + 1
  {
    if s.mode == FlowCtrl && !s.flags.eof {
      FlowPost(s, toRead, oracle);
      assert Reposted(s, toRead, oracle) == Post(s, toRead, false, oracle);
    }
  }

  lemma FlowPost(s: Sock, toRead: nat, oracle: seq<Outcome>)
    requires toRead > 0
    ensures InFlight(Post(s, toRead, false, oracle).io) <= InFlight(s.io) + 1
  {
    if s.flags.closing || s.flags.eof {
      ShutGate(GateOf(s), s.io, toRead, false, oracle);
    } else if s.io.recvs < s.recvCap {
      PostsOne(GateOf(s), s.io, toRead, oracle);
    } else {
      FullPosts(GateOf(s), s.io, toRead, false, oracle);
    }
  }

  lemma GoneIff(s: Sock, p: Params)
    requires Settled(s, p)
    ensures FreedIfLast(Finish(s))
  {
    FinishSettled(s, p);
    var t := Finish(s);
    if t.gone {
      forall id: nat ensures CountIn(t.io.freed, id) == if id < t.io.nextId then 1 else 0 {
        assert OwnedOnce(t.pending, t.io, id);
      }
    }
  }
}
