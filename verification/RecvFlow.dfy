/** How far receiving goes: one receive for a read in flow-controlled mode, none after EOF or an error,
    and what each completion is used for. */
module RecvFlow {
  import opened Common
  import opened ReceiveMerge
  import opened RecvEngine
  import opened RecvSafety
  import opened RecvRuns
  import opened RecvCaps
  import opened RecvMemory
  import opened RecvErrors

  // ----- after EOF -----

  /** A read that meets the EOF buffer first raises the flag, takes that buffer and posts nothing. */
  lemma EofRead(s: Sock, toRead: nat, oracle: seq<Outcome>)
    requires Enabled(s, TclRead(toRead, oracle)) && s.pending != [] && IsEof(s.pending[0])
    ensures var t := Next(s, TclRead(toRead, oracle));
            && t.flags == s.flags.(eof := true) && t.pending == s.pending[1..] && t.restart == NoRestart
            && t.io == s.io.(freed := s.io.freed + [s.pending[0].id])
  {
  }

  /** Nothing posts on a socket that is at EOF or closing. */
  lemma ShutRefill(s: Sock, oracle: seq<Outcome>)
    requires s.flags.eof || s.flags.closing
    ensures var t := Refill(s, oracle); InFlight(t.io) == InFlight(s.io) && t.flags == s.flags
  {
    if s.mode == BurstDetect && |s.pending| < s.bufCap {
      ShutGate(GateOf(s), s.io, IOCP_RECV_BUFSIZE, true, oracle);
      assert Refill(s, oracle) == Post(s, IOCP_RECV_BUFSIZE, true, oracle);
    }
  }

  lemma ShutBody(s: Sock, b: Buf, r: Sock)
    requires |s.io.held| > 0 && |r.io.held| > 0 && InFlight(r.io) == InFlight(s.io) && r.flags == s.flags
    ensures var t := HandleReadBody(s, b, r); InFlight(t.io) == InFlight(s.io) && t.flags.eof == s.flags.eof
  {
  }

  lemma ShutHandle(s: Sock, oracle: seq<Outcome>)
    requires |s.io.port| > 0 && (s.flags.eof || s.flags.closing)
    ensures var t := HandleRead(s, oracle); InFlight(t.io) == InFlight(s.io) - 1 && t.flags.eof == s.flags.eof
  {
    if s.io.port[0].wsaErr == WSA_OPERATION_ABORTED {
      FinishShape(FreeHeld(TakeOffPort(s, false)));
    } else {
      var t, e := TakeOffPort(s, true), Effective(s.io.port[0]);
      ShutRefill(t, oracle);
      ShutBody(t, e, Refill(t, oracle));
      FinishShape(HandleReadBody(t, e, Refill(t, oracle)));
    }
  }

  lemma EofStep(s: Sock, a: Action, p: Params)
    requires Inv(s, p) && s.flags.eof
    ensures var t := Next(s, a); t.flags.eof && InFlight(t.io) <= InFlight(s.io)
  {
    if Enabled(s, a) && a.PortRead? {
      ShutHandle(s, a.oracle);
    }
  }

  /** Once the flag is up it stays up, and the number of receives in flight never rises again. */
  lemma {:induction false} EofForever(s: Sock, later: seq<Action>, p: Params)
    requires Inv(s, p) && s.flags.eof
    ensures var t := After(s, later); t.flags.eof && InFlight(t.io) <= InFlight(s.io)
    decreases |later|
  {
    if |later| > 0 {
      EofStep(s, later[0], p);
      StepInv(s, later[0], p);
      EofForever(Next(s, later[0]), later[1..], p);
    }
  }

  /** So in every run: a read that meets EOF ends receiving for good. */
  lemma EofEndsReceiving(p: Params, oracle: seq<Outcome>, actions: seq<Action>, toRead: nat, answers: seq<Outcome>,
                         later: seq<Action>)
    requires var s := Run(p, oracle, actions);
             Enabled(s, TclRead(toRead, answers)) && s.pending != [] && IsEof(s.pending[0])
    ensures var s := Run(p, oracle, actions); var t := After(Next(s, TclRead(toRead, answers)), later);
            t.flags.eof && InFlight(t.io) <= InFlight(s.io)
  {
    var s := Run(p, oracle, actions);
    RunInv(p, oracle, actions);
    EofRead(s, toRead, answers);
    StepInv(s, TclRead(toRead, answers), p);
    EofForever(Next(s, TclRead(toRead, answers)), later, p);
  }

  // ----- reads that post nothing -----

  /** A read that returns an error takes what it merged off the list and posts nothing. */
  lemma ErrorReadPostsNothing(s: Sock, toRead: nat, oracle: seq<Outcome>)
    requires Enabled(s, TclRead(toRead, oracle)) && Read(s.flags.async, s.pending, toRead).ret.Error?
    ensures var m := Read(s.flags.async, s.pending, toRead);
            var t := Next(s, TclRead(toRead, oracle));
            && t == s.(pending := m.rest, io := s.io.(freed := s.io.freed + m.freed), hist := t.hist)
            && t.hist.delivered == s.hist.delivered
  {
    assert s.hist.delivered + [] == s.hist.delivered;
    ErrorIsNotEof(s.flags.async, s.pending, toRead, 0);
  }

  lemma {:induction false} ErrorIsNotEof(async: bool, bufs: seq<Buf>, toRead: nat, got: nat)
    requires got <= toRead
    ensures var m := MergeLoop(async, bufs, toRead, got); m.ret.Error? ==> !m.eof
    decreases |bufs|
  {
    if |bufs| > 0 && async && got + |bufs[0].data| <= toRead && IsData(bufs[0]) {
      ErrorIsNotEof(async, bufs[1..], toRead, got + |bufs[0].data|);
    }
  }

  /** An asynchronous read of an empty list reports that it would block, error 10035, and changes nothing
      at all. */
  lemma WouldBlock(s: Sock, toRead: nat, oracle: seq<Outcome>)
    requires s.flags.async && s.pending == []
    ensures Read(s.flags.async, s.pending, toRead).ret == Error(10035)
    ensures Next(s, TclRead(toRead, oracle)) == s
  {
  }

  // ----- flow control -----

  /** The read posts a receive, in flow-controlled mode. */
  predicate Reposts(s: Sock, a: Action) {
    && a.TclRead? && Enabled(s, a)
    && var m := Read(s.flags.async, s.pending, a.toRead);
       m.ret.Bytes? && !s.flags.eof && !m.eof && InFlight(s.io) < s.recvCap
  }

  /** From `s` to `t` exactly one receive was posted, of length `len`. */
  predicate OneMore(s: Io, t: Io, len: nat) {
    && InFlight(t) == InFlight(s) + 1
    && (|t.kernel| == |s.kernel| + 1 ==> t.kernel[|s.kernel|].buflen == len)
    && (|t.port| == |s.port| + 1 ==> t.port[|s.port|].b.buflen == len)
  }

  lemma PostsOne(g: Gate, io: Io, buflen: nat, oracle: seq<Outcome>)
    requires buflen > 0 && !g.shut && io.recvs < g.cap
    ensures OneMore(io, GetAndPost(g, io, buflen, false, oracle), buflen)
  {
    GetAndPostJoins(g, io, buflen, false, oracle);
  }

  /** In flow-controlled mode a read posts exactly one receive, of the size that was asked for, or none:
      it does so if and only if it returns bytes, is not at EOF, and the cap allows it. */
  lemma FlowRead(s: Sock, toRead: nat, oracle: seq<Outcome>, p: Params)
    requires Inv(s, p) && s.mode == FlowCtrl && Enabled(s, TclRead(toRead, oracle))
    ensures var t := Next(s, TclRead(toRead, oracle));
            if Reposts(s, TclRead(toRead, oracle)) then OneMore(s.io, t.io, toRead)
            else InFlight(t.io) == InFlight(s.io)
  {
    var t := Take(s, toRead);
    if !Read(s.flags.async, s.pending, toRead).ret.Error? && !t.flags.eof {
      if InFlight(s.io) < s.recvCap {
        PostsOne(GateOf(t), t.io, toRead, oracle);
      } else {
        FullPosts(GateOf(t), t.io, toRead, false, oracle);
      }
      assert Next(s, TclRead(toRead, oracle)) == Post(t, toRead, false, oracle);
    }
  }

  lemma FullPosts(g: Gate, io: Io, buflen: nat, useBurst: bool, oracle: seq<Outcome>)
    requires buflen > 0 && io.recvs >= g.cap
    ensures InFlight(GetAndPost(g, io, buflen, useBurst, oracle)) == InFlight(io)
  {
  }

  /** No other step raises the number of receives in flight. */
  lemma FlowStep(s: Sock, a: Action, p: Params)
    requires Inv(s, p) && s.mode == FlowCtrl && !a.TclRead?
    ensures InFlight(Next(s, a).io) <= InFlight(s.io)
  {
    if Enabled(s, a) && a.PortRead? {
      HandleShape(s, a.oracle);
    }
  }

  /** A new socket starts with one receive, of the fixed size, if its cap allows any. */
  lemma FirstReceive(p: Params, oracle: seq<Outcome>)
    ensures if p.recvCap > 0 then OneMore(Unopened(p).io, Init(p, oracle).io, 4096)
            else InFlight(Init(p, oracle).io) == 0
  {
    var u := Unopened(p);
    if p.recvCap > 0 {
      PostsOne(GateOf(u), u.io, IOCP_RECV_BUFSIZE, oracle);
    } else {
      FullPosts(GateOf(u), u.io, IOCP_RECV_BUFSIZE, false, oracle);
    }
  }

  /** The reposting reads of a run. */
  function RepostingReads(p: Params, oracle: seq<Outcome>, actions: seq<Action>): nat {
    if |actions| == 0 then 0
    else
      RepostingReads(p, oracle, actions[..|actions| - 1])
      + if Reposts(Run(p, oracle, actions[..|actions| - 1]), actions[|actions| - 1]) then 1 else 0
  }

  /** In every flow-controlled run the receives in flight are at most the first one and one for each
      reposting read. */
  lemma {:induction false} FlowControlled(p: Params, oracle: seq<Outcome>, actions: seq<Action>)
    requires p.mode == FlowCtrl
    ensures InFlight(Run(p, oracle, actions).io) <= 1 + RepostingReads(p, oracle, actions)
  {
    if |actions| == 0 {
      FirstReceive(p, oracle);
    } else {
      var most, a := actions[..|actions| - 1], actions[|actions| - 1];
      var s := Run(p, oracle, most);
      FlowControlled(p, oracle, most);
      RunInv(p, oracle, most);
      if !a.TclRead? {
        FlowStep(s, a, p);
      } else if Enabled(s, a) {
        FlowRead(s, a.toRead, a.oracle, p);
      }
    }
  }

  // ----- the size of buffers -----

  /** Every receive in flight and every unread buffer has the length that burst mode uses. */
  predicate Sized(s: Sock) {
    && (forall i :: 0 <= i < |s.io.kernel| ==> s.io.kernel[i].buflen == 4096)
    && (forall i :: 0 <= i < |s.io.port| ==> s.io.port[i].b.buflen == 4096)
    && (forall i :: 0 <= i < |s.pending| ==> s.pending[i].buflen == 4096)
  }

  lemma PostSized(s: Sock, useBurst: bool, oracle: seq<Outcome>)
    requires Sized(s)
    ensures Sized(Post(s, IOCP_RECV_BUFSIZE, useBurst, oracle))
  {
    var t := Post(s, IOCP_RECV_BUFSIZE, useBurst, oracle);
    GetAndPostJoins(GateOf(s), s.io, IOCP_RECV_BUFSIZE, useBurst, oracle);
    forall i | 0 <= i < |t.io.kernel| ensures t.io.kernel[i].buflen == 4096 {
      if i < |s.io.kernel| { assert t.io.kernel[i] == s.io.kernel[i]; }
    }
    forall i | 0 <= i < |t.io.port| ensures t.io.port[i].b.buflen == 4096 {
      if i < |s.io.port| { assert t.io.port[i] == s.io.port[i]; }
    }
  }

  lemma RefillSized(s: Sock, oracle: seq<Outcome>)
    requires Sized(s)
    ensures Sized(Refill(s, oracle))
  {
    if s.mode == BurstDetect && |s.pending| < s.bufCap {
      PostSized(s, true, oracle);
      assert Refill(s, oracle) == Post(s, IOCP_RECV_BUFSIZE, true, oracle);
    }
  }

  lemma FinishSized(s: Sock)
    requires Sized(s)
    ensures Sized(Finish(s))
  {
  }

  lemma PushSized(s: Sock, b: Buf)
    requires |s.io.held| > 0 && Sized(s) && b.buflen == 4096
    ensures Sized(PushPending(s, b))
  {
  }

  lemma BodySized(s: Sock, b: Buf, r: Sock)
    requires |s.io.held| > 0 && |r.io.held| > 0 && Sized(s) && Sized(r) && b.buflen == 4096
    ensures Sized(HandleReadBody(s, b, r))
  {
    if |b.data| > 0 {
      PushSized(r, b);
    } else if !s.flags.closing && b.err != WSAENOBUFS {
      PushSized(s.(needRestart := s.needRestart || s.mode == BurstDetect), b);
    }
  }

  lemma HandleSized(s: Sock, oracle: seq<Outcome>)
    requires Sized(s) && |s.io.port| > 0
    ensures Sized(HandleRead(s, oracle))
  {
    if s.io.port[0].wsaErr == WSA_OPERATION_ABORTED {
      FinishSized(FreeHeld(TakeOffPort(s, false)));
    } else {
      var t, e := TakeOffPort(s, true), Effective(s.io.port[0]);
      RefillSized(t, oracle);
      BodySized(t, e, Refill(t, oracle));
      FinishSized(HandleReadBody(t, e, Refill(t, oracle)));
    }
  }

  lemma ReadSized(s: Sock, toRead: nat, oracle: seq<Outcome>)
    requires toRead > 0 && s.mode == BurstDetect && Sized(s)
    ensures Sized(InputProc(s, toRead, oracle))
  {
    RestSameBuffers(s.flags.async, s.pending, toRead, 0);
  }

  lemma StepSized(s: Sock, a: Action, p: Params)
    requires Inv(s, p) && s.mode == BurstDetect && Sized(s)
    ensures Sized(Next(s, a))
  {
    if Enabled(s, a) {
      match a
      case PortRead(oracle) => HandleSized(s, oracle);
      case TclRead(toRead, oracle) => ReadSized(s, toRead, oracle);
      case TclPost(oracle) => PostSized(s, true, oracle);
      case _ =>
    }
  }

  /** In every run of burst mode all buffers have 4096 bytes. */
  lemma {:induction false} BurstBuffersSized(p: Params, oracle: seq<Outcome>, actions: seq<Action>)
    requires p.mode == BurstDetect
    ensures Sized(Run(p, oracle, actions))
  {
    if |actions| == 0 {
      PostSized(Unopened(p), false, oracle);
    } else {
      BurstBuffersSized(p, oracle, actions[..|actions| - 1]);
      RunInv(p, oracle, actions[..|actions| - 1]);
      StepSized(Run(p, oracle, actions[..|actions| - 1]), actions[|actions| - 1], p);
    }
  }

  // ----- what a completion is used for -----

  /** The completion is of an aborted operation. */
  predicate Aborted(c: Completion) { c.wsaErr == WSA_OPERATION_ABORTED }

  /** It brought no bytes to a socket that is closing. */
  predicate EndsClosing(s: Sock, c: Completion) {
    !Aborted(c) && c.b.data == [] && s.flags.closing
  }

  /** It was refused for lack of buffers. */
  predicate Refused(s: Sock, c: Completion) {
    !Aborted(c) && c.b.data == [] && !s.flags.closing && Effective(c).err == WSAENOBUFS
  }

  /** What a handler does with completion `c`: it is dropped, and its buffer freed, exactly when it was
      aborted, ends a closing socket or was refused, and otherwise goes to the end of the list; only the
      end of a closing socket makes it closable, only a refusal lowers the cap, and only an aborted
      receive stays counted. */
  predicate Used(s: Sock, t: Sock, c: Completion) {
    && t.flags == s.flags.(closable := s.flags.closable || EndsClosing(s, c))
    && t.recvCap == (if Refused(s, c) then s.recvCap - 1 else s.recvCap)
    && t.io.recvs - InFlight(t.io) == s.io.recvs - InFlight(s.io) + (if Aborted(c) then 1 else 0)
    && (!t.gone ==>
          if Aborted(c) || EndsClosing(s, c) || Refused(s, c)
          then t.pending == s.pending && |t.io.freed| > 0 && t.io.freed[|t.io.freed| - 1] == c.b.id
          else t.pending == s.pending + [Effective(c)])
  }

  lemma RefillCounts(s: Sock, oracle: seq<Outcome>)
    ensures var r := Refill(s, oracle);
            r == s.(io := r.io, needRestart := r.needRestart)
            && r.io.recvs - InFlight(r.io) == s.io.recvs - InFlight(s.io)
  {
    RefillChanges(s, oracle);
    if s.mode == BurstDetect && |s.pending| < s.bufCap {
      GetAndPostRaises(GateOf(s), s.io, IOCP_RECV_BUFSIZE, true, oracle);
      assert Refill(s, oracle) == Post(s, IOCP_RECV_BUFSIZE, true, oracle);
    }
  }

  lemma FinishUsed(s: Sock, h: Sock, c: Completion)
    requires Used(s, h, c) && !h.gone
    ensures Used(s, Finish(h), c)
  {
  }

  lemma DataUsed(s: Sock, t: Sock, r: Sock)
    requires |s.io.port| > 0 && !Aborted(s.io.port[0]) && t == TakeOffPort(s, true)
    requires r == t.(io := r.io, needRestart := r.needRestart) && |r.io.held| > 0
    requires r.io.recvs - InFlight(r.io) == t.io.recvs - InFlight(t.io) && s.io.port[0].b.data != []
    ensures var h := HandleReadBody(t, Effective(s.io.port[0]), r); Used(s, h, s.io.port[0]) && h.gone == s.gone
  {
  }

  lemma EmptyUsed(s: Sock, t: Sock, r: Sock)
    requires |s.io.port| > 0 && !Aborted(s.io.port[0]) && t == TakeOffPort(s, true)
    requires |r.io.held| > 0 && s.io.port[0].b.data == []
    ensures var h := HandleReadBody(t, Effective(s.io.port[0]), r); Used(s, h, s.io.port[0]) && h.gone == s.gone
  {
    if s.flags.closing {
      assert HandleReadBody(t, Effective(s.io.port[0]), r) == FreeHeld(t.(flags := t.flags.(closable := true)));
    } else if Effective(s.io.port[0]).err == WSAENOBUFS {
      assert HandleReadBody(t, Effective(s.io.port[0]), r) == FreeHeld(t.(recvCap := t.recvCap - 1));
    }
  }

  lemma CompletedUsed(s: Sock, t: Sock, r: Sock)
    requires |s.io.port| > 0 && !Aborted(s.io.port[0]) && t == TakeOffPort(s, true) && !s.gone
    requires r == t.(io := r.io, needRestart := r.needRestart) && |r.io.held| > 0
    requires r.io.recvs - InFlight(r.io) == t.io.recvs - InFlight(t.io)
    ensures Used(s, Finish(HandleReadBody(t, Effective(s.io.port[0]), r)), s.io.port[0])
  {
    if s.io.port[0].b.data != [] {
      DataUsed(s, t, r);
    } else {
      EmptyUsed(s, t, r);
    }
    FinishUsed(s, HandleReadBody(t, Effective(s.io.port[0]), r), s.io.port[0]);
  }

  lemma AbortedUsed(s: Sock)
    requires |s.io.port| > 0 && Aborted(s.io.port[0]) && !s.gone
    ensures Used(s, HandleRead(s, []), s.io.port[0])
  {
    FinishUsed(s, FreeHeld(TakeOffPort(s, false)), s.io.port[0]);
  }

  /** Every completion is used that way. */
  lemma HandlerUses(s: Sock, oracle: seq<Outcome>)
    requires |s.io.port| > 0 && !s.gone
    ensures Used(s, HandleRead(s, oracle), s.io.port[0])
  {
    if Aborted(s.io.port[0]) {
      AbortedUsed(s);
      assert HandleRead(s, oracle) == HandleRead(s, []);
    } else {
      var t := TakeOffPort(s, true);
      RefillCounts(t, oracle);
      CompletedUsed(s, t, Refill(t, oracle));
    }
  }
}
