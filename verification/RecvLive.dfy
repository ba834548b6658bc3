/** Whether receiving goes on in module RecvEngine: which steps can stop it, and that nothing else does. */
module RecvLive {
  import opened ReceiveMerge
  import opened RecvEngine
  import opened RecvSafety
  import opened RecvRuns
  import opened RecvCaps
  import opened RecvMemory

  /** The socket still has to receive, and may. */
  predicate Open(s: Sock) {
    !s.flags.eof && !s.flags.closing && !s.hist.failed && s.recvCap >= 1
  }

  /** Unread buffers wait for a read that will post a receive. */
  predicate Awaited(s: Sock) {
    s.pending != [] && (s.mode == BurstDetect ==> s.needRestart)
  }

  /** A receive is in flight, or one is about to be posted, or a read will post one. */
  predicate Progressing(s: Sock) {
    InFlight(s.io) > 0 || s.restart == ToPost || Awaited(s)
  }

  /** The completion is a receive refused for lack of buffers: no replacement is posted, and nothing is
      put on the list. */
  predicate NoBuffers(c: Completion) {
    c.wsaErr != WSA_OPERATION_ABORTED && c.b.data == [] && Effective(c).err == WSAENOBUFS
  }

  /** The steps that stop a progressing socket: handling the refusal of its only receive while no read
      is awaited and no post under way, and clearing `needRecvRestart` when nothing is in flight. */
  predicate Stalls(s: Sock, a: Action) {
    && Enabled(s, a)
    && (|| (a.PortRead? && NoBuffers(s.io.port[0]) && InFlight(s.io) == 1 && !Awaited(s) && s.restart != ToPost)
        || (a.TclClear? && InFlight(s.io) == 0))
  }

  /** The step that sets a stopped socket going again: a blocking read of an empty list. */
  predicate Revives(s: Sock, a: Action) {
    Enabled(s, a) && a.TclRead? && !s.flags.async && s.pending == [] && (s.mode == BurstDetect ==> s.needRestart)
  }

  // ----- one step -----

  lemma PostProgresses(s: Sock, own: nat, p: Params, buflen: nat, useBurst: bool, oracle: seq<Outcome>)
    requires buflen > 0 && Counts(s, own, p) && Open(s)
    ensures InFlight(Post(s, buflen, useBurst, oracle).io) > 0
  {
    var io, b := Get(s.io), Buf(s.io.nextId, buflen, [], NO_ERROR);
    PostRecvRaises(GateOf(s), io, b, useBurst, true, oracle);
  }

  lemma RefillProgresses(s: Sock, oracle: seq<Outcome>, p: Params)
    requires Counts(s, 1, p) && Open(s)
    ensures var t := Refill(s, oracle);
            InFlight(t.io) > 0 || (s.mode == BurstDetect ==> t.needRestart && |s.pending| >= s.bufCap)
  {
    if s.mode == BurstDetect && |s.pending| < s.bufCap {
      PostProgresses(s, 1, p, IOCP_RECV_BUFSIZE, true, oracle);
    }
  }

  lemma FinishOpen(s: Sock)
    requires !s.flags.closable
    ensures Finish(s) == s.(io := s.io.(ops := s.io.ops - 1))
  {
  }

  /** From `s` to `t` a completion was put on the list as `b`. */
  predicate Listed(s: Sock, b: Buf, t: Sock) {
    && t.recvCap == s.recvCap && t.pending == s.pending + [b] && Progressing(t)
    && t.flags == s.flags && t.hist == s.hist && t.restart == s.restart
    && t.mode == s.mode && t.bufCap == s.bufCap
    && (IsData(b) && InFlight(t.io) == 0 && s.mode == BurstDetect ==> |s.pending| >= s.bufCap)
  }

  lemma BodyWithData(s: Sock, b: Buf, r: Sock)
    requires |s.io.held| > 0 && |r.io.held| > 0 && !s.flags.closable && b.data != []
    requires r == s.(io := r.io, needRestart := r.needRestart)
    requires InFlight(r.io) > 0 || (s.mode == BurstDetect ==> r.needRestart && |s.pending| >= s.bufCap)
    ensures Listed(s, b, Finish(HandleReadBody(s, b, r)))
  {
    FinishOpen(HandleReadBody(s, b, r));
  }

  lemma BodyWithoutData(s: Sock, b: Buf, r: Sock)
    requires |s.io.held| > 0 && |r.io.held| > 0 && Open(s) && !s.flags.closable && b.data == []
    ensures var t := Finish(HandleReadBody(s, b, r));
            if b.err == WSAENOBUFS
            then t == s.(recvCap := s.recvCap - 1, io := t.io) && InFlight(t.io) == InFlight(s.io)
            else Listed(s, b, t)
  {
    FinishOpen(HandleReadBody(s, b, r));
  }

  /** Handling a completion of an open socket: either it was refused for lack of buffers, or it is on
      the list and the socket progresses. */
  lemma HandleProgress(s: Sock, oracle: seq<Outcome>, p: Params)
    requires Inv(s, p) && !s.gone && |s.io.port| > 0 && Open(s)
    ensures var t := HandleRead(s, oracle);
            if NoBuffers(s.io.port[0])
            then t == s.(recvCap := s.recvCap - 1, io := t.io) && InFlight(t.io) == InFlight(s.io) - 1
            else Listed(s, Effective(s.io.port[0]), t)
  {
    var t, e := TakeOffPort(s, true), Effective(s.io.port[0]);
    assert HandleRead(s, oracle) == Finish(HandleReadBody(t, e, Refill(t, oracle)));
    if e.data == [] {
      BodyWithoutData(t, e, Refill(t, oracle));
    } else {
      TakeOffCounts(s, true, p);
      RefillProgresses(t, oracle, p);
      RefillChanges(t, oracle);
      BodyWithData(t, e, Refill(t, oracle));
    }
  }

  lemma RepostProgresses(s: Sock, toRead: nat, oracle: seq<Outcome>, p: Params)
    requires toRead > 0 && Counts(s, 0, p) && Open(s)
    requires InFlight(s.io) > 0 || (s.mode == BurstDetect ==> s.needRestart)
    ensures var t := Repost(s, toRead, oracle);
            InFlight(t.io) > 0 || t.restart == ToPost || (s.mode == BurstDetect && t == s && |s.pending| >= s.bufCap)
  {
    if s.mode == FlowCtrl {
      PostProgresses(s, 0, p, toRead, false, oracle);
    }
  }

  /** The post of `RepostRecvs` leaves a receive in flight, whatever came between it and the test. */
  lemma PostStepProgresses(s: Sock, oracle: seq<Outcome>, p: Params)
    requires Inv(s, p) && !s.gone && Open(s) && s.restart == ToPost
    ensures InFlight(Next(s, TclPost(oracle)).io) > 0
  {
    PostProgresses(s, 0, p, IOCP_RECV_BUFSIZE, true, oracle);
    assert Next(s, TclPost(oracle)) == PostRestart(s, oracle);
    assert PostRestart(s, oracle).io == Post(s, IOCP_RECV_BUFSIZE, true, oracle).io;
  }

  lemma ReadProgress(s: Sock, toRead: nat, oracle: seq<Outcome>, p: Params)
    requires Inv(s, p) && Enabled(s, TclRead(toRead, oracle)) && (p.mode == BurstDetect ==> p.bufCap > 0)
    requires var t := InputProc(s, toRead, oracle); Open(s) && Open(t)
    ensures var t := InputProc(s, toRead, oracle);
            Progressing(t) <==> Progressing(s) || Revives(s, TclRead(toRead, oracle))
  {
    if !Read(s.flags.async, s.pending, toRead).ret.Error? {
      TakeInv(s, toRead, p);
      if Progressing(s) || Revives(s, TclRead(toRead, oracle)) {
        RepostProgresses(Take(s, toRead), toRead, oracle, p);
      } else {
        StaysStopped(s, toRead, oracle);
      }
    }
  }

  lemma StaysStopped(s: Sock, toRead: nat, oracle: seq<Outcome>)
    requires toRead > 0 && InFlight(s.io) == 0 && s.restart == NoRestart
    requires if s.mode == BurstDetect then !s.needRestart || (s.flags.async && s.pending == [])
             else s.flags.async && s.pending == []
    ensures var t := InputProc(s, toRead, oracle); !Progressing(t)
  {
  }

  /** While an open socket may receive, a step stops it if and only if it is one of `Stalls`, and sets
      it going again if and only if it is one of `Revives`. */
  lemma StepProgress(s: Sock, a: Action, p: Params)
    requires Inv(s, p) && (p.mode == BurstDetect ==> p.bufCap > 0) && Open(s) && Open(Next(s, a))
    ensures Progressing(s) ==> (!Progressing(Next(s, a)) <==> Stalls(s, a))
    ensures !Progressing(s) ==> (Progressing(Next(s, a)) <==> Revives(s, a))
  {
    if Enabled(s, a) {
      match a
      case PortRead(oracle) => HandleProgress(s, oracle, p);
      case TclRead(toRead, oracle) => ReadProgress(s, toRead, oracle, p);
      case TclPost(oracle) => PostStepProgresses(s, oracle, p);
      case _ =>
    }
  }

  // ----- every run -----

  /** By the guards of its steps, the run has stopped the socket and not set it going again. */
  predicate Stopped(p: Params, oracle: seq<Outcome>, actions: seq<Action>) {
    |actions| > 0
    && var s, a := Run(p, oracle, actions[..|actions| - 1]), actions[|actions| - 1];
       if Stopped(p, oracle, actions[..|actions| - 1]) then !Revives(s, a) else Stalls(s, a)
  }

  lemma OpenBefore(s: Sock, a: Action)
    requires Open(Next(s, a))
    ensures Open(s) && Next(s, a).recvCap <= s.recvCap
  {
    if Enabled(s, a) {
      match a
      case PortRead(oracle) =>
        if s.io.port[0].wsaErr != WSA_OPERATION_ABORTED {
          RefillChanges(TakeOffPort(s, true), oracle);
          OpenBeforeHandling(TakeOffPort(s, true), Effective(s.io.port[0]), Refill(TakeOffPort(s, true), oracle));
        }
      case _ =>
    }
  }

  lemma OpenBeforeHandling(s: Sock, b: Buf, r: Sock)
    requires |s.io.held| > 0 && |r.io.held| > 0 && r == s.(io := r.io, needRestart := r.needRestart)
    ensures var t := Finish(HandleReadBody(s, b, r)); (Open(t) ==> Open(s)) && t.recvCap <= s.recvCap
  {
  }

  /** In every run, as long as the socket is open, it progresses exactly when no step stopped it. */
  lemma {:induction false} ProgressIff(p: Params, oracle: seq<Outcome>, actions: seq<Action>)
    requires (p.mode == BurstDetect ==> p.bufCap > 0) && Open(Run(p, oracle, actions))
    ensures Progressing(Run(p, oracle, actions)) <==> !Stopped(p, oracle, actions)
  {
    if |actions| == 0 {
      PostProgresses(Unopened(p), 0, p, IOCP_RECV_BUFSIZE, false, oracle);
    } else {
      var most, last := actions[..|actions| - 1], actions[|actions| - 1];
      RunInv(p, oracle, most);
      OpenBefore(Run(p, oracle, most), last);
      ProgressIff(p, oracle, most);
      StepProgress(Run(p, oracle, most), last, p);
    }
  }

  /** In flow-controlled mode receiving never stalls, unless the kernel refused a receive for lack of
      buffers. */
  lemma NeverStalls(p: Params, oracle: seq<Outcome>, actions: seq<Action>)
    requires p.mode == FlowCtrl
    requires Open(Run(p, oracle, actions)) && Run(p, oracle, actions).recvCap == p.recvCap
    ensures Progressing(Run(p, oracle, actions))
  {
    ProgressIff(p, oracle, actions);
    NotStopped(p, oracle, actions);
  }

  lemma {:induction false} NotStopped(p: Params, oracle: seq<Outcome>, actions: seq<Action>)
    requires p.mode == FlowCtrl && Open(Run(p, oracle, actions)) && Run(p, oracle, actions).recvCap == p.recvCap
    ensures !Stopped(p, oracle, actions)
  {
    if |actions| > 0 {
      var most, a := actions[..|actions| - 1], actions[|actions| - 1];
      var s := Run(p, oracle, most);
      RunInv(p, oracle, most);
      OpenBefore(s, a);
      NotStopped(p, oracle, most);
      if Stalls(s, a) {
        HandleProgress(s, a.oracle, p);
      }
    }
  }

  /** In every run: a read of an open socket that returns bytes, followed by its post, leaves a receive
      in flight if and only if there was one, or the mode is flow-controlled, or the restart flag was set
      and the read leaves fewer buffers than the cap. */
  lemma ReadRestarts(p: Params, oracle: seq<Outcome>, actions: seq<Action>, toRead: nat,
                     answers: seq<Outcome>, more: seq<Outcome>)
    requires var s := Run(p, oracle, actions); var m := Read(s.flags.async, s.pending, toRead);
             Enabled(s, TclRead(toRead, answers)) && Open(s) && m.ret.Bytes? && !m.eof
    ensures var s := Run(p, oracle, actions); var m := Read(s.flags.async, s.pending, toRead);
            InFlight(Next(Next(s, TclRead(toRead, answers)), TclPost(more)).io) > 0
            <==> InFlight(s.io) > 0 || p.mode == FlowCtrl || (s.needRestart && |m.rest| < p.bufCap)
  {
    var s := Run(p, oracle, actions);
    RunInv(p, oracle, actions);
    ReadThenPost(s, toRead, answers, more, p);
  }

  lemma ReadThenPost(s: Sock, toRead: nat, answers: seq<Outcome>, more: seq<Outcome>, p: Params)
    requires Inv(s, p) && Enabled(s, TclRead(toRead, answers)) && Open(s)
    requires var m := Read(s.flags.async, s.pending, toRead); m.ret.Bytes? && !m.eof
    ensures var m := Read(s.flags.async, s.pending, toRead);
            InFlight(Next(Next(s, TclRead(toRead, answers)), TclPost(more)).io) > 0
            <==> InFlight(s.io) > 0 || s.mode == FlowCtrl || (s.needRestart && |m.rest| < s.bufCap)
  {
    var t := Take(s, toRead);
    var u := Next(s, TclRead(toRead, answers));
    TakeInv(s, toRead, p);
    RepostInv(t, toRead, answers, p);
    assert u == Repost(t, toRead, answers);
    if s.mode == FlowCtrl {
      PostProgresses(t, 0, p, toRead, false, answers);
    } else if s.needRestart && |t.pending| < s.bufCap {
      PostStepProgresses(u, more, p);
    }
  }

  // ----- the late clear -----

  /** Between posting and clearing, an open socket that has nothing in flight has a full list, or its
      EOF or an error on the list, or was refused buffers. */
  predicate ClearLaw(s: Sock, p: Params) {
    s.restart == ToClear && Open(s) && InFlight(s.io) == 0 ==>
      |s.pending| >= s.bufCap || HasEnd(s.pending) || s.recvCap < p.recvCap
  }

  predicate HasEnd(q: seq<Buf>) {
    exists i :: 0 <= i < |q| && !IsData(q[i])
  }

  lemma EndStays(q: seq<Buf>, b: Buf)
    ensures HasEnd(q + [b]) <==> HasEnd(q) || !IsData(b)
  {
    if HasEnd(q) {
      var i :| 0 <= i < |q| && !IsData(q[i]);
      assert (q + [b])[i] == q[i];
    }
    assert (q + [b])[|q|] == b;
  }

  lemma StepClearLaw(s: Sock, a: Action, p: Params)
    requires Inv(s, p) && ClearLaw(s, p)
    ensures ClearLaw(Next(s, a), p)
  {
    var t := Next(s, a);
    if Enabled(s, a) && Open(t) && t.restart == ToClear {
      OpenBefore(s, a);
      if a.PortRead? {
        HandleProgress(s, a.oracle, p);
        EndStays(s.pending, Effective(s.io.port[0]));
      } else if a.TclPost? {
        PostStepProgresses(s, a.oracle, p);
      }
    }
  }

  /** So in every run the clearing step stops an open socket only when the completion thread filled the
      list to its cap since the post, or the stream ended, or buffers were refused. */
  lemma {:induction false} ClearFindsFullList(p: Params, oracle: seq<Outcome>, actions: seq<Action>)
    ensures ClearLaw(Run(p, oracle, actions), p)
  {
    if |actions| > 0 {
      ClearFindsFullList(p, oracle, actions[..|actions| - 1]);
      RunInv(p, oracle, actions[..|actions| - 1]);
      StepClearLaw(Run(p, oracle, actions[..|actions| - 1]), actions[|actions| - 1], p);
    }
  }

  /** In burst mode a stopped socket whose flag is clear. */
  predicate Dead(s: Sock) {
    s.mode == BurstDetect && InFlight(s.io) == 0 && !s.needRestart && s.restart == NoRestart && !s.flags.closing
  }

  lemma StaysDead(s: Sock, a: Action)
    requires Dead(s)
    ensures Dead(Next(s, a)) || Next(s, a).flags.closing
  {
  }

  lemma StaysClosing(s: Sock, a: Action)
    requires s.flags.closing
    ensures Next(s, a).flags.closing
  {
    if Enabled(s, a) && a.PortRead? {
      RefillChanges(TakeOffPort(s, true), a.oracle);
      StaysClosingHandling(TakeOffPort(s, true), Effective(s.io.port[0]), Refill(TakeOffPort(s, true), a.oracle));
    }
  }

  lemma StaysClosingHandling(s: Sock, b: Buf, r: Sock)
    requires |s.io.held| > 0 && |r.io.held| > 0 && r == s.(io := r.io, needRestart := r.needRestart)
    requires s.flags.closing
    ensures Finish(HandleReadBody(s, b, r)).flags.closing
  {
  }

  /** Nothing but closing it ends that: no read ever posts a receive again. */
  lemma {:induction false} DeadForever(s: Sock, later: seq<Action>)
    requires Dead(s) || s.flags.closing
    ensures Dead(After(s, later)) || After(s, later).flags.closing
    decreases |later|
  {
    if |later| > 0 {
      if Dead(s) {
        StaysDead(s, later[0]);
      } else {
        StaysClosing(s, later[0]);
      }
      DeadForever(Next(s, later[0]), later[1..]);
    }
  }

  /** A read takes everything and posts, with the clearing still to come. */
  lemma ReadRefills(s: Sock, toRead: nat)
    requires Flowing(s) && s.flags.async && s.needRestart && s.restart == NoRestart && InFlight(s.io) == 0
    requires s.pending != [] && 0 < s.bufCap && s.recvCap >= 1 && toRead > 0 && |Flat(s.pending)| <= toRead
    ensures var t := Next(Next(s, TclRead(toRead, [])), TclPost([]));
            && Flowing(t) && t.restart == ToClear && t.pending == [] && InFlight(t.io) == 1
            && t.bufCap == s.bufCap && t.recvCap == s.recvCap && Supply(t) == Supply(s)
            && t.hist.failed == s.hist.failed
  {
    ReadTests(s, toRead);
    var t := Next(s, TclRead(toRead, []));
    PostStaysPending(GateOf(t), t.io, IOCP_RECV_BUFSIZE, true);
  }

  /** A read restarts receiving, and the completion thread fills the list again before the clear. */
  lemma RestartAndFill(s: Sock, toRead: nat) returns (actions: seq<Action>)
    requires Flowing(s) && s.flags.async && s.needRestart && s.restart == NoRestart && InFlight(s.io) == 0
    requires s.pending != [] && 0 < s.bufCap && s.recvCap >= 1 && toRead > 0 && |Flat(s.pending)| <= toRead
    requires Supply(s) > s.bufCap + 1 && !s.hist.failed
    ensures var t := After(s, actions);
            && Flowing(t) && t.restart == ToClear && InFlight(t.io) == 0 && |t.pending| == s.bufCap + 1
            && t.recvCap == s.recvCap && |t.io.remaining| > 0 && !t.hist.failed
  {
    var read := TclRead(toRead, []);
    ReadRefills(s, toRead);
    var fill := Unread(Next(Next(s, read), TclPost([])));
    actions := [read, TclPost([])] + fill;
    AfterConcat(s, [read, TclPost([])], fill);
    AfterTwo(s, read, TclPost([]));
  }

  /** The first run fills the list, and its unread bytes are no more than the stream. */
  lemma FirstFill(p: Params) returns (actions: seq<Action>)
    requires p.mode == BurstDetect && p.recvCap >= 1 && |p.stream| > p.bufCap
    ensures var s := After(Init(p, []), actions);
            && Flowing(s) && |s.pending| == p.bufCap + 1 && InFlight(s.io) == 0
            && s.needRestart && s.restart == NoRestart
            && s.flags.async == p.async && s.bufCap == p.bufCap && s.recvCap == p.recvCap && !s.hist.failed
            && Supply(s) == |p.stream| - (p.bufCap + 1) && |Flat(s.pending)| <= |p.stream|
  {
    InitFlows(p);
    actions := Unread(Init(p, []));
    RunAfter(p, [], actions);
    RunInv(p, [], actions);
    var s := After(Init(p, []), actions);
    assert s.pending + [] == s.pending;
  }

  /** This happens, whatever the caps: a read restarts receiving, the completion thread fills the list
      again and asks for another restart, and then the late clear undoes that.  The socket is open, the
      kernel refused nothing, bytes are still to come, and no read will ever post again. */
  lemma LateClearStalls(p: Params) returns (actions: seq<Action>)
    requires p.mode == BurstDetect && p.async && p.recvCap >= 1 && p.bufCap >= 1
    requires |p.stream| > 2 * (p.bufCap + 1)
    ensures var s := Run(p, [], actions);
            && Stalls(s, TclClear) && Open(s) && s.recvCap == p.recvCap && |s.io.remaining| > 0
            && Dead(ClearRestart(s)) && ClearRestart(s) == Next(s, TclClear)
    ensures forall later :: var t := After(ClearRestart(Run(p, [], actions)), later); Dead(t) || t.flags.closing
  {
    var fill := FirstFill(p);
    var s := After(Init(p, []), fill);
    var again := RestartAndFill(s, |p.stream|);
    actions := fill + again;
    AfterConcat(Init(p, []), fill, again);
    RunAfter(p, [], actions);
    ghost var dead := ClearRestart(Run(p, [], actions));
    forall later ensures Dead(After(dead, later)) || After(dead, later).flags.closing {
      DeadForever(dead, later);
    }
  }

  // ----- lack of buffers -----

  /** When the first receive is refused for lack of buffers, nothing is in flight or pending, and no
      asynchronous read changes that. */
  lemma StallsForLackOfBuffers(p: Params, toRead: nat, answers: seq<Outcome>)
    requires p.async && p.recvCap >= 1 && toRead > 0
    ensures var s := Run(p, [], [KernelComplete(0, WSAENOBUFS), PortRead([])]);
            && !s.flags.eof && !s.flags.closing && !s.hist.failed && !Progressing(s)
            && Ahead(s) == p.stream && InputProc(s, toRead, answers) == s
  {
    var one, two := [KernelComplete(0, WSAENOBUFS)], [KernelComplete(0, WSAENOBUFS), PortRead([])];
    assert two[..1] == one && one[..0] == [];
    var u := Unopened(p);
    PostStaysPending(GateOf(u), u.io, IOCP_RECV_BUFSIZE, false);
    var s0 := Run(p, [], []);
    var s1 := Next(s0, one[0]);
    assert s1.io.port == [Completion(s0.io.kernel[0].(data := p.stream[..0]), WSAENOBUFS)];
    assert Run(p, [], one) == s1;
  }
}
