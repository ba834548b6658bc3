/** When the memory bound of burst mode is the sum of the caps, and when it is more: the completion
    thread can fill the list between the test of `RepostRecvs` and its post. */
module RecvMemory {
  import opened ReceiveMerge
  import opened RecvEngine
  import opened RecvSafety
  import opened RecvRuns
  import opened RecvCaps

  /** The receives in flight and the unread buffers stay within the sum of the caps. */
  predicate Within(s: Sock, p: Params) {
    InUse(s) <= p.recvCap + p.bufCap
  }

  // ----- what a receive handler does to the counts -----

  /** A handler either replaced its receive, on a list below its cap and leaving the flag alone, or took
      one out of flight; it put at most one buffer on the list. */
  predicate Shape(s: Sock, t: Sock) {
    && t.restart == s.restart && t.mode == s.mode && t.bufCap == s.bufCap && |t.pending| <= |s.pending| + 1
    && (InFlight(t.io) == InFlight(s.io) - 1
        || (s.mode == BurstDetect && |s.pending| < s.bufCap && t.needRestart == s.needRestart))
  }

  lemma FinishShape(s: Sock)
    ensures var t := Finish(s);
            && t.restart == s.restart && t.mode == s.mode && t.bufCap == s.bufCap
            && t.needRestart == s.needRestart && |t.pending| <= |s.pending| && InFlight(t.io) == InFlight(s.io)
  {
  }

  lemma RefillShape(s: Sock, oracle: seq<Outcome>)
    ensures var r := Refill(s, oracle);
            InFlight(r.io) == InFlight(s.io)
            || (s.mode == BurstDetect && |s.pending| < s.bufCap && r.needRestart == s.needRestart)
  {
    var r := Refill(s, oracle);
    if s.mode == BurstDetect && |s.pending| < s.bufCap {
      assert r == Post(s, IOCP_RECV_BUFSIZE, true, oracle);
    } else {
      assert r.io == s.io;
    }
  }

  lemma BodyShape(s: Sock, b: Buf, r: Sock)
    requires |s.io.held| > 0 && |r.io.held| > 0 && r == s.(io := r.io, needRestart := r.needRestart)
    requires InFlight(r.io) == InFlight(s.io)
             || (s.mode == BurstDetect && |s.pending| < s.bufCap && r.needRestart == s.needRestart)
    ensures var t := HandleReadBody(s, b, r);
            && t.restart == s.restart && t.mode == s.mode && t.bufCap == s.bufCap && |t.pending| <= |s.pending| + 1
            && (InFlight(t.io) == InFlight(s.io)
                || (s.mode == BurstDetect && |s.pending| < s.bufCap && t.needRestart == s.needRestart))
  {
  }

  lemma HandleShape(s: Sock, oracle: seq<Outcome>)
    requires |s.io.port| > 0
    ensures Shape(s, HandleRead(s, oracle))
  {
    if s.io.port[0].wsaErr == WSA_OPERATION_ABORTED {
      FinishShape(FreeHeld(TakeOffPort(s, false)));
    } else {
      var t, e := TakeOffPort(s, true), Effective(s.io.port[0]);
      RefillChanges(t, oracle);
      RefillShape(t, oracle);
      BodyShape(t, e, Refill(t, oracle));
      FinishShape(HandleReadBody(t, e, Refill(t, oracle)));
      assert HandleRead(s, oracle) == Finish(HandleReadBody(t, e, Refill(t, oracle)));
    }
  }

  // ----- the sum of the caps -----

  lemma HandleWithin(s: Sock, oracle: seq<Outcome>, p: Params)
    requires Inv(s, p) && s.mode == BurstDetect && !s.gone && |s.io.port| > 0 && Within(s, p)
    ensures Within(HandleRead(s, oracle), p)
  {
    HandleShape(s, oracle);
    HandleReadInv(s, oracle, p);
  }

  /** Only a post that finds more unread buffers than the cap allows can break the smaller bound. */
  lemma StepWithin(s: Sock, a: Action, p: Params)
    requires Inv(s, p) && s.mode == BurstDetect && Within(s, p)
    requires a.TclPost? ==> |s.pending| <= s.bufCap
    ensures Within(Next(s, a), p)
  {
    StepInv(s, a, p);
    if Enabled(s, a) {
      match a
      case PortRead(oracle) => HandleWithin(s, oracle, p);
      case TclRead(toRead, oracle) => RestIsEnd(s.flags.async, s.pending, toRead, 0);
      case _ =>
    }
  }

  /** A post of the run found more unread buffers than the cap allows. */
  predicate LatePost(p: Params, oracle: seq<Outcome>, actions: seq<Action>) {
    |actions| > 0
    && var s, a := Run(p, oracle, actions[..|actions| - 1]), actions[|actions| - 1];
       LatePost(p, oracle, actions[..|actions| - 1]) || (a.TclPost? && |s.pending| > s.bufCap && Enabled(s, a))
  }

  /** In every run of burst mode the bound is the sum of the caps until such a post. */
  lemma {:induction false} WithinUntilLatePost(p: Params, oracle: seq<Outcome>, actions: seq<Action>)
    requires p.mode == BurstDetect && !LatePost(p, oracle, actions)
    ensures Within(Run(p, oracle, actions), p)
  {
    if |actions| == 0 {
      RunInv(p, oracle, actions);
      assert Run(p, oracle, actions).pending == [];
    } else {
      var most, a := actions[..|actions| - 1], actions[|actions| - 1];
      WithinUntilLatePost(p, oracle, most);
      RunInv(p, oracle, most);
      if Enabled(Run(p, oracle, most), a) {
        StepWithin(Run(p, oracle, most), a, p);
      }
    }
  }

  /** With a single receive the list cannot fill behind the test, because the flag asks for a restart
      only while nothing is in flight; with a buffer cap of zero the test never succeeds. */
  predicate NoRace(s: Sock, p: Params) {
    && (s.restart == ToPost ==> |s.pending| < s.bufCap)
    && (p.recvCap <= 1 && p.bufCap > 0 ==>
          && (s.restart == ToPost ==> InFlight(s.io) == 0)
          && (s.needRestart && s.restart != ToClear ==> InFlight(s.io) == 0))
  }

  lemma StepNoRace(s: Sock, a: Action, p: Params)
    requires Inv(s, p) && s.mode == BurstDetect && NoRace(s, p) && (p.recvCap <= 1 || p.bufCap == 0)
    ensures NoRace(Next(s, a), p)
  {
    if Enabled(s, a) && a.PortRead? {
      HandleShape(s, a.oracle);
    }
  }

  lemma {:induction false} RunNoRace(p: Params, oracle: seq<Outcome>, actions: seq<Action>)
    requires p.mode == BurstDetect && (p.recvCap <= 1 || p.bufCap == 0)
    ensures NoRace(Run(p, oracle, actions), p) && !LatePost(p, oracle, actions)
  {
    if |actions| > 0 {
      var most := actions[..|actions| - 1];
      RunNoRace(p, oracle, most);
      RunInv(p, oracle, most);
      StepNoRace(Run(p, oracle, most), actions[|actions| - 1], p);
    }
  }

  // ----- twice the receive cap -----

  lemma {:induction false} CompleteAll(s: Sock) returns (actions: seq<Action>)
    requires Flowing(s) && |s.io.remaining| >= |s.io.kernel|
    ensures var t := After(s, actions);
            && Flowing(t) && t.io.kernel == [] && InFlight(t.io) == InFlight(s.io) && Supply(t) == Supply(s)
            && t == s.(io := t.io)
    decreases |s.io.kernel|
  {
    if s.io.kernel == [] {
      actions := [];
    } else {
      var done := KernelComplete(1, NO_ERROR);
      ByteArrives(s);
      var more := CompleteAll(Next(s, done));
      AfterConcat(s, [done], more);
      AfterOne(s, done);
      actions := [done] + more;
    }
  }

  /** Data is handled until the list is full and a restart is asked for. */
  lemma {:induction false} FillToFlag(s: Sock) returns (actions: seq<Action>)
    requires Flowing(s) && |s.pending| <= s.bufCap && InFlight(s.io) > 0 && Supply(s) > s.bufCap - |s.pending|
    ensures var t := After(s, actions);
            && Flowing(t) && |t.pending| == s.bufCap + 1 && t.needRestart && InFlight(t.io) == InFlight(s.io) - 1
            && Supply(t) == Supply(s) - (s.bufCap - |s.pending|) - 1 && SameTcl(s, t)
            && t.bufCap == s.bufCap && t.recvCap == s.recvCap
    decreases s.bufCap - |s.pending|
  {
    OneRound(s);
    if |s.pending| == s.bufCap {
      actions := Round(s);
    } else {
      var more := FillToFlag(After(s, Round(s)));
      AfterConcat(s, Round(s), more);
      actions := Round(s) + more;
    }
  }

  /** A read takes everything and passes the test. */
  lemma ReadTests(s: Sock, toRead: nat)
    requires Flowing(s) && s.flags.async && s.needRestart && s.restart == NoRestart
    requires s.pending != [] && 0 < s.bufCap && toRead > 0 && |Flat(s.pending)| <= toRead
    ensures var t := Next(s, TclRead(toRead, []));
            && Flowing(t) && t.restart == ToPost && t.pending == [] && InFlight(t.io) == InFlight(s.io)
            && t.bufCap == s.bufCap && t.recvCap == s.recvCap && Supply(t) == Supply(s)
            && t.hist.failed == s.hist.failed && t.needRestart
  {
    ReadAll(s.pending, toRead, 0);
  }

  lemma {:induction false} ReadAll(bufs: seq<Buf>, toRead: nat, got: nat)
    requires got + |Flat(bufs)| <= toRead && forall i :: 0 <= i < |bufs| ==> IsData(bufs[i])
    ensures var m := MergeLoop(true, bufs, toRead, got); m.ret.Bytes? && m.rest == [] && !m.eof
    decreases |bufs|
  {
    if |bufs| > 0 {
      ReadAll(bufs[1..], toRead, got + |bufs[0].data|);
    }
  }

  /** The post comes late, and the kernel answers it with a burst. */
  lemma PostsLate(s: Sock)
    requires Flowing(s) && s.restart == ToPost && InFlight(s.io) == 0 && s.recvCap >= 1
    requires |s.io.remaining| >= s.recvCap - 1
    ensures var t := Next(s, TclPost(Dones(s.recvCap - 1)));
            && Flowing(t) && InFlight(t.io) == s.recvCap && t.pending == s.pending
            && Supply(t) == Supply(s) && t.bufCap == s.bufCap && t.recvCap == s.recvCap
  {
    BurstPost(GateOf(s), s.io, IOCP_RECV_BUFSIZE, s.recvCap - 1);
  }

  /** Between the test and the post the completion thread fills the list, and everything in flight. */
  lemma FillBehindTest(s: Sock) returns (actions: seq<Action>)
    requires Flowing(s) && s.pending == [] && s.bufCap >= 1 && s.recvCap >= 2 && InFlight(s.io) == s.recvCap - 1
    requires Supply(s) >= 2 * s.recvCap + s.bufCap
    ensures var t := After(s, actions);
            && Flowing(t) && |t.pending| == s.recvCap + s.bufCap && InFlight(t.io) == 0
            && Supply(t) == Supply(s) - s.recvCap - s.bufCap && SameTcl(s, t)
            && t.bufCap == s.bufCap && t.recvCap == s.recvCap
  {
    var done := CompleteAll(s);
    var u := After(s, done);
    var handle := PortRead(Dones(1));
    BurstHandled(u, 1);
    var fill := Unread(Next(u, handle));
    AfterConcat(s, done, [handle]);
    AfterOne(u, handle);
    AfterConcat(s, done + [handle], fill);
    actions := done + [handle] + fill;
  }

  /** The race, from the test on: nothing is read, and everything ends up unread. */
  lemma Race(s: Sock) returns (actions: seq<Action>)
    requires Flowing(s) && s.pending == [] && s.bufCap >= 1 && s.recvCap >= 2 && InFlight(s.io) == s.recvCap - 1
    requires s.restart == ToPost && Supply(s) >= 3 * s.recvCap + s.bufCap
    ensures |After(s, actions).pending| == 2 * s.recvCap + s.bufCap
  {
    var fill := FillBehindTest(s);
    var t := After(s, fill);
    var post := TclPost(Dones(t.recvCap - 1));
    PostsLate(t);
    var rest := Unread(Next(t, post));
    AfterConcat(s, fill, [post]);
    AfterOne(t, post);
    AfterConcat(s, fill + [post], rest);
    actions := fill + [post] + rest;
  }

  lemma PendingFromStream(p: Params, actions: seq<Action>)
    ensures |Flat(After(Init(p, []), actions).pending)| <= |p.stream|
  {
    RunAfter(p, [], actions);
    RunInv(p, [], actions);
    var s := Run(p, [], actions);
    assert s.pending + [] == s.pending;
    if s.gone {
      assert s.pending == [];
    }
  }

  /** A full burst, and then the list filled until a restart is asked for, with receives in flight. */
  lemma FlagWhileInFlight(p: Params) returns (actions: seq<Action>)
    requires p.mode == BurstDetect && p.recvCap >= 2 && p.bufCap >= 1 && |p.stream| > p.recvCap + p.bufCap
    ensures var s := After(Init(p, []), actions);
            && Flowing(s) && |s.pending| == p.bufCap + 1 && s.needRestart && InFlight(s.io) == p.recvCap - 1
            && Supply(s) == |p.stream| - p.bufCap - 1 && s.restart == NoRestart && s.flags.async == p.async
            && s.bufCap == p.bufCap && s.recvCap == p.recvCap
  {
    var s := Init(p, []);
    InitFlows(p);
    var first := [KernelComplete(1, NO_ERROR), PortRead(Dones(p.recvCap - 1))];
    FirstBurst(s);
    var fill := FillToFlag(After(s, first));
    AfterConcat(s, first, fill);
    actions := first + fill;
  }

  /** With two receives or more the bound of twice the receive cap plus the buffer cap is met, by unread
      buffers alone. */
  lemma BigBoundIsMet(p: Params) returns (actions: seq<Action>)
    requires p.mode == BurstDetect && p.async && p.recvCap >= 2 && p.bufCap >= 1
    requires |p.stream| > 3 * p.recvCap + 2 * p.bufCap
    ensures |Run(p, [], actions).pending| == 2 * p.recvCap + p.bufCap
  {
    var fill := FlagWhileInFlight(p);
    var s0 := Init(p, []);
    var s := After(s0, fill);
    PendingFromStream(p, fill);
    var read := TclRead(|p.stream|, []);
    ReadTests(s, |p.stream|);
    var race := Race(Next(s, read));
    AfterConcat(s0, fill, [read]);
    AfterOne(s, read);
    AfterConcat(s0, fill + [read], race);
    actions := fill + [read] + race;
    RunAfter(p, [], actions);
  }

  /** In all runs with given caps the bound is their sum if and only if there is a single receive, or
      none, or the buffer cap is zero. */
  lemma SumBoundIff(recvCap: nat, bufCap: nat)
    ensures (forall p: Params, oracle, actions ::
              p.mode == BurstDetect && p.recvCap == recvCap && p.bufCap == bufCap
              ==> InUse(Run(p, oracle, actions)) <= recvCap + bufCap)
       <==> recvCap <= 1 || bufCap == 0
  {
    if recvCap <= 1 || bufCap == 0 {
      forall p: Params, oracle, actions | p.mode == BurstDetect && p.recvCap == recvCap && p.bufCap == bufCap
        ensures InUse(Run(p, oracle, actions)) <= recvCap + bufCap
      {
        RunNoRace(p, oracle, actions);
        WithinUntilLatePost(p, oracle, actions);
      }
    } else {
      var p := Params(BurstDetect, recvCap, bufCap, true, seq(3 * recvCap + 2 * bufCap + 1, _ => 0));
      var actions := BigBoundIsMet(p);
      assert InUse(Run(p, [], actions)) > recvCap + bufCap;
    }
  }
}
