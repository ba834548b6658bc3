/** How much of the memory bound of module RecvRuns a socket in burst mode can use when nobody reads. */
module RecvCaps {
  import opened ReceiveMerge
  import opened RecvEngine
  import opened RecvSafety
  import opened RecvRuns

  // ----- runs from a state -----

  function After(s: Sock, actions: seq<Action>): Sock
    decreases |actions|
  {
    if |actions| == 0 then s else After(Next(s, actions[0]), actions[1..])
  }

  lemma {:induction false} AfterConcat(s: Sock, a: seq<Action>, b: seq<Action>)
    ensures After(s, a + b) == After(After(s, a), b)
    decreases |a|
  {
    if |a| == 0 {
      assert a + b == b;
    } else {
      assert (a + b)[1..] == a[1..] + b;
      AfterConcat(Next(s, a[0]), a[1..], b);
    }
  }

  lemma AfterOne(s: Sock, a: Action)
    ensures After(s, [a]) == Next(s, a)
  {
    assert [a][1..] == [];
  }

  lemma AfterTwo(s: Sock, a: Action, b: Action)
    ensures After(s, [a, b]) == Next(Next(s, a), b)
  {
    assert [a, b] == [a] + [b];
    AfterConcat(s, [a], [b]);
    AfterOne(s, a);
    AfterOne(Next(s, a), b);
  }

  lemma {:induction false} RunAfter(p: Params, oracle: seq<Outcome>, actions: seq<Action>)
    ensures Run(p, oracle, actions) == After(Init(p, oracle), actions)
  {
    if |actions| > 0 {
      var most, last := actions[..|actions| - 1], actions[|actions| - 1];
      RunAfter(p, oracle, most);
      AfterConcat(Init(p, oracle), most, [last]);
      AfterOne(After(Init(p, oracle), most), last);
      assert most + [last] == actions;
    }
  }

  // ----- posting -----

  lemma PostStaysPending(g: Gate, io: Io, buflen: nat, useBurst: bool)
    requires buflen > 0 && !g.shut && io.recvs + 1 <= g.cap
    ensures GetAndPost(g, io, buflen, useBurst, [])
         == io.(recvs := io.recvs + 1, ops := io.ops + 1, nextId := io.nextId + 1,
                kernel := io.kernel + [Buf(io.nextId, buflen, [], NO_ERROR)])
  {
    var b := Buf(io.nextId, buflen, [], NO_ERROR);
    assert Drop(Get(io)) == io.(nextId := io.nextId + 1);
    assert Respond(Get(io), b, []) == IoPending;
    assert !PostOne(g, Get(io), b, useBurst, true, []).again;
  }

  /** The kernel's answers in a burst: `n` receives complete at once with a byte each. */
  function Dones(n: nat): seq<Outcome> {
    if n == 0 then [] else [Done(1)] + Dones(n - 1)
  }

  /** Between `s` and `t`, `n` receives were completed at once and one more was left pending. */
  predicate Burst(s: Io, t: Io, n: nat) {
    && t.recvs == s.recvs + n + 1 && t.held == s.held && |t.remaining| == |s.remaining| - n
    && |t.kernel| == 1 && t.kernel[0].buflen > 0 && t.kernel[0].err == NO_ERROR
    && |t.port| == |s.port| + n && t.port[..|s.port|] == s.port
    && forall i :: |s.port| <= i < |t.port| ==> HasData(t.port[i])
  }

  predicate HasData(c: Completion) {
    |c.b.data| > 0 && c.b.err == NO_ERROR && c.wsaErr == NO_ERROR
  }

  lemma BurstStep(g: Gate, io: Io, buflen: nat, n: nat)
    requires buflen > 0 && !g.shut && io.kernel == [] && io.recvs + 1 <= g.cap && n > 0 && |io.remaining| > 0
    ensures var b := Buf(io.nextId, buflen, [], NO_ERROR);
            var c := Completion(b.(data := io.remaining[..1]), NO_ERROR);
            var t := io.(recvs := io.recvs + 1, ops := io.ops + 1, nextId := io.nextId + 1,
                         port := io.port + [c], remaining := io.remaining[1..]);
            GetAndPost(g, io, buflen, true, Dones(n)) == GetAndPost(g, t, buflen, true, Dones(n - 1))
  {
    var b := Buf(io.nextId, buflen, [], NO_ERROR);
    assert Drop(Get(io)) == io.(nextId := io.nextId + 1);
    assert Respond(Get(io), b, Dones(n)) == Done(1);
    assert Tail(Dones(n)) == Dones(n - 1);
  }

  lemma {:induction false} BurstPost(g: Gate, io: Io, buflen: nat, n: nat)
    requires buflen > 0 && !g.shut && io.kernel == [] && io.recvs + n + 1 <= g.cap && n <= |io.remaining|
    ensures Burst(io, GetAndPost(g, io, buflen, true, Dones(n)), n)
    decreases n
  {
    if n == 0 {
      PostStaysPending(g, io, buflen, true);
    } else {
      var c := Completion(Buf(io.nextId, buflen, io.remaining[..1], NO_ERROR), NO_ERROR);
      var t := io.(recvs := io.recvs + 1, ops := io.ops + 1, nextId := io.nextId + 1,
                   port := io.port + [c], remaining := io.remaining[1..]);
      BurstStep(g, io, buflen, n);
      BurstPost(g, t, buflen, n - 1);
      BurstLonger(io, t, GetAndPost(g, t, buflen, true, Dones(n - 1)), c, n);
    }
  }

  lemma BurstLonger(s: Io, t: Io, u: Io, c: Completion, n: nat)
    requires n > 0 && Burst(t, u, n - 1) && HasData(c) && |s.remaining| > 0
    requires t.recvs == s.recvs + 1 && t.held == s.held && t.port == s.port + [c] && t.remaining == s.remaining[1..]
    ensures Burst(s, u, n)
  {
    assert u.port[..|s.port|] == u.port[..|t.port|][..|s.port|] == s.port;
    assert u.port[|s.port|] == u.port[..|t.port|][|s.port|] == c;
  }

  // ----- rounds -----

  /** Data flows: whatever is pending or on the port is data, and whatever is in the kernel can become
      some. */
  predicate Flowing(s: Sock) {
    && s.mode == BurstDetect && !s.gone && !s.flags.closing && !s.flags.closable && !s.flags.eof
    && s.io.held == [] && s.io.recvs == InFlight(s.io) <= s.recvCap
    && (forall i :: 0 <= i < |s.io.port| ==> HasData(s.io.port[i]))
    && (forall i :: 0 <= i < |s.io.kernel| ==> s.io.kernel[i].buflen > 0 && s.io.kernel[i].err == NO_ERROR)
    && (forall i :: 0 <= i < |s.pending| ==> IsData(s.pending[i]))
  }

  /** The next completion is handled, after a byte arrived if there was none. */
  function Round(s: Sock): seq<Action> {
    if s.io.port == [] then [KernelComplete(1, NO_ERROR), PortRead([])] else [PortRead([])]
  }

  /** The bytes that are still to be handled. */
  function Supply(s: Sock): nat {
    |s.io.remaining| + |s.io.port|
  }

  lemma ByteArrives(s: Sock)
    requires Flowing(s) && |s.io.kernel| > 0 && |s.io.remaining| > 0
    ensures var t := Next(s, KernelComplete(1, NO_ERROR));
            && Flowing(t) && |t.io.port| == |s.io.port| + 1 && |t.io.kernel| == |s.io.kernel| - 1
            && InFlight(t.io) == InFlight(s.io)
            && t == s.(io := t.io) && |t.io.remaining| == |s.io.remaining| - 1 && Supply(t) == Supply(s)
  {
  }

  /** Nothing changed that only the Tcl thread changes. */
  predicate SameTcl(s: Sock, t: Sock) {
    t.restart == s.restart && t.hist == s.hist && t.flags == s.flags
  }

  /** A completion with data was handled, and at most the kernel's queue grew. */
  predicate Handled(s: Sock, t: Sock, posted: nat) {
    && Flowing(t) && |t.pending| == |s.pending| + 1 && t.bufCap == s.bufCap && t.recvCap == s.recvCap
    && Supply(t) == Supply(s) - 1 && InFlight(t.io) == InFlight(s.io) - 1 + posted
    && (posted == 0 ==> t.needRestart) && SameTcl(s, t)
  }

  lemma DataHandled(s: Sock)
    requires Flowing(s) && |s.io.port| > 0
    ensures Handled(s, Next(s, PortRead([])), if |s.pending| < s.bufCap then 1 else 0)
  {
    var t := TakeOffPort(s, true);
    if |s.pending| < s.bufCap {
      PostStaysPending(GateOf(t), t.io, IOCP_RECV_BUFSIZE, true);
    }
  }

  /** What is left until nothing is in flight. */
  function Total(s: Sock): nat {
    (if |s.pending| < s.bufCap then s.bufCap - |s.pending| else 0) + InFlight(s.io)
  }

  lemma OneRound(s: Sock)
    requires Flowing(s) && InFlight(s.io) > 0 && Supply(s) > 0
    ensures var t := After(s, Round(s));
            && Flowing(t) && |t.pending| == |s.pending| + 1 && t.bufCap == s.bufCap && t.recvCap == s.recvCap
            && Supply(t) == Supply(s) - 1
            && InFlight(t.io) == InFlight(s.io) - 1 + (if |s.pending| < s.bufCap then 1 else 0)
            && (|s.pending| >= s.bufCap ==> t.needRestart) && SameTcl(s, t)
  {
    if s.io.port == [] {
      var t := Next(s, KernelComplete(1, NO_ERROR));
      ByteArrives(s);
      DataHandled(t);
      AfterTwo(s, KernelComplete(1, NO_ERROR), PortRead([]));
    } else {
      DataHandled(s);
      AfterOne(s, PortRead([]));
    }
  }

  /** With nobody reading, everything that can be received ends up unread. */
  lemma {:induction false} Unread(s: Sock) returns (actions: seq<Action>)
    requires Flowing(s) && (|s.pending| < s.bufCap ==> InFlight(s.io) > 0) && Supply(s) >= Total(s)
    ensures var t := After(s, actions);
            && Flowing(t) && |t.pending| == |s.pending| + Total(s) && InFlight(t.io) == 0
            && Supply(t) == Supply(s) - Total(s) && SameTcl(s, t) && t.bufCap == s.bufCap && t.recvCap == s.recvCap
            && (InFlight(s.io) > 0 ==> t.needRestart)
    ensures InFlight(s.io) == 0 ==> actions == []
    decreases Total(s)
  {
    if InFlight(s.io) == 0 {
      actions := [];
    } else {
      OneRound(s);
      var more := Unread(After(s, Round(s)));
      AfterConcat(s, Round(s), more);
      actions := Round(s) + more;
    }
  }

  lemma InitFlows(p: Params)
    requires p.mode == BurstDetect && p.recvCap >= 1
    ensures var s := Init(p, []);
            && Flowing(s) && |s.io.kernel| == 1 && s.io.port == [] && s.pending == []
            && s.io.remaining == p.stream && s.recvCap == p.recvCap && s.bufCap == p.bufCap
  {
    PostStaysPending(GateOf(Unopened(p)), Unopened(p).io, IOCP_RECV_BUFSIZE, false);
  }

  // ----- bytes are lost -----

  /** On every socket: the first receive completes with a byte and an error, and reading it loses the
      byte. */
  lemma LosingRun(p: Params, err: int)
    requires p.recvCap >= 1 && p.stream != [] && err != NO_ERROR && err != WSA_OPERATION_ABORTED
    ensures SomeReadLoses(p, [], [KernelComplete(1, err), PortRead([]), TclRead(1, [])])
  {
    var done, handle, read := KernelComplete(1, err), PortRead([]), TclRead(1, []);
    var u := Unopened(p);
    PostStaysPending(GateOf(u), u.io, IOCP_RECV_BUFSIZE, false);
    var s := Init(p, []);
    ErrorArrives(s, err);
    AfterTwo(s, done, handle);
    RunAfter(p, [], [done, handle]);
    assert [done, handle, read][..2] == [done, handle];
  }

  lemma ErrorArrives(s: Sock, err: int)
    requires s.io.port == [] && |s.io.kernel| == 1 && s.io.kernel[0].err == NO_ERROR && s.io.kernel[0].buflen > 0
    requires s.io.remaining != [] && s.pending == [] && !s.gone && s.flags.closable == s.flags.closing == false
    requires s.restart == NoRestart && err != NO_ERROR && err != WSA_OPERATION_ABORTED
    ensures LosingRead(Next(Next(s, KernelComplete(1, err)), PortRead([])), TclRead(1, []))
  {
    var c := Next(s, KernelComplete(1, err));
    assert c.io.port == [Completion(s.io.kernel[0].(data := s.io.remaining[..1]), err)];
    var t, e := TakeOffPort(c, true), Effective(c.io.port[0]);
    RefillChanges(t, []);
    var u := Next(c, PortRead([]));
    assert u == Finish(HandleReadBody(t, e, Refill(t, [])));
    assert u.pending == [e];
  }

  // ----- the bound is met -----

  lemma BurstRefills(t: Sock, n: nat)
    requires t.mode == BurstDetect && !t.flags.closing && !t.flags.eof && |t.pending| < t.bufCap
    requires t.io.kernel == [] && t.io.recvs + n + 1 <= t.recvCap && n <= |t.io.remaining|
    ensures var r := Refill(t, Dones(n)); Burst(t.io, r.io, n) && r == t.(io := r.io)
  {
    BurstPost(GateOf(t), t.io, IOCP_RECV_BUFSIZE, n);
  }

  lemma BurstHandledWith(s: Sock, t: Sock, r: Sock, n: nat)
    requires Flowing(s) && |s.io.port| > 0 && s.io.kernel == [] && t == TakeOffPort(s, true)
    requires Burst(t.io, r.io, n) && r == t.(io := r.io) && InFlight(s.io) + n <= s.recvCap
    ensures Handled(s, Finish(HandleReadBody(t, Effective(s.io.port[0]), r)), n + 1)
  {
  }

  /** A completion is handled while nothing is in the kernel, and `n` receives complete at once. */
  lemma BurstHandled(s: Sock, n: nat)
    requires Flowing(s) && |s.io.port| > 0 && s.io.kernel == [] && |s.pending| < s.bufCap
    requires InFlight(s.io) + n <= s.recvCap && n <= |s.io.remaining|
    ensures Handled(s, Next(s, PortRead(Dones(n))), n + 1)
  {
    var t := TakeOffPort(s, true);
    BurstRefills(t, n);
    BurstHandledWith(s, t, Refill(t, Dones(n)), n);
    assert Next(s, PortRead(Dones(n))) == Finish(HandleReadBody(t, Effective(s.io.port[0]), Refill(t, Dones(n))));
  }

  /** From `s`, with one receive in the kernel, to `t` the receive cap was reached in one burst. */
  predicate ReachedCap(s: Sock, t: Sock) {
    && Flowing(t) && |t.pending| == 1 && InFlight(t.io) == s.recvCap && t.bufCap == s.bufCap
    && Supply(t) == |s.io.remaining| - 1 && t.recvCap == s.recvCap && SameTcl(s, t)
  }

  lemma BurstReachesCap(s: Sock, c: Sock, t: Sock)
    requires s.io.port == [] && |s.io.kernel| == 1 && s.pending == []
    requires c == s.(io := c.io) && InFlight(c.io) == InFlight(s.io) && Supply(c) == Supply(s)
    requires s.recvCap >= 1 && Handled(c, t, s.recvCap)
    ensures ReachedCap(s, t)
  {
  }

  /** From the initial state one byte arrives, and handling it sets off a burst that reaches the cap. */
  lemma FirstBurst(s: Sock)
    requires Flowing(s) && s.io.port == [] && |s.io.kernel| == 1 && s.pending == [] && s.bufCap >= 1
    requires s.recvCap <= |s.io.remaining|
    ensures ReachedCap(s, After(s, [KernelComplete(1, NO_ERROR), PortRead(Dones(s.recvCap - 1))]))
  {
    var done, handle := KernelComplete(1, NO_ERROR), PortRead(Dones(s.recvCap - 1));
    ByteArrives(s);
    BurstHandled(Next(s, done), s.recvCap - 1);
    BurstReachesCap(s, Next(s, done), Next(Next(s, done), handle));
    AfterTwo(s, done, handle);
  }

  /** Whatever the caps, unread buffers alone can fill the whole bound. */
  lemma BoundIsMet(p: Params) returns (actions: seq<Action>)
    requires p.mode == BurstDetect && p.recvCap >= 1 && p.bufCap >= 1 && |p.stream| >= p.recvCap + p.bufCap
    ensures |Run(p, [], actions).pending| == p.recvCap + p.bufCap
  {
    var first := [KernelComplete(1, NO_ERROR), PortRead(Dones(p.recvCap - 1))];
    InitFlows(p);
    FirstBurst(Init(p, []));
    var more := Unread(After(Init(p, []), first));
    actions := first + more;
    AfterConcat(Init(p, []), first, more);
    RunAfter(p, [], actions);
  }

  /** The manual says that unread buffers do not exceed the buffer cap.  That is so in all runs with
      given caps if and only if the receive cap is zero. */
  lemma BufferCapKeptIff(recvCap: nat, bufCap: nat)
    ensures (forall p: Params, oracle, actions ::
              p.mode == BurstDetect && p.recvCap == recvCap && p.bufCap == bufCap
              ==> |Run(p, oracle, actions).pending| <= bufCap)
       <==> recvCap == 0
  {
    if recvCap == 0 {
      forall p: Params, oracle, actions | p.mode == BurstDetect && p.recvCap == recvCap && p.bufCap == bufCap
        ensures |Run(p, oracle, actions).pending| <= bufCap
      {
        BurstMemoryBound(p, oracle, actions);
      }
    } else {
      var p := Params(BurstDetect, recvCap, bufCap, true, seq(bufCap + 1, _ => 0));
      InitFlows(p);
      var actions := Unread(Init(p, []));
      RunAfter(p, [], actions);
      assert |Run(p, [], actions).pending| == bufCap + 1;
    }
  }
}
