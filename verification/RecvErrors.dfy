/** What the kernel's answer to a posted receive becomes, and that an error reaches the read of its
    buffer unchanged. */
module RecvErrors {
  import opened Common
  import opened ReceiveMerge
  import opened RecvEngine
  import opened RecvSafety
  import opened RecvRuns
  import opened RecvCaps

  // ----- one post, answer by answer -----

  /** Posting is refused without room or on a shut socket, each with its own error, and an error that is
      not forced to the port is returned as it is. */
  lemma RefusedWith(g: Gate, io: Io, b: Buf, useBurst: bool, force: bool, oracle: seq<Outcome>)
    requires Holds(io, b)
    ensures var p := PostRecv(g, io, b, useBurst, force, oracle);
            && (g.shut ==> p.rc == WSAENOTCONN)
            && (!g.shut && io.recvs >= g.cap ==> p.rc == WSAENOBUFS)
            && (!g.shut && io.recvs < g.cap ==>
                  p.rc == if Respond(io, b, oracle).Fail? && !force then Respond(io, b, oracle).err else NO_ERROR)
  {
  }

  /** The answer of a kernel that queues the receive: the buffer is the last one in the kernel. */
  lemma QueuedReceive(g: Gate, io: Io, b: Buf, useBurst: bool, force: bool, oracle: seq<Outcome>)
    requires Holds(io, b) && !g.shut && io.recvs < g.cap && Respond(io, b, oracle) == IoPending
    ensures var t := PostRecv(g, io, b, useBurst, force, oracle).io;
            && t.kernel == io.kernel + [Buf(b.id, b.buflen, [], NO_ERROR)]
            && t.port == io.port && t.remaining == io.remaining && t.recvs == io.recvs + 1
  {
  }

  /** The only change was one more completion on the port: that of `b`, with the bytes `data` and the
      error `err`. */
  predicate Answered(io: Io, t: Io, b: Buf, data: seq<Byte>, err: int) {
    && |t.port| == |io.port| + 1 && t.port[..|io.port|] == io.port && t.kernel == io.kernel
    && data + t.remaining == io.remaining && t.recvs == io.recvs + 1 && t.ops == io.ops + 1
    && var e := Effective(t.port[|io.port|]);
       t.port[|io.port|].wsaErr != WSA_OPERATION_ABORTED && e == Buf(b.id, b.buflen, data, err)
  }

  /** A forced post that the kernel refuses puts exactly the kernel's error on the port. */
  lemma ForcedError(g: Gate, io: Io, b: Buf, useBurst: bool, oracle: seq<Outcome>, e: int)
    requires Holds(io, b) && !g.shut && io.recvs < g.cap && e != NO_ERROR
    requires |oracle| > 0 && oracle[0] == Fail(e)
    ensures var p := PostRecv(g, io, b, useBurst, true, oracle);
            p.rc == NO_ERROR && Answered(io, p.io, b, [], e)
  {
    assert [] + io.remaining == io.remaining;
  }

  /** The same for a new buffer, as every caller but the first post of an accepted socket makes it. */
  lemma ForcedErrorOfNew(g: Gate, io: Io, buflen: nat, useBurst: bool, oracle: seq<Outcome>, e: int)
    requires buflen > 0 && !g.shut && io.recvs < g.cap && e != NO_ERROR
    requires |oracle| > 0 && oracle[0] == Fail(e)
    ensures Answered(io, GetAndPost(g, io, buflen, useBurst, oracle), Buf(io.nextId, buflen, [], NO_ERROR), [], e)
  {
    ForcedError(g, Get(io), Buf(io.nextId, buflen, [], NO_ERROR), useBurst, oracle, e);
  }

  /** An immediate completion takes the next bytes of the stream; without bytes, or without burst
      detection, nothing more is posted. */
  lemma CompletedAtOnce(g: Gate, io: Io, b: Buf, useBurst: bool, force: bool, oracle: seq<Outcome>, n: nat)
    requires Holds(io, b) && !g.shut && io.recvs < g.cap && Respond(io, b, oracle) == Done(n)
    requires n == 0 || !useBurst
    ensures n <= |io.remaining|
    ensures Answered(io, PostRecv(g, io, b, useBurst, force, oracle).io, b, io.remaining[..n], NO_ERROR)
  {
  }

  /** With bytes and burst detection, another receive of the same length is posted behind it, in the
      same way. */
  lemma BurstGoesOn(g: Gate, io: Io, b: Buf, force: bool, oracle: seq<Outcome>, n: nat) returns (mid: Io)
    requires Holds(io, b) && !g.shut && io.recvs < g.cap && Respond(io, b, oracle) == Done(n) && n > 0
    ensures n <= |io.remaining| && Answered(io, mid, b, io.remaining[..n], NO_ERROR)
    ensures PostRecv(g, io, b, true, force, oracle).io == GetAndPost(g, mid, b.buflen, true, oracle[1..])
  {
    mid := PostOne(g, io, b, true, force, oracle).io;
  }

  // ----- what posting leaves alone, and the size of what it posts -----

  /** Between `s` and `t` receives joined the kernel's queue and the port at their ends, all of length
      `len` and for buffers that are new or `own`. */
  predicate Joined(s: Io, t: Io, own: nat, len: nat) {
    && s.nextId <= t.nextId && s.kernel <= t.kernel && s.port <= t.port
    && (forall i :: |s.kernel| <= i < |t.kernel| ==>
          t.kernel[i].buflen == len && (t.kernel[i].id == own || t.kernel[i].id >= s.nextId))
    && (forall i :: |s.port| <= i < |t.port| ==>
          t.port[i].b.buflen == len && (t.port[i].b.id == own || t.port[i].b.id >= s.nextId))
  }

  lemma JoinedOne(g: Gate, io: Io, b: Buf, useBurst: bool, force: bool, oracle: seq<Outcome>)
    requires Holds(io, b)
    ensures Joined(io, PostOne(g, io, b, useBurst, force, oracle).io, b.id, b.buflen)
  {
  }

  lemma JoinedThen(s: Io, t: Io, u: Io, own: nat, len: nat)
    requires Joined(s, t, own, len) && Joined(t, u, t.nextId, len)
    ensures Joined(s, u, own, len)
  {
    forall i | |s.kernel| <= i < |u.kernel|
      ensures u.kernel[i].buflen == len && (u.kernel[i].id == own || u.kernel[i].id >= s.nextId)
    {
      if i < |t.kernel| {
        assert u.kernel[i] == t.kernel[i];
      }
    }
    forall i | |s.port| <= i < |u.port|
      ensures u.port[i].b.buflen == len && (u.port[i].b.id == own || u.port[i].b.id >= s.nextId)
    {
      if i < |t.port| {
        assert u.port[i] == t.port[i];
      }
    }
  }

  lemma {:induction false} PostRecvJoins(g: Gate, io: Io, b: Buf, useBurst: bool, force: bool, oracle: seq<Outcome>)
    requires Holds(io, b)
    ensures Joined(io, PostRecv(g, io, b, useBurst, force, oracle).io, b.id, b.buflen)
    decreases Room(g, io), 0
  {
    JoinedOne(g, io, b, useBurst, force, oracle);
    var p := PostOne(g, io, b, useBurst, force, oracle);
    if p.again {
      GetAndPostJoins(g, p.io, b.buflen, true, Tail(oracle));
      JoinedThen(io, p.io, GetAndPost(g, p.io, b.buflen, true, Tail(oracle)), b.id, b.buflen);
    }
  }

  /** Posting a new receive only adds receives of its own length, for new buffers. */
  lemma {:induction false} GetAndPostJoins(g: Gate, io: Io, buflen: nat, useBurst: bool, oracle: seq<Outcome>)
    requires buflen > 0
    ensures Joined(io, GetAndPost(g, io, buflen, useBurst, oracle), io.nextId, buflen)
    decreases Room(g, io), 1
  {
    var b := Buf(io.nextId, buflen, [], NO_ERROR);
    PostRecvJoins(g, Get(io), b, useBurst, true, oracle);
  }

  // ----- errors travel unchanged -----

  /** Buffer `id` was completed, and wherever it still is, it is with error `e`. */
  predicate Carries(pending: seq<Buf>, io: Io, id: nat, e: int) {
    && id < io.nextId
    && (forall i :: 0 <= i < |io.kernel| ==> io.kernel[i].id != id)
    && (forall i :: 0 <= i < |io.port| && io.port[i].b.id == id ==> Effective(io.port[i]).err == e)
    && (forall i :: 0 <= i < |pending| && pending[i].id == id ==> pending[i].err == e)
  }

  lemma JoinedCarries(pending: seq<Buf>, s: Io, t: Io, len: nat, id: nat, e: int)
    requires Carries(pending, s, id, e) && Joined(s, t, s.nextId, len)
    ensures Carries(pending, t, id, e)
  {
    forall i | 0 <= i < |t.kernel| ensures t.kernel[i].id != id {
      if i < |s.kernel| {
        assert t.kernel[i] == s.kernel[i];
      }
    }
    forall i | 0 <= i < |t.port| && t.port[i].b.id == id ensures Effective(t.port[i]).err == e {
      if i < |s.port| {
        assert t.port[i] == s.port[i];
      }
    }
  }

  lemma PostCarries(s: Sock, buflen: nat, useBurst: bool, oracle: seq<Outcome>, id: nat, e: int)
    requires buflen > 0 && Carries(s.pending, s.io, id, e)
    ensures var t := Post(s, buflen, useBurst, oracle); Carries(t.pending, t.io, id, e)
  {
    GetAndPostJoins(GateOf(s), s.io, buflen, useBurst, oracle);
    JoinedCarries(s.pending, s.io, Post(s, buflen, useBurst, oracle).io, buflen, id, e);
  }

  lemma RefillCarries(s: Sock, oracle: seq<Outcome>, id: nat, e: int)
    requires Carries(s.pending, s.io, id, e)
    ensures var t := Refill(s, oracle); Carries(t.pending, t.io, id, e)
  {
    if s.mode == BurstDetect && |s.pending| < s.bufCap {
      PostCarries(s, IOCP_RECV_BUFSIZE, true, oracle, id, e);
      assert Refill(s, oracle) == Post(s, IOCP_RECV_BUFSIZE, true, oracle);
    } else {
      assert Refill(s, oracle).io == s.io;
    }
  }

  lemma TakeOffCarries(s: Sock, counted: bool, id: nat, e: int)
    requires |s.io.port| > 0 && Carries(s.pending, s.io, id, e)
    ensures var t := TakeOffPort(s, counted); Carries(t.pending, t.io, id, e)
    ensures Effective(s.io.port[0]).id == id ==> Effective(s.io.port[0]).err == e
  {
    var t := TakeOffPort(s, counted);
    assert forall i :: 0 <= i < |t.io.port| ==> t.io.port[i] == s.io.port[i + 1];
  }

  lemma PushCarries(s: Sock, b: Buf, id: nat, e: int)
    requires |s.io.held| > 0 && Carries(s.pending, s.io, id, e) && (b.id == id ==> b.err == e)
    ensures var t := PushPending(s, b); Carries(t.pending, t.io, id, e)
  {
  }

  lemma BodyCarries(s: Sock, b: Buf, r: Sock, id: nat, e: int)
    requires |s.io.held| > 0 && |r.io.held| > 0
    requires Carries(s.pending, s.io, id, e) && Carries(r.pending, r.io, id, e)
    requires b.id == id ==> b.err == e
    ensures var t := HandleReadBody(s, b, r); Carries(t.pending, t.io, id, e)
  {
    if |b.data| > 0 {
      PushCarries(r, b, id, e);
    } else if !s.flags.closing && b.err != WSAENOBUFS {
      PushCarries(s.(needRestart := s.needRestart || s.mode == BurstDetect), b, id, e);
    }
  }

  lemma FinishCarries(s: Sock, id: nat, e: int)
    requires Carries(s.pending, s.io, id, e)
    ensures var t := Finish(s); Carries(t.pending, t.io, id, e)
  {
  }

  lemma HandleCarries(s: Sock, oracle: seq<Outcome>, id: nat, e: int)
    requires |s.io.port| > 0 && Carries(s.pending, s.io, id, e)
    ensures var t := HandleRead(s, oracle); Carries(t.pending, t.io, id, e)
  {
    var b := Effective(s.io.port[0]);
    if s.io.port[0].wsaErr == WSA_OPERATION_ABORTED {
      TakeOffCarries(s, false, id, e);
      FinishCarries(FreeHeld(TakeOffPort(s, false)), id, e);
    } else {
      var t := TakeOffPort(s, true);
      TakeOffCarries(s, true, id, e);
      RefillCarries(t, oracle, id, e);
      BodyCarries(t, b, Refill(t, oracle), id, e);
      FinishCarries(HandleReadBody(t, b, Refill(t, oracle)), id, e);
    }
  }

  /** The buffers are the same but for their bytes. */
  predicate SameBuf(a: Buf, b: Buf) {
    a.id == b.id && a.buflen == b.buflen && a.err == b.err
  }

  /** What a merge leaves are the buffers at the end of the list. */
  predicate SameBuffers(bufs: seq<Buf>, rest: seq<Buf>) {
    && |rest| <= |bufs|
    && forall i :: 0 <= i < |rest| ==> SameBuf(rest[i], bufs[|bufs| - |rest| + i])
  }

  lemma SameBuffersOfTail(bufs: seq<Buf>, rest: seq<Buf>)
    requires |bufs| > 0 && SameBuffers(bufs[1..], rest)
    ensures SameBuffers(bufs, rest)
  {
  }

  lemma SameBuffersOfFirst(bufs: seq<Buf>, b: Buf)
    requires |bufs| > 0 && SameBuf(b, bufs[0])
    ensures SameBuffers(bufs, bufs) && SameBuffers(bufs, bufs[1..]) && SameBuffers(bufs, [b] + bufs[1..])
  {
  }

  lemma {:induction false} RestSameBuffers(async: bool, bufs: seq<Buf>, toRead: nat, got: nat)
    requires got <= toRead
    ensures SameBuffers(bufs, MergeLoop(async, bufs, toRead, got).rest)
    decreases |bufs|
  {
    if |bufs| > 0 {
      var b, n := bufs[0], |bufs[0].data|;
      if got + n > toRead {
        SameBuffersOfFirst(bufs, b.(data := b.data[toRead - got..]));
      } else {
        SameBuffersOfFirst(bufs, b);
        if async && IsData(b) {
          RestSameBuffers(async, bufs[1..], toRead, got + n);
          SameBuffersOfTail(bufs, MergeLoop(async, bufs[1..], toRead, got + n).rest);
        }
      }
    }
  }

  lemma TakeCarries(s: Sock, toRead: nat, id: nat, e: int)
    requires Carries(s.pending, s.io, id, e)
    ensures var t := Take(s, toRead); Carries(t.pending, t.io, id, e)
  {
    RestSameBuffers(s.flags.async, s.pending, toRead, 0);
  }

  lemma ReadCarries(s: Sock, toRead: nat, oracle: seq<Outcome>, id: nat, e: int)
    requires toRead > 0 && Carries(s.pending, s.io, id, e)
    ensures var t := InputProc(s, toRead, oracle); Carries(t.pending, t.io, id, e)
  {
    TakeCarries(s, toRead, id, e);
    var t := Take(s, toRead);
    if !Read(s.flags.async, s.pending, toRead).ret.Error? && !t.flags.eof && t.mode == FlowCtrl {
      PostCarries(t, toRead, false, oracle, id, e);
    }
  }

  lemma StepCarries(s: Sock, a: Action, id: nat, e: int)
    requires Carries(s.pending, s.io, id, e)
    ensures var t := Next(s, a); Carries(t.pending, t.io, id, e)
  {
    if Enabled(s, a) {
      match a
      case PortRead(oracle) => HandleCarries(s, oracle, id, e);
      case TclRead(toRead, oracle) => ReadCarries(s, toRead, oracle, id, e);
      case TclPost(oracle) => PostCarries(s, IOCP_RECV_BUFSIZE, true, oracle, id, e);
      case PortDisconnect => FinishCarries(Disconnected(s), id, e);
      case _ =>
    }
  }

  lemma {:induction false} AlwaysCarries(s: Sock, later: seq<Action>, id: nat, e: int)
    requires Carries(s.pending, s.io, id, e)
    ensures var t := After(s, later); Carries(t.pending, t.io, id, e)
    decreases |later|
  {
    if |later| > 0 {
      StepCarries(s, later[0], id, e);
      AlwaysCarries(Next(s, later[0]), later[1..], id, e);
    }
  }

  // ----- the read -----

  /** A read that reports an error found it on a buffer: the last one it took, behind data. */
  lemma {:induction false} ErrorIsOfBuffer(async: bool, bufs: seq<Buf>, toRead: nat, got: nat) returns (k: nat)
    requires got <= toRead && |bufs| > 0 && MergeLoop(async, bufs, toRead, got).ret.Error?
    ensures k < |bufs| && bufs[k].err != NO_ERROR && forall i :: 0 <= i < k ==> IsData(bufs[i])
    ensures var m := MergeLoop(async, bufs, toRead, got);
            m.ret == Error(bufs[k].err) && m.rest == bufs[k + 1..] && m.freed == Ids(bufs[..k + 1])
    decreases |bufs|
  {
    if bufs[0].err != NO_ERROR {
      k := 0;
      assert bufs[..1][1..] == [];
    } else {
      var j := ErrorIsOfBuffer(async, bufs[1..], toRead, got + |bufs[0].data|);
      k := j + 1;
      assert bufs[..k + 1][1..] == bufs[1..][..j + 1];
    }
  }

  lemma {:induction false} CountedTwice(q: seq<Buf>, i: nat, j: nat)
    requires i < j < |q| && q[i].id == q[j].id
    ensures CountIds(q, q[i].id) >= 2
  {
    if i > 0 {
      CountedTwice(q[1..], i - 1, j - 1);
    } else {
      CountedIsThere(q[1..], j - 1);
    }
  }

  lemma NotCounted(q: seq<Buf>, id: nat)
    requires CountIds(q, id) == 0
    ensures forall i :: 0 <= i < |q| ==> q[i].id != id
  {
    forall i | 0 <= i < |q| ensures q[i].id != id {
      CountedIsThere(q, i);
    }
  }

  /** A completion on the port is the only place of its buffer. */
  lemma PortCarries(s: Sock, p: Params, j: nat)
    requires Inv(s, p) && j < |s.io.port|
    ensures Carries(s.pending, s.io, s.io.port[j].b.id, Effective(s.io.port[j]).err)
  {
    var id, q := s.io.port[j].b.id, Eff(s.io.port);
    assert OwnedOnce(s.pending, s.io, id);
    EffAt(s.io.port, j);
    CountedIsThere(q, j);
    NotCounted(s.io.kernel, id);
    NotCounted(s.pending, id);
    forall i | 0 <= i < |s.io.port| && s.io.port[i].b.id == id ensures i == j {
      EffAt(s.io.port, i);
      if i < j {
        CountedTwice(q, i, j);
      } else if j < i {
        CountedTwice(q, j, i);
      }
    }
  }

  /** In every run: once a buffer is completed, the error that a later read returns for it is the one of
      that completion, whatever happens in between. */
  lemma ErrorDelivered(p: Params, oracle: seq<Outcome>, actions: seq<Action>, j: nat, later: seq<Action>, toRead: nat)
      returns (k: nat)
    requires j < |Run(p, oracle, actions).io.port|
    requires var t := After(Run(p, oracle, actions), later);
             t.pending != [] && Read(t.flags.async, t.pending, toRead).ret.Error?
    ensures var s := Run(p, oracle, actions); var t := After(s, later);
            && k < |t.pending| && Read(t.flags.async, t.pending, toRead).ret == Error(t.pending[k].err)
            && (t.pending[k].id == s.io.port[j].b.id ==> t.pending[k].err == Effective(s.io.port[j]).err)
  {
    var s := Run(p, oracle, actions);
    var t := After(s, later);
    RunInv(p, oracle, actions);
    PortCarries(s, p, j);
    AlwaysCarries(s, later, s.io.port[j].b.id, Effective(s.io.port[j]).err);
    k := ErrorIsOfBuffer(t.flags.async, t.pending, toRead, 0);
  }

  /** And when such a buffer without bytes comes first, the read does return its error. */
  lemma ErrorReported(p: Params, oracle: seq<Outcome>, actions: seq<Action>, j: nat, later: seq<Action>, toRead: nat)
    requires j < |Run(p, oracle, actions).io.port|
    requires var s := Run(p, oracle, actions); var t := After(s, later);
             && t.pending != [] && t.pending[0].id == s.io.port[j].b.id && t.pending[0].data == []
             && Effective(s.io.port[j]).err != NO_ERROR
    ensures var s := Run(p, oracle, actions); var t := After(s, later);
            Read(t.flags.async, t.pending, toRead).ret == Error(Effective(s.io.port[j]).err)
  {
    var s := Run(p, oracle, actions);
    RunInv(p, oracle, actions);
    PortCarries(s, p, j);
    AlwaysCarries(s, later, s.io.port[j].b.id, Effective(s.io.port[j]).err);
  }

  /** A completion carries the error the port reports, unless one is stored in the buffer. */
  lemma CompletionError(s: Sock, n: nat, err: int)
    requires CanComplete(s, n, err)
    ensures var t := Next(s, KernelComplete(n, err)); var b := s.io.kernel[0];
            !s.gone ==>
              && |t.io.port| == |s.io.port| + 1
              && Effective(t.io.port[|s.io.port|]) ==
                   Buf(b.id, b.buflen, s.io.remaining[..n], if b.err != NO_ERROR then b.err else err)
  {
  }
}
