/** The run-level theorems about module RecvEngine. */
module RecvRuns {
  import opened Common
  import opened ReceiveMerge
  import opened RecvEngine
  import opened RecvSafety

  // ----- the invariant; `own` counts a running handler's reference, `mid` is its buffer -----

  predicate Counts(s: Sock, own: nat, p: Params) {
    && s.mode == p.mode && s.bufCap == p.bufCap
    && (!s.gone ==> s.io.ops == InFlight(s.io) + own + if s.disconnecting then 2 else 0)
    && InFlight(s.io) <= s.io.recvs <= p.recvCap && s.recvCap <= p.recvCap
    && (!s.flags.closing ==> s.io.recvs == InFlight(s.io))
    && (s.disconnecting || s.flags.closable ==> s.flags.closing)
    && (s.restart != NoRestart ==> s.mode == BurstDetect && !s.flags.closing && !s.flags.eof)
    && (s.gone ==> InFlight(s.io) == 0 && s.pending == [] && !s.disconnecting && s.flags.closing)
  }

  /** The receives in flight and the unread buffers. */
  function InUse(s: Sock): nat {
    InFlight(s.io) + |s.pending|
  }

  /** In burst mode they stay within twice the receive cap and the buffer cap, and within the caps from
      the test of `RepostRecvs` to its post. */
  predicate Memory(s: Sock, mid: nat, p: Params) {
    s.mode == BurstDetect ==>
      InUse(s) + mid <= (if s.restart == ToPost then p.recvCap else 2 * p.recvCap) + p.bufCap
  }

  /** Buffer `id` is owned once if it was ever allocated, and otherwise not at all. */
  predicate OwnedOnce(pending: seq<Buf>, io: Io, id: nat) {
    CountIds(pending, id) + OwnedIo(io, id) == if id < io.nextId then 1 else 0
  }

  /** Every buffer ever allocated is in exactly one place. */
  ghost predicate Ledger(s: Sock) {
    forall id: nat :: OwnedOnce(s.pending, s.io, id)
  }

  function Ahead(s: Sock): seq<Byte> {
    Flat(Eff(s.io.port)) + s.io.remaining
  }

  /** What Tcl can still get. */
  function Left(s: Sock, mid: seq<Buf>): seq<Byte> {
    Flat(s.pending + mid) + Ahead(s)
  }

  /** What Tcl got and what is still ahead of it make up the stream, unless bytes were lost. */
  predicate Accounted(lost: bool, delivered: seq<Byte>, ahead: seq<Byte>, stream: seq<Byte>) {
    if lost then |delivered| + |ahead| < |stream| else delivered + ahead == stream
  }

  /** The peer's stream is what Tcl got, then what is pending, then what is on the port, then what is
      still to come; and behind an EOF there is nothing. */
  predicate StreamOk(s: Sock, mid: seq<Buf>, p: Params) {
    && FullLength(s.pending + mid)
    && IoBytes(s.pending + mid, s.io, s.flags.closing, Ahead(s))
    && (!s.gone ==> Accounted(s.hist.lost, s.hist.delivered, Left(s, mid), p.stream))
  }

  ghost predicate Inv(s: Sock, p: Params) {
    Counts(s, 0, p) && Memory(s, 0, p) && Ledger(s) && StreamOk(s, [], p) && s.io.held == []
  }

  // ----- posting -----

  lemma PostCounts(s: Sock, own: nat, p: Params, buflen: nat, useBurst: bool, oracle: seq<Outcome>)
    requires buflen > 0 && Counts(s, own, p) && !s.gone
    ensures Counts(Post(s, buflen, useBurst, oracle), own, p)
  {
    GetAndPostRaises(GateOf(s), s.io, buflen, useBurst, oracle);
  }

  lemma PostLedger(pending: seq<Buf>, io: Io, g: Gate, buflen: nat, useBurst: bool, oracle: seq<Outcome>, id: nat)
    requires buflen > 0 && OwnedOnce(pending, io, id)
    ensures OwnedOnce(pending, GetAndPost(g, io, buflen, useBurst, oracle), id)
  {
    GetAndPostHanded(g, io, buflen, useBurst, oracle, id);
  }

  lemma PostStream(s: Sock, mid: seq<Buf>, p: Params, buflen: nat, useBurst: bool, oracle: seq<Outcome>)
    requires buflen > 0 && StreamOk(s, mid, p)
    ensures StreamOk(Post(s, buflen, useBurst, oracle), mid, p)
  {
    if s.flags.closing {
      ShutGate(GateOf(s), s.io, buflen, useBurst, oracle);
    } else {
      GetAndPostBytes(s.pending + mid, Ahead(s), GateOf(s), s.io, buflen, useBurst, oracle);
    }
  }

  // ----- the completion thread -----

  lemma TakeOffCounts(s: Sock, counted: bool, p: Params)
    requires |s.io.port| > 0 && Counts(s, 0, p) && !s.gone
    requires counted || s.flags.closing
    ensures Counts(TakeOffPort(s, counted), 1, p)
  {
  }

  lemma TakeOffLedger(s: Sock, counted: bool, id: nat)
    requires |s.io.port| > 0 && OwnedOnce(s.pending, s.io, id)
    ensures OwnedOnce(s.pending, TakeOffPort(s, counted).io, id)
  {
    CountInAppend(s.io.held, s.io.port[0].b.id, id);
    assert Eff(s.io.port)[1..] == Eff(s.io.port[1..]);
  }

  lemma TakeOffBytes(s: Sock, counted: bool)
    requires |s.io.port| > 0
    ensures var t := TakeOffPort(s, counted);
            Left(t, [Effective(s.io.port[0])]) == Left(s, [])
  {
    var e, rest := Effective(s.io.port[0]), Eff(s.io.port[1..]);
    assert s.pending + [] == s.pending;
    FlatAppend(s.pending, e);
    assert Flat(s.pending) + (e.data + Flat(rest) + s.io.remaining)
        == Flat(s.pending) + e.data + (Flat(rest) + s.io.remaining);
  }

  lemma TakeOffStream(s: Sock, p: Params, counted: bool)
    requires |s.io.port| > 0 && StreamOk(s, [], p)
    ensures StreamOk(TakeOffPort(s, counted), [Effective(s.io.port[0])], p)
  {
    TakeOffBytes(s, counted);
    assert s.pending + [] == s.pending;
    assert s.pending + Eff(s.io.port) == s.pending + [Effective(s.io.port[0])] + Eff(s.io.port[1..]);
  }

  lemma PushLedger(pending: seq<Buf>, io: Io, b: Buf, id: nat)
    requires |io.held| > 0 && io.held[|io.held| - 1] == b.id && OwnedOnce(pending, io, id)
    ensures OwnedOnce(pending + [b], Drop(io), id)
  {
    CountIdsAppend(pending, b, id);
  }

  /** Nothing of the history, and not whether the socket is closing, changed. */
  predicate SameHistory(s: Sock, t: Sock) {
    t.flags.closing == s.flags.closing && t.gone == s.gone && t.hist == s.hist
  }

  lemma PushStream(s: Sock, b: Buf, p: Params, t: Sock)
    requires |s.io.held| > 0 && StreamOk(s, [b], p)
    requires SameHistory(s, t) && t.pending == s.pending + [b] && t.io == Drop(s.io)
    ensures StreamOk(t, [], p)
  {
    assert s.pending + [b] + [] == s.pending + [b];
  }

  lemma LawDrop(a: seq<Buf>, b: Buf, c: seq<Buf>, remaining: seq<Byte>)
    requires EofLaw(a + [b] + c, remaining)
    ensures EofLaw(a + c, remaining)
  {
    var q, r := a + [b] + c, a + c;
    forall i | 0 <= i < |r| && IsEof(r[i])
      ensures remaining == [] && forall j :: i < j < |r| ==> r[j].data == []
    {
      var i' := if i < |a| then i else i + 1;
      assert q[i'] == r[i];
      forall j | i < j < |r| ensures r[j].data == [] {
        assert r[j] == q[if j < |a| then j else j + 1];
      }
    }
  }

  /** A buffer without bytes may be dropped. */
  lemma FreeStream(s: Sock, b: Buf, p: Params, t: Sock)
    requires |s.io.held| > 0 && StreamOk(s, [b], p) && b.data == []
    requires SameHistory(s, t) && t.pending == s.pending && t.io == Free(s.io)
    ensures StreamOk(t, [], p)
  {
    FlatAppend(s.pending, b);
    assert s.pending + [] == s.pending;
    assert forall i :: 0 <= i < |s.pending| ==> (s.pending + [b])[i] == s.pending[i];
    if !s.flags.closing {
      LawDrop(s.pending, b, Eff(s.io.port), s.io.remaining);
    }
  }

  lemma RefillCounts(s: Sock, oracle: seq<Outcome>, p: Params)
    requires Counts(s, 1, p) && Memory(s, 1, p) && !s.gone
    ensures var t := Refill(s, oracle);
            Counts(t, 1, p) && Memory(t, 1, p) && !t.gone && t.pending == s.pending
  {
    if s.mode == BurstDetect && |s.pending| < s.bufCap {
      PostCounts(s, 1, p, IOCP_RECV_BUFSIZE, true, oracle);
    }
  }

  lemma RefillLedger(s: Sock, oracle: seq<Outcome>, id: nat)
    requires OwnedOnce(s.pending, s.io, id)
    ensures OwnedOnce(s.pending, Refill(s, oracle).io, id)
  {
    if s.mode == BurstDetect && |s.pending| < s.bufCap {
      PostLedger(s.pending, s.io, GateOf(s), IOCP_RECV_BUFSIZE, true, oracle, id);
      assert Refill(s, oracle).io == GetAndPost(GateOf(s), s.io, IOCP_RECV_BUFSIZE, true, oracle);
    } else {
      assert Refill(s, oracle).io == s.io;
    }
  }

  lemma RefillStream(s: Sock, mid: seq<Buf>, oracle: seq<Outcome>, p: Params)
    requires StreamOk(s, mid, p)
    ensures StreamOk(Refill(s, oracle), mid, p)
  {
    if s.mode == BurstDetect && |s.pending| < s.bufCap {
      PostStream(s, mid, p, IOCP_RECV_BUFSIZE, true, oracle);
    }
  }

  lemma RefillChanges(s: Sock, oracle: seq<Outcome>)
    ensures var t := Refill(s, oracle); t == s.(io := t.io, needRestart := t.needRestart)
  {
    var t := Refill(s, oracle);
    if s.mode == BurstDetect && |s.pending| < s.bufCap {
      assert t == Post(s, IOCP_RECV_BUFSIZE, true, oracle);
    } else {
      assert t == s.(needRestart := t.needRestart);
    }
  }

  lemma PushCounts(s: Sock, b: Buf, p: Params)
    requires |s.io.held| > 0 && Counts(s, 1, p) && Memory(s, 1, p) && !s.gone
    ensures var t := PushPending(s, b);
            Counts(t, 1, p) && Memory(t, 0, p) && !t.gone
  {
  }

  lemma FreeCounts(s: Sock, p: Params)
    requires |s.io.held| > 0 && Counts(s, 1, p) && Memory(s, 1, p) && !s.gone
    ensures var t := FreeHeld(s);
            Counts(t, 1, p) && Memory(t, 0, p) && !t.gone
  {
  }

  lemma BodyCounts(s: Sock, b: Buf, r: Sock, p: Params)
    requires |s.io.held| > 0 && Counts(s, 1, p) && Memory(s, 1, p) && !s.gone
    requires |r.io.held| > 0 && Counts(r, 1, p) && Memory(r, 1, p) && !r.gone
    ensures var t := HandleReadBody(s, b, r);
            Counts(t, 1, p) && Memory(t, 0, p) && !t.gone
  {
    if |b.data| > 0 {
      PushCounts(r, b, p);
    } else if s.flags.closing {
      FreeCounts(s.(flags := s.flags.(closable := true)), p);
    } else if b.err == WSAENOBUFS {
      FreeCounts(s.(recvCap := s.recvCap - 1), p);
    } else {
      PushCounts(s.(needRestart := s.needRestart || s.mode == BurstDetect), b, p);
    }
  }

  lemma BodyLedger(s: Sock, b: Buf, r: Sock, id: nat)
    requires s.io.held == [b.id] && OwnedOnce(s.pending, s.io, id)
    requires r.io.held == [b.id] && OwnedOnce(r.pending, r.io, id)
    ensures var t := HandleReadBody(s, b, r); OwnedOnce(t.pending, t.io, id) && t.io.held == []
  {
    if |b.data| > 0 {
      PushLedger(r.pending, r.io, b, id);
    } else if s.flags.closing || b.err == WSAENOBUFS {
      HandedFree(s.io, id);
    } else {
      PushLedger(s.pending, s.io, b, id);
    }
  }

  lemma FinishLedger(s: Sock, id: nat)
    requires OwnedOnce(s.pending, s.io, id)
    ensures var t := Finish(s); OwnedOnce(t.pending, t.io, id) && t.io.held == s.io.held
  {
    var t := Finish(s);
    assert t.io.kernel == s.io.kernel && t.io.port == s.io.port && t.io.held == s.io.held && t.io.nextId == s.io.nextId;
    if s.io.ops - 1 <= 0 && s.flags.closable {
      CountInConcat(s.io.freed, Ids(s.pending), id);
      CountInIds(s.pending, id);
    }
  }

  lemma BodyStream(s: Sock, b: Buf, r: Sock, p: Params)
    requires |s.io.held| > 0 && StreamOk(s, [b], p)
    requires |r.io.held| > 0 && StreamOk(r, [b], p)
    ensures StreamOk(HandleReadBody(s, b, r), [], p)
  {
    var t := HandleReadBody(s, b, r);
    if |b.data| > 0 {
      PushStream(r, b, p, t);
    } else if s.flags.closing || b.err == WSAENOBUFS {
      FreeStream(s, b, p, t);
    } else {
      PushStream(s, b, p, t);
    }
  }

  lemma FinishInv(s: Sock, p: Params)
    requires Counts(s, 1, p) && Memory(s, 0, p) && StreamOk(s, [], p) && !s.gone
    ensures var t := Finish(s); Counts(t, 0, p) && Memory(t, 0, p) && StreamOk(t, [], p) && t.io.held == s.io.held
  {
    if Finish(s).gone {
      assert s.io.kernel == [] && s.io.port == [];
      assert Finish(s).pending + [] == [];
    }
  }

  // ----- steps of the completion thread -----

  /** A handler runs: it holds buffer `b` and its operation's reference. */
  ghost predicate InHand(s: Sock, b: Buf, p: Params) {
    && !s.gone && s.io.held == [b.id]
    && Counts(s, 1, p) && Memory(s, 1, p) && Ledger(s) && StreamOk(s, [b], p)
  }

  /** The handler has given the buffer away and still has its reference. */
  ghost predicate Settled(s: Sock, p: Params) {
    && !s.gone && s.io.held == []
    && Counts(s, 1, p) && Memory(s, 0, p) && Ledger(s) && StreamOk(s, [], p)
  }

  lemma TakeOffInHand(s: Sock, counted: bool, p: Params)
    requires Inv(s, p) && !s.gone && |s.io.port| > 0 && (counted || s.flags.closing)
    ensures InHand(TakeOffPort(s, counted), Effective(s.io.port[0]), p)
  {
    var t := TakeOffPort(s, counted);
    TakeOffCounts(s, counted, p);
    TakeOffStream(s, p, counted);
    forall id: nat ensures OwnedOnce(t.pending, t.io, id) { TakeOffLedger(s, counted, id); }
  }

  lemma FreeSettles(s: Sock, b: Buf, p: Params)
    requires InHand(s, b, p) && b.data == []
    ensures Settled(FreeHeld(s), p)
  {
    var t := FreeHeld(s);
    FreeCounts(s, p);
    FreeStream(s, b, p, t);
    forall id: nat ensures OwnedOnce(t.pending, t.io, id) {
      assert OwnedOnce(s.pending, s.io, id);
      HandedFree(s.io, id);
    }
  }

  lemma RefillInHand(s: Sock, b: Buf, oracle: seq<Outcome>, p: Params)
    requires InHand(s, b, p)
    ensures InHand(Refill(s, oracle), b, p)
  {
    var t := Refill(s, oracle);
    RefillCounts(s, oracle, p);
    RefillStream(s, [b], oracle, p);
    forall id: nat ensures OwnedOnce(t.pending, t.io, id) { RefillLedger(s, oracle, id); }
  }

  lemma BodySettles(s: Sock, b: Buf, r: Sock, p: Params)
    requires InHand(s, b, p) && InHand(r, b, p)
    ensures Settled(HandleReadBody(s, b, r), p)
  {
    var t := HandleReadBody(s, b, r);
    BodyCounts(s, b, r, p);
    BodyStream(s, b, r, p);
    forall id: nat ensures OwnedOnce(t.pending, t.io, id) && t.io.held == [] { BodyLedger(s, b, r, id); }
    BodyLedger(s, b, r, 0);
  }

  /** Handling an OP_READ completion settles it: its bytes are at the end of the list, or it had none. */
  lemma ReadSettles(s: Sock, b: Buf, oracle: seq<Outcome>, p: Params)
    requires InHand(s, b, p)
    ensures Settled(HandleReadBody(s, b, Refill(s, oracle)), p)
  {
    RefillInHand(s, b, oracle, p);
    BodySettles(s, b, Refill(s, oracle), p);
  }

  /** The end of a handler keeps the invariant, whether or not it frees the socket. */
  lemma FinishSettled(s: Sock, p: Params)
    requires Settled(s, p)
    ensures Inv(Finish(s), p)
  {
    var t := Finish(s);
    FinishInv(s, p);
    forall id: nat ensures OwnedOnce(t.pending, t.io, id) {
      assert OwnedOnce(s.pending, s.io, id);
      FinishLedger(s, id);
    }
  }

  lemma HandleReadInv(s: Sock, oracle: seq<Outcome>, p: Params)
    requires Inv(s, p) && !s.gone && |s.io.port| > 0
    ensures Inv(HandleRead(s, oracle), p)
  {
    var e := Effective(s.io.port[0]);
    if s.io.port[0].wsaErr == WSA_OPERATION_ABORTED {
      TakeOffInHand(s, false, p);
      FreeSettles(TakeOffPort(s, false), e, p);
      FinishSettled(FreeHeld(TakeOffPort(s, false)), p);
    } else {
      var t := TakeOffPort(s, true);
      TakeOffInHand(s, true, p);
      ReadSettles(t, e, oracle, p);
      FinishSettled(HandleReadBody(t, e, Refill(t, oracle)), p);
    }
  }

  /** The socket while an OP_DISCONNECT handler ends. */
  function Disconnected(s: Sock): Sock {
    s.(disconnecting := false, io := s.io.(ops := s.io.ops - 1), flags := s.flags.(closable := true))
  }

  lemma DisconnectSettles(s: Sock, p: Params)
    requires Inv(s, p) && !s.gone && s.disconnecting
    ensures Settled(Disconnected(s), p)
  {
    forall id: nat ensures OwnedOnce(s.pending, Disconnected(s).io, id) {
      assert OwnedOnce(s.pending, s.io, id);
    }
  }

  lemma HandleDisconnectInv(s: Sock, p: Params)
    requires Inv(s, p) && !s.gone && s.disconnecting
    ensures Inv(HandleDisconnect(s), p)
  {
    DisconnectSettles(s, p);
    FinishSettled(Disconnected(s), p);
  }

  // ----- steps of the kernel -----

  lemma CompleteLedger(s: Sock, n: nat, err: int, id: nat)
    requires CanComplete(s, n, err) && OwnedOnce(s.pending, s.io, id)
    ensures var t := Complete(s, n, err); OwnedOnce(t.pending, t.io, id)
  {
    var t := Complete(s, n, err);
    var c := t.io.port[|s.io.port|];
    EffAppend(s.io.port, c);
    CountIdsAppend(Eff(s.io.port), Effective(c), id);
  }

  lemma CompleteInv(s: Sock, n: nat, err: int, p: Params)
    requires Inv(s, p) && !s.gone && CanComplete(s, n, err)
    ensures Inv(Complete(s, n, err), p)
  {
    var t := Complete(s, n, err);
    PortGrows(s.pending + [], s.io, t.io, s.flags.closing, Ahead(s), t.io.port[|s.io.port|]);
    forall id: nat ensures OwnedOnce(t.pending, t.io, id) { CompleteLedger(s, n, err, id); }
  }

  lemma AbortLedger(s: Sock, i: nat, id: nat)
    requires i < |s.io.kernel| && OwnedOnce(s.pending, s.io, id)
    ensures var t := Abort(s, i); OwnedOnce(t.pending, t.io, id)
  {
    var t, k := Abort(s, i), s.io.kernel;
    var c := t.io.port[|s.io.port|];
    EffAppend(s.io.port, c);
    CountIdsAppend(Eff(s.io.port), Effective(c), id);
    CountIdsConcat(k[..i], k[i + 1..], id);
    CountIdsConcat(k[..i], k[i..], id);
    assert k[..i] + k[i..] == k;
  }

  lemma AbortInv(s: Sock, i: nat, p: Params)
    requires Inv(s, p) && !s.gone && s.flags.closing && i < |s.io.kernel|
    ensures Inv(Abort(s, i), p)
  {
    var t := Abort(s, i);
    PortGrows(s.pending + [], s.io, t.io, s.flags.closing, Ahead(s), t.io.port[|s.io.port|]);
    forall id: nat ensures OwnedOnce(t.pending, t.io, id) { AbortLedger(s, i, id); }
  }

  // ----- steps of the Tcl thread -----

  /** `rest` is the end of `bufs`, except that its first buffer may have lost bytes but not all. */
  predicate EndOf(bufs: seq<Buf>, rest: seq<Buf>) {
    && |rest| <= |bufs|
    && forall i :: 0 <= i < |rest| ==>
         var b := bufs[|bufs| - |rest| + i];
         (IsEof(rest[i]) ==> IsEof(b)) && (b.data == [] ==> rest[i].data == [])
  }

  lemma EndOfTail(bufs: seq<Buf>, rest: seq<Buf>)
    requires |bufs| > 0 && EndOf(bufs[1..], rest)
    ensures EndOf(bufs, rest)
  {
  }

  lemma EndOfFirst(bufs: seq<Buf>)
    requires |bufs| > 0
    ensures EndOf(bufs, bufs) && EndOf(bufs, bufs[1..])
  {
  }

  lemma EndOfCut(bufs: seq<Buf>, b: Buf)
    requires |bufs| > 0 && b.data != []
    requires bufs[0].data != []
    ensures EndOf(bufs, [b] + bufs[1..])
  {
  }

  lemma {:induction false} RestIsEnd(async: bool, bufs: seq<Buf>, toRead: nat, got: nat)
    requires got <= toRead
    ensures EndOf(bufs, MergeLoop(async, bufs, toRead, got).rest)
    decreases |bufs|
  {
    if |bufs| > 0 {
      var n := |bufs[0].data|;
      EndOfFirst(bufs);
      if got + n > toRead {
        EndOfCut(bufs, bufs[0].(data := bufs[0].data[toRead - got..]));
      } else if async && IsData(bufs[0]) {
        RestIsEnd(async, bufs[1..], toRead, got + n);
        EndOfTail(bufs, MergeLoop(async, bufs[1..], toRead, got + n).rest);
      }
    }
  }

  lemma LawOfEnd(bufs: seq<Buf>, rest: seq<Buf>, port: seq<Buf>, remaining: seq<Byte>)
    requires EndOf(bufs, rest) && EofLaw(bufs + port, remaining)
    ensures EofLaw(rest + port, remaining)
  {
    var q, r, d := bufs + port, rest + port, |bufs| - |rest|;
    forall i | 0 <= i < |r|
      ensures (IsEof(r[i]) ==> IsEof(q[d + i])) && (q[d + i].data == [] ==> r[i].data == [])
    {
      if i < |rest| {
        assert r[i] == rest[i] && q[d + i] == bufs[d + i];
      } else {
        assert r[i] == port[i - |rest|] && q[d + i] == port[d + i - |bufs|];
      }
    }
  }

  lemma TakeLedger(s: Sock, toRead: nat, id: nat)
    requires OwnedOnce(s.pending, s.io, id) && FullLength(s.pending)
    ensures var t := Take(s, toRead); OwnedOnce(t.pending, t.io, id)
  {
    var m := Read(s.flags.async, s.pending, toRead);
    MergeConserves(s.flags.async, s.pending, toRead, 0);
    CountInConcat(s.io.freed, m.freed, id);
    CountInConcat(m.freed, Ids(m.rest), id);
    CountInIds(m.rest, id);
    CountInIds(s.pending, id);
  }

  /** Bytes move from the front of what is ahead to what was delivered, or some are lost. */
  lemma AccountTaken(lost: bool, delivered: seq<Byte>, flat: seq<Byte>, ahead: seq<Byte>, stream: seq<Byte>,
                     loses: bool, given: seq<Byte>, rest: seq<Byte>)
    requires Accounted(lost, delivered, flat + ahead, stream)
    requires if loses then |given| + |rest| < |flat| else given + rest == flat
    ensures Accounted(lost || loses, delivered + given, rest + ahead, stream)
  {
    Regroup(delivered, given, rest, ahead);
    if !loses {
      assert |given| + |rest| == |flat|;
    }
  }

  lemma TakeBytes(s: Sock, toRead: nat, stream: seq<Byte>)
    requires FullLength(s.pending) && Accounted(s.hist.lost, s.hist.delivered, Left(s, []), stream)
    ensures var t := Take(s, toRead); Accounted(t.hist.lost, t.hist.delivered, Left(t, []), stream)
  {
    var m := Read(s.flags.async, s.pending, toRead);
    assert s.pending + [] == s.pending && m.rest + [] == m.rest;
    MergeConserves(s.flags.async, s.pending, toRead, 0);
    LosesIff(s.flags.async, s.pending, toRead);
    AccountTaken(s.hist.lost, s.hist.delivered, Flat(s.pending), Ahead(s), stream,
                 Losing(s.flags.async, s.pending, toRead), Given(m), Flat(m.rest));
  }

  lemma TakeStream(s: Sock, toRead: nat, p: Params)
    requires StreamOk(s, [], p) && !s.flags.closing && !s.gone
    ensures StreamOk(Take(s, toRead), [], p)
  {
    var rest := Read(s.flags.async, s.pending, toRead).rest;
    assert s.pending + [] == s.pending && rest + [] == rest;
    MergeConserves(s.flags.async, s.pending, toRead, 0);
    TakeBytes(s, toRead, p.stream);
    RestIsEnd(s.flags.async, s.pending, toRead, 0);
    LawOfEnd(s.pending, rest, Eff(s.io.port), s.io.remaining);
  }

  lemma TakeInv(s: Sock, toRead: nat, p: Params)
    requires Inv(s, p) && !s.flags.closing && !s.gone && s.restart == NoRestart
    ensures Inv(Take(s, toRead), p)
  {
    var t := Take(s, toRead);
    assert s.pending + [] == s.pending;
    TakeStream(s, toRead, p);
    RestIsEnd(s.flags.async, s.pending, toRead, 0);
    forall id: nat ensures OwnedOnce(t.pending, t.io, id) { TakeLedger(s, toRead, id); }
  }

  lemma PostInv(s: Sock, buflen: nat, useBurst: bool, oracle: seq<Outcome>, p: Params)
    requires buflen > 0 && Inv(s, p) && !s.gone
    requires s.mode == BurstDetect ==> |s.pending| <= s.bufCap
    ensures Inv(Post(s, buflen, useBurst, oracle), p)
  {
    var t := Post(s, buflen, useBurst, oracle);
    PostCounts(s, 0, p, buflen, useBurst, oracle);
    PostStream(s, [], p, buflen, useBurst, oracle);
    forall id: nat ensures OwnedOnce(t.pending, t.io, id) {
      PostLedger(s.pending, s.io, GateOf(s), buflen, useBurst, oracle, id);
    }
  }

  lemma RepostInv(s: Sock, toRead: nat, oracle: seq<Outcome>, p: Params)
    requires toRead > 0 && Inv(s, p) && !s.gone && !s.flags.closing
    ensures Inv(Repost(s, toRead, oracle), p)
  {
    if !s.flags.eof && s.mode == FlowCtrl {
      PostInv(s, toRead, false, oracle, p);
    }
  }

  lemma PostRestartInv(s: Sock, oracle: seq<Outcome>, p: Params)
    requires Inv(s, p) && !s.gone
    ensures Inv(PostRestart(s, oracle), p)
  {
    if s.restart == ToPost {
      var t := PostRestart(s, oracle);
      PostCounts(s, 0, p, IOCP_RECV_BUFSIZE, true, oracle);
      PostStream(s, [], p, IOCP_RECV_BUFSIZE, true, oracle);
      forall id: nat ensures OwnedOnce(t.pending, t.io, id) {
        PostLedger(s.pending, s.io, GateOf(s), IOCP_RECV_BUFSIZE, true, oracle, id);
      }
    }
  }

  lemma CloseInv(s: Sock, p: Params)
    requires Inv(s, p) && !s.flags.closing && s.restart == NoRestart
    ensures Inv(Close(s), p)
  {
    forall id: nat ensures OwnedOnce(s.pending, Close(s).io, id) {
      assert OwnedOnce(s.pending, s.io, id);
    }
  }

  // ----- every run -----

  lemma StepInv(s: Sock, a: Action, p: Params)
    requires Inv(s, p)
    ensures Inv(Next(s, a), p)
  {
    if Enabled(s, a) {
      match a
      case KernelComplete(n, err) => CompleteInv(s, n, err, p);
      case KernelAbort(i) => AbortInv(s, i, p);
      case PortRead(oracle) => HandleReadInv(s, oracle, p);
      case PortDisconnect => HandleDisconnectInv(s, p);
      case TclRead(toRead, oracle) =>
        TakeInv(s, toRead, p);
        if !Read(s.flags.async, s.pending, toRead).ret.Error? {
          RepostInv(Take(s, toRead), toRead, oracle, p);
        }
      case TclPost(oracle) => PostRestartInv(s, oracle, p);
      case TclClear =>
      case TclBlocking(async) =>
      case TclClose => CloseInv(s, p);
    }
  }

  lemma UnopenedInv(p: Params)
    ensures Inv(Unopened(p), p) && !Unopened(p).gone && Unopened(p).pending == []
  {
    assert [] + p.stream == p.stream;
    assert Left(Unopened(p), []) == p.stream;
  }

  lemma InitInv(p: Params, oracle: seq<Outcome>)
    ensures Inv(Init(p, oracle), p)
  {
    UnopenedInv(p);
    PostInv(Unopened(p), IOCP_RECV_BUFSIZE, false, oracle, p);
  }

  lemma {:induction false} RunInv(p: Params, oracle: seq<Outcome>, actions: seq<Action>)
    ensures Inv(Run(p, oracle, actions), p)
  {
    if |actions| == 0 {
      InitInv(p, oracle);
    } else {
      RunInv(p, oracle, actions[..|actions| - 1]);
      StepInv(Run(p, oracle, actions[..|actions| - 1]), actions[|actions| - 1], p);
    }
  }

  // ----- what the runs guarantee -----

  /** In every run, until the socket is freed: the bytes handed to Tcl, the unread bytes, the bytes on
      the port and the bytes to come are together the peer's stream, if and only if no read came to an
      error buffer that held bytes. */
  lemma StreamIntegrity(p: Params, oracle: seq<Outcome>, actions: seq<Action>)
    ensures var s := Run(p, oracle, actions);
            !s.gone ==>
              (s.hist.delivered + Flat(s.pending) + Flat(Eff(s.io.port)) + s.io.remaining == p.stream <==> !s.hist.lost)
    ensures Run(p, oracle, actions).hist.lost <==> SomeReadLoses(p, oracle, actions)
  {
    var s := Run(p, oracle, actions);
    RunInv(p, oracle, actions);
    assert s.pending + [] == s.pending;
    Regroup(s.hist.delivered, Flat(s.pending), Flat(Eff(s.io.port)), s.io.remaining);
    LostIff(p, oracle, actions);
  }

  /** Some read of the run met the guard `Losing`. */
  predicate SomeReadLoses(p: Params, oracle: seq<Outcome>, actions: seq<Action>) {
    |actions| > 0
    && (SomeReadLoses(p, oracle, actions[..|actions| - 1])
        || LosingRead(Run(p, oracle, actions[..|actions| - 1]), actions[|actions| - 1]))
  }

  predicate LosingRead(s: Sock, a: Action) {
    a.TclRead? && Enabled(s, a) && Losing(s.flags.async, s.pending, a.toRead)
  }

  lemma LostStep(s: Sock, a: Action)
    ensures Next(s, a).hist.lost <==> s.hist.lost || LosingRead(s, a)
  {
  }

  lemma {:induction false} LostIff(p: Params, oracle: seq<Outcome>, actions: seq<Action>)
    ensures Run(p, oracle, actions).hist.lost <==> SomeReadLoses(p, oracle, actions)
  {
    if |actions| > 0 {
      LostIff(p, oracle, actions[..|actions| - 1]);
      LostStep(Run(p, oracle, actions[..|actions| - 1]), actions[|actions| - 1]);
    }
  }

  lemma Regroup<T>(a: seq<T>, b: seq<T>, c: seq<T>, d: seq<T>)
    ensures a + b + c + d == a + (b + (c + d)) == a + b + (c + d)
    ensures a + (b + c + d) == a + b + (c + d)
  {
  }

  /** In every run, a read that returns zero found the EOF buffer, and then no byte is undelivered:
      none pending, on the port or still to come. */
  lemma EofIsLast(p: Params, oracle: seq<Outcome>, actions: seq<Action>, toRead: nat)
    requires var s := Run(p, oracle, actions);
             && !s.flags.closing && (s.flags.async || s.pending != [])
             && Read(s.flags.async, s.pending, toRead).ret == Bytes(0)
    requires toRead > 0
    ensures var s := Run(p, oracle, actions);
            && IsEof(s.pending[0]) && Flat(s.pending) + Ahead(s) == []
            && (!s.hist.lost ==> s.hist.delivered == p.stream)
  {
    var s := Run(p, oracle, actions);
    RunInv(p, oracle, actions);
    assert s.pending + [] == s.pending;
    ZeroMeansEof(s.flags.async, s.pending, toRead);
    var q := s.pending + Eff(s.io.port);
    assert q[0] == s.pending[0];
    NoData(q);
    FlatConcat(s.pending, Eff(s.io.port));
    StreamIntegrity(p, oracle, actions);
  }

  lemma {:induction false} NoData(q: seq<Buf>)
    requires forall i :: 0 <= i < |q| ==> q[i].data == []
    ensures Flat(q) == []
  {
    if |q| > 0 {
      NoData(q[1..]);
    }
  }

  /** In every run, a read that returns zero is right about the end of the stream if and only if the
      socket is asynchronous or its list is not empty, or nothing was left to come anyway. */
  lemma ZeroIsEofIff(p: Params, oracle: seq<Outcome>, actions: seq<Action>, toRead: nat)
    requires var s := Run(p, oracle, actions);
             !s.flags.closing && Read(s.flags.async, s.pending, toRead).ret == Bytes(0)
    requires toRead > 0
    ensures var s := Run(p, oracle, actions);
            Flat(s.pending) + Ahead(s) == [] <==> s.flags.async || s.pending != [] || Ahead(s) == []
  {
    var s := Run(p, oracle, actions);
    if s.flags.async || s.pending != [] {
      EofIsLast(p, oracle, actions, toRead);
    } else {
      assert Flat(s.pending) == [];
      assert [] + Ahead(s) == Ahead(s);
    }
  }

  /** The condition on blocking reads is needed: on every blocking socket a read that comes before
      the first completion returns zero, although the whole stream is still to come. */
  lemma BlockingZeroIsNotEof(p: Params, toRead: nat)
    requires !p.async
    ensures var s := Run(p, [], []);
            && Read(s.flags.async, s.pending, toRead).ret == Bytes(0)
            && Ahead(s) == p.stream && !s.flags.closing && !s.hist.lost
  {
    StreamIntegrity(p, [], []);
    assert [] + p.stream == p.stream;
    GetAndPostBytes([], p.stream, GateOf(Unopened(p)), Unopened(p).io, IOCP_RECV_BUFSIZE, false, []);
  }

  /** In every run each buffer ever allocated is in exactly one place: in the kernel, on the port,
      pending, or freed; no handler keeps one. */
  lemma BuffersOwnedOnce(p: Params, oracle: seq<Outcome>, actions: seq<Action>, id: nat)
    ensures var s := Run(p, oracle, actions);
            && CountIds(s.io.kernel, id) + CountIds(Eff(s.io.port), id) + CountIds(s.pending, id)
               + CountIn(s.io.freed, id) == (if id < s.io.nextId then 1 else 0)
            && s.io.held == []
  {
    RunInv(p, oracle, actions);
    assert OwnedOnce(Run(p, oracle, actions).pending, Run(p, oracle, actions).io, id);
  }

  /** A freed socket leaves no receive in flight, and each of its buffers was freed exactly once. */
  lemma NoBufferSurvives(p: Params, oracle: seq<Outcome>, actions: seq<Action>, id: nat)
    ensures var s := Run(p, oracle, actions);
            s.gone ==> && InFlight(s.io) == 0 && s.flags.closing && !s.disconnecting
                       && CountIn(s.io.freed, id) == if id < s.io.nextId then 1 else 0
  {
    RunInv(p, oracle, actions);
    BuffersOwnedOnce(p, oracle, actions, id);
  }

  /** In every run, until the socket is freed, `outstandingOps` counts the operations in flight and the
      artificial reference, and until it is closed `outstandingRecvs` counts the receives in flight. */
  lemma CountersExact(p: Params, oracle: seq<Outcome>, actions: seq<Action>)
    ensures var s := Run(p, oracle, actions);
            && (!s.gone ==> s.io.ops == InFlight(s.io) + if s.disconnecting then 2 else 0)
            && (!s.flags.closing ==> s.io.recvs == InFlight(s.io))
            && s.io.recvs >= InFlight(s.io)
  {
    RunInv(p, oracle, actions);
  }

  /** In every run the receives in flight stay within their cap; in burst mode, together with the unread
      buffers, within the caps as long as a read's test is not followed by its post, and within the caps
      plus the receive cap after that. */
  lemma BurstMemoryBound(p: Params, oracle: seq<Outcome>, actions: seq<Action>)
    ensures var s := Run(p, oracle, actions);
            && InFlight(s.io) <= p.recvCap
            && (p.mode == BurstDetect ==> InUse(s) <= 2 * p.recvCap + p.bufCap)
            && (s.restart == ToPost ==> InUse(s) <= p.recvCap + p.bufCap)
  {
    RunInv(p, oracle, actions);
  }
}
