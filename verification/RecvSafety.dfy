/** What holds in every run of module RecvEngine: no byte of the peer's stream is lost, duplicated or
    reordered, EOF is reported only at the end, every buffer has exactly one owner, and the number
    of buffers in use is bounded. */
module RecvSafety {
  import opened Common
  import opened ReceiveMerge
  import opened RecvEngine

  // ----- queues -----

  /** The completions on the port as the buffers `HandleIo` will see. */
  function Eff(port: seq<Completion>): (r: seq<Buf>)
    ensures |r| == |port|
  {
    if |port| == 0 then [] else [Effective(port[0])] + Eff(port[1..])
  }

  lemma {:induction false} EffAppend(port: seq<Completion>, c: Completion)
    ensures Eff(port + [c]) == Eff(port) + [Effective(c)]
  {
    if |port| > 0 {
      assert (port + [c])[1..] == port[1..] + [c];
      EffAppend(port[1..], c);
    }
  }

  lemma {:induction false} EffAt(port: seq<Completion>, i: nat)
    requires i < |port|
    ensures Eff(port)[i] == Effective(port[i])
  {
    if i > 0 {
      EffAt(port[1..], i - 1);
    }
  }

  lemma FlatAppend(q: seq<Buf>, b: Buf)
    ensures Flat(q + [b]) == Flat(q) + b.data
  {
    FlatConcat(q, [b]);
    assert [b][1..] == [];
  }

  function InFlight(io: Io): nat { |io.kernel| + |io.port| }

  // ----- posting: counters -----

  /** Receives were put in flight: both counters rose by exactly the number now in flight. */
  predicate Raised(g: Gate, s: Io, t: Io) {
    && t.recvs - s.recvs == t.ops - s.ops == InFlight(t) - InFlight(s) >= 0
    && (t.recvs == s.recvs || t.recvs <= g.cap)
    && s.kernel <= t.kernel && s.port <= t.port
  }

  /** The receive of buffer `id` is the first one put in flight between `s` and `t`. */
  predicate Placed(s: Io, t: Io, id: nat) {
    || (|t.kernel| > |s.kernel| && t.kernel[|s.kernel|].id == id)
    || (|t.port| > |s.port| && t.port[|s.port|].b.id == id)
  }

  lemma {:induction false} PostRecvRaises(g: Gate, io: Io, b: Buf, useBurst: bool, force: bool, oracle: seq<Outcome>)
    requires Holds(io, b)
    ensures var p := PostRecv(g, io, b, useBurst, force, oracle);
            && Raised(g, io, p.io)
            && (p.rc == NO_ERROR ==> InFlight(p.io) > InFlight(io) && Placed(io, p.io, b.id))
            && (p.rc == NO_ERROR && !useBurst ==> InFlight(p.io) == InFlight(io) + 1)
    decreases Room(g, io), 0
  {
    var p := PostOne(g, io, b, useBurst, force, oracle);
    if p.again {
      GetAndPostRaises(g, p.io, b.buflen, true, Tail(oracle));
    }
  }

  lemma {:induction false} GetAndPostRaises(g: Gate, io: Io, buflen: nat, useBurst: bool, oracle: seq<Outcome>)
    requires buflen > 0
    ensures Raised(g, io, GetAndPost(g, io, buflen, useBurst, oracle))
    decreases Room(g, io), 1
  {
    PostRecvRaises(g, Get(io), Buf(io.nextId, buflen, [], NO_ERROR), useBurst, true, oracle);
  }

  // ----- posting: ownership -----

  /** How often `id` is among the buffers of a list. */
  function CountIds(q: seq<Buf>, id: nat): nat {
    if |q| == 0 then 0 else (if q[0].id == id then 1 else 0) + CountIds(q[1..], id)
  }

  function CountIn(q: seq<nat>, id: nat): nat {
    if |q| == 0 then 0 else CountIn(q[..|q| - 1], id) + if q[|q| - 1] == id then 1 else 0
  }

  lemma {:induction false} CountIdsConcat(q: seq<Buf>, r: seq<Buf>, id: nat)
    ensures CountIds(q + r, id) == CountIds(q, id) + CountIds(r, id)
  {
    if |q| == 0 {
      assert q + r == r;
    } else {
      assert (q + r)[1..] == q[1..] + r;
      CountIdsConcat(q[1..], r, id);
    }
  }

  lemma CountIdsAppend(q: seq<Buf>, b: Buf, id: nat)
    ensures CountIds(q + [b], id) == CountIds(q, id) + if b.id == id then 1 else 0
  {
    CountIdsConcat(q, [b], id);
    assert [b][1..] == [];
  }

  lemma CountInAppend(q: seq<nat>, x: nat, id: nat)
    ensures CountIn(q + [x], id) == CountIn(q, id) + if x == id then 1 else 0
  {
    assert (q + [x])[..|q|] == q;
  }

  lemma {:induction false} CountInConcat(q: seq<nat>, r: seq<nat>, id: nat)
    ensures CountIn(q + r, id) == CountIn(q, id) + CountIn(r, id)
  {
    if |r| == 0 {
      assert q + r == q;
    } else {
      assert (q + r)[..|q + r| - 1] == q + r[..|r| - 1];
      CountInConcat(q, r[..|r| - 1], id);
    }
  }

  lemma {:induction false} CountInIds(r: seq<Buf>, id: nat)
    ensures CountIn(Ids(r), id) == CountIds(r, id)
  {
    if |r| > 0 {
      assert CountIn([r[0].id], id) == if r[0].id == id then 1 else 0;
      CountInConcat([r[0].id], Ids(r[1..]), id);
      CountInIds(r[1..], id);
    }
  }

  lemma {:induction false} CountedIsThere(q: seq<Buf>, i: nat)
    requires i < |q|
    ensures CountIds(q, q[i].id) >= 1
  {
    if i > 0 {
      CountedIsThere(q[1..], i - 1);
    }
  }

  /** How many times the kernel, the port, running code and the free list own buffer `id`. */
  function OwnedIo(io: Io, id: nat): nat {
    CountIds(io.kernel, id) + CountIds(Eff(io.port), id) + CountIn(io.held, id) + CountIn(io.freed, id)
  }

  /** Between `s` and `t` buffer `id` at most changed hands, unless it was allocated. */
  predicate Handed(s: Io, t: Io, id: nat) {
    && s.nextId <= t.nextId
    && OwnedIo(t, id) == OwnedIo(s, id) + if s.nextId <= id < t.nextId then 1 else 0
  }

  lemma HandedGet(io: Io, id: nat)
    ensures Handed(io, Get(io), id)
  {
    CountInAppend(io.held, io.nextId, id);
  }

  lemma HandedFree(io: Io, id: nat)
    requires |io.held| > 0
    ensures Handed(io, Free(io), id)
  {
    CountInAppend(io.freed, io.held[|io.held| - 1], id);
  }

  /** The buffer taken last was put on the port as completion `c`. */
  predicate ToPort(io: Io, t: Io, c: Completion) {
    && |io.held| > 0 && t.held == io.held[..|io.held| - 1] && c.b.id == io.held[|io.held| - 1]
    && t.port == io.port + [c] && t.kernel == io.kernel && t.freed == io.freed && t.nextId == io.nextId
  }

  /** The buffer taken last was queued in the kernel as `b`. */
  predicate ToKernel(io: Io, t: Io, b: Buf) {
    && |io.held| > 0 && t.held == io.held[..|io.held| - 1] && b.id == io.held[|io.held| - 1]
    && t.kernel == io.kernel + [b] && t.port == io.port && t.freed == io.freed && t.nextId == io.nextId
  }

  lemma HandedToPort(io: Io, t: Io, c: Completion, id: nat)
    requires ToPort(io, t, c)
    ensures Handed(io, t, id)
  {
    EffAppend(io.port, c);
    CountIdsAppend(Eff(io.port), Effective(c), id);
  }

  lemma HandedToKernel(io: Io, t: Io, b: Buf, id: nat)
    requires ToKernel(io, t, b)
    ensures Handed(io, t, id)
  {
    CountIdsAppend(io.kernel, b, id);
  }

  lemma PostOneCases(g: Gate, io: Io, b: Buf, useBurst: bool, force: bool, oracle: seq<Outcome>)
    requires Holds(io, b)
    ensures var t := PostOne(g, io, b, useBurst, force, oracle).io;
            || t == io
            || (|t.port| == |io.port| + 1 && ToPort(io, t, t.port[|io.port|]))
            || (|t.kernel| == |io.kernel| + 1 && ToKernel(io, t, t.kernel[|io.kernel|]))
  {
  }

  lemma HandedPostOne(g: Gate, io: Io, b: Buf, useBurst: bool, force: bool, oracle: seq<Outcome>, id: nat)
    requires Holds(io, b)
    ensures Handed(io, PostOne(g, io, b, useBurst, force, oracle).io, id)
  {
    PostOneCases(g, io, b, useBurst, force, oracle);
    var t := PostOne(g, io, b, useBurst, force, oracle).io;
    if |t.port| == |io.port| + 1 && ToPort(io, t, t.port[|io.port|]) {
      HandedToPort(io, t, t.port[|io.port|], id);
    } else if |t.kernel| == |io.kernel| + 1 && ToKernel(io, t, t.kernel[|io.kernel|]) {
      HandedToKernel(io, t, t.kernel[|io.kernel|], id);
    }
  }

  lemma {:induction false} PostRecvHanded(g: Gate, io: Io, b: Buf, useBurst: bool, force: bool,
                                          oracle: seq<Outcome>, id: nat)
    requires Holds(io, b)
    ensures Handed(io, PostRecv(g, io, b, useBurst, force, oracle).io, id)
    decreases Room(g, io), 0
  {
    HandedPostOne(g, io, b, useBurst, force, oracle, id);
    var p := PostOne(g, io, b, useBurst, force, oracle);
    if p.again {
      GetAndPostHanded(g, p.io, b.buflen, true, Tail(oracle), id);
    }
  }

  lemma {:induction false} GetAndPostHanded(g: Gate, io: Io, buflen: nat, useBurst: bool, oracle: seq<Outcome>, id: nat)
    requires buflen > 0
    ensures Handed(io, GetAndPost(g, io, buflen, useBurst, oracle), id)
    decreases Room(g, io), 1
  {
    var b := Buf(io.nextId, buflen, [], NO_ERROR);
    HandedGet(io, id);
    PostRecvHanded(g, Get(io), b, useBurst, true, oracle, id);
    var p := PostRecv(g, Get(io), b, useBurst, true, oracle);
    if p.rc != NO_ERROR {
      HandedFree(p.io, id);
    }
  }

  /** The contract of `PostOverlappedRecv`, for every sequence of kernel answers: it reports success
      exactly when its buffer now belongs to the kernel or the port; then both counters rose by the
      number of receives put in flight, of which it is one; a refusal changes nothing at all. */
  lemma PostContract(g: Gate, io: Io, b: Buf, useBurst: bool, force: bool, oracle: seq<Outcome>)
    requires Holds(io, b) && OwnedIo(io, b.id) == 1 && b.id < io.nextId
    ensures var p := PostRecv(g, io, b, useBurst, force, oracle);
            && (p.rc == NO_ERROR <==> CountIds(p.io.kernel, b.id) + CountIds(Eff(p.io.port), b.id) == 1)
            && (p.rc == NO_ERROR ==>
                  p.io.recvs - io.recvs == p.io.ops - io.ops == InFlight(p.io) - InFlight(io) > 0)
            && (p.rc == NO_ERROR ==> p.io.recvs <= g.cap)
            && (p.rc != NO_ERROR ==> p.io == io)
            && (p.rc == NO_ERROR && !useBurst ==> InFlight(p.io) == InFlight(io) + 1)
  {
    var p := PostRecv(g, io, b, useBurst, force, oracle);
    PostRecvRaises(g, io, b, useBurst, force, oracle);
    if p.rc == NO_ERROR {
      PostRecvHanded(g, io, b, useBurst, force, oracle, b.id);
      if |p.io.kernel| > |io.kernel| && p.io.kernel[|io.kernel|].id == b.id {
        CountedIsThere(p.io.kernel, |io.kernel|);
      } else {
        EffAt(p.io.port, |io.port|);
        CountedIsThere(Eff(p.io.port), |io.port|);
      }
    }
  }

  // ----- posting: bytes -----

  /** Behind an EOF there are no bytes. */
  predicate EofLaw(q: seq<Buf>, remaining: seq<Byte>) {
    && (forall i :: 0 <= i < |q| && IsEof(q[i]) ==> remaining == [])
    && (forall i, j :: 0 <= i < j < |q| && IsEof(q[i]) ==> q[j].data == [])
  }

  predicate KernelOk(kernel: seq<Buf>) {
    forall i :: 0 <= i < |kernel| ==> kernel[i].data == [] && kernel[i].buflen > 0
  }

  /** Only a closing socket has aborted receives, and they carry nothing. */
  predicate PortOk(port: seq<Completion>, closing: bool) {
    forall i :: 0 <= i < |port| ==>
      port[i].b.buflen > 0
      && (port[i].wsaErr == WSA_OPERATION_ABORTED ==> port[i].b.data == [] && closing)
  }

  /** The state of the bytes: the part of the stream on the port and still to come, given what is
      queued in front of it. */
  predicate IoBytes(front: seq<Buf>, io: Io, closing: bool, tail: seq<Byte>) {
    && KernelOk(io.kernel) && PortOk(io.port, closing)
    && Flat(Eff(io.port)) + io.remaining == tail
    && (!closing ==> EofLaw(front + Eff(io.port), io.remaining))
  }

  lemma LawAppend(q: seq<Buf>, remaining: seq<Byte>, e: Buf, n: nat)
    requires EofLaw(q, remaining) && n <= |remaining| && e.data == remaining[..n]
    requires IsEof(e) ==> remaining == []
    ensures EofLaw(q + [e], remaining[n..])
  {
    var r := q + [e];
    forall i, j | 0 <= i < j < |r| && IsEof(r[i]) ensures r[j].data == [] {
      assert r[i] == q[i];
      if j < |q| {
        assert r[j] == q[j];
      }
    }
  }

  /** A completion at the back of the port takes its bytes from the front of what is to come. */
  lemma PortGrows(front: seq<Buf>, io: Io, t: Io, closing: bool, tail: seq<Byte>, c: Completion)
    requires IoBytes(front, io, closing, tail) && KernelOk(t.kernel)
    requires t.port == io.port + [c] && c.b.data + t.remaining == io.remaining && c.b.buflen > 0
    requires IsEof(Effective(c)) ==> io.remaining == [] || closing
    requires c.wsaErr == WSA_OPERATION_ABORTED ==> c.b.data == [] && closing
    ensures IoBytes(front, t, closing, tail)
  {
    var q, e := Eff(io.port), Effective(c);
    EffAppend(io.port, c);
    FlatAppend(q, e);
    assert Flat(q) + e.data + t.remaining == Flat(q) + io.remaining;
    if !closing {
      LawAppend(front + q, io.remaining, e, |e.data|);
      assert front + Eff(t.port) == front + q + [e];
    }
  }

  /** What posting one receive does to the port, the kernel's queue and the bytes to come. */
  lemma PostOneQueues(g: Gate, io: Io, b: Buf, useBurst: bool, force: bool, oracle: seq<Outcome>)
    requires Holds(io, b)
    ensures var t := PostOne(g, io, b, useBurst, force, oracle).io;
            || t == io
            || (t.kernel == io.kernel + [b.(err := NO_ERROR)] && t.port == io.port && t.remaining == io.remaining)
            || exists n: nat, err ::
                 n <= |io.remaining| && n <= b.buflen && (n == 0 && err == NO_ERROR ==> io.remaining == [])
                 && PutOnPort(io, t, Completion(b.(data := io.remaining[..n], err := err), NO_ERROR), n)
  {
    var t := PostOne(g, io, b, useBurst, force, oracle).io;
    match Respond(io, b, oracle) {
      case Done(n) =>
        var c := Completion(b.(data := io.remaining[..n], err := NO_ERROR), NO_ERROR);
        assert t != io ==> PutOnPort(io, t, c, n);
      case Fail(e) =>
        var c := Completion(b.(data := io.remaining[..0], err := e), NO_ERROR);
        assert b.data == io.remaining[..0];
        assert t != io ==> PutOnPort(io, t, c, 0);
      case IoPending =>
    }
  }

  predicate PutOnPort(io: Io, t: Io, c: Completion, n: nat) {
    n <= |io.remaining| && t.port == io.port + [c] && t.kernel == io.kernel && t.remaining == io.remaining[n..]
  }

  lemma PostOneBytes(front: seq<Buf>, tail: seq<Byte>,
                     g: Gate, io: Io, b: Buf, useBurst: bool, force: bool, oracle: seq<Outcome>)
    requires Holds(io, b) && IoBytes(front, io, false, tail)
    ensures IoBytes(front, PostOne(g, io, b, useBurst, force, oracle).io, false, tail)
  {
    var t := PostOne(g, io, b, useBurst, force, oracle).io;
    PostOneQueues(g, io, b, useBurst, force, oracle);
    if n: nat, err :|
         n <= |io.remaining| && n <= b.buflen && (n == 0 && err == NO_ERROR ==> io.remaining == [])
         && PutOnPort(io, t, Completion(b.(data := io.remaining[..n], err := err), NO_ERROR), n)
    {
      PortGrows(front, io, t, false, tail, Completion(b.(data := io.remaining[..n], err := err), NO_ERROR));
    }
  }

  lemma {:induction false} PostRecvBytes(front: seq<Buf>, tail: seq<Byte>,
      g: Gate, io: Io, b: Buf, useBurst: bool, force: bool, oracle: seq<Outcome>)
    requires Holds(io, b) && IoBytes(front, io, false, tail)
    ensures IoBytes(front, PostRecv(g, io, b, useBurst, force, oracle).io, false, tail)
    decreases Room(g, io), 0
  {
    PostOneBytes(front, tail, g, io, b, useBurst, force, oracle);
    var p := PostOne(g, io, b, useBurst, force, oracle);
    if p.again {
      GetAndPostBytes(front, tail, g, p.io, b.buflen, true, Tail(oracle));
    }
  }

  lemma {:induction false} GetAndPostBytes(front: seq<Buf>, tail: seq<Byte>,
      g: Gate, io: Io, buflen: nat, useBurst: bool, oracle: seq<Outcome>)
    requires buflen > 0 && IoBytes(front, io, false, tail)
    ensures IoBytes(front, GetAndPost(g, io, buflen, useBurst, oracle), false, tail)
    decreases Room(g, io), 1
  {
    PostRecvBytes(front, tail, g, Get(io), Buf(io.nextId, buflen, [], NO_ERROR), useBurst, true, oracle);
  }

  /** A shut gate posts nothing. */
  lemma ShutGate(g: Gate, io: Io, buflen: nat, useBurst: bool, oracle: seq<Outcome>)
    requires buflen > 0 && g.shut
    ensures var t := GetAndPost(g, io, buflen, useBurst, oracle);
            t.kernel == io.kernel && t.port == io.port && t.remaining == io.remaining
            && t.recvs == io.recvs && t.ops == io.ops
  {
  }
}
