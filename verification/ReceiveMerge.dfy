/** The read side of a socket: how `IocpInputProc` (iocpsock_lolevel.c) merges the buffers of
    `llPendingRecv` into the channel's buffer.

    A buffer is seen as the bytes it still holds.  Buffers of length zero belong to the zero-byte
    receive mode, which is not part of this model.  Posting replacements (`RepostRecvs`) is in
    module RecvEngine. */
module ReceiveMerge {
  import opened Common

  const NO_ERROR := 0
  const EWOULDBLOCK := 10035

  // ----- specification -----

  /** A completed receive: unread bytes and the stored error. */
  datatype Buf = Buf(id: nat, buflen: nat, data: seq<Byte>, err: int)

  datatype Return = Bytes(n: nat) | Error(err: int)

  /** The outcome of one call: its return value, the bytes written to the channel buffer, the list
      left behind, the buffers freed in order, and whether the EOF flag was raised. */
  datatype Merged = Merged(ret: Return, out: seq<Byte>, rest: seq<Buf>, freed: seq<nat>, eof: bool)

  predicate IsData(b: Buf) { b.err == NO_ERROR && |b.data| > 0 }

  predicate IsEof(b: Buf) { b.err == NO_ERROR && |b.data| == 0 }

  predicate FullLength(bufs: seq<Buf>) {
    forall i :: 0 <= i < |bufs| ==> bufs[i].buflen > 0
  }

  function Flat(bufs: seq<Buf>): seq<Byte> {
    if |bufs| == 0 then [] else bufs[0].data + Flat(bufs[1..])
  }

  /** The merge loop after `got` bytes; `out` is what it writes from there on. */
  function MergeLoop(async: bool, bufs: seq<Buf>, toRead: nat, got: nat): Merged
    requires got <= toRead
  {
    if |bufs| == 0 then Merged(Bytes(got), [], [], [], false)
    else
      var b, n := bufs[0], |bufs[0].data|;
      if n == 0 && b.buflen != 0 && got > 0 then
        Merged(Bytes(got), [], bufs, [], false)
      else if got + n > toRead then
        var howMuch := toRead - got;
        Merged(Bytes(toRead), b.data[..howMuch], [b.(data := b.data[howMuch..])] + bufs[1..], [], false)
      else if b.err != NO_ERROR then
        Merged(Error(b.err), [], bufs[1..], [b.id], false)
      else if n == 0 then
        Merged(Bytes(0), [], bufs[1..], [b.id], true)
      else
        var more := if async then MergeLoop(async, bufs[1..], toRead, got + n)
                    else Merged(Bytes(got + n), [], bufs[1..], [], false);
        more.(out := b.data + more.out, freed := [b.id] + more.freed)
  }

  function Read(async: bool, bufs: seq<Buf>, toRead: nat): Merged {
    if async && |bufs| == 0 then Merged(Error(EWOULDBLOCK), [], [], [], false)
    else MergeLoop(async, bufs, toRead, 0)
  }

  // ----- what one call does -----

  /** The number of data buffers before the first EOF or error buffer. */
  function DataRun(bufs: seq<Buf>): (k: nat)
    ensures k <= |bufs|
    ensures forall i :: 0 <= i < k ==> IsData(bufs[i])
    ensures k < |bufs| ==> !IsData(bufs[k])
  {
    if |bufs| == 0 || !IsData(bufs[0]) then 0 else 1 + DataRun(bufs[1..])
  }

  /** The buffer that ends the data run does not spoil the read: there is none, or it holds no bytes,
      or the run alone fills the room. */
  predicate CleanEnd(bufs: seq<Buf>, room: nat) {
    var k := DataRun(bufs);
    k == |bufs| || bufs[k].data == [] || |Flat(bufs[..k])| >= room
  }

  function Min(a: nat, b: nat): nat { if a < b then a else b }

  function Ids(bufs: seq<Buf>): (r: seq<nat>)
    ensures |r| == |bufs|
  {
    if |bufs| == 0 then [] else [bufs[0].id] + Ids(bufs[1..])
  }

  lemma {:induction false} IdsSplit(bufs: seq<Buf>, k: nat)
    requires k <= |bufs|
    ensures Ids(bufs[..k]) + Ids(bufs[k..]) == Ids(bufs)
  {
    if k > 0 {
      assert bufs[..k][1..] == bufs[1..][..k - 1];
      assert bufs[k..] == bufs[1..][k - 1..];
      IdsSplit(bufs[1..], k - 1);
    } else {
      assert bufs[..0] == [] && bufs[0..] == bufs;
    }
  }

  lemma {:induction false} FlatSplit(bufs: seq<Buf>, k: nat)
    requires k <= |bufs|
    ensures Flat(bufs[..k]) + Flat(bufs[k..]) == Flat(bufs)
  {
    if k > 0 {
      assert bufs[..k][1..] == bufs[1..][..k - 1];
      assert bufs[k..] == bufs[1..][k - 1..];
      FlatSplit(bufs[1..], k - 1);
    } else {
      assert bufs[..0] == [] && bufs[0..] == bufs;
    }
  }

  lemma FlatConcat(a: seq<Buf>, b: seq<Buf>)
    ensures Flat(a + b) == Flat(a) + Flat(b)
  {
    FlatSplit(a + b, |a|);
    assert (a + b)[..|a|] == a && (a + b)[|a|..] == b;
  }

  /** What a call that returns a byte count leaves: `kept` data buffers that hold exactly the data
      not returned, then everything from the first EOF or error buffer on, untouched. */
  predicate LeavesRemainder(bufs: seq<Buf>, k: nat, n: nat, m: Merged, kept: nat)
    requires k <= |bufs| && n <= |Flat(bufs[..k])|
  {
    && kept <= k && |m.rest| == kept + |bufs| - k
    && m.rest[kept..] == bufs[k..]
    && (forall i :: 0 <= i < kept ==> IsData(m.rest[i]))
    && Flat(m.rest[..kept]) == Flat(bufs[..k])[n..]
    && m.freed == Ids(bufs[..k - kept])
  }

  predicate LoopSpec(bufs: seq<Buf>, toRead: nat, got: nat, kept: nat)
    requires got <= toRead
  {
    var k := DataRun(bufs);
    var all := Flat(bufs[..k]);
    var n := Min(toRead - got, |all|);
    var m := MergeLoop(true, bufs, toRead, got);
    && m.ret == Bytes(got + n) && m.out == all[..n] && !m.eof
    && LeavesRemainder(bufs, k, n, m, kept)
  }

  lemma FirstData(bufs: seq<Buf>)
    requires |bufs| > 0 && IsData(bufs[0])
    ensures var k := DataRun(bufs);
            && k == 1 + DataRun(bufs[1..])
            && Flat(bufs[..k]) == bufs[0].data + Flat(bufs[1..][..k - 1])
            && bufs[k..] == bufs[1..][k - 1..]
  {
    var k := DataRun(bufs);
    assert bufs[..k][1..] == bufs[1..][..k - 1];
  }

  lemma CutFirst(a: seq<Byte>, b: seq<Byte>, h: nat)
    requires h <= |a|
    ensures (a + b)[..h] == a[..h] && (a + b)[h..] == a[h..] + b
  {
  }

  lemma PushedBack(b: Buf, tail: seq<Buf>, k: nat)
    requires 0 < k <= 1 + |tail|
    ensures Flat(([b] + tail)[..k]) == b.data + Flat(tail[..k - 1])
    ensures ([b] + tail)[k..] == tail[k - 1..]
  {
    assert ([b] + tail)[..k][1..] == tail[..k - 1];
  }

  lemma PartialCopy(bufs: seq<Buf>, toRead: nat, got: nat)
    requires got <= toRead && |bufs| > 0 && IsData(bufs[0])
    requires got + |bufs[0].data| > toRead
    ensures LoopSpec(bufs, toRead, got, DataRun(bufs))
  {
    FirstData(bufs);
    var k, b, tail, howMuch := DataRun(bufs), bufs[0], bufs[1..], toRead - got;
    CutFirst(b.data, Flat(tail[..k - 1]), howMuch);
    PushedBack(b.(data := b.data[howMuch..]), tail, k);
    assert bufs[..0] == [];
  }

  lemma FullCopy(bufs: seq<Buf>, toRead: nat, got: nat, kept: nat)
    requires got <= toRead && |bufs| > 0 && IsData(bufs[0])
    requires got + |bufs[0].data| <= toRead
    requires LoopSpec(bufs[1..], toRead, got + |bufs[0].data|, kept)
    ensures LoopSpec(bufs, toRead, got, kept)
  {
    FirstData(bufs);
    var k, b, tail := DataRun(bufs), bufs[0], bufs[1..];
    assert bufs[..k - kept][1..] == tail[..k - 1 - kept];
  }

  lemma {:induction false} MergeLoopSpec(bufs: seq<Buf>, toRead: nat, got: nat) returns (kept: nat)
    requires got <= toRead && FullLength(bufs) && CleanEnd(bufs, toRead - got)
    requires got > 0 || |bufs| == 0 || IsData(bufs[0])
    ensures LoopSpec(bufs, toRead, got, kept)
    decreases |bufs|
  {
    if DataRun(bufs) == 0 {
      kept := 0;
      assert bufs[..0] == [];
      if |bufs| > 0 {
        var b := bufs[0];
        assert [b.(data := b.data[0..])] + bufs[1..] == bufs;
      }
    } else if got + |bufs[0].data| > toRead {
      kept := DataRun(bufs);
      PartialCopy(bufs, toRead, got);
    } else {
      FirstData(bufs);
      kept := MergeLoopSpec(bufs[1..], toRead, got + |bufs[0].data|);
      FullCopy(bufs, toRead, got, kept);
    }
  }

  /** Otherwise the call does not return the data run: the buffer that ends it reports its error, or
      counts as data itself. */
  lemma {:induction false} SpoiltRun(bufs: seq<Buf>, toRead: nat, got: nat)
    requires got <= toRead && FullLength(bufs) && !CleanEnd(bufs, toRead - got)
    ensures MergeLoop(true, bufs, toRead, got).ret != Bytes(got + |Flat(bufs[..DataRun(bufs)])|)
    decreases |bufs|
  {
    if DataRun(bufs) > 0 {
      FirstData(bufs);
      SpoiltRun(bufs[1..], toRead, got + |bufs[0].data|);
    } else {
      assert bufs[..0] == [];
    }
  }

  /** An asynchronous read of a list that starts with data returns as much as it can up to the first
      EOF or error buffer, and leaves exactly the rest, where every data buffer keeps a byte, if and
      only if no error buffer that still holds bytes ends the data before `toRead`. */
  lemma OneCallRead(bufs: seq<Buf>, toRead: nat)
    requires toRead > 0 && FullLength(bufs) && |bufs| > 0 && IsData(bufs[0])
    ensures CleanEnd(bufs, toRead) <==> exists kept: nat :: LoopSpec(bufs, toRead, 0, kept)
    ensures Read(true, bufs, toRead) == MergeLoop(true, bufs, toRead, 0)
    ensures |Flat(bufs[..DataRun(bufs)])| > 0
  {
    FirstData(bufs);
    if CleanEnd(bufs, toRead) {
      var kept := MergeLoopSpec(bufs, toRead, 0);
    } else {
      SpoiltRun(bufs, toRead, 0);
    }
  }

  /** A blocking read of a list that starts with data takes from that buffer alone: as much as fits, and
      whatever does not fit stays in front of the others. */
  lemma BlockingRead(bufs: seq<Buf>, toRead: nat)
    requires toRead > 0 && |bufs| > 0 && IsData(bufs[0])
    ensures var m := Read(false, bufs, toRead);
            var b, n := bufs[0], Min(toRead, |bufs[0].data|);
            && m.ret == Bytes(n) && m.out == b.data[..n] && !m.eof
            && (if n < |b.data| then m.rest == [b.(data := b.data[n..])] + bufs[1..] && m.freed == []
                else m.rest == bufs[1..] && m.freed == [b.id])
  {
    assert bufs[0].data + [] == bufs[0].data;
  }

  /** A read returns zero exactly when it meets the EOF buffer first, or when it is a blocking read
      of an empty list, which the generic layer cannot tell from EOF. */
  lemma ZeroMeansEof(async: bool, bufs: seq<Buf>, toRead: nat)
    requires toRead > 0 && FullLength(bufs)
    ensures Read(async, bufs, toRead).ret == Bytes(0)
       <==> (|bufs| > 0 && IsEof(bufs[0])) || (|bufs| == 0 && !async)
    ensures Read(async, bufs, toRead).eof <==> |bufs| > 0 && IsEof(bufs[0])
  {
    if |bufs| > 0 && IsData(bufs[0]) && |bufs[0].data| <= toRead && async {
      PositiveStaysPositive(bufs[1..], toRead, |bufs[0].data|);
    }
  }

  lemma {:induction false} PositiveStaysPositive(bufs: seq<Buf>, toRead: nat, got: nat)
    requires 0 < got <= toRead && FullLength(bufs)
    ensures var m := MergeLoop(true, bufs, toRead, got); m.ret != Bytes(0) && !m.eof
    decreases |bufs|
  {
    if |bufs| > 0 && IsData(bufs[0]) && got + |bufs[0].data| <= toRead {
      PositiveStaysPositive(bufs[1..], toRead, got + |bufs[0].data|);
    }
  }

  predicate Conserves(bufs: seq<Buf>, toRead: nat, got: nat, m: Merged) {
    && got + |m.out| <= toRead
    && FullLength(m.rest)
    && Ids(bufs) == m.freed + Ids(m.rest)
    && (m.ret.Bytes? ==> m.out + Flat(m.rest) == Flat(bufs))
    && (m.ret.Bytes? ==> m.ret.n == if m.eof then 0 else got + |m.out|)
    && (m.eof ==> got == 0)
  }

  lemma ConservesPartial(bufs: seq<Buf>, toRead: nat, got: nat)
    requires got <= toRead && FullLength(bufs) && |bufs| > 0
    requires got + |bufs[0].data| > toRead
    ensures Conserves(bufs, toRead, got, MergeLoop(true, bufs, toRead, got))
  {
    var b, tail, howMuch := bufs[0], bufs[1..], toRead - got;
    assert ([b.(data := b.data[howMuch..])] + tail)[1..] == tail;
    assert b.data[..howMuch] + (b.data[howMuch..] + Flat(tail)) == b.data + Flat(tail);
  }

  lemma ConservesFull(bufs: seq<Buf>, toRead: nat, got: nat, more: Merged)
    requires |bufs| > 0 && IsData(bufs[0]) && got + |bufs[0].data| <= toRead
    requires Conserves(bufs[1..], toRead, got + |bufs[0].data|, more) && !more.eof
    ensures Conserves(bufs, toRead, got, more.(out := bufs[0].data + more.out, freed := [bufs[0].id] + more.freed))
  {
    var b := bufs[0];
    assert b.data + more.out + Flat(more.rest) == b.data + (more.out + Flat(more.rest));
    assert [b.id] + (more.freed + Ids(more.rest)) == [b.id] + more.freed + Ids(more.rest);
  }

  /** Whatever the list holds, a call that returns a byte count neither loses nor invents a byte,
      returns the number it wrote, and never writes beyond `toRead`. */
  lemma {:induction false} MergeConserves(async: bool, bufs: seq<Buf>, toRead: nat, got: nat)
    requires got <= toRead && FullLength(bufs)
    ensures Conserves(bufs, toRead, got, MergeLoop(async, bufs, toRead, got))
    decreases |bufs|
  {
    if |bufs| > 0 {
      var b, n := bufs[0], |bufs[0].data|;
      if got + n > toRead {
        ConservesPartial(bufs, toRead, got);
      } else if IsData(b) {
        if async {
          MergeConserves(async, bufs[1..], toRead, got + n);
          ConservesFull(bufs, toRead, got, MergeLoop(async, bufs[1..], toRead, got + n));
        } else {
          ConservesFull(bufs, toRead, got, Merged(Bytes(got + n), [], bufs[1..], [], false));
        }
      }
    }
  }

  /** The call will come to an error buffer that holds bytes, and take it whole. */
  predicate Losing(async: bool, bufs: seq<Buf>, room: nat)
    decreases |bufs|
  {
    && |bufs| > 0 && 0 < |bufs[0].data| <= room
    && (bufs[0].err != NO_ERROR || (async && Losing(async, bufs[1..], room - |bufs[0].data|)))
  }

  /** The bytes a caller gets from a call: none with an error. */
  function Given(m: Merged): seq<Byte> {
    if m.ret.Bytes? then m.out else []
  }

  lemma {:induction false} LosesWhenLosing(async: bool, bufs: seq<Buf>, toRead: nat, got: nat)
    requires got <= toRead && FullLength(bufs) && Losing(async, bufs, toRead - got)
    ensures var m := MergeLoop(async, bufs, toRead, got);
            m.ret.Error? && |Flat(m.rest)| < |Flat(bufs)|
    decreases |bufs|
  {
    if bufs[0].err == NO_ERROR {
      LosesWhenLosing(async, bufs[1..], toRead, got + |bufs[0].data|);
    }
  }

  lemma {:induction false} KeepsUnlessLosing(async: bool, bufs: seq<Buf>, toRead: nat, got: nat)
    requires got <= toRead && FullLength(bufs) && !Losing(async, bufs, toRead - got)
    ensures var m := MergeLoop(async, bufs, toRead, got);
            m.ret.Error? ==> got == 0 && Flat(m.rest) == Flat(bufs)
    decreases |bufs|
  {
    if |bufs| > 0 && IsData(bufs[0]) && async && got + |bufs[0].data| <= toRead {
      KeepsUnlessLosing(async, bufs[1..], toRead, got + |bufs[0].data|);
    }
  }

  /** A call loses bytes if and only if it comes to an error buffer that holds bytes and fits. */
  lemma LosesIff(async: bool, bufs: seq<Buf>, toRead: nat)
    requires FullLength(bufs)
    ensures var m := Read(async, bufs, toRead);
            && (Given(m) + Flat(m.rest) != Flat(bufs) <==> Losing(async, bufs, toRead))
            && (Losing(async, bufs, toRead) ==> |Given(m)| + |Flat(m.rest)| < |Flat(bufs)|)
  {
    MergeConserves(async, bufs, toRead, 0);
    if Losing(async, bufs, toRead) {
      LosesWhenLosing(async, bufs, toRead, 0);
    } else {
      KeepsUnlessLosing(async, bufs, toRead, 0);
    }
  }

  // ----- the procedure -----

  /** `BufferInfo`, as far as reading uses it; `last` is an offset, -1 for a null pointer. */
  class BufferInfo {
    const id: nat
    const buf: array<Byte>
    var last: int
    var used: nat
    var WSAerr: int
    ghost var freed: bool

    ghost predicate Valid()
      reads this
    {
      !freed && Position() + used <= buf.Length
    }

    ghost function Position(): nat
      reads this
    {
      if last < 0 then 0 else last
    }

    ghost function View(): (b: Buf)
      requires Valid()
      reads this, buf
      ensures b.id == id && b.buflen == buf.Length && |b.data| == used && b.err == WSAerr
    {
      Buf(id, buf.Length, buf[Position()..Position() + used], WSAerr)
    }

    /** Moves past `n` bytes that were copied out from position `from`. */
    method Advance(from: nat, n: nat)
      requires Valid() && from == Position() && n <= used
      modifies this`last, this`used
      ensures Valid() && View() == old(View()).(data := old(View()).data[n..])
    {
      used := used - n;
      last := from + n;
    }

    constructor (id: nat, buf: array<Byte>, used: nat, WSAerr: int)
      requires used <= buf.Length
      ensures Valid() && View() == Buf(id, buf.Length, buf[..used], WSAerr) && this.buf == buf
    {
      this.id, this.buf, this.last, this.used, this.WSAerr, freed := id, buf, -1, used, WSAerr, false;
    }
  }

  method MemCpy(dst: array<Byte>, at: nat, src: array<Byte>, from: nat, n: nat)
    requires dst != src && at + n <= dst.Length && from + n <= src.Length
    modifies dst
    ensures dst[..] == old(dst[..at]) + src[from..from + n] + old(dst[at + n..])
  {
    forall i | 0 <= i < n {
      dst[at + i] := src[from + i];
    }
  }

  /** The pending buffers are valid and distinct objects, none of them backed by the output. */
  ghost predicate Ready(s: seq<BufferInfo>, out: array<Byte>)
    reads s
  {
    Apart(s) && forall i :: 0 <= i < |s| ==> s[i].Valid() && s[i].buf != out
  }

  ghost predicate Apart<T>(s: seq<T>) {
    |s| == 0 || (s[0] !in s[1..] && Apart(s[1..]))
  }

  ghost function Views(s: seq<BufferInfo>, out: array<Byte>): (r: seq<Buf>)
    requires Ready(s, out)
    reads s, set i | 0 <= i < |s| :: s[i].buf
    ensures |r| == |s|
  {
    if |s| == 0 then [] else [s[0].View()] + Views(s[1..], out)
  }

  class SocketInfo {
    var async: bool
    var eof: bool
    var llPendingRecv: seq<BufferInfo>
    /** Ids of the buffers given to `FreeBufferObj`, in order. */
    ghost var freedLog: seq<nat>

    method FreeBufferObj(b: BufferInfo, ghost buf: array<Byte>)
      requires Popped(b, buf)
      modifies this`freedLog, b`freed
      ensures b.freed && Ready(llPendingRecv, buf)
      ensures Snap(buf) == old(Snap(buf)).(log := old(Snap(buf)).log + [b.id])
    {
      b.freed := true;
      freedLog := freedLog + [b.id];
    }

    ghost function Snap(buf: array<Byte>): Snapshot
      requires Ready(llPendingRecv, buf)
      reads this, llPendingRecv, (set i | 0 <= i < |llPendingRecv| :: llPendingRecv[i].buf), buf
    {
      Snapshot(Views(llPendingRecv, buf), buf[..], freedLog, eof)
    }

    /** A buffer popped from the list, ready to be pushed back in front. */
    ghost predicate Popped(b: BufferInfo, buf: array<Byte>)
      reads this, b, llPendingRecv
    {
      b.Valid() && b.buf != buf && b !in llPendingRecv && Ready(llPendingRecv, buf)
    }

    /** Puts a popped buffer back at the front. */
    method PushFront(b: BufferInfo, buf: array<Byte>)
      requires Popped(b, buf)
      modifies this`llPendingRecv
      ensures llPendingRecv == [b] + old(llPendingRecv) && Ready(llPendingRecv, buf)
      ensures Snap(buf) == old(Snap(buf)).(pending := [b.View()] + old(Snap(buf)).pending)
    {
      ghost var was := llPendingRecv;
      llPendingRecv := [b] + llPendingRecv;
      assert llPendingRecv[1..] == was;
    }

    method PopFront(buf: array<Byte>) returns (b: BufferInfo)
      requires |llPendingRecv| > 0 && Ready(llPendingRecv, buf)
      modifies this`llPendingRecv
      ensures [b] + llPendingRecv == old(llPendingRecv) && Popped(b, buf)
      ensures b.View() == old(Snap(buf)).pending[0]
      ensures Snap(buf) == old(Snap(buf)).(pending := old(Snap(buf)).pending[1..])
    {
      b := llPendingRecv[0];
      llPendingRecv := llPendingRecv[1..];
    }

    /** `FilterSingleOpRecvBuf`: an EOF or error behind data is pushed back for the next call. */
    method FilterSingleOpRecvBuf(b: BufferInfo, buf: array<Byte>, bytesRead: int) returns (stop: bool)
      requires Popped(b, buf)
      modifies this`llPendingRecv
      ensures stop <==> b.used == 0 && b.buf.Length != 0 && bytesRead != 0
      ensures stop ==> Ready(llPendingRecv, buf)
                       && Snap(buf) == old(Snap(buf)).(pending := [b.View()] + old(Snap(buf)).pending)
      ensures !stop ==> Popped(b, buf) && llPendingRecv == old(llPendingRecv) && Snap(buf) == old(Snap(buf))
    {
      stop := b.used == 0 && b.buf.Length != 0 && bytesRead != 0;
      if stop {
        PushFront(b, buf);
      }
    }

    /** `memcpy` of the first `n` unread bytes of `b` to the output pointer. */
    method CopyOut(b: BufferInfo, buf: array<Byte>, got: nat, n: nat)
      requires Popped(b, buf) && got + n <= buf.Length && n <= b.used
      modifies buf
      ensures Popped(b, buf) && b.View() == old(b.View())
      ensures var s := old(Snap(buf));
              Snap(buf) == s.(out := s.out[..got] + b.View().data[..n] + s.out[got + n..])
    {
      MemCpy(buf, got, b.buf, if b.last >= 0 then b.last else 0, n);
    }

    /** Copies the first `howMuch` unread bytes of `b` to the output and moves past them. */
    method TakeBytes(b: BufferInfo, buf: array<Byte>, got: nat, howMuch: nat)
      requires Popped(b, buf) && got + howMuch <= buf.Length && howMuch <= b.used
      modifies b`last, b`used, buf
      ensures Popped(b, buf) && b.View() == old(b.View()).(data := old(b.View()).data[howMuch..])
      ensures var v, s := old(b.View()), old(Snap(buf));
              Snap(buf) == s.(out := s.out[..got] + v.data[..howMuch] + s.out[got + howMuch..])
    {
      CopyOut(b, buf, got, howMuch);
      b.Advance(if b.last >= 0 then b.last else 0, howMuch);
    }

    /** Copies the first `howMuch` unread bytes of `b` and pushes it back in front. */
    method TakePart(b: BufferInfo, buf: array<Byte>, got: nat, howMuch: nat)
      requires Popped(b, buf) && got + howMuch <= buf.Length && howMuch <= b.used
      modifies this`llPendingRecv, b`last, b`used, buf
      ensures Ready(llPendingRecv, buf)
      ensures var v, s := old(b.View()), old(Snap(buf));
              Snap(buf) == s.(pending := [v.(data := v.data[howMuch..])] + s.pending,
                              out := s.out[..got] + v.data[..howMuch] + s.out[got + howMuch..])
    {
      TakeBytes(b, buf, got, howMuch);
      PushFront(b, buf);
    }

    /** `FilterPartialRecvBufMerge`: copies what fits of a buffer that is too long and pushes the
        buffer back. */
    method FilterPartialRecvBufMerge(b: BufferInfo, buf: array<Byte>, got: nat, toRead: nat) returns (stop: bool)
      requires Popped(b, buf) && got <= toRead <= buf.Length
      modifies this`llPendingRecv, b`last, b`used, buf
      ensures stop <==> got + old(b.used) > toRead
      ensures !stop ==> Popped(b, buf) && llPendingRecv == old(llPendingRecv) && Snap(buf) == old(Snap(buf))
      ensures !stop ==> b.View() == old(b.View())
      ensures stop ==>
                && Ready(llPendingRecv, buf)
                && var v, s := old(b.View()), old(Snap(buf));
                   Snap(buf) == s.(pending := [v.(data := v.data[toRead - got..])] + s.pending,
                                   out := s.out[..got] + v.data[..toRead - got] + s.out[toRead..])
    {
      stop := got + b.used > toRead;
      if stop {
        TakePart(b, buf, got, toRead - got);
      }
    }

    /** `DoRecvBufMerge`: takes a whole buffer. */
    method DoRecvBufMerge(b: BufferInfo, buf: array<Byte>, got: nat)
      returns (done: bool, gotError: bool, bytesRead: nat)
      requires Popped(b, buf) && got + b.used <= buf.Length
      modifies this`eof, this`freedLog, b`freed, buf
      ensures Ready(llPendingRecv, buf) && (!done ==> Popped(b, buf))
      ensures gotError <==> b.WSAerr != NO_ERROR
      ensures done <==> gotError || b.used == 0
      ensures bytesRead == if gotError then got else if done then 0 else got + b.used
      ensures var v, s := old(b.View()), old(Snap(buf));
              Snap(buf) == if gotError then s.(log := s.log + [v.id])
                           else if done then s.(log := s.log + [v.id], eof := true)
                           else s.(out := s.out[..got] + v.data + s.out[got + |v.data|..])
    {
      gotError, bytesRead := false, got;
      if b.WSAerr != NO_ERROR {
        FreeBufferObj(b, buf);
        return true, true, bytesRead;
      }
      if b.used == 0 {
        eof := true;
        FreeBufferObj(b, buf);
        return true, false, 0;
      }
      CopyOut(b, buf, got, b.used);
      return false, false, got + b.used;
    }

    /** One round of the merge loop, after `got` bytes. */
    method MergeOne(buf: array<Byte>, toRead: nat, got: nat) returns (done: bool, bytesRead: int, errorCode: int)
      requires Ready(llPendingRecv, buf) && |llPendingRecv| > 0 && got <= toRead <= buf.Length
      requires Snap(buf).pending[0].buflen > 0
      modifies this`llPendingRecv, this`eof, this`freedLog, llPendingRecv[0], buf
      ensures Ready(llPendingRecv, buf)
      ensures done ==> Ends(old(Snap(buf)), MergeLoop(async, old(Snap(buf)).pending, toRead, got), got,
                            Snap(buf), bytesRead, errorCode)
      ensures !done ==> async && errorCode == NO_ERROR && Copies(old(Snap(buf)), toRead, got, Snap(buf), bytesRead)
      ensures !done ==> llPendingRecv == old(llPendingRecv)[1..]
    {
      ghost var s := Snap(buf);
      var b := PopFront(buf);
      ghost var v := b.View();
      assert v == s.pending[0] && |v.data| == b.used;
      var stop := FilterSingleOpRecvBuf(b, buf, got);
      if stop {
        RoundSingle(async, s, toRead, got);
        return true, got, NO_ERROR;
      }
      stop := FilterPartialRecvBufMerge(b, buf, got, toRead);
      if stop {
        RoundPartial(async, s, toRead, got, Snap(buf));
        return true, toRead, NO_ERROR;
      }
      done, bytesRead, errorCode := TakeWhole(b, buf, toRead, got, s);
    }

    /** The rest of a round, for a buffer that neither filter stopped. */
    method TakeWhole(b: BufferInfo, buf: array<Byte>, toRead: nat, got: nat, ghost s: Snapshot)
      returns (done: bool, bytesRead: int, errorCode: int)
      requires Popped(b, buf) && b.buf.Length > 0 && got + b.used <= toRead <= buf.Length
      requires b.used == 0 ==> got == 0
      requires |s.pending| > 0 && b.View() == s.pending[0] && Snap(buf) == s.(pending := s.pending[1..])
      modifies this`eof, this`freedLog, b`freed, buf
      ensures Ready(llPendingRecv, buf)
      ensures done ==> Ends(s, MergeLoop(async, s.pending, toRead, got), got, Snap(buf), bytesRead, errorCode)
      ensures !done ==> async && errorCode == NO_ERROR && Copies(s, toRead, got, Snap(buf), bytesRead)
    {
      var gotError, read;
      done, gotError, read := DoRecvBufMerge(b, buf, got);
      if gotError {
        RoundError(async, s, toRead, got, Snap(buf));
        return true, -1, b.WSAerr;
      }
      if done {
        RoundEof(async, s, toRead, got, Snap(buf));
        return true, read, NO_ERROR;
      }
      FreeBufferObj(b, buf);
      RoundFull(s, toRead, got, Snap(buf), read);
      // A blocking read stops after one buffer.
      return !async, read, NO_ERROR;
    }

    /** `IocpInputProc` up to the reposting of receives.  A negative result is the source's -1. */
    method IocpInputProc(buf: array<Byte>, toRead: nat) returns (bytesRead: int, errorCode: int)
      requires Ready(llPendingRecv, buf) && toRead <= buf.Length
      requires FullLength(Snap(buf).pending)
      modifies this`llPendingRecv, this`eof, this`freedLog, llPendingRecv, buf
      ensures Ready(llPendingRecv, buf)
      ensures Ends(old(Snap(buf)), Read(async, old(Snap(buf)).pending, toRead), 0, Snap(buf), bytesRead, errorCode)
    {
      if async && |llPendingRecv| == 0 {
        return -1, EWOULDBLOCK;
      }
      bytesRead, errorCode := MergeAll(buf, toRead);
    }

    /** The merge loop itself. */
    method MergeAll(buf: array<Byte>, toRead: nat) returns (bytesRead: int, errorCode: int)
      requires Ready(llPendingRecv, buf) && toRead <= buf.Length
      requires FullLength(Snap(buf).pending)
      modifies this`llPendingRecv, this`eof, this`freedLog, llPendingRecv, buf
      ensures Ready(llPendingRecv, buf)
      ensures Ends(old(Snap(buf)), MergeLoop(async, old(Snap(buf)).pending, toRead, 0), 0,
                   Snap(buf), bytesRead, errorCode)
    {
      bytesRead, errorCode := 0, NO_ERROR;
      ghost var s0, popped := Snap(buf), 0;
      while |llPendingRecv| > 0
        invariant Ready(llPendingRecv, buf) && errorCode == NO_ERROR
        invariant popped <= |old(llPendingRecv)| && llPendingRecv == old(llPendingRecv)[popped..]
        invariant Progress(async, s0, toRead, bytesRead, Snap(buf))
        decreases |llPendingRecv|
      {
        ghost var s, got := Snap(buf), bytesRead;
        var done;
        done, bytesRead, errorCode := MergeOne(buf, toRead, bytesRead);
        if done {
          ProgressEnds(async, s0, toRead, got, s, Snap(buf), bytesRead, errorCode);
          return;
        }
        ProgressCopies(s0, toRead, got, s, Snap(buf), bytesRead);
        popped := popped + 1;
      }
      ProgressRunsOut(async, s0, toRead, bytesRead, Snap(buf));
    }
  }

  // ----- putting the rounds together -----

  /** What the procedure works on, as values. */
  datatype Snapshot = Snapshot(pending: seq<Buf>, out: seq<Byte>, log: seq<nat>, eof: bool)

  /** From `s`, with `got` bytes already written, a merge with outcome `m` ended in `t`. */
  predicate Ends(s: Snapshot, m: Merged, got: nat, t: Snapshot, bytesRead: int, errorCode: int) {
    && t.pending == m.rest
    && got + |m.out| <= |s.out|
    && t.out == s.out[..got] + m.out + s.out[got + |m.out|..]
    && t.log == s.log + m.freed
    && t.eof == (s.eof || m.eof)
    && match m.ret
       case Bytes(n) => bytesRead == n && errorCode == NO_ERROR
       case Error(e) => bytesRead == -1 && errorCode == e
  }

  /** A whole data buffer was copied and freed. */
  predicate Copies(s: Snapshot, toRead: nat, got: nat, t: Snapshot, bytesRead: int) {
    && |s.pending| > 0 && IsData(s.pending[0])
    && bytesRead == got + |s.pending[0].data| <= toRead <= |s.out|
    && t == Snapshot(s.pending[1..],
                     s.out[..got] + s.pending[0].data + s.out[got + |s.pending[0].data|..],
                     s.log + [s.pending[0].id], s.eof)
  }

  /** After `got` bytes the rest of the whole merge is the merge of what is still pending. */
  predicate Progress(async: bool, s0: Snapshot, toRead: nat, got: int, s: Snapshot) {
    && FullLength(s.pending)
    && 0 <= got <= toRead <= |s.out| == |s0.out| && s.out[got..] == s0.out[got..] && s.eof == s0.eof
    && |s0.log| <= |s.log| && s.log[..|s0.log|] == s0.log
    && var more := MergeLoop(async, s.pending, toRead, got);
       MergeLoop(async, s0.pending, toRead, 0)
       == more.(out := s.out[..got] + more.out, freed := s.log[|s0.log|..] + more.freed)
  }

  lemma RoundSingle(async: bool, s: Snapshot, toRead: nat, got: nat)
    requires |s.pending| > 0 && s.pending[0].data == [] && s.pending[0].buflen > 0
    requires 0 < got <= toRead <= |s.out|
    ensures Ends(s, MergeLoop(async, s.pending, toRead, got), got, s, got, NO_ERROR)
  {
  }

  lemma RoundPartial(async: bool, s: Snapshot, toRead: nat, got: nat, t: Snapshot)
    requires |s.pending| > 0 && got <= toRead <= |s.out| && got + |s.pending[0].data| > toRead
    requires var b := s.pending[0];
             && t.pending == [b.(data := b.data[toRead - got..])] + s.pending[1..]
             && t.out == s.out[..got] + b.data[..toRead - got] + s.out[toRead..]
             && t.log == s.log && t.eof == s.eof
    ensures Ends(s, MergeLoop(async, s.pending, toRead, got), got, t, toRead, NO_ERROR)
  {
  }

  predicate FirstDropped(s: Snapshot, got: nat, toRead: nat, t: Snapshot) {
    && |s.pending| > 0 && s.pending[0].buflen > 0 && got + |s.pending[0].data| <= toRead <= |s.out|
    && t.pending == s.pending[1..] && t.log == s.log + [s.pending[0].id]
  }

  lemma RoundError(async: bool, s: Snapshot, toRead: nat, got: nat, t: Snapshot)
    requires FirstDropped(s, got, toRead, t) && t.out == s.out && t.eof == s.eof
    requires s.pending[0].err != NO_ERROR && (got > 0 ==> |s.pending[0].data| > 0)
    ensures Ends(s, MergeLoop(async, s.pending, toRead, got), got, t, -1, s.pending[0].err)
  {
  }

  lemma RoundEof(async: bool, s: Snapshot, toRead: nat, got: nat, t: Snapshot)
    requires FirstDropped(s, got, toRead, t) && t.out == s.out && t.eof
    requires IsEof(s.pending[0]) && got == 0
    ensures Ends(s, MergeLoop(async, s.pending, toRead, got), got, t, 0, NO_ERROR)
  {
  }

  lemma RoundFull(s: Snapshot, toRead: nat, got: nat, t: Snapshot, read: nat)
    requires FirstDropped(s, got, toRead, t) && t.eof == s.eof
    requires IsData(s.pending[0]) && read == got + |s.pending[0].data|
    requires t.out == s.out[..got] + s.pending[0].data + s.out[read..]
    ensures Copies(s, toRead, got, t, read)
    ensures Ends(s, MergeLoop(false, s.pending, toRead, got), got, t, read, NO_ERROR)
  {
    assert s.pending[0].data + [] == s.pending[0].data;
  }

  lemma ProgressCopies(s0: Snapshot, toRead: nat, got: nat, s: Snapshot, t: Snapshot, bytesRead: int)
    requires Progress(true, s0, toRead, got, s) && Copies(s, toRead, got, t, bytesRead)
    ensures Progress(true, s0, toRead, bytesRead, t)
  {
    var b := s.pending[0];
    var more := MergeLoop(true, t.pending, toRead, bytesRead);
    assert t.out[..bytesRead] == s.out[..got] + b.data;
    assert t.out[..bytesRead] + more.out == s.out[..got] + (b.data + more.out);
    assert t.log[|s0.log|..] == s.log[|s0.log|..] + [b.id];
    assert t.log[|s0.log|..] + more.freed == s.log[|s0.log|..] + ([b.id] + more.freed);
  }

  lemma ProgressRunsOut(async: bool, s0: Snapshot, toRead: nat, got: nat, s: Snapshot)
    requires Progress(async, s0, toRead, got, s) && s.pending == []
    ensures Ends(s0, MergeLoop(async, s0.pending, toRead, 0), 0, s, got, NO_ERROR)
  {
    assert s.out == s.out[..got] + s.out[got..];
    assert s.log == s0.log + s.log[|s0.log|..];
    ProgressEnds(async, s0, toRead, got, s, s, got, NO_ERROR);
  }

  lemma ProgressEnds(async: bool, s0: Snapshot, toRead: nat, got: nat, s: Snapshot, t: Snapshot,
                     bytesRead: int, errorCode: int)
    requires Progress(async, s0, toRead, got, s)
    requires Ends(s, MergeLoop(async, s.pending, toRead, got), got, t, bytesRead, errorCode)
    ensures Ends(s0, MergeLoop(async, s0.pending, toRead, 0), 0, t, bytesRead, errorCode)
  {
    var more := MergeLoop(async, s.pending, toRead, got);
    var head := s.out[..got] + more.out;
    assert s.out[got + |more.out|..] == s.out[got..][|more.out|..] == s0.out[got..][|more.out|..] == s0.out[|head|..];
    assert s.log == s0.log + s.log[|s0.log|..];
    assert t.log == s0.log + (s.log[|s0.log|..] + more.freed);
  }
}
