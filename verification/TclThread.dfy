/** The Tcl thread's functions as the source writes them: a shared state changed in place.  Run
    without interference, each does exactly the steps module Notifier gives it, where the steps
    interleave with the completion thread; it keeps that module's invariant for every socket, and its
    contract says what it achieves given the invariant. */
module TclThread {
  import opened Notifier

  lemma AfterTwo(s: State, a: Action, b: Action, later: seq<Action>)
    ensures After(s, [a, b] + later) == After(Next(Next(s, a), b), later)
  {
    assert ([a, b] + later)[1..] == [b] + later && ([b] + later)[1..] == later;
  }

  lemma AfterOne(s: State, a: Action, later: seq<Action>)
    ensures After(s, [a] + later) == After(Next(s, a), later)
  {
    assert ([a] + later)[1..] == later;
  }

  lemma AfterThree(s: State, a: Action, b: Action, c: Action)
    ensures After(s, [a, b, c]) == Next(Next(Next(s, a), b), c)
  {
    assert [a, b, c] == [a, b] + [c] && [c] == [c] + [];
    AfterTwo(s, a, b, [c]);
    AfterOne(Next(Next(s, a), b), c, []);
  }

  /** `n` rounds of `IocpEventCheckProc`. */
  function CheckRounds(n: nat): seq<Action> {
    if n == 0 then [TclScanEnd] else [TclUnlist, TclQueueEvent] + CheckRounds(n - 1)
  }

  function Checked(s: State, n: nat): State {
    After(s, CheckRounds(n))
  }

  lemma CheckedStart(s: State)
    requires s.tcl == Idle
    ensures After(s, [TclScan] + CheckRounds(|s.ready|)) == Checked(s.(tcl := Scanning(|s.ready|)), |s.ready|)
  {
    assert Next(s, TclScan) == s.(tcl := Scanning(|s.ready|));
    AfterOne(s, TclScan, CheckRounds(|s.ready|));
  }

  lemma CheckedRound(s: State, n: nat)
    ensures Checked(Next(Next(s, TclUnlist), TclQueueEvent), n) == Checked(s, n + 1)
  {
    AfterTwo(s, TclUnlist, TclQueueEvent, CheckRounds(n));
  }

  lemma CheckedEnd(s: State)
    requires s.tcl == Scanning(0)
    ensures Checked(s, 0) == s.(tcl := Idle)
  {
    assert [TclScanEnd] + [] == [TclScanEnd];
    AfterOne(s, TclScanEnd, []);
  }

  /** The listed sockets that have a channel, in order. */
  function WithChannel(socks: seq<Sock>, q: seq<nat>): seq<nat> {
    if |q| == 0 then []
    else (if q[0] < |socks| && socks[q[0]].hasChannel then [q[0]] else []) + WithChannel(socks, q[1..])
  }

  lemma {:induction false} SameChannels(a: seq<Sock>, b: seq<Sock>, q: seq<nat>)
    requires |a| == |b| && forall i :: 0 <= i < |a| ==> a[i].hasChannel == b[i].hasChannel
    ensures WithChannel(a, q) == WithChannel(b, q)
  {
    if |q| > 0 {
      SameChannels(a, b, q[1..]);
    }
  }

  predicate AllExist(s: State) {
    forall i :: 0 <= i < |s.ready| ==> s.ready[i] < |s.socks|
  }

  /** From `s` to `t` the first socket left the ready list. */
  predicate MovedOne(s: State, t: State) {
    && |s.ready| > 0 && AllExist(s) && t.ready == s.ready[1..]
    && t.socks == s.socks[s.ready[0] := s.socks[s.ready[0]].(marked := false)]
    && t.events == s.events + if s.socks[s.ready[0]].hasChannel then [s.ready[0]] else []
  }

  /** From `s` to `t` every socket left the ready list; `id` is looked at. */
  predicate MovedAll(s: State, t: State, id: nat)
    requires id < |s.socks|
  {
    && t.tcl == Idle && t.ready == [] && t.events == s.events + WithChannel(s.socks, s.ready)
    && |t.socks| == |s.socks|
    && t.socks[id] == s.socks[id].(marked := s.socks[id].marked && Count(s.ready, id) == 0)
  }

  lemma RoundMovesOne(s: State)
    requires s.tcl.Scanning? && s.tcl.left > 0 && |s.ready| > 0 && AllExist(s)
    ensures var t := Next(Next(s, TclUnlist), TclQueueEvent);
            t.tcl == Scanning(s.tcl.left - 1) && MovedOne(s, t) && AllExist(t)
  {
  }

  lemma OneThenAll(s: State, t: State, u: State, id: nat)
    requires MovedOne(s, t) && id < |t.socks| && MovedAll(t, u, id)
    ensures MovedAll(s, u, id)
  {
    SameChannels(s.socks, t.socks, t.ready);
    var first := if s.socks[s.ready[0]].hasChannel then [s.ready[0]] else [];
    assert s.events + first + WithChannel(s.socks, t.ready) == s.events + (first + WithChannel(s.socks, t.ready));
  }

  /** A whole check takes every socket off the ready list, clears its mark, and queues an event, in
      order, for each that has a channel. */
  lemma {:induction false} CheckMovesAll(s: State, id: nat)
    requires s.tcl == Scanning(|s.ready|) && AllExist(s) && id < |s.socks|
    ensures MovedAll(s, Checked(s, |s.ready|), id)
    decreases |s.ready|, 0
  {
    if |s.ready| == 0 {
      CheckedEnd(s);
    } else {
      RoundMovesOne(s);
      CheckedRound(s, |s.ready| - 1);
      MoveRest(s, Next(Next(s, TclUnlist), TclQueueEvent), id);
    }
  }

  lemma {:induction false} MoveRest(s: State, t: State, id: nat)
    requires MovedOne(s, t) && t.tcl == Scanning(|t.ready|) && AllExist(t) && id < |s.socks|
    ensures MovedAll(s, Checked(t, |t.ready|), id)
    decreases |t.ready|, 1
  {
    CheckMovesAll(t, id);
    OneThenAll(s, t, Checked(t, |t.ready|), id);
  }

  // ----- the invariant of all sockets -----

  ghost predicate AllInv(s: State) {
    forall id: nat :: Inv(s, id)
  }

  lemma AllKept(s: State, a: Action)
    requires AllInv(s)
    ensures AllInv(Next(s, a))
  {
    forall id: nat ensures Inv(Next(s, a), id) { StepInv(s, a, id); }
  }

  lemma {:induction false} AllKeptAfter(s: State, actions: seq<Action>)
    requires AllInv(s)
    ensures AllInv(After(s, actions))
    decreases |actions|
  {
    if |actions| > 0 {
      AllKept(s, actions[0]);
      AllKeptAfter(Next(s, actions[0]), actions[1..]);
    }
  }

  lemma {:induction false} CountsItself(q: seq<nat>, i: nat)
    requires i < |q|
    ensures Count(q, q[i]) > 0
  {
    if i > 0 {
      CountsItself(q[1..], i - 1);
    }
  }

  /** Whatever is listed, queued or being accepted from exists. */
  lemma AllKnown(s: State)
    requires AllInv(s)
    ensures AllExist(s)
    ensures forall i :: 0 <= i < |s.events| ==> Exists(s, s.events[i])
    ensures forall i :: 0 <= i < |s.accepting| ==> Exists(s, s.accepting[i])
  {
    forall i | 0 <= i < |s.ready| ensures Exists(s, s.ready[i]) {
      CountsItself(s.ready, i);
      assert Inv(s, s.ready[i]);
    }
    forall i | 0 <= i < |s.events| ensures Exists(s, s.events[i]) {
      CountsItself(s.events, i);
      assert Inv(s, s.events[i]);
    }
    forall i | 0 <= i < |s.accepting| ensures Exists(s, s.accepting[i]) {
      CountsItself(s.accepting, i);
      assert Inv(s, s.accepting[i]);
    }
  }

  /** Socket `id` is marked and on the ready list, once. */
  predicate OnList(s: State, id: nat) {
    Exists(s, id) && s.socks[id].marked && s.socks[id].listed && Count(s.ready, id) == 1
  }

  lemma ZapLists(s: State, z: nat)
    requires AllInv(s) && Exists(s, z)
    ensures var t := Zap(s, z);
            && AllInv(t)
            && (if s.socks[z].phase == Open then OnList(t, z) else t.ready == s.ready)
            && forall id: nat :: id != z ==> Count(t.ready, id) == Count(s.ready, id)
  {
    assert Inv(s, z);
    ZapInv(s, z, z);
    forall id: nat ensures Inv(Zap(s, z), id) && (id != z ==> Count(Zap(s, z).ready, id) == Count(s.ready, id)) {
      assert Inv(s, id);
      ZapInv(s, z, id);
    }
  }

  lemma RequeueLists(s: State, id: nat)
    requires AllInv(s) && s.tcl == Idle && |s.accepting| > 0 && s.accepting[|s.accepting| - 1] == id
    ensures var t := Next(s, TclRequeue);
            && Exists(s, id) && AllInv(t)
            && (if s.socks[id].phase == Open && s.socks[id].queue != [] then OnList(t, id) else t.ready == s.ready)
  {
    AllKnown(s);
    AllKept(s, TclRequeue);
    ZapLists(s, id);
  }

  /** The mask is written and the count read, and either the socket is about to be zapped or there is
      nothing to tell. */
  lemma WatchDecides(s: State, id: nat, readable: bool, writable: bool)
    requires AllInv(s) && s.tcl == Idle && InUse(s, id) && !s.socks[id].listening
    ensures var c := Next(Next(s, TclWatch(id, readable, writable)), TclWatchCount);
            && AllInv(c) && Exists(c, id) && c.socks[id].phase == Open
            && c.tcl == (if (readable && s.socks[id].queue != []) || writable then Zapping(id) else Idle)
            && c.ready == s.ready
  {
    AllKept(s, TclWatch(id, readable, writable));
    AllKept(Next(s, TclWatch(id, readable, writable)), TclWatchCount);
  }

  lemma ZapStepLists(s: State, id: nat)
    requires AllInv(s) && s.tcl == Zapping(id) && Exists(s, id) && s.socks[id].phase == Open
    ensures OnList(Next(s, TclZap), id)
  {
    ZapLists(s, id);
  }

  lemma WatchLists(s: State, id: nat, readable: bool, writable: bool)
    requires AllInv(s) && s.tcl == Idle && InUse(s, id) && !s.socks[id].listening
    ensures var t := After(s, [TclWatch(id, readable, writable), TclWatchCount, TclZap]);
            && AllInv(t)
            && (if (readable && s.socks[id].queue != []) || writable then OnList(t, id) else t.ready == s.ready)
  {
    WatchDecides(s, id, readable, writable);
    var c := Next(Next(s, TclWatch(id, readable, writable)), TclWatchCount);
    AllKept(c, TclZap);
    AfterThree(s, TclWatch(id, readable, writable), TclWatchCount, TclZap);
    if c.tcl == Zapping(id) {
      ZapStepLists(c, id);
    }
  }

  /** From `s` to `t` nothing changed in any socket, but the mark of `id`. */
  predicate OnlyMarked(s: State, t: State, id: nat) {
    && |t.socks| == |s.socks| && Exists(s, id)
    && t.socks[id] == s.socks[id].(marked := t.socks[id].marked, listed := t.socks[id].listed)
    && forall i :: 0 <= i < |s.socks| && i != id ==> t.socks[i] == s.socks[i]
  }

  lemma WatchTail(w: State, id: nat)
    requires Exists(w, id)
    requires w.tcl == Idle || w.tcl == Zapping(id) || (w.tcl.Watching? && w.tcl.id == id)
    ensures OnlyMarked(w, Next(Next(w, TclWatchCount), TclZap), id)
  {
    var c := Next(w, TclWatchCount);
    assert c.socks == w.socks && (c.tcl == Idle || c.tcl == Zapping(id));
  }

  /** The mask is then what was given, and nothing else of any socket but its place on the ready list
      changed. */
  lemma WatchSetsMask(s: State, id: nat, readable: bool, writable: bool)
    requires s.tcl == Idle && InUse(s, id) && !s.socks[id].listening
    ensures var t := After(s, [TclWatch(id, readable, writable), TclWatchCount, TclZap]);
            OnlyMarked(Put(s, id, s.socks[id].(readable := readable)), t, id)
  {
    var w := Next(s, TclWatch(id, readable, writable));
    AfterThree(s, TclWatch(id, readable, writable), TclWatchCount, TclZap);
    WatchTail(w, id);
  }

  lemma CloseUnlists(s: State, id: nat)
    requires AllInv(s) && s.tcl == Idle && InUse(s, id)
    ensures var t := After(s, [TclCloseMark(id), TclClosePop, TclCloseEvents]);
            && AllInv(t) && Removed(t, id) && Count(t.ready, id) == 0 && Count(t.events, id) == 0
            && !t.socks[id].hasChannel && forall i: nat :: i != id ==>
                 Count(t.ready, i) == Count(s.ready, i) && Count(t.events, i) == Count(s.events, i)
  {
    var t := After(s, [TclCloseMark(id), TclClosePop, TclCloseEvents]);
    AfterThree(s, TclCloseMark(id), TclClosePop, TclCloseEvents);
    AllKeptAfter(s, [TclCloseMark(id), TclClosePop, TclCloseEvents]);
    assert Inv(t, id);
    forall i: nat | i != id
      ensures Count(t.ready, i) == Count(s.ready, i) && Count(t.events, i) == Count(s.events, i)
    {
      CountUnlinked(s.ready, id, i);
      CountPurged(s.events, id, i);
    }
  }

  /** From `s` to `t` the first event, of socket `id`, was serviced: its oldest connection was taken and
      has its channel, or its channel was told that it is readable. */
  predicate Serviced(s: State, t: State, id: nat) {
    && |s.events| > 0 && Exists(s, id) && t.events == s.events[1..] && |t.socks| == |s.socks|
    && var k, l := s.socks[id], t.socks[id];
       && l.arrived == k.arrived
       && (k.queue == [] ==> t.accepting == s.accepting && l == k)
       && (k.queue != [] && k.listening ==>
             && t.accepting == s.accepting + [id]
             && k.taken <= l.taken <= k.arrived && |l.taken| == |k.taken| + 1
             && (Exists(t, k.queue[0]) ==> t.socks[k.queue[0]].hasChannel))
       && (k.queue != [] && !k.listening ==>
             && t.accepting == s.accepting && l.queue == k.queue && l.hasChannel == k.hasChannel
             && l.notified == (k.notified || k.readable))
  }

  lemma EventServices(s: State)
    requires AllInv(s) && s.tcl == Idle && |s.events| > 0
    ensures Exists(s, s.events[0])
    ensures var t := Next(s, TclService); AllInv(t) && Serviced(s, t, s.events[0])
  {
    AllKnown(s);
    AllKept(s, TclService);
    assert Inv(s, s.events[0]);
  }

  lemma CheckEmpties(s: State)
    requires AllInv(s) && s.tcl == Idle
    ensures var t := After(s, [TclScan] + CheckRounds(|s.ready|));
            && AllInv(t) && t.tcl == Idle && t.ready == [] && t.events == s.events + WithChannel(s.socks, s.ready)
  {
    AllKnown(s);
    AllKeptAfter(s, [TclScan] + CheckRounds(|s.ready|));
    CheckedStart(s);
    var u := s.(tcl := Scanning(|s.ready|));
    if |s.ready| == 0 {
      CheckedEnd(u);
    } else {
      CheckMovesAll(u, s.ready[0]);
    }
  }

  class Shared {
    var socks: seq<Sock>
    var readySockets: seq<nat>
    var events: seq<nat>
    ghost var accepting: seq<nat>
    ghost var tcl: TclPc
    ghost var io: IoPc

    ghost function View(): State
      reads this
    {
      State(socks, readySockets, events, accepting, tcl, io)
    }

    constructor ()
      ensures View() == Run([]) && AllInv(View())
    {
      socks, readySockets, events, accepting, tcl, io := [], [], [], [], Idle, Waiting;
      new;
      forall id: nat ensures Inv(View(), id) { RunInv([], id); }
    }

    /** `IocpZapTclNotifier`: afterwards an open socket is on the ready list exactly once; a closed one
        is not put there, and nothing changes for the others. */
    method IocpZapTclNotifier(id: nat)
      requires AllInv(View()) && id < |socks|
      modifies this`socks, this`readySockets
      ensures View() == Zap(old(View()), id) && AllInv(View())
      ensures if old(socks)[id].phase == Open then OnList(View(), id) else readySockets == old(readySockets)
      ensures forall i: nat :: i != id ==> Count(readySockets, i) == Count(old(readySockets), i)
    {
      ZapLists(View(), id);
      ExchangeAndPush(id);
    }

    /** Its critical section. */
    method ExchangeAndPush(id: nat)
      requires id < |socks|
      modifies this`socks, this`readySockets
      ensures View() == Zap(old(View()), id)
    {
      var was := socks[id].marked;
      socks := socks[id := socks[id].(marked := true, listed := true)];
      if !was {
        readySockets := readySockets + [id];
      }
    }

    /** `IocpEventCheckProc`, over a snapshot of the count: the ready list is empty afterwards, and an
        event was queued for each of its sockets that has a channel. */
    method IocpEventCheckProc()
      requires AllInv(View()) && tcl == Idle
      modifies this
      ensures View() == After(old(View()), [TclScan] + CheckRounds(|old(readySockets)|)) && AllInv(View())
      ensures tcl == Idle && readySockets == []
      ensures events == old(events) + WithChannel(old(socks), old(readySockets))
    {
      AllKnown(View());
      CheckEmpties(View());
      var evCount: nat := |readySockets|;
      CheckedStart(View());
      tcl := Scanning(evCount);
      ghost var result := Checked(View(), evCount);
      while evCount > 0
        invariant tcl == Scanning(evCount) && Checked(View(), evCount) == result
        invariant forall i :: 0 <= i < |readySockets| ==> readySockets[i] < |socks|
      {
        evCount := evCount - 1;
        CheckOne(evCount);
      }
      CheckedEnd(View());
      tcl := Idle;
    }

    /** One round, which leaves `left` entries to look at. */
    method CheckOne(ghost left: nat)
      requires tcl == Scanning(left + 1) && forall i :: 0 <= i < |readySockets| ==> readySockets[i] < |socks|
      modifies this`socks, this`readySockets, this`events, this`tcl
      ensures Checked(View(), left) == Checked(old(View()), left + 1)
      ensures tcl == Scanning(left) && forall i :: 0 <= i < |readySockets| ==> readySockets[i] < |socks|
    {
      CheckedRound(View(), left);
      tcl := Scanning(left);
      if |readySockets| > 0 {
        var id := readySockets[0];
        readySockets := readySockets[1..];
        socks := socks[id := socks[id].(marked := false)];
        if socks[id].hasChannel {
          events := events + [id];
        }
      }
    }

    /** `IocpWatchProc` of a connected socket; `writable` says that the mask asks for writable events
        and the send cap allows one.  The mask is then what was given, and a socket that has something to
        tell is on the ready list. */
    method IocpWatchProc(id: nat, readable: bool, writable: bool)
      requires AllInv(View()) && tcl == Idle && InUse(View(), id) && !socks[id].listening
      modifies this`socks, this`readySockets
      ensures View() == After(old(View()), [TclWatch(id, readable, writable), TclWatchCount, TclZap])
      ensures AllInv(View())
      ensures if (readable && old(socks)[id].queue != []) || writable then OnList(View(), id)
              else readySockets == old(readySockets)
      ensures |socks| == |old(socks)| && socks[id].readable == readable
      ensures forall i :: 0 <= i < |socks| && i != id ==> socks[i] == old(socks)[i]
    {
      WatchLists(View(), id, readable, writable);
      WatchSetsMask(View(), id, readable, writable);
      AfterThree(View(), TclWatch(id, readable, writable), TclWatchCount, TclZap);
      socks := socks[id := socks[id].(readable := readable)];
      if readable && socks[id].queue != [] {
        ExchangeAndPush(id);
      } else if writable {
        ExchangeAndPush(id);
      }
    }

    /** `IocpEventProc` for the first event, with `IocpAcceptOne` up to the callback: takes the oldest
        connection of a listening socket, or tells a readable channel. */
    method IocpEventProc()
      requires AllInv(View()) && tcl == Idle && |events| > 0
      modifies this`socks, this`events, this`accepting
      ensures View() == Next(old(View()), TclService) && AllInv(View())
      ensures Serviced(old(View()), View(), old(events[0]))
    {
      EventServices(View());
      ServiceFirst();
    }

    method ServiceFirst()
      requires tcl == Idle && |events| > 0 && events[0] < |socks|
      modifies this`socks, this`events, this`accepting
      ensures View() == Next(old(View()), TclService)
    {
      var id := events[0];
      events := events[1..];
      if socks[id].listening {
        if socks[id].queue != [] {
          var client := socks[id].queue[0];
          socks := socks[id := TakeOne(socks[id])];
          if client < |socks| {
            socks := socks[client := socks[client].(hasChannel := true)];
          }
          accepting := accepting + [id];
        }
      } else if socks[id].readable && socks[id].queue != [] {
        socks := socks[id := socks[id].(notified := true)];
      }
    }

    /** The end of `IocpAcceptOne`: a listening socket with connections left is on the ready list, once. */
    method Requeue(id: nat)
      requires AllInv(View()) && tcl == Idle && |accepting| > 0 && accepting[|accepting| - 1] == id < |socks|
      modifies this`socks, this`readySockets, this`accepting
      ensures View() == Next(old(View()), TclRequeue) && AllInv(View())
      ensures if old(socks)[id].phase == Open && old(socks)[id].queue != [] then OnList(View(), id)
              else readySockets == old(readySockets)
    {
      RequeueLists(View(), id);
      if socks[id].queue != [] {
        ExchangeAndPush(id);
      }
      accepting := accepting[..|accepting| - 1];
    }

    /** `IocpClose2Proc`, as far as the notifier is concerned: the socket is on neither list nor event
        queue, and the others stay where they are. */
    method IocpClose2Proc(id: nat)
      requires AllInv(View()) && tcl == Idle && InUse(View(), id)
      modifies this`socks, this`readySockets, this`events
      ensures View() == After(old(View()), [TclCloseMark(id), TclClosePop, TclCloseEvents])
      ensures AllInv(View()) && Removed(View(), id) && Count(readySockets, id) == 0 && Count(events, id) == 0
      ensures !socks[id].hasChannel
      ensures forall i: nat :: i != id ==>
                Count(readySockets, i) == Count(old(readySockets), i) && Count(events, i) == Count(old(events), i)
    {
      CloseUnlists(View(), id);
      AfterThree(View(), TclCloseMark(id), TclClosePop, TclCloseEvents);
      socks := socks[id := socks[id].(marked := true, hasChannel := false, phase := Closed)];
      readySockets := Unlinked(readySockets, id);
      events := Purged(events, id);
    }
  }
}
