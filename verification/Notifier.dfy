/** How the completion thread tells the Tcl thread about work (iocpsock_lolevel.c): the ready list
    with each socket's `markedReady`, the event queue, the lists of accepted connections and of
    received buffers, and closing.

    A critical section is one step, and so is every other access to shared state.  Callbacks may do
    anything the Tcl thread can do, including run the event loop; `accepting` is the stack of
    `IocpAcceptOne` calls whose callback has not returned.  Threads do not hand over sockets. */
module Notifier {

  datatype Phase = Open | Marked | Popped | Closed

  /** `queue` is `readyAccepts` of a listening socket, holding the sockets of accepted clients, and
      `llPendingRecv` of a connected one. */
  datatype Sock = Sock(
    listening: bool, hasChannel: bool, readable: bool, marked: bool, queue: seq<nat>, phase: Phase,
    // history: everything ever queued, what was taken, and whether since the last arrival the socket
    // was on the ready list, and its channel was told that it is readable
    arrived: seq<nat>, taken: seq<nat>, listed: bool, notified: bool)

  datatype TclPc =
    | Idle | Opening(id: nat)
    // IocpEventCheckProc: entries left to look at; one was taken off the list
    | Scanning(left: nat) | Unlisted(id: nat, left: nat)
    // IocpWatchProc: the mask is written; the notifier is to be zapped
    | Watching(id: nat, writable: bool) | Zapping(id: nat)
    // IocpClose2Proc
    | CloseMarked(id: nat) | ClosePopped(id: nat)

  /** The completion thread: queued something, or is about to zap the notifier. */
  datatype IoPc = Waiting | Queued(id: nat) | Alerting(id: nat)

  datatype State = State(socks: seq<Sock>, ready: seq<nat>, events: seq<nat>, accepting: seq<nat>,
                         tcl: TclPc, io: IoPc)

  datatype Action =
    | IoAccept(id: nat) | IoReceive(id: nat, buffer: nat) | IoAlert | IoRequest(id: nat) | IoZap
    | TclOpen(listening: bool) | TclAttach
    | TclScan | TclUnlist | TclQueueEvent | TclScanEnd
    | TclService | TclRequeue
    | TclRead(id: nat) | TclWatch(id: nat, readable: bool, writable: bool) | TclWatchCount | TclZap
    | TclCloseMark(id: nat) | TclClosePop | TclCloseEvents

  // ----- steps -----

  predicate Exists(s: State, id: nat) { id < |s.socks| }

  predicate Enabled(s: State, a: Action) {
    match a
    case IoAccept(id) => s.io == Waiting && Exists(s, id) && s.socks[id].listening
    case IoReceive(id, _) => s.io == Waiting && Exists(s, id) && !s.socks[id].listening
    case IoAlert => s.io.Queued? && Exists(s, s.io.id)
    case IoRequest(id) => s.io == Waiting && Exists(s, id)
    case IoZap => s.io.Alerting? && Exists(s, s.io.id)
    case TclOpen(_) => s.tcl == Idle
    case TclAttach => s.tcl.Opening? && Exists(s, s.tcl.id)
    case TclScan => s.tcl == Idle
    case TclUnlist => s.tcl.Scanning? && s.tcl.left > 0 && (|s.ready| > 0 ==> Exists(s, s.ready[0]))
    case TclQueueEvent => s.tcl.Unlisted? && Exists(s, s.tcl.id)
    case TclScanEnd => s.tcl == Scanning(0)
    case TclService => s.tcl == Idle && |s.events| > 0 && Exists(s, s.events[0])
    case TclRequeue => s.tcl == Idle && |s.accepting| > 0 && Exists(s, s.accepting[|s.accepting| - 1])
    case TclRead(id) => s.tcl == Idle && InUse(s, id) && !s.socks[id].listening && s.socks[id].queue != []
    case TclWatch(id, _, _) => s.tcl == Idle && InUse(s, id) && !s.socks[id].listening
    case TclWatchCount => s.tcl.Watching? && Exists(s, s.tcl.id)
    case TclZap => s.tcl.Zapping? && Exists(s, s.tcl.id)
    case TclCloseMark(id) => s.tcl == Idle && InUse(s, id)
    case TclClosePop => s.tcl.CloseMarked? && Exists(s, s.tcl.id)
    case TclCloseEvents => s.tcl.ClosePopped? && Exists(s, s.tcl.id)
  }

  predicate InUse(s: State, id: nat) {
    Exists(s, id) && s.socks[id].phase == Open && s.socks[id].hasChannel
  }

  function NewSock(listening: bool): Sock {
    Sock(listening, false, false, false, [], Open, [], [], false, false)
  }

  function Put(s: State, id: nat, k: Sock): State
    requires Exists(s, id)
  {
    s.(socks := s.socks[id := k])
  }

  function Arrive(k: Sock, x: nat): Sock {
    k.(queue := k.queue + [x], arrived := k.arrived + [x], listed := false, notified := false)
  }

  function TakeOne(k: Sock): Sock
    requires |k.queue| > 0
  {
    k.(queue := k.queue[1..], taken := k.taken + [k.queue[0]])
  }

  /** The critical section of `IocpZapTclNotifier`: puts the socket on the ready list unless it is
      marked. */
  function Zap(s: State, id: nat): State
    requires Exists(s, id)
  {
    var k := s.socks[id];
    if k.marked then Put(s, id, k.(listed := true))
    else Put(s, id, k.(marked := true, listed := true)).(ready := s.ready + [id])
  }

  /** `IocpAcceptOne` up to the callback: one connection is taken and gets its channel. */
  function AcceptOne(s: State, id: nat): State
    requires Exists(s, id) && s.socks[id].queue != []
  {
    var client, t := s.socks[id].queue[0], Put(s, id, TakeOne(s.socks[id]));
    (if Exists(t, client) then Put(t, client, t.socks[client].(hasChannel := true)) else t)
      .(accepting := s.accepting + [id])
  }

  /** `IocpEventProc`. */
  function Service(s: State, id: nat): State
    requires Exists(s, id)
  {
    var k := s.socks[id];
    if k.listening then (if k.queue == [] then s else AcceptOne(s, id))
    else if k.readable && k.queue != [] then Put(s, id, k.(notified := true))
    else s
  }

  /** The node of `id` taken off a list. */
  function Unlinked(q: seq<nat>, id: nat): seq<nat> {
    if |q| == 0 then [] else if q[0] == id then q[1..] else [q[0]] + Unlinked(q[1..], id)
  }

  /** Every event of socket `id` deleted. */
  function Purged(q: seq<nat>, id: nat): seq<nat> {
    if |q| == 0 then [] else if q[0] == id then Purged(q[1..], id) else [q[0]] + Purged(q[1..], id)
  }

  /** One step; an action that is not enabled changes nothing. */
  function Next(s: State, a: Action): State {
    if !Enabled(s, a) then s
    else match a
      case IoAccept(id) =>
        s.(socks := s.socks[id := Arrive(s.socks[id], |s.socks|)] + [NewSock(false)], io := Queued(id))
      case IoReceive(id, buffer) => Put(s, id, Arrive(s.socks[id], buffer)).(io := Queued(id))
      case IoAlert =>
        var k := s.socks[s.io.id];
        s.(io := if k.listening || k.readable then Alerting(s.io.id) else Waiting)
      case IoRequest(id) => s.(io := Alerting(id))
      case IoZap => Zap(s, s.io.id).(io := Waiting)
      case TclOpen(listening) => s.(socks := s.socks + [NewSock(listening)], tcl := Opening(|s.socks|))
      case TclAttach => Put(s, s.tcl.id, s.socks[s.tcl.id].(hasChannel := true)).(tcl := Idle)
      case TclScan => s.(tcl := Scanning(|s.ready|))
      case TclUnlist =>
        if s.ready == [] then s.(tcl := Scanning(s.tcl.left - 1))
        else
          var id := s.ready[0];
          Put(s, id, s.socks[id].(marked := false)).(ready := s.ready[1..], tcl := Unlisted(id, s.tcl.left - 1))
      case TclQueueEvent =>
        s.(events := if s.socks[s.tcl.id].hasChannel then s.events + [s.tcl.id] else s.events,
           tcl := Scanning(s.tcl.left))
      case TclScanEnd => s.(tcl := Idle)
      case TclService => Service(s.(events := s.events[1..]), s.events[0])
      case TclRequeue =>
        var id := s.accepting[|s.accepting| - 1];
        (if s.socks[id].queue != [] then Zap(s, id) else s).(accepting := s.accepting[..|s.accepting| - 1])
      case TclRead(id) => Put(s, id, TakeOne(s.socks[id]))
      case TclWatch(id, readable, writable) =>
        Put(s, id, s.socks[id].(readable := readable))
          .(tcl := if readable then Watching(id, writable) else if writable then Zapping(id) else Idle)
      case TclWatchCount =>
        s.(tcl := if s.socks[s.tcl.id].queue != [] || s.tcl.writable then Zapping(s.tcl.id) else Idle)
      case TclZap => Zap(s, s.tcl.id).(tcl := Idle)
      case TclCloseMark(id) =>
        Put(s, id, s.socks[id].(marked := true, phase := Marked, hasChannel := false)).(tcl := CloseMarked(id))
      case TclClosePop =>
        var id := s.tcl.id;
        Put(s, id, s.socks[id].(phase := Popped)).(ready := Unlinked(s.ready, id), tcl := ClosePopped(id))
      case TclCloseEvents =>
        var id := s.tcl.id;
        Put(s, id, s.socks[id].(phase := Closed)).(events := Purged(s.events, id), tcl := Idle)
  }

  function Run(actions: seq<Action>): State {
    if |actions| == 0 then State([], [], [], [], Idle, Waiting)
    else Next(Run(actions[..|actions| - 1]), actions[|actions| - 1])
  }

  // ----- counting -----

  function Count(q: seq<nat>, id: nat): nat {
    if |q| == 0 then 0 else (if q[0] == id then 1 else 0) + Count(q[1..], id)
  }

  lemma {:induction false} CountAppend(q: seq<nat>, x: nat, id: nat)
    ensures Count(q + [x], id) == Count(q, id) + if x == id then 1 else 0
  {
    if |q| == 0 {
      assert q + [x] == [x] && [x][1..] == [];
    } else {
      assert (q + [x])[1..] == q[1..] + [x];
      CountAppend(q[1..], x, id);
    }
  }

  lemma CountDropLast(q: seq<nat>, id: nat)
    requires |q| > 0
    ensures Count(q, id) == Count(q[..|q| - 1], id) + if q[|q| - 1] == id then 1 else 0
  {
    CountAppend(q[..|q| - 1], q[|q| - 1], id);
    assert q[..|q| - 1] + [q[|q| - 1]] == q;
  }

  lemma {:induction false} CountUnlinked(q: seq<nat>, id: nat, x: nat)
    ensures Count(Unlinked(q, id), x) == if x == id && Count(q, id) > 0 then Count(q, x) - 1 else Count(q, x)
  {
    if |q| > 0 && q[0] != id {
      CountUnlinked(q[1..], id, x);
      assert ([q[0]] + Unlinked(q[1..], id))[1..] == Unlinked(q[1..], id);
    }
  }

  lemma {:induction false} CountPurged(q: seq<nat>, id: nat, x: nat)
    ensures Count(Purged(q, id), x) == if x == id then 0 else Count(q, x)
  {
    if |q| > 0 {
      CountPurged(q[1..], id, x);
      assert ([q[0]] + Purged(q[1..], id))[1..] == Purged(q[1..], id);
    }
  }

  // ----- the invariant of one socket -----

  /** What the rest of the system holds of socket `id`. */
  datatype Seen = Seen(ready: nat, events: nat, accepting: nat, tcl: TclPc, io: IoPc)

  function Look(s: State, id: nat): Seen {
    Seen(Count(s.ready, id), Count(s.events, id), Count(s.accepting, id), s.tcl, s.io)
  }

  predicate TclAt(tcl: TclPc, id: nat) {
    match tcl
    case Unlisted(i, _) => i == id
    case Watching(i, _) => i == id
    case Zapping(i) => i == id
    case Opening(i) => i == id
    case _ => false
  }

  predicate IoAt(io: IoPc, id: nat) {
    io == Queued(id) || io == Alerting(id)
  }

  /** Ready-list discipline. */
  predicate Listed(id: nat, k: Sock, n: Seen) {
    && (k.phase == Open ==> n.ready == if k.marked then 1 else 0)
    && (k.phase == Marked <==> n.tcl == CloseMarked(id))
    && (k.phase == Popped <==> n.tcl == ClosePopped(id))
    && (k.phase != Open ==> k.marked && !TclAt(n.tcl, id))
    && (k.phase == Marked ==> n.ready <= 1)
    && (k.phase == Popped || k.phase == Closed ==> n.ready == 0)
    && (k.phase == Closed ==> n.events == 0)
  }

  /** An event for the socket is on its way. */
  predicate OnItsWay(id: nat, n: Seen) {
    n.ready > 0 || n.events > 0 || (n.tcl.Unlisted? && n.tcl.id == id) || IoAt(n.io, id)
  }

  predicate Served(id: nat, k: Sock, n: Seen) {
    && k.arrived == k.taken + k.queue
    && (k.phase == Open && (k.listening || k.readable) && !k.hasChannel ==> n.tcl == Opening(id))
    && (n.tcl == Opening(id) ==> k.phase == Open && !k.readable)
    && (k.listening && k.phase == Open && k.queue != [] ==> OnItsWay(id, n) || n.accepting > 0)
    && (!k.listening && k.phase == Open && k.readable && k.queue != [] ==>
          && (k.notified || OnItsWay(id, n) || (n.tcl.Watching? && n.tcl.id == id) || n.tcl == Zapping(id))
          && (k.listed || IoAt(n.io, id) || (n.tcl.Watching? && n.tcl.id == id) || n.tcl == Zapping(id)))
  }

  predicate SockInv(id: nat, k: Sock, n: Seen) {
    Listed(id, k, n) && Served(id, k, n)
  }

  predicate Unknown(id: nat, n: Seen) {
    && n.ready == 0 && n.events == 0 && n.accepting == 0
    && !TclAt(n.tcl, id) && n.tcl != CloseMarked(id) && n.tcl != ClosePopped(id) && !IoAt(n.io, id)
  }

  predicate Inv(s: State, id: nat) {
    if Exists(s, id) then SockInv(id, s.socks[id], Look(s, id)) else Unknown(id, Look(s, id))
  }

  lemma ZapInv(s: State, z: nat, id: nat)
    requires Exists(s, z)
    ensures var t := Zap(s, z);
            && |t.socks| == |s.socks|
            && (z != id && Exists(s, id) ==> t.socks[id] == s.socks[id])
            && t.socks[z] == s.socks[z].(marked := true, listed := true)
            && Look(t, id) == Look(s, id).(ready := Count(s.ready, id) + if z == id && !s.socks[z].marked then 1 else 0)
  {
    CountAppend(s.ready, z, id);
  }

  lemma StepIo(s: State, a: Action, id: nat)
    requires Inv(s, id) && (a.IoAccept? || a.IoReceive? || a.IoAlert? || a.IoRequest? || a.IoZap?)
    ensures Inv(Next(s, a), id)
  {
    if a == IoZap && Enabled(s, a) {
      ZapInv(s, s.io.id, id);
    }
  }

  lemma StepScan(s: State, a: Action, id: nat)
    requires Inv(s, id) && (a.TclScan? || a.TclUnlist? || a.TclQueueEvent? || a.TclScanEnd?)
    ensures Inv(Next(s, a), id)
  {
    if a == TclQueueEvent && Enabled(s, a) {
      CountAppend(s.events, s.tcl.id, id);
    }
  }

  lemma StepService(s: State, id: nat)
    requires Inv(s, id)
    ensures Inv(Next(s, TclService), id)
  {
    if Enabled(s, TclService) {
      CountAppend(s.accepting, s.events[0], id);
    }
  }

  lemma StepRequeue(s: State, id: nat)
    requires Inv(s, id)
    ensures Inv(Next(s, TclRequeue), id)
  {
    if Enabled(s, TclRequeue) {
      CountDropLast(s.accepting, id);
      ZapInv(s, s.accepting[|s.accepting| - 1], id);
    }
  }

  lemma StepChannel(s: State, a: Action, id: nat)
    requires Inv(s, id)
    requires a.TclOpen? || a.TclAttach? || a.TclRead? || a.TclWatch? || a.TclWatchCount? || a.TclZap?
    ensures Inv(Next(s, a), id)
  {
    if a == TclZap && Enabled(s, a) {
      ZapInv(s, s.tcl.id, id);
    }
  }

  lemma StepCloseMark(s: State, a: Action, id: nat)
    requires Inv(s, id) && a.TclCloseMark?
    ensures Inv(Next(s, a), id)
  {
  }

  lemma StepCloseRemove(s: State, a: Action, id: nat)
    requires Inv(s, id) && (a.TclClosePop? || a.TclCloseEvents?)
    ensures Inv(Next(s, a), id)
  {
    if a == TclClosePop && Enabled(s, a) {
      CountUnlinked(s.ready, s.tcl.id, id);
    } else if a == TclCloseEvents && Enabled(s, a) {
      CountPurged(s.events, s.tcl.id, id);
    }
  }

  lemma StepInv(s: State, a: Action, id: nat)
    requires Inv(s, id)
    ensures Inv(Next(s, a), id)
  {
    if a.IoAccept? || a.IoReceive? || a.IoAlert? || a.IoRequest? || a.IoZap? {
      StepIo(s, a, id);
    } else if a.TclScan? || a.TclUnlist? || a.TclQueueEvent? || a.TclScanEnd? {
      StepScan(s, a, id);
    } else if a.TclService? {
      StepService(s, id);
    } else if a.TclRequeue? {
      StepRequeue(s, id);
    } else if a.TclCloseMark? {
      StepCloseMark(s, a, id);
    } else if a.TclClosePop? || a.TclCloseEvents? {
      StepCloseRemove(s, a, id);
    } else {
      StepChannel(s, a, id);
    }
  }

  lemma {:induction false} RunInv(actions: seq<Action>, id: nat)
    ensures Inv(Run(actions), id)
  {
    if |actions| > 0 {
      RunInv(actions[..|actions| - 1], id);
      StepInv(Run(actions[..|actions| - 1]), actions[|actions| - 1], id);
    }
  }

  // ----- what the runs guarantee -----

  /** In every run an open socket is on the ready list exactly when it is marked, and then once; a
      closed one is marked, but neither on the list nor in the event queue. */
  lemma ReadyListDiscipline(actions: seq<Action>, id: nat)
    requires Exists(Run(actions), id)
    ensures var s := Run(actions); var k := s.socks[id];
            && (k.phase == Open ==> Count(s.ready, id) == if k.marked then 1 else 0)
            && (k.phase == Popped || k.phase == Closed ==> k.marked && Count(s.ready, id) == 0)
            && (k.phase == Closed ==> Count(s.events, id) == 0 && s.tcl != Zapping(id))
  {
    RunInv(actions, id);
  }

  predicate Removed(s: State, id: nat) {
    Exists(s, id) && (s.socks[id].phase == Popped || s.socks[id].phase == Closed)
  }

  lemma StaysRemoved(s: State, a: Action, id: nat)
    requires Removed(s, id) && Inv(s, id)
    ensures Removed(Next(s, a), id)
  {
  }

  function After(s: State, later: seq<Action>): State
    decreases |later|
  {
    if |later| == 0 then s else After(Next(s, later[0]), later[1..])
  }

  lemma {:induction false} RemovedForever(s: State, later: seq<Action>, id: nat)
    requires Removed(s, id) && Inv(s, id)
    ensures Removed(After(s, later), id) && Inv(After(s, later), id)
    decreases |later|
  {
    if |later| > 0 {
      StaysRemoved(s, later[0], id);
      StepInv(s, later[0], id);
      RemovedForever(Next(s, later[0]), later[1..], id);
    }
  }

  /** Once close has taken the socket off the ready list, no later step puts it there again. */
  lemma NeverListedAgain(actions: seq<Action>, later: seq<Action>, id: nat)
    requires Removed(Run(actions), id)
    ensures var t := After(Run(actions), later); Removed(t, id) && Count(t.ready, id) == 0
  {
    RunInv(actions, id);
    RemovedForever(Run(actions), later, id);
  }

  /** In every run, a connection waiting at an open listening socket has an alert under way: the
      socket is on the ready list, being moved from it to the event queue, or has an event queued,
      or a connection is being accepted from it, or the completion thread is about to alert. */
  lemma NoConnectionStranded(actions: seq<Action>, id: nat)
    requires var s := Run(actions);
             Exists(s, id) && s.socks[id].listening && s.socks[id].phase == Open && s.socks[id].queue != []
    ensures var s := Run(actions);
            || Count(s.ready, id) > 0 || Count(s.events, id) > 0 || Count(s.accepting, id) > 0
            || (s.tcl.Unlisted? && s.tcl.id == id) || s.io == Queued(id) || s.io == Alerting(id)
  {
    RunInv(actions, id);
  }

  /** In every run, what was taken from a socket is what arrived first, in that order, and the rest
      is still there. */
  lemma TakenInOrder(actions: seq<Action>, id: nat)
    requires Exists(Run(actions), id)
    ensures var k := Run(actions).socks[id]; k.arrived == k.taken + k.queue
  {
    RunInv(actions, id);
  }

  /** A step takes at most one connection from a listening socket, and only for an event. */
  lemma OnePerEvent(s: State, a: Action, id: nat)
    requires Exists(s, id) && s.socks[id].listening
    ensures var k, t := s.socks[id], Next(s, a).socks[id];
            t.taken != k.taken ==>
              && a == TclService && |s.events| > 0 && s.events[0] == id
              && k.queue != [] && t.taken == k.taken + [k.queue[0]] && t.queue == k.queue[1..]
              && Next(s, a).accepting == s.accepting + [id]
  {
  }

  /** In every run, when both threads are done with a readable socket that holds unread buffers, it
      was on the ready list after the last arrival, and its channel has since been told or will be. */
  lemma NoReadableLost(actions: seq<Action>, id: nat)
    requires var s := Run(actions);
             && Exists(s, id) && !s.socks[id].listening && s.socks[id].phase == Open
             && s.socks[id].readable && s.socks[id].queue != []
             && !IoAt(s.io, id) && s.tcl != Zapping(id) && !(s.tcl.Watching? && s.tcl.id == id)
    ensures var s := Run(actions);
            && s.socks[id].listed
            && (s.socks[id].notified || Count(s.ready, id) > 0 || Count(s.events, id) > 0
                || (s.tcl.Unlisted? && s.tcl.id == id))
  {
    RunInv(actions, id);
  }

  /** So when nothing is left to do, every connection was taken, and every readable channel told. */
  lemma QuietMeansServed(actions: seq<Action>, id: nat)
    requires var s := Run(actions);
             && s.ready == [] && s.events == [] && s.accepting == [] && s.tcl == Idle && s.io == Waiting
             && Exists(s, id) && s.socks[id].phase == Open
    ensures var k := Run(actions).socks[id];
            && (k.listening ==> k.taken == k.arrived)
            && (!k.listening && k.readable && k.queue != [] ==> k.notified)
  {
    RunInv(actions, id);
  }

  // ----- who may change what -----

  /** The step services an event of socket `id`. */
  predicate Services(s: State, a: Action, id: nat) {
    a == TclService && Enabled(s, a) && s.events[0] == id
  }

  /** The step accepts client `id` from its listening socket. */
  predicate Accepts(s: State, a: Action, id: nat) {
    && a == TclService && Enabled(s, a)
    && var l := s.socks[s.events[0]]; l.listening && l.queue != [] && l.queue[0] == id
  }

  /** The mask of a socket changes only in `IocpWatchProc`, to what that was given. */
  lemma MaskAsAsked(s: State, a: Action, id: nat)
    requires Exists(s, id)
    ensures var k, t := s.socks[id], Next(s, a).socks[id];
            && t.readable == (if a.TclWatch? && Enabled(s, a) && a.id == id then a.readable else k.readable)
            && t.listening == k.listening
  {
  }

  /** A channel comes with opening a socket or accepting it, and goes with closing it. */
  lemma ChannelAsOpened(s: State, a: Action, id: nat)
    requires Exists(s, id)
    ensures var k, t := s.socks[id], Next(s, a).socks[id];
            && (t.hasChannel && !k.hasChannel ==> (a == TclAttach && s.tcl == Opening(id)) || Accepts(s, a, id))
            && (k.hasChannel && !t.hasChannel ==> a == TclCloseMark(id))
  {
  }

  /** A socket comes into being by opening it or as an accepted client, open, empty, without a channel,
      unwatched and unmarked; it keeps its number for ever. */
  lemma NewSocket(s: State, a: Action)
    ensures var t := Next(s, a);
            && (t.socks != s.socks ==> |s.socks| <= |t.socks| <= |s.socks| + 1)
            && (|t.socks| > |s.socks| ==>
                  && Enabled(s, a) && (a.IoAccept? || a.TclOpen?)
                  && t.socks[|s.socks|]
                     == Sock(a.TclOpen? && a.listening, false, false, false, [], Open, [], [], false, false))
  {
  }

  /** A channel is told that it is readable only by servicing its event, and only when it is readable
      and asked to be told. */
  lemma ToldAsAsked(s: State, a: Action, id: nat)
    requires Exists(s, id)
    ensures var k, t := s.socks[id], Next(s, a).socks[id];
            t.notified && !k.notified ==> Services(s, a, id) && k.readable && k.queue != [] && !k.listening
  {
  }

  /** Exactly the completion thread's arrivals are queued. */
  lemma ArrivesAsCompleted(s: State, a: Action, id: nat)
    requires Exists(s, id)
    ensures var k, t := s.socks[id], Next(s, a).socks[id];
            t.arrived == k.arrived
                         + (if a == IoAccept(id) && Enabled(s, a) then [|s.socks|]
                            else if a.IoReceive? && a.id == id && Enabled(s, a) then [a.buffer] else [])
  {
    assert s.socks[id].arrived + [] == s.socks[id].arrived;
  }

  /** Exactly one item, the oldest, goes for a read of a connected socket or an event of a listening
      one. */
  lemma TakenAsServed(s: State, a: Action, id: nat)
    requires Exists(s, id)
    ensures var k, t := s.socks[id], Next(s, a).socks[id];
            t.taken == k.taken
                       + (if k.queue != []
                             && ((a == TclRead(id) && Enabled(s, a)) || (Services(s, a, id) && k.listening))
                          then [k.queue[0]] else [])
  {
    assert s.socks[id].taken + [] == s.socks[id].taken;
  }

  /** The mark of an open socket is set only together with listing it, and cleared only together with
      taking it off; a closed one stays marked. */
  lemma MarkAsListed(s: State, a: Action, id: nat)
    requires Inv(s, id) && Exists(s, id) && s.socks[id].phase == Open && Next(s, a).socks[id].phase == Open
    ensures var k, t := s.socks[id], Next(s, a);
            && (t.socks[id].marked && !k.marked ==> Count(t.ready, id) == Count(s.ready, id) + 1)
            && (k.marked && !t.socks[id].marked ==> a == TclUnlist && |s.ready| > 0 && s.ready[0] == id)
  {
    StepInv(s, a, id);
  }

  /** A buffer that arrives at a socket nobody watches does not put it on the ready list. */
  lemma UnwatchedNotListed(s: State, id: nat, buffer: nat)
    requires s.io == Waiting && Exists(s, id) && !s.socks[id].listening && !s.socks[id].readable
    ensures var t := Next(Next(s, IoReceive(id, buffer)), IoAlert);
            t.io == Waiting && t.ready == s.ready && t.socks[id].queue == s.socks[id].queue + [buffer]
  {
    assert Next(s, IoReceive(id, buffer)) == Put(s, id, Arrive(s.socks[id], buffer)).(io := Queued(id));
  }
}
