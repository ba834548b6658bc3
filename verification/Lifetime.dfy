/** How long a connected socket lives (iocpsock_lolevel.c).

    Every interlocked operation, and every load and every store of `flags`, is a step of its own, of
    the Tcl thread or of the completion thread; `flags |= x` is a load and a store.  The reference
    count `outstandingOps` is an integer that only these steps change.  Which operation completes
    next, how, and whether posting succeeds is open. */
module Lifetime {

  datatype Flags = Flags(eof: bool, closing: bool, closable: bool)

  /** A completion: a receive without bytes, any other operation, or one that was aborted. */
  datatype Kind = ZeroRead | OtherOp | AbortedOp

  datatype Disconnect = NotPosted | InFlight | Handling | Handled(aborted: bool)

  datatype TclPc =
    | Open | MayPost | Posting | EofLoaded(f: Flags)
    // IocpClose2Proc, then PostOverlappedDisconnect
    | RefTaken | CloseLoaded(f: Flags) | Marked | DisconnectCounted | Closed

  /** The completion thread; from `Got` on it holds the reference of the operation it handles. */
  datatype IoPc =
    | Idle
    | Got(kind: Kind) | IoMayPost | IoPosting
    | GotDisconnect(aborted: bool)
    | Marking | MarkLoaded(f: Flags)
    | Leaving | Testing(r: int)

  /** `inFlight` counts the posted operations, other than the disconnect, that the completion thread
      has not taken yet; `freed` counts calls of `FreeSocketInfo`. */
  datatype State = State(ops: int, flags: Flags, inFlight: nat, disconnect: Disconnect,
                         tcl: TclPc, io: IoPc, freed: nat)

  datatype Action =
    | TclPostCheck | TclPostCount | TclPostSubmit | TclPostFail
    | TclEofLoad | TclEofStore
    | TclCloseRef | TclCloseLoad | TclCloseStore | TclDisconnectCount | TclDisconnectPost
    | IoTake(kind: Kind) | IoTakeDisconnect(aborted: bool)
    | IoSkip | IoZeroCheck | IoPostCheck | IoPostCount | IoPostSubmit | IoPostFail | IoNoPost
    | IoDropRef | IoMarkLoad | IoMarkStore
    | IoDecrement | IoTest

  predicate Enabled(s: State, a: Action) {
    match a
    case TclPostCheck => s.tcl == Open && !s.flags.eof && !s.flags.closing
    case TclPostCount => s.tcl == MayPost
    case TclPostSubmit => s.tcl == Posting
    case TclPostFail => s.tcl == Posting
    case TclEofLoad => s.tcl == Open
    case TclEofStore => s.tcl.EofLoaded?
    case TclCloseRef => s.tcl == Open
    case TclCloseLoad => s.tcl == RefTaken
    case TclCloseStore => s.tcl.CloseLoaded?
    case TclDisconnectCount => s.tcl == Marked
    case TclDisconnectPost => s.tcl == DisconnectCounted
    case IoTake(_) => s.io == Idle && s.inFlight > 0
    case IoTakeDisconnect(_) => s.io == Idle && s.disconnect == InFlight
    case IoSkip => s.io == Got(AbortedOp) || s.io == GotDisconnect(true)
    case IoZeroCheck => s.io == Got(ZeroRead)
    case IoPostCheck => s.io == Got(OtherOp) && !s.flags.eof && !s.flags.closing
    case IoPostCount => s.io == IoMayPost
    case IoPostSubmit => s.io == IoPosting
    case IoPostFail => s.io == IoPosting
    case IoNoPost => s.io == Got(OtherOp)
    case IoDropRef => s.io == GotDisconnect(false)
    case IoMarkLoad => s.io == Marking
    case IoMarkStore => s.io.MarkLoaded?
    case IoDecrement => s.io == Leaving
    case IoTest => s.io.Testing?
  }

  /** One step; an action that is not enabled changes nothing. */
  function Next(s: State, a: Action): State {
    if !Enabled(s, a) then s
    else match a
      case TclPostCheck => s.(tcl := MayPost)
      case TclPostCount => s.(ops := s.ops + 1, tcl := Posting)
      case TclPostSubmit => s.(inFlight := s.inFlight + 1, tcl := Open)
      case TclPostFail => s.(ops := s.ops - 1, tcl := Open)
      case TclEofLoad => s.(tcl := EofLoaded(s.flags))
      case TclEofStore => s.(flags := s.tcl.f.(eof := true), tcl := Open)
      case TclCloseRef => s.(ops := s.ops + 1, tcl := RefTaken)
      case TclCloseLoad => s.(tcl := CloseLoaded(s.flags))
      case TclCloseStore => s.(flags := s.tcl.f.(closing := true), tcl := Marked)
      case TclDisconnectCount => s.(ops := s.ops + 1, tcl := DisconnectCounted)
      case TclDisconnectPost => s.(disconnect := InFlight, tcl := Closed)
      case IoTake(kind) => s.(inFlight := s.inFlight - 1, io := Got(kind))
      case IoTakeDisconnect(aborted) => s.(disconnect := Handling, io := GotDisconnect(aborted))
      case IoSkip =>
        s.(disconnect := if s.disconnect == Handling then Handled(true) else s.disconnect, io := Leaving)
      case IoZeroCheck => s.(io := if s.flags.closing then Marking else Leaving)
      case IoPostCheck => s.(io := IoMayPost)
      case IoPostCount => s.(ops := s.ops + 1, io := IoPosting)
      case IoPostSubmit => s.(inFlight := s.inFlight + 1, io := Got(OtherOp))
      case IoPostFail => s.(ops := s.ops - 1, io := Got(OtherOp))
      case IoNoPost => s.(io := Leaving)
      case IoDropRef => s.(ops := s.ops - 1, io := Marking)
      case IoMarkLoad => s.(io := MarkLoaded(s.flags))
      case IoMarkStore =>
        s.(flags := s.io.f.(closable := true), io := Leaving,
           disconnect := if s.disconnect == Handling then Handled(false) else s.disconnect)
      case IoDecrement => s.(ops := s.ops - 1, io := Testing(s.ops - 1))
      case IoTest =>
        s.(freed := if s.io.r <= 0 && s.flags.closable then s.freed + 1 else s.freed, io := Idle)
  }

  function Run(start: State, actions: seq<Action>): State {
    if |actions| == 0 then start
    else Next(Run(start, actions[..|actions| - 1]), actions[|actions| - 1])
  }

  /** An open socket with `n` operations in flight. */
  function Connected(n: nat): State {
    State(n, Flags(false, false, false), n, NotPosted, Open, Idle, 0)
  }

  /** A connection that was accepted but on which, after `n` receives were posted, the next could not
      be.  Tcl never hears of it; its disconnect is posted without an artificial reference. */
  function Dud(n: nat): State {
    State(n + 1, Flags(false, true, false), n, InFlight, Closed, Idle, 0)
  }

  // ----- the invariant -----

  /** Close holds its artificial reference. */
  predicate RefHeld(s: State) {
    && (s.tcl == RefTaken || s.tcl.CloseLoaded? || s.tcl == Marked || s.tcl == DisconnectCounted || s.tcl == Closed)
    && s.disconnect != Handled(false)
    && !(s.disconnect == Handling && (s.io == Marking || s.io.MarkLoaded?))
  }

  /** The reference that the completion thread holds for the operation it handles. */
  function Holding(s: State): int {
    if s.io == Idle || s.io.Testing? then 0 else if s.io == IoPosting then 2 else 1
  }

  /** What `outstandingOps` counts. */
  function References(s: State): int {
    s.inFlight + Holding(s)
    + (if s.tcl == Posting then 1 else 0)
    + (if s.tcl == DisconnectCounted || s.disconnect == InFlight then 1 else 0)
    + (if RefHeld(s) then 1 else 0)
  }

  predicate CloseStored(s: State) {
    s.tcl == Marked || s.tcl == DisconnectCounted || s.tcl == Closed
  }

  /** How far each side has got. */
  predicate Order(s: State) {
    && (s.disconnect == NotPosted <==> s.tcl != Closed)
    && (s.flags.closing <==> CloseStored(s))
    && (s.flags.closable ==> CloseStored(s))
    && (s.disconnect == Handled(false) ==> s.flags.closable)
    && (s.io.GotDisconnect? ==> s.disconnect == Handling)
    && (s.disconnect == Handling ==> s.io.GotDisconnect? || s.io == Marking || s.io.MarkLoaded?)
    && (s.io == Marking || s.io.MarkLoaded? ==> CloseStored(s))
  }

  /** A loaded `flags` is not out of date when it is stored. */
  predicate FreshLoads(s: State) {
    && (s.tcl.EofLoaded? ==> s.tcl.f == s.flags)
    && (s.tcl.CloseLoaded? ==> s.tcl.f == s.flags)
    && (s.io.MarkLoaded? ==> s.io.f == s.flags)
  }

  /** Nothing is left but the completion thread's current handler. */
  predicate Drained(s: State) {
    s.tcl == Closed && s.inFlight == 0 && s.disconnect == Handled(false)
  }

  /** No thread has anything left to do with the socket. */
  predicate AllDone(s: State) {
    Drained(s) && s.io == Idle
  }

  /** A dud connection has no operation but its disconnect. */
  predicate OnlyDisconnect(s: State) {
    && s.tcl == Closed && s.inFlight == 0
    && !s.io.Got? && s.io != IoMayPost && s.io != IoPosting
    && (s.disconnect == InFlight ==> s.io == Idle)
    && (s.io == Marking || s.io.MarkLoaded? ==> s.disconnect == Handling)
    && (s.flags.closable <==> s.disconnect == Handled(false))
  }

  predicate Inv(s: State, dud: bool) {
    && s.ops == References(s) - (if dud then 1 else 0)
    && Order(s) && FreshLoads(s)
    && (s.io.Testing? && s.flags.closable ==> (s.io.r <= 0 <==> Drained(s)))
    && s.freed == (if AllDone(s) then 1 else 0)
    && (dud ==> OnlyDisconnect(s))
  }

  lemma StepOrder(s: State, a: Action, dud: bool)
    requires Inv(s, dud)
    ensures var t := Next(s, a); Order(t) && FreshLoads(t) && (dud ==> OnlyDisconnect(t))
  {
  }

  lemma StepInv(s: State, a: Action, dud: bool)
    requires Inv(s, dud)
    ensures Inv(Next(s, a), dud)
  {
    StepOrder(s, a, dud);
  }

  lemma {:induction false} RunInv(start: State, actions: seq<Action>, dud: bool)
    requires Inv(start, dud)
    ensures Inv(Run(start, actions), dud)
  {
    if |actions| > 0 {
      RunInv(start, actions[..|actions| - 1], dud);
      StepInv(Run(start, actions[..|actions| - 1]), actions[|actions| - 1], dud);
    }
  }

  // ----- every run -----

  /** The starts from which freeing is right: any connected socket, and a dud connection on which no
      receive could be posted. */
  predicate Start(s: State) {
    s == Connected(s.inFlight) || s == Dud(0)
  }

  /** In every run the socket has been freed once if close is over, nothing is in flight, the
      disconnect has completed and no handler is running, and otherwise not at all. */
  lemma FreedExactlyWhenDone(start: State, actions: seq<Action>)
    requires Start(start)
    ensures var s := Run(start, actions); s.freed == if AllDone(s) then 1 else 0
  {
    RunInv(start, actions, start == Dud(0));
  }

  /** No thread touches a freed socket: nothing is enabled any more. */
  lemma NothingAfterFree(start: State, actions: seq<Action>, a: Action)
    requires Start(start) && Run(start, actions).freed > 0
    ensures !Enabled(Run(start, actions), a)
  {
    FreedExactlyWhenDone(start, actions);
  }

  /** The step that frees is the end of a handler, with nothing else left. */
  lemma FreedByLastCompletion(start: State, actions: seq<Action>, a: Action)
    requires Start(start)
    requires Next(Run(start, actions), a).freed > Run(start, actions).freed
    ensures a == IoTest && Drained(Run(start, actions)) && Run(start, actions).freed == 0
  {
    RunInv(start, actions, start == Dud(0));
  }

  // ----- flags -----

  /** Every bit of `f` is in `g`. */
  predicate Includes(g: Flags, f: Flags) {
    (f.eof ==> g.eof) && (f.closing ==> g.closing) && (f.closable ==> g.closable)
  }

  /** What a store is meant to set is set afterwards, and no step clears a bit, although each thread
      stores the whole word. */
  lemma StepFlags(s: State, a: Action, dud: bool)
    requires Inv(s, dud)
    ensures var t := Next(s, a);
            && Includes(t.flags, s.flags)
            && (Enabled(s, a) && a == TclEofStore ==> t.flags.eof)
            && (Enabled(s, a) && a == TclCloseStore ==> t.flags.closing)
            && (Enabled(s, a) && a == IoMarkStore ==> t.flags.closable)
            && (a != TclEofStore && a != TclCloseStore && a != IoMarkStore ==> t.flags == s.flags)
  {
  }

  /** So no update of `flags` is ever lost. */
  lemma {:induction false} NoFlagLost(start: State, actions: seq<Action>, dud: bool)
    requires Inv(start, dud)
    ensures Includes(Run(start, actions).flags, start.flags)
  {
    if |actions| > 0 {
      NoFlagLost(start, actions[..|actions| - 1], dud);
      RunInv(start, actions[..|actions| - 1], dud);
      StepFlags(Run(start, actions[..|actions| - 1]), actions[|actions| - 1], dud);
    }
  }

  predicate MarkingOrMarked(s: State) {
    s.io == Marking || s.io.MarkLoaded? || s.flags.closable
  }

  lemma {:induction false} StaysMarking(start: State, actions: seq<Action>, dud: bool)
    requires Inv(start, dud) && MarkingOrMarked(start)
    ensures MarkingOrMarked(Run(start, actions))
  {
    if |actions| > 0 {
      var most := actions[..|actions| - 1];
      StaysMarking(start, most, dud);
      RunInv(start, most, dud);
      StepFlags(Run(start, most), actions[|actions| - 1], dud);
    }
  }

  /** In every run: when a handler checks a receive of zero bytes on a closing socket, the socket is
      closable once that handler is past marking it, and ever after. */
  lemma ZeroReadMarks(start: State, actions: seq<Action>, more: seq<Action>)
    requires Start(start) && Run(start, actions).io == Got(ZeroRead) && Run(start, actions).flags.closing
    ensures var t := Run(Next(Run(start, actions), IoZeroCheck), more);
            t.io != Marking && !t.io.MarkLoaded? ==> t.flags.closable
  {
    var dud := start == Dud(0);
    RunInv(start, actions, dud);
    StepInv(Run(start, actions), IoZeroCheck, dud);
    StaysMarking(Next(Run(start, actions), IoZeroCheck), more, dud);
  }

  // ----- a closed socket is freed -----

  /** Bounds the steps that are left once close is over. */
  function Work(s: State): nat {
    10 * s.inFlight
    + (if s.disconnect == InFlight then 10 else 0)
    + match s.io
      case Idle => 0
      case Testing(_) => 1
      case Leaving => 2
      case MarkLoaded(_) => 3
      case Marking => 4
      case Got(_) => 5
      case GotDisconnect(_) => 5
      case IoPosting => 16
      case IoMayPost => 17
  }

  lemma WorkShrinks(s: State, a: Action)
    requires Order(s) && s.tcl == Closed && Enabled(s, a)
    ensures Work(Next(s, a)) < Work(s) && Next(s, a).tcl == Closed
  {
  }

  lemma {:induction false} Progress(s: State)
    requires Order(s) && s.tcl == Closed && s.disconnect != Handled(true)
    ensures AllDone(s) || exists a :: Enabled(s, a)
  {
    if !AllDone(s) {
      var a := match s.io
        case Idle => if s.inFlight > 0 then IoTake(AbortedOp) else IoTakeDisconnect(false)
        case Testing(_) => IoTest
        case Leaving => IoDecrement
        case MarkLoaded(_) => IoMarkStore
        case Marking => IoMarkLoad
        case Got(k) => if k == AbortedOp then IoSkip else if k == ZeroRead then IoZeroCheck else IoNoPost
        case GotDisconnect(aborted) => if aborted then IoSkip else IoDropRef
        case IoPosting => IoPostFail
        case IoMayPost => IoPostCount;
      assert Enabled(s, a);
    }
  }

  predicate AllEnabled(s: State, actions: seq<Action>)
    decreases |actions|
  {
    |actions| == 0 || (Enabled(s, actions[0]) && AllEnabled(Next(s, actions[0]), actions[1..]))
  }

  /** Once close is over, a run of enabled steps is at most `Work` long. */
  lemma {:induction false} ClosedRunsEnd(s: State, actions: seq<Action>, dud: bool)
    requires Inv(s, dud) && s.tcl == Closed && AllEnabled(s, actions)
    ensures |actions| <= Work(s)
    decreases |actions|
  {
    if |actions| > 0 {
      WorkShrinks(s, actions[0]);
      StepInv(s, actions[0], dud);
      ClosedRunsEnd(Next(s, actions[0]), actions[1..], dud);
    }
  }

  /** When nothing is enabled any more, the socket is freed, unless its disconnect was aborted: then
      the artificial reference stays and it never is. */
  lemma FreedUnlessDisconnectAborted(start: State, actions: seq<Action>)
    requires Start(start)
    ensures var s := Run(start, actions);
            s.tcl == Closed && (forall a :: !Enabled(s, a)) ==>
              s.freed == (if s.disconnect == Handled(true) then 0 else 1)
  {
    var s := Run(start, actions);
    RunInv(start, actions, start == Dud(0));
    if s.tcl == Closed && s.disconnect != Handled(true) {
      Progress(s);
    }
  }

  /** A zero read is handled early: after CLOSING is set and before the disconnect is even posted. */
  function EarlyZeroRead(): seq<Action> {
    [IoTake(ZeroRead), TclCloseRef, TclCloseLoad, TclCloseStore]
    + [IoZeroCheck, IoMarkLoad, IoMarkStore, IoDecrement]
  }

  lemma EarlyTaken()
    ensures Run(Connected(1), [IoTake(ZeroRead), TclCloseRef, TclCloseLoad, TclCloseStore])
         == State(2, Flags(false, true, false), 0, NotPosted, Marked, Got(ZeroRead), 0)
  {
    var f := Flags(false, false, false);
    Steps(Connected(1),
          IoTake(ZeroRead), State(1, f, 0, NotPosted, Open, Got(ZeroRead), 0),
          TclCloseRef, State(2, f, 0, NotPosted, RefTaken, Got(ZeroRead), 0),
          TclCloseLoad, State(2, f, 0, NotPosted, CloseLoaded(f), Got(ZeroRead), 0),
          TclCloseStore, State(2, Flags(false, true, false), 0, NotPosted, Marked, Got(ZeroRead), 0));
  }

  lemma TwoSteps(s: State, a: Action, t: State, b: Action, u: State)
    requires Next(s, a) == t && Next(t, b) == u
    ensures Run(s, [a, b]) == u
  {
    RunTwo(s, a, b);
  }

  lemma EarlyMarking()
    ensures Run(State(2, Flags(false, true, false), 0, NotPosted, Marked, Got(ZeroRead), 0), [IoZeroCheck, IoMarkLoad])
         == State(2, Flags(false, true, false), 0, NotPosted, Marked, MarkLoaded(Flags(false, true, false)), 0)
  {
    var f := Flags(false, true, false);
    TwoSteps(State(2, f, 0, NotPosted, Marked, Got(ZeroRead), 0),
             IoZeroCheck, State(2, f, 0, NotPosted, Marked, Marking, 0),
             IoMarkLoad, State(2, f, 0, NotPosted, Marked, MarkLoaded(f), 0));
  }

  lemma EarlyLeaving()
    ensures Run(State(2, Flags(false, true, false), 0, NotPosted, Marked, MarkLoaded(Flags(false, true, false)), 0),
                [IoMarkStore, IoDecrement])
         == State(1, Flags(false, true, true), 0, NotPosted, Marked, Testing(1), 0)
  {
    var f, g := Flags(false, true, false), Flags(false, true, true);
    TwoSteps(State(2, f, 0, NotPosted, Marked, MarkLoaded(f), 0),
             IoMarkStore, State(2, g, 0, NotPosted, Marked, Leaving, 0),
             IoDecrement, State(1, g, 0, NotPosted, Marked, Testing(1), 0));
  }

  lemma EarlyMarked()
    ensures Run(State(2, Flags(false, true, false), 0, NotPosted, Marked, Got(ZeroRead), 0),
                [IoZeroCheck, IoMarkLoad, IoMarkStore, IoDecrement])
         == State(1, Flags(false, true, true), 0, NotPosted, Marked, Testing(1), 0)
  {
    EarlyMarking();
    EarlyLeaving();
    RunThen(State(2, Flags(false, true, false), 0, NotPosted, Marked, Got(ZeroRead), 0),
            [IoZeroCheck, IoMarkLoad], [IoMarkStore, IoDecrement]);
    assert [IoZeroCheck, IoMarkLoad] + [IoMarkStore, IoDecrement]
        == [IoZeroCheck, IoMarkLoad, IoMarkStore, IoDecrement];
  }

  /** Then the socket is closable, and the artificial reference alone keeps it. */
  lemma EarlyClosable()
    ensures Run(Connected(1), EarlyZeroRead())
         == State(1, Flags(false, true, true), 0, NotPosted, Marked, Testing(1), 0)
    ensures Run(Connected(1), EarlyZeroRead() + [IoTest]).freed == 0
  {
    EarlyTaken();
    EarlyMarked();
    RunThen(Connected(1), [IoTake(ZeroRead), TclCloseRef, TclCloseLoad, TclCloseStore],
            [IoZeroCheck, IoMarkLoad, IoMarkStore, IoDecrement]);
    RunThen(Connected(1), EarlyZeroRead(), [IoTest]);
    TestKeeps(State(1, Flags(false, true, true), 0, NotPosted, Marked, Testing(1), 0));
  }

  lemma TestKeeps(t: State)
    requires t.io == Testing(1)
    ensures Run(t, [IoTest]).freed == t.freed
  {
    RunOne(t, IoTest);
  }

  lemma CloseRound()
    ensures Run(Connected(0), [TclCloseRef, TclCloseLoad, TclCloseStore, TclDisconnectCount])
         == State(2, Flags(false, true, false), 0, NotPosted, DisconnectCounted, Idle, 0)
  {
    var f, g := Flags(false, false, false), Flags(false, true, false);
    Steps(Connected(0),
          TclCloseRef, State(1, f, 0, NotPosted, RefTaken, Idle, 0),
          TclCloseLoad, State(1, f, 0, NotPosted, CloseLoaded(f), Idle, 0),
          TclCloseStore, State(1, g, 0, NotPosted, Marked, Idle, 0),
          TclDisconnectCount, State(2, g, 0, NotPosted, DisconnectCounted, Idle, 0));
  }

  /** That case is reached: a socket with nothing in flight is closed and its disconnect aborted, and
      then nothing is enabled and it is not freed. */
  lemma AbortedDisconnectLeaks()
    ensures var s := Run(Connected(0), Leak());
            && s.tcl == Closed && s.disconnect == Handled(true) && s.freed == 0
            && forall a :: !Enabled(s, a)
  {
    var close, abort := [TclCloseRef, TclCloseLoad, TclCloseStore, TclDisconnectCount],
                        [IoTakeDisconnect(true), IoSkip, IoDecrement, IoTest];
    var s := State(2, Flags(false, true, false), 0, NotPosted, DisconnectCounted, Idle, 0);
    var t := State(2, Flags(false, true, false), 0, InFlight, Closed, Idle, 0);
    CloseRound();
    RunThen(Connected(0), close, [TclDisconnectPost]);
    PostsDisconnect(s, t);
    RunThen(Connected(0), close + [TclDisconnectPost], abort);
    AbortEnds(t);
    assert Leak() == close + [TclDisconnectPost] + abort;
    NothingEnabled(State(1, Flags(false, true, false), 0, Handled(true), Closed, Idle, 0));
  }

  lemma PostsDisconnect(s: State, t: State)
    requires s.tcl == DisconnectCounted && t == s.(disconnect := InFlight, tcl := Closed)
    ensures Run(s, [TclDisconnectPost]) == t
  {
    RunOne(s, TclDisconnectPost);
  }

  lemma NothingEnabled(s: State)
    requires s.tcl == Closed && s.io == Idle && s.inFlight == 0 && s.disconnect == Handled(true)
    ensures forall a :: !Enabled(s, a)
  {
  }

  function Leak(): seq<Action> {
    [TclCloseRef, TclCloseLoad, TclCloseStore, TclDisconnectCount, TclDisconnectPost,
     IoTakeDisconnect(true), IoSkip, IoDecrement, IoTest]
  }

  lemma AbortEnds(s: State)
    requires s == State(2, Flags(false, true, false), 0, InFlight, Closed, Idle, 0)
    ensures Run(s, [IoTakeDisconnect(true), IoSkip, IoDecrement, IoTest]) == s.(ops := 1, disconnect := Handled(true))
  {
    var f := Flags(false, true, false);
    Steps(s,
          IoTakeDisconnect(true), State(2, f, 0, Handling, Closed, GotDisconnect(true), 0),
          IoSkip, State(2, f, 0, Handled(true), Closed, Leaving, 0),
          IoDecrement, State(1, f, 0, Handled(true), Closed, Testing(1), 0),
          IoTest, State(1, f, 0, Handled(true), Closed, Idle, 0));
  }

  // ----- the dud path needs the single initial receive -----

  /** The disconnect of a dud connection completes, then `k` receives are aborted. */
  function HandleAborted(k: nat): seq<Action> {
    if k == 0 then [IoTakeDisconnect(false), IoDropRef, IoMarkLoad, IoMarkStore, IoDecrement, IoTest]
    else HandleAborted(k - 1) + [IoTake(AbortedOp), IoSkip, IoDecrement, IoTest]
  }

  lemma {:induction false} RunThen(start: State, first: seq<Action>, more: seq<Action>)
    ensures Run(start, first + more) == Run(Run(start, first), more)
  {
    if |more| == 0 {
      assert first + more == first;
    } else {
      assert (first + more)[..|first + more| - 1] == first + more[..|more| - 1];
      RunThen(start, first, more[..|more| - 1]);
    }
  }

  lemma RunOne(s: State, a: Action)
    ensures Run(s, [a]) == Next(s, a)
  {
    assert [a][..0] == [];
  }

  lemma RunTwo(s: State, a: Action, b: Action)
    ensures Run(s, [a, b]) == Next(Next(s, a), b)
  {
    RunThen(s, [a], [b]);
    RunThen(s, [], [a]);
    assert [a] + [b] == [a, b] && [] + [a] == [a];
  }

  lemma RunFour(s: State, a: Action, b: Action, c: Action, d: Action)
    ensures Run(s, [a, b, c, d]) == Next(Next(Next(Next(s, a), b), c), d)
  {
    RunThen(s, [a, b], [c, d]);
    RunTwo(s, a, b);
    RunTwo(Run(s, [a, b]), c, d);
    assert [a, b] + [c, d] == [a, b, c, d];
  }

  /** Four steps, given the states between them. */
  lemma Steps(s: State, a: Action, t: State, b: Action, u: State, c: Action, v: State, d: Action, w: State)
    requires Next(s, a) == t && Next(t, b) == u && Next(u, c) == v && Next(v, d) == w
    ensures Run(s, [a, b, c, d]) == w
  {
    RunFour(s, a, b, c, d);
  }

  /** A dud connection on which `n` receives were posted, once its disconnect and `k` of them are
      handled. */
  function AfterRounds(n: nat, k: nat): State
    requires 1 <= n && k <= n
  {
    State(n - 1 - k, Flags(false, true, true), n - k, Handled(false), Closed, Idle,
          if k < n - 1 then 0 else k - n + 2)
  }

  lemma MarkRound(n: nat)
    requires 1 <= n
    ensures Run(State(n, Flags(false, true, false), n, Handling, Closed, Marking, 0),
                [IoMarkLoad, IoMarkStore, IoDecrement, IoTest]) == AfterRounds(n, 0)
  {
    var f, g := Flags(false, true, false), Flags(false, true, true);
    Steps(State(n, f, n, Handling, Closed, Marking, 0),
          IoMarkLoad, State(n, f, n, Handling, Closed, MarkLoaded(f), 0),
          IoMarkStore, State(n, g, n, Handled(false), Closed, Leaving, 0),
          IoDecrement, State(n - 1, g, n, Handled(false), Closed, Testing(n - 1), 0),
          IoTest, AfterRounds(n, 0));
  }

  lemma DropRound(n: nat)
    ensures Run(Dud(n), [IoTakeDisconnect(false), IoDropRef])
         == State(n, Flags(false, true, false), n, Handling, Closed, Marking, 0)
  {
    var s := Dud(n).(disconnect := Handling, io := GotDisconnect(false));
    assert Next(Dud(n), IoTakeDisconnect(false)) == s;
    RunTwo(Dud(n), IoTakeDisconnect(false), IoDropRef);
  }

  lemma DisconnectRound(n: nat)
    requires 1 <= n
    ensures Run(Dud(n), HandleAborted(0)) == AfterRounds(n, 0)
  {
    var first, last := [IoTakeDisconnect(false), IoDropRef], [IoMarkLoad, IoMarkStore, IoDecrement, IoTest];
    assert HandleAborted(0) == first + last;
    RunThen(Dud(n), first, last);
    DropRound(n);
    MarkRound(n);
  }

  lemma AbortRound(n: nat, k: nat)
    requires 1 <= k <= n
    ensures Run(AfterRounds(n, k - 1), [IoTake(AbortedOp), IoSkip, IoDecrement, IoTest]) == AfterRounds(n, k)
  {
    var s := AfterRounds(n, k - 1);
    Steps(s,
          IoTake(AbortedOp), s.(inFlight := n - k, io := Got(AbortedOp)),
          IoSkip, s.(inFlight := n - k, io := Leaving),
          IoDecrement, s.(ops := n - 1 - k, inFlight := n - k, io := Testing(n - 1 - k)),
          IoTest, AfterRounds(n, k));
  }

  lemma {:induction false} DudRun(n: nat, k: nat)
    requires 1 <= n && k <= n
    ensures Run(Dud(n), HandleAborted(k)) == AfterRounds(n, k)
  {
    if k == 0 {
      DisconnectRound(n);
    } else {
      DudRun(n, k - 1);
      RunThen(Dud(n), HandleAborted(k - 1), [IoTake(AbortedOp), IoSkip, IoDecrement, IoTest]);
      AbortRound(n, k);
    }
  }

  /** A dud connection is freed exactly when it is done, in every run, if and only if no receive was
      posted on it: otherwise it can be freed with one still in flight, and then once more. */
  lemma DudFreedRightIff(n: nat)
    ensures (forall actions :: Run(Dud(n), actions).freed == if AllDone(Run(Dud(n), actions)) then 1 else 0) <==> n == 0
    ensures n > 0 ==> Run(Dud(n), HandleAborted(n - 1)).freed == 1 && Run(Dud(n), HandleAborted(n - 1)).inFlight == 1
    ensures n > 0 ==> Run(Dud(n), HandleAborted(n)).freed == 2
  {
    if n > 0 {
      DudRun(n, n - 1);
      DudRun(n, n);
    } else {
      forall actions ensures Run(Dud(n), actions).freed == if AllDone(Run(Dud(n), actions)) then 1 else 0 {
        FreedExactlyWhenDone(Dud(n), actions);
      }
    }
  }
}
