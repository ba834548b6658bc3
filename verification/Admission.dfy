/** How posting keeps within a cap (iocpsock_lolevel.c): the counter is incremented, the result is
    compared with the cap, and rolled back when it is over, each as a step of its own.  The same code
    admits receives, sends and accepts; any number of threads may be at it at once. */
module Admission {

  /** Counted: incremented, the cap not yet read.  Refused: to be rolled back.  Admitted: being
      posted.  Taken: completed, the counter not yet decremented. */
  datatype Phase = Counted | Refused | Admitted | InFlight | Taken

  /** One attempt; `ticket` is what its increment returned. */
  datatype Attempt = Attempt(ticket: int, phase: Phase)

  datatype State = State(counter: int, cap: int, attempts: seq<Attempt>)

  datatype Action =
    | Increment
    | Test(i: nat)
    | Rollback(i: nat)
    | Submit(i: nat)
    // the posting call fails, with the counter put back, or left as PostOverlappedAccept leaves it
    // when no socket can be made
    | Fail(i: nat) | Leak(i: nat)
    // a completion is taken, then counted; an aborted one is not
    | Complete(i: nat) | Decrement(i: nat) | Abort(i: nat)
    | SetCap(cap: int)

  predicate Enabled(s: State, a: Action) {
    match a
    case Increment => true
    case Test(i) => i < |s.attempts| && s.attempts[i].phase == Counted
    case Rollback(i) => i < |s.attempts| && s.attempts[i].phase == Refused
    case Submit(i) => i < |s.attempts| && s.attempts[i].phase == Admitted
    case Fail(i) => i < |s.attempts| && s.attempts[i].phase == Admitted
    case Leak(i) => i < |s.attempts| && s.attempts[i].phase == Admitted
    case Complete(i) => i < |s.attempts| && s.attempts[i].phase == InFlight
    case Decrement(i) => i < |s.attempts| && s.attempts[i].phase == Taken
    case Abort(i) => i < |s.attempts| && s.attempts[i].phase == InFlight
    case SetCap(_) => true
  }

  function Gone(s: State, i: nat, counter: int): State
    requires i < |s.attempts|
  {
    s.(attempts := s.attempts[..i] + s.attempts[i + 1..], counter := counter)
  }

  function Becomes(s: State, i: nat, phase: Phase): State
    requires i < |s.attempts|
  {
    s.(attempts := s.attempts[i := s.attempts[i].(phase := phase)])
  }

  /** One step; an action that is not enabled changes nothing. */
  function Next(s: State, a: Action): State {
    if !Enabled(s, a) then s
    else match a
      case Increment =>
        s.(counter := s.counter + 1, attempts := s.attempts + [Attempt(s.counter + 1, Counted)])
      case Test(i) => Becomes(s, i, if s.attempts[i].ticket > s.cap then Refused else Admitted)
      case Rollback(i) => Gone(s, i, s.counter - 1)
      case Submit(i) => Becomes(s, i, InFlight)
      case Fail(i) => Gone(s, i, s.counter - 1)
      case Leak(i) => Gone(s, i, s.counter)
      case Complete(i) => Becomes(s, i, Taken)
      case Decrement(i) => Gone(s, i, s.counter - 1)
      case Abort(i) => Gone(s, i, s.counter)
      case SetCap(cap) => s.(cap := cap)
  }

  function Run(cap: int, actions: seq<Action>): State {
    if |actions| == 0 then State(0, cap, [])
    else Next(Run(cap, actions[..|actions| - 1]), actions[|actions| - 1])
  }

  /** The greatest value the cap had in a run. */
  function HighestCap(cap: int, actions: seq<Action>): (m: int)
    ensures m >= cap && m >= Run(cap, actions).cap
  {
    if |actions| == 0 then cap
    else
      var m := HighestCap(cap, actions[..|actions| - 1]);
      var now := Run(cap, actions).cap;
      if now > m then now else m
  }

  function InFlightCount(attempts: seq<Attempt>): nat {
    if |attempts| == 0 then 0
    else (if attempts[0].phase == InFlight then 1 else 0) + InFlightCount(attempts[1..])
  }

  // ----- tickets -----

  /** The number of attempts with a ticket up to `m`. */
  function UpTo(attempts: seq<Attempt>, m: int): nat {
    if |attempts| == 0 then 0
    else (if attempts[0].ticket <= m then 1 else 0) + UpTo(attempts[1..], m)
  }

  lemma {:induction false} UpToConcat(a: seq<Attempt>, b: seq<Attempt>, m: int)
    ensures UpTo(a + b, m) == UpTo(a, m) + UpTo(b, m)
  {
    if |a| == 0 {
      assert a + b == b;
    } else {
      assert (a + b)[1..] == a[1..] + b;
      UpToConcat(a[1..], b, m);
    }
  }

  lemma UpToSplit(a: seq<Attempt>, i: nat, m: int)
    requires i < |a|
    ensures UpTo(a, m) == UpTo(a[..i], m) + (if a[i].ticket <= m then 1 else 0) + UpTo(a[i + 1..], m)
  {
    UpToConcat(a[..i], a[i..], m);
    assert a[..i] + a[i..] == a && a[i..][1..] == a[i + 1..];
  }

  lemma {:induction false} UpToBound(a: seq<Attempt>, m: int)
    ensures UpTo(a, m) <= |a|
  {
    if |a| > 0 {
      UpToBound(a[1..], m);
    }
  }

  /** At most `m` attempts have a ticket up to `m`, and the counter counts every attempt. */
  predicate Tickets(s: State, m: nat) {
    UpTo(s.attempts, m) <= m && |s.attempts| <= s.counter
  }

  lemma GoneTickets(s: State, i: nat, counter: int, m: nat)
    requires Tickets(s, m) && i < |s.attempts| && counter >= s.counter - 1
    ensures Tickets(Gone(s, i, counter), m)
  {
    UpToSplit(s.attempts, i, m);
    UpToConcat(s.attempts[..i], s.attempts[i + 1..], m);
  }

  lemma BecomesTickets(s: State, i: nat, phase: Phase, m: nat)
    requires Tickets(s, m) && i < |s.attempts|
    ensures Tickets(Becomes(s, i, phase), m)
  {
    var t := Becomes(s, i, phase);
    UpToSplit(s.attempts, i, m);
    UpToSplit(t.attempts, i, m);
    assert t.attempts[..i] == s.attempts[..i] && t.attempts[i + 1..] == s.attempts[i + 1..];
  }

  lemma StepTickets(s: State, a: Action, m: nat)
    requires Tickets(s, m)
    ensures Tickets(Next(s, a), m)
  {
    if Enabled(s, a) {
      match a
      case Increment =>
        UpToConcat(s.attempts, [Attempt(s.counter + 1, Counted)], m);
        UpToBound(s.attempts, m);
      case Test(i) => BecomesTickets(s, i, if s.attempts[i].ticket > s.cap then Refused else Admitted, m);
      case Rollback(i) => GoneTickets(s, i, s.counter - 1, m);
      case Submit(i) => BecomesTickets(s, i, InFlight, m);
      case Fail(i) => GoneTickets(s, i, s.counter - 1, m);
      case Leak(i) => GoneTickets(s, i, s.counter, m);
      case Complete(i) => BecomesTickets(s, i, Taken, m);
      case Decrement(i) => GoneTickets(s, i, s.counter - 1, m);
      case Abort(i) => GoneTickets(s, i, s.counter, m);
      case SetCap(_) =>
    }
  }

  lemma {:induction false} RunTickets(cap: int, actions: seq<Action>, m: nat)
    ensures Tickets(Run(cap, actions), m)
  {
    if |actions| > 0 {
      RunTickets(cap, actions[..|actions| - 1], m);
      StepTickets(Run(cap, actions[..|actions| - 1]), actions[|actions| - 1], m);
    }
  }

  // ----- admission -----

  /** Whatever was let through had a ticket within `m`. */
  predicate LetThrough(s: State, m: int) {
    forall i :: 0 <= i < |s.attempts| && (s.attempts[i].phase == Admitted || s.attempts[i].phase == InFlight)
      ==> s.attempts[i].ticket <= m
  }

  lemma GoneLetsThrough(s: State, i: nat, counter: int, m: int)
    requires LetThrough(s, m) && i < |s.attempts|
    ensures LetThrough(Gone(s, i, counter), m)
  {
    var t := Gone(s, i, counter);
    forall j | 0 <= j < |t.attempts| ensures t.attempts[j] == s.attempts[if j < i then j else j + 1] {
    }
  }

  lemma StepLetsThrough(s: State, a: Action, m: int)
    requires LetThrough(s, m) && s.cap <= m
    ensures LetThrough(Next(s, a), m)
  {
    if Enabled(s, a) {
      match a
      case Rollback(i) => GoneLetsThrough(s, i, s.counter - 1, m);
      case Fail(i) => GoneLetsThrough(s, i, s.counter - 1, m);
      case Leak(i) => GoneLetsThrough(s, i, s.counter, m);
      case Decrement(i) => GoneLetsThrough(s, i, s.counter - 1, m);
      case Abort(i) => GoneLetsThrough(s, i, s.counter, m);
      case _ =>
    }
  }

  lemma {:induction false} RunLetsThrough(cap: int, actions: seq<Action>, m: int)
    requires m >= HighestCap(cap, actions)
    ensures LetThrough(Run(cap, actions), m)
  {
    if |actions| > 0 {
      RunLetsThrough(cap, actions[..|actions| - 1], m);
      StepLetsThrough(Run(cap, actions[..|actions| - 1]), actions[|actions| - 1], m);
    }
  }

  lemma {:induction false} InFlightHasTicket(attempts: seq<Attempt>, m: int)
    requires forall i :: 0 <= i < |attempts| && attempts[i].phase == InFlight ==> attempts[i].ticket <= m
    ensures InFlightCount(attempts) <= UpTo(attempts, m)
  {
    if |attempts| > 0 {
      InFlightHasTicket(attempts[1..], m);
    }
  }

  /** In every interleaving the operations in flight stay within the highest cap there was. */
  lemma WithinHighestCap(cap: nat, actions: seq<Action>)
    ensures InFlightCount(Run(cap, actions).attempts) <= HighestCap(cap, actions)
  {
    var m := HighestCap(cap, actions);
    RunTickets(cap, actions, m);
    RunLetsThrough(cap, actions, m);
    InFlightHasTicket(Run(cap, actions).attempts, m);
  }

  /** The cap is never set to less than it was. */
  predicate NeverLowered(cap: int, actions: seq<Action>) {
    |actions| == 0
    || (NeverLowered(cap, actions[..|actions| - 1])
        && Run(cap, actions).cap >= Run(cap, actions[..|actions| - 1]).cap)
  }

  lemma {:induction false} HighestIsCurrent(cap: int, actions: seq<Action>)
    requires NeverLowered(cap, actions)
    ensures HighestCap(cap, actions) == Run(cap, actions).cap
  {
    if |actions| > 0 {
      HighestIsCurrent(cap, actions[..|actions| - 1]);
    }
  }

  /** As long as the cap is not lowered, the operations in flight never exceed it. */
  lemma WithinCap(cap: nat, actions: seq<Action>)
    requires NeverLowered(cap, actions)
    ensures InFlightCount(Run(cap, actions).attempts) <= Run(cap, actions).cap
  {
    WithinHighestCap(cap, actions);
    HighestIsCurrent(cap, actions);
  }

  // ----- the counter -----

  /** The step leaves the counter raised for an attempt that is over. */
  predicate Keeps(s: State, a: Action) {
    Enabled(s, a) && (a.Leak? || a.Abort?)
  }

  /** How often that happened in a run. */
  function Kept(cap: int, actions: seq<Action>): nat {
    if |actions| == 0 then 0
    else
      Kept(cap, actions[..|actions| - 1])
      + if Keeps(Run(cap, actions[..|actions| - 1]), actions[|actions| - 1]) then 1 else 0
  }

  lemma StepCounter(s: State, a: Action)
    ensures var t := Next(s, a);
            t.counter - |t.attempts| == s.counter - |s.attempts| + if Keeps(s, a) then 1 else 0
  {
  }

  /** In every run the counter counts the attempts that are not over, and those that were leaked or
      aborted: a refused or failed attempt, and a completed operation, leave no trace in it. */
  lemma {:induction false} CounterExact(cap: int, actions: seq<Action>)
    ensures Run(cap, actions).counter == |Run(cap, actions).attempts| + Kept(cap, actions)
  {
    if |actions| > 0 {
      CounterExact(cap, actions[..|actions| - 1]);
      StepCounter(Run(cap, actions[..|actions| - 1]), actions[|actions| - 1]);
    }
  }

  // ----- what does not hold -----

  function Increments(n: nat): seq<Action> {
    if n == 0 then [] else Increments(n - 1) + [Increment]
  }

  /** The counter itself can exceed the cap by any amount. */
  lemma {:induction false} CounterExceedsCap(cap: nat, n: nat)
    ensures Run(cap, Increments(n)).counter == n && Run(cap, Increments(n)).cap == cap
    ensures NeverLowered(cap, Increments(n))
  {
    if n > 0 {
      assert Increments(n)[..|Increments(n)| - 1] == Increments(n - 1);
      CounterExceedsCap(cap, n - 1);
    }
  }

  // ----- setting the cap -----

  function After(s: State, later: seq<Action>): State
    decreases |later|
  {
    if |later| == 0 then s else After(Next(s, later[0]), later[1..])
  }

  /** The cap stays as it is. */
  predicate CapStays(later: seq<Action>) {
    forall i :: 0 <= i < |later| ==> !later[i].SetCap?
  }

  /** With the cap at `c` the attempt is in flight, or can still get there. */
  predicate MayFly(a: Attempt, c: int) {
    a.phase == InFlight || a.phase == Admitted || (a.phase == Counted && a.ticket <= c)
  }

  /** The number of such attempts. */
  function Load(attempts: seq<Attempt>, c: int): nat {
    if |attempts| == 0 then 0
    else (if MayFly(attempts[0], c) then 1 else 0) + Load(attempts[1..], c)
  }

  lemma {:induction false} LoadConcat(a: seq<Attempt>, b: seq<Attempt>, c: int)
    ensures Load(a + b, c) == Load(a, c) + Load(b, c)
  {
    if |a| == 0 {
      assert a + b == b;
    } else {
      assert (a + b)[1..] == a[1..] + b;
      LoadConcat(a[1..], b, c);
    }
  }

  lemma LoadSplit(a: seq<Attempt>, i: nat, c: int)
    requires i < |a|
    ensures Load(a, c) == Load(a[..i], c) + (if MayFly(a[i], c) then 1 else 0) + Load(a[i + 1..], c)
  {
    LoadConcat(a[..i], a[i..], c);
    assert a[..i] + a[i..] == a && a[i..][1..] == a[i + 1..];
  }

  lemma {:induction false} LoadBound(a: seq<Attempt>, c: int)
    ensures InFlightCount(a) <= Load(a, c) <= |a|
  {
    if |a| > 0 {
      LoadBound(a[1..], c);
    }
  }

  lemma LoadGone(s: State, i: nat, counter: int, c: int)
    requires i < |s.attempts|
    ensures Load(Gone(s, i, counter).attempts, c) <= Load(s.attempts, c)
  {
    LoadSplit(s.attempts, i, c);
    LoadConcat(s.attempts[..i], s.attempts[i + 1..], c);
  }

  lemma LoadBecomes(s: State, i: nat, phase: Phase, c: int)
    requires i < |s.attempts|
    ensures var was, now := MayFly(s.attempts[i], c), MayFly(s.attempts[i].(phase := phase), c);
            Load(Becomes(s, i, phase).attempts, c)
            == Load(s.attempts, c) - (if was then 1 else 0) + (if now then 1 else 0)
  {
    var t := Becomes(s, i, phase);
    LoadSplit(s.attempts, i, c);
    LoadSplit(t.attempts, i, c);
    assert t.attempts[..i] == s.attempts[..i] && t.attempts[i + 1..] == s.attempts[i + 1..];
  }

  /** Under a fixed cap a load within the cap stays within it: only an increment adds to it, and then the
      counter bounds all attempts. */
  lemma StepLoad(s: State, a: Action)
    requires Load(s.attempts, s.cap) <= s.cap && |s.attempts| <= s.counter && !a.SetCap?
    ensures Load(Next(s, a).attempts, s.cap) <= s.cap && Next(s, a).cap == s.cap
  {
    if Enabled(s, a) {
      match a
      case Increment =>
        LoadConcat(s.attempts, [Attempt(s.counter + 1, Counted)], s.cap);
        LoadBound(s.attempts, s.cap);
      case Test(i) => LoadBecomes(s, i, if s.attempts[i].ticket > s.cap then Refused else Admitted, s.cap);
      case Rollback(i) => LoadGone(s, i, s.counter - 1, s.cap);
      case Submit(i) => LoadBecomes(s, i, InFlight, s.cap);
      case Fail(i) => LoadGone(s, i, s.counter - 1, s.cap);
      case Leak(i) => LoadGone(s, i, s.counter, s.cap);
      case Complete(i) => LoadBecomes(s, i, Taken, s.cap);
      case Decrement(i) => LoadGone(s, i, s.counter - 1, s.cap);
      case Abort(i) => LoadGone(s, i, s.counter, s.cap);
    }
  }

  lemma {:induction false} SafeAfter(s: State, later: seq<Action>)
    requires Load(s.attempts, s.cap) <= s.cap && Tickets(s, 0) && CapStays(later)
    ensures InFlightCount(After(s, later).attempts) <= s.cap
    decreases |later|
  {
    if |later| == 0 {
      LoadBound(s.attempts, s.cap);
    } else {
      StepLoad(s, later[0]);
      StepTickets(s, later[0], 0);
      SafeAfter(Next(s, later[0]), later[1..]);
    }
  }

  lemma {:induction false} AllFlying(a: seq<Attempt>, c: int)
    requires forall i :: 0 <= i < |a| && MayFly(a[i], c) ==> a[i].phase == InFlight
    ensures Load(a, c) == InFlightCount(a)
  {
    if |a| > 0 {
      AllFlying(a[1..], c);
    }
  }

  /** The next step that brings attempt `i` closer to flight. */
  function Towards(s: State, i: nat): Action
    requires i < |s.attempts|
  {
    if s.attempts[i].phase == Counted then Test(i) else Submit(i)
  }

  lemma TowardsKeepsLoad(s: State, i: nat)
    requires i < |s.attempts| && MayFly(s.attempts[i], s.cap) && s.attempts[i].phase != InFlight
    ensures var t := Next(s, Towards(s, i));
            && t == s.(attempts := s.attempts[i := t.attempts[i]]) && |t.attempts| == |s.attempts|
            && MayFly(t.attempts[i], s.cap) && Load(t.attempts, s.cap) == Load(s.attempts, s.cap)
            && t.attempts[i].phase == (if s.attempts[i].phase == Counted then Admitted else InFlight)
  {
    LoadBecomes(s, i, if s.attempts[i].phase == Counted then Admitted else InFlight, s.cap);
  }

  /** Whatever may fly goes through its test and is submitted. */
  lemma {:induction false} Launch(s: State, i: nat) returns (later: seq<Action>)
    requires i <= |s.attempts|
    requires forall j :: 0 <= j < i && MayFly(s.attempts[j], s.cap) ==> s.attempts[j].phase == InFlight
    ensures CapStays(later) && InFlightCount(After(s, later).attempts) == Load(s.attempts, s.cap)
    decreases |s.attempts| - i, if i < |s.attempts| && s.attempts[i].phase == Counted then 1 else 0
  {
    if i == |s.attempts| {
      later := [];
      AllFlying(s.attempts, s.cap);
    } else if MayFly(s.attempts[i], s.cap) && s.attempts[i].phase != InFlight {
      var a := Towards(s, i);
      var t := Next(s, a);
      TowardsKeepsLoad(s, i);
      var more := Launch(t, if t.attempts[i].phase == InFlight then i + 1 else i);
      later := [a] + more;
      assert later[1..] == more;
    } else {
      later := Launch(s, i + 1);
    }
  }

  /** At any moment of any run, setting the cap is safe, in that the operations in flight stay within it
      whatever happens next, if and only if the attempts that are in flight, or let through, or counted
      with a ticket within the new cap, are no more than the new cap. */
  lemma SafeCapIff(cap: nat, actions: seq<Action>, newCap: int)
    ensures var s := Run(cap, actions);
            (forall later {:trigger CapStays(later)} :: CapStays(later) ==>
              InFlightCount(After(Next(s, SetCap(newCap)), later).attempts) <= newCap)
            <==> Load(s.attempts, newCap) <= newCap
  {
    var s := Run(cap, actions);
    var t := Next(s, SetCap(newCap));
    RunTickets(cap, actions, 0);
    if Load(s.attempts, newCap) <= newCap {
      forall later | CapStays(later) ensures InFlightCount(After(t, later).attempts) <= newCap {
        SafeAfter(t, later);
      }
    } else {
      var later := Launch(t, 0);
      assert CapStays(later) && InFlightCount(After(t, later).attempts) > newCap;
    }
  }
}
