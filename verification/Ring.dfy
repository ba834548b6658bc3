/** The single-producer, single-consumer ring of SPSCQueue.h and tclWinIocp.c.

    Every load and store of `head`, `tail` and a slot is a step of its own; steps of the producer
    and of the consumer interleave freely (sequential consistency).  The counters are ULONG_PTR
    values and wrap at 2^w; slots are chosen with a bit mask. */
module Ring {
  import opened Common

  type Item = nat  // an opaque pointer

  // ----- powers of two and masks -----

  function Pow2(k: nat): (p: nat)
    ensures p > 0
  {
    if k == 0 then 1 else 2 * Pow2(k - 1)
  }

  /** Bitwise conjunction of unsigned integers. */
  function BitAnd(x: nat, y: nat): nat {
    if x == 0 || y == 0 then 0 else (x % 2) * (y % 2) + 2 * BitAnd(x / 2, y / 2)
  }

  lemma Multiples(k: int, m: int)
    requires m >= 0
    ensures k >= 1 ==> k * m >= m
    ensures k <= -1 ==> k * m <= -m
  {
    if k >= 1 {
      assert (k - 1) * m >= 0;
    } else if k <= -1 {
      assert (-1 - k) * m >= 0;
    }
  }

  lemma SmallMultiple(k: int, m: int)
    requires m > 0 && -m < k * m < m
    ensures k == 0
  {
    Multiples(k, m);
  }

  lemma DivModUnique(x: int, q: int, r: nat, m: nat)
    requires x == q * m + r && r < m
    ensures x / m == q && x % m == r
  {
    assert (q - x / m) * m == q * m - (x / m) * m == x % m - r;
    SmallMultiple(q - x / m, m);
  }

  lemma RemainderByHalves(x: nat, p: nat)
    requires p > 0
    ensures x % (2 * p) == 2 * (x / 2 % p) + x % 2
  {
    var q, r := x / 2 / p, x / 2 % p;
    assert x / 2 == q * p + r;
    assert q * (2 * p) == 2 * (q * p);
    DivModUnique(x, q, 2 * r + x % 2, 2 * p);
  }

  lemma {:induction false} MaskIsRemainder(x: nat, k: nat)
    ensures BitAnd(x, Pow2(k) - 1) == x % Pow2(k)
  {
    if k > 0 {
      var p := Pow2(k - 1);
      MaskIsRemainder(x / 2, k - 1);
      RemainderByHalves(x, p);
      assert (2 * p - 1) / 2 == p - 1 && (2 * p - 1) % 2 == 1;
    }
  }

  lemma {:induction false} Pow2Splits(k: nat, w: nat)
    requires k <= w
    ensures Pow2(w) == Pow2(w - k) * Pow2(k)
    ensures k < w ==> Pow2(k) < Pow2(w)
  {
    if k < w {
      Pow2Splits(k, w - 1);
      assert Pow2(w - k) * Pow2(k) == 2 * (Pow2(w - 1 - k) * Pow2(k));
    }
  }

  /** Reducing modulo 2^w first does not change the remainder modulo 2^k. */
  lemma RemainderOfRemainder(x: nat, k: nat, w: nat)
    requires k <= w
    ensures x % Pow2(w) % Pow2(k) == x % Pow2(k)
  {
    Pow2Splits(k, w);
    RemainderOfMultiple(x, Pow2(w - k), Pow2(k));
  }

  lemma RemainderOfMultiple(x: nat, f: nat, c: nat)
    requires f > 0 && c > 0 && f * c > 0
    ensures x % (f * c) % c == x % c
  {
    var a, y := x / (f * c), x % (f * c);
    Associate(a, f, c);
    Distribute(a * f, y / c, c);
    DivModUnique(x, a * f + y / c, y % c, c);
  }

  lemma Associate(a: int, b: int, c: int)
    ensures a * (b * c) == (a * b) * c
  {
  }

  lemma Distribute(a: int, b: int, c: int)
    ensures (a + b) * c == a * c + b * c
  {
  }

  // ----- the machine -----

  /** Capacity 2^k; counters of w bits, or unbounded when `wraps` is false. */
  datatype Config = Config(k: nat, wraps: bool, w: nat) {
    function Capacity(): nat { Pow2(k) }

    function Norm(x: int): nat
      requires wraps || x >= 0
    {
      if wraps then x % Pow2(w) else x
    }
  }

  /** The producer's local variables between its steps. */
  datatype Producer =
    | PIdle
    | PHead(item: Item, head: nat, seenCount: nat)
    | PTail(item: Item, head: nat, tail: nat, seenCount: nat)
    | PStored(item: Item, tail: nat)

  datatype Consumer =
    | CIdle
    | CHead(head: nat)
    | CTail(head: nat, tail: nat, seenCount: nat)
    | CLoaded(item: Item, head: nat)

  /** `pushed` and `popped` record completed operations; a `seenCount` records the number of
      queued items at the moment the other side's counter was loaded. */
  datatype State = State(
    head: nat, tail: nat, slots: seq<Item>,
    producer: Producer, consumer: Consumer,
    pushed: seq<Item>, popped: seq<Item>)

  datatype Action =
    | PushLoadHead(item: Item) | PushLoadTail | PushFull | PushStore | PushPublish
    | PopLoadHead | PopLoadTail | PopEmpty | PopLoad | PopPublish

  function Init(cfg: Config): State {
    State(0, 0, seq(cfg.Capacity(), _ => 0), PIdle, CIdle, [], [])
  }

  /** `(current_tail - current_head) == capacity` in the counters' arithmetic. */
  predicate TestsFull(cfg: Config, head: nat, tail: nat) {
    (cfg.wraps || head <= tail) && cfg.Norm(tail - head) == cfg.Capacity()
  }

  function Slot(cfg: Config, counter: nat): nat {
    BitAnd(counter, cfg.Capacity() - 1)
  }

  function Count(s: State): nat {
    if |s.pushed| >= |s.popped| then |s.pushed| - |s.popped| else 0
  }

  /** One step, or None where the thread is not at that point. */
  function Next(cfg: Config, s: State, a: Action): Option<State> {
    match a
    case PushLoadHead(item) =>
      if s.producer.PIdle? then Some(s.(producer := PHead(item, s.head, Count(s)))) else None
    case PushLoadTail =>
      if s.producer.PHead?
      then Some(s.(producer := PTail(s.producer.item, s.producer.head, s.tail, s.producer.seenCount)))
      else None
    case PushFull =>
      if s.producer.PTail? && TestsFull(cfg, s.producer.head, s.producer.tail)
      then Some(s.(producer := PIdle)) else None
    case PushStore =>
      if s.producer.PTail? && !TestsFull(cfg, s.producer.head, s.producer.tail)
         && Slot(cfg, s.producer.tail) < |s.slots|
      then Some(s.(producer := PStored(s.producer.item, s.producer.tail),
                   slots := s.slots[Slot(cfg, s.producer.tail) := s.producer.item]))
      else None
    case PushPublish =>
      if s.producer.PStored?
      then Some(s.(producer := PIdle, tail := cfg.Norm(s.producer.tail + 1), pushed := s.pushed + [s.producer.item]))
      else None
    case PopLoadHead =>
      if s.consumer.CIdle? then Some(s.(consumer := CHead(s.head))) else None
    case PopLoadTail =>
      if s.consumer.CHead?
      then Some(s.(consumer := CTail(s.consumer.head, s.tail, Count(s)))) else None
    case PopEmpty =>
      if s.consumer.CTail? && s.consumer.head == s.consumer.tail
      then Some(s.(consumer := CIdle)) else None
    case PopLoad =>
      if s.consumer.CTail? && s.consumer.head != s.consumer.tail && Slot(cfg, s.consumer.head) < |s.slots|
      then Some(s.(consumer := CLoaded(s.slots[Slot(cfg, s.consumer.head)], s.consumer.head))) else None
    case PopPublish =>
      if s.consumer.CLoaded?
      then Some(s.(consumer := CIdle, head := cfg.Norm(s.consumer.head + 1), popped := s.popped + [s.consumer.item]))
      else None
  }

  /** The state after a whole interleaving, if every step of it could be taken. */
  function Run(cfg: Config, s: State, actions: seq<Action>): Option<State> {
    if |actions| == 0 then Some(s)
    else
      Then(cfg, Run(cfg, s, actions[..|actions| - 1]), actions[|actions| - 1])
  }

  function Then(cfg: Config, o: Option<State>, a: Action): Option<State> {
    match o case None => None case Some(s) => Next(cfg, s, a)
  }

  // ----- the unbounded machine is a FIFO queue -----

  function Unbounded(cfg: Config): Config { cfg.(wraps := false) }

  predicate Inv(cfg: Config, s: State) {
    var cap := cfg.Capacity();
    && |s.slots| == cap
    && s.tail == |s.pushed| && s.head == |s.popped|
    && s.head <= s.tail <= s.head + cap
    && s.popped <= s.pushed
    && (forall i :: s.head <= i < s.tail ==> s.slots[i % cap] == s.pushed[i])
    && (match s.producer
        case PIdle => true
        case PHead(_, h, seen) => h <= s.head && seen == s.tail - h <= cap
        case PTail(_, h, t, seen) => h <= s.head && t == s.tail && seen == t - h <= cap
        case PStored(item, t) => t == s.tail < s.head + cap && s.slots[t % cap] == item)
    && (match s.consumer
        case CIdle => true
        case CHead(h) => h == s.head
        case CTail(h, t, seen) => h == s.head && h <= t <= s.tail && seen == t - h
        case CLoaded(item, h) => h == s.head < s.tail && item == s.pushed[h])
  }

  lemma DistinctSlots(i: nat, j: nat, cap: nat)
    requires i < j < i + cap
    ensures i % cap != j % cap
  {
    if i % cap == j % cap {
      assert (j / cap - i / cap) * cap == (j / cap) * cap - (i / cap) * cap == j - i;
      SmallMultiple(j / cap - i / cap, cap);
    }
  }

  lemma StepInv(cfg: Config, s: State, a: Action)
    requires !cfg.wraps && Inv(cfg, s)
    ensures Next(cfg, s, a).Some? ==> Inv(cfg, Next(cfg, s, a).value)
  {
    var cap := cfg.Capacity();
    match Next(cfg, s, a)
    case None =>
    case Some(s') =>
      match a
      case PushStore =>
        var t := s.producer.tail;
        MaskIsRemainder(t, cfg.k);
        assert t < s.head + cap;
        forall i | s.head <= i < s.tail ensures s'.slots[i % cap] == s.pushed[i] {
          DistinctSlots(i, t, cap);
        }
      case PopLoad =>
        MaskIsRemainder(s.consumer.head, cfg.k);
      case PopPublish =>
        assert s'.popped == s.pushed[..s.head + 1];
      case _ =>
  }

  // ----- the wrapping machine refines it -----

  function WrapProducer(cfg: Config, p: Producer): Producer
    requires cfg.wraps
  {
    match p
    case PIdle => PIdle
    case PHead(i, h, seen) => PHead(i, cfg.Norm(h), seen)
    case PTail(i, h, t, seen) => PTail(i, cfg.Norm(h), cfg.Norm(t), seen)
    case PStored(i, t) => PStored(i, cfg.Norm(t))
  }

  function WrapConsumer(cfg: Config, c: Consumer): Consumer
    requires cfg.wraps
  {
    match c
    case CIdle => CIdle
    case CHead(h) => CHead(cfg.Norm(h))
    case CTail(h, t, seen) => CTail(cfg.Norm(h), cfg.Norm(t), seen)
    case CLoaded(i, h) => CLoaded(i, cfg.Norm(h))
  }

  /** What the unbounded machine's state looks like through w-bit counters. */
  function Wrap(cfg: Config, s: State): State
    requires cfg.wraps
  {
    s.(head := cfg.Norm(s.head), tail := cfg.Norm(s.tail),
       producer := WrapProducer(cfg, s.producer), consumer := WrapConsumer(cfg, s.consumer))
  }

  function WrapOption(cfg: Config, o: Option<State>): Option<State>
    requires cfg.wraps
  {
    match o case None => None case Some(s) => Some(Wrap(cfg, s))
  }

  predicate Legal(cfg: Config) {
    cfg.wraps && cfg.k < cfg.w
  }

  lemma WrappedSuccessor(x: nat, m: nat)
    requires m > 0
    ensures (x % m + 1) % m == (x + 1) % m
  {
    var y := x % m + 1;
    assert (x / m) * m + y == x + 1;
    assert (x / m + y / m) * m == (x / m) * m + (y / m) * m;
    DivModUnique(x + 1, x / m + y / m, y % m, m);
  }

  lemma WrappedDifference(h: nat, t: nat, m: nat)
    requires h <= t < h + m
    ensures (t % m - h % m) % m == t - h
  {
    var q := h / m - t / m;
    assert q * m == (h / m) * m - (t / m) * m;
    assert t % m - h % m == q * m + (t - h);
    DivModUnique(t % m - h % m, q, t - h, m);
  }

  /** Counters at most a capacity apart compare the same after wrapping. */
  lemma WrappedTests(cfg: Config, h: nat, t: nat)
    requires Legal(cfg) && h <= t <= h + cfg.Capacity()
    ensures TestsFull(cfg, cfg.Norm(h), cfg.Norm(t)) <==> t - h == cfg.Capacity()
    ensures cfg.Norm(h) == cfg.Norm(t) <==> h == t
  {
    Pow2Splits(cfg.k, cfg.w);
    WrappedDifference(h, t, Pow2(cfg.w));
    if cfg.Norm(h) == cfg.Norm(t) {
      assert 0 % Pow2(cfg.w) == 0;
    }
  }

  lemma WrappedSlot(cfg: Config, x: nat)
    requires Legal(cfg)
    ensures Slot(cfg, cfg.Norm(x)) == x % cfg.Capacity() == Slot(Unbounded(cfg), x)
  {
    MaskIsRemainder(x, cfg.k);
    MaskIsRemainder(cfg.Norm(x), cfg.k);
    RemainderOfRemainder(x, cfg.k, cfg.w);
  }

  /** Each step of either machine is the same step of the other. */
  lemma StepRefines(cfg: Config, s: State, a: Action)
    requires Legal(cfg) && Inv(Unbounded(cfg), s)
    ensures Next(cfg, Wrap(cfg, s), a) == WrapOption(cfg, Next(Unbounded(cfg), s, a))
  {
    var m := Pow2(cfg.w);
    match a
    case PushFull =>
      if s.producer.PTail? { WrappedTests(cfg, s.producer.head, s.producer.tail); }
    case PushStore =>
      if s.producer.PTail? {
        WrappedTests(cfg, s.producer.head, s.producer.tail);
        WrappedSlot(cfg, s.producer.tail);
      }
    case PushPublish =>
      if s.producer.PStored? { WrappedSuccessor(s.producer.tail, m); }
    case PopEmpty =>
      if s.consumer.CTail? { WrappedTests(cfg, s.consumer.head, s.consumer.tail); }
    case PopLoad =>
      if s.consumer.CTail? {
        WrappedTests(cfg, s.consumer.head, s.consumer.tail);
        WrappedSlot(cfg, s.consumer.head);
      }
    case PopPublish =>
      if s.consumer.CLoaded? { WrappedSuccessor(s.consumer.head, m); }
    case _ =>
  }

  /** Along every interleaving the two machines can take exactly the same steps and stay related. */
  lemma {:induction false} RunRefines(cfg: Config, actions: seq<Action>)
    requires Legal(cfg)
    ensures Run(cfg, Init(cfg), actions)
         == WrapOption(cfg, Run(Unbounded(cfg), Init(Unbounded(cfg)), actions))
    ensures var u := Run(Unbounded(cfg), Init(Unbounded(cfg)), actions);
            u.Some? ==> Inv(Unbounded(cfg), u.value)
    decreases |actions|
  {
    var ucfg := Unbounded(cfg);
    if |actions| == 0 {
      assert 0 % Pow2(cfg.w) == 0;
    } else {
      var last := |actions| - 1;
      RunRefines(cfg, actions[..last]);
      match Run(ucfg, Init(ucfg), actions[..last])
      case None =>
      case Some(u) =>
        StepRefines(cfg, u, actions[last]);
        StepInv(ucfg, u, actions[last]);
    }
  }

  // ----- what holds of the wrapping ring in every run -----

  predicate Reached(cfg: Config, actions: seq<Action>, s: State) {
    Run(cfg, Init(cfg), actions) == Some(s)
  }

  /** FIFO: what came out is a prefix of what went in, at most a capacity is queued, and the slots
      from `head` on hold exactly the items in between. */
  lemma RingIsFifo(cfg: Config, actions: seq<Action>, s: State)
    requires Legal(cfg) && Reached(cfg, actions, s)
    ensures s.popped <= s.pushed
    ensures |s.pushed| - |s.popped| <= cfg.Capacity() == |s.slots|
    ensures s.head == |s.popped| % Pow2(cfg.w) && s.tail == |s.pushed| % Pow2(cfg.w)
    ensures forall i :: |s.popped| <= i < |s.pushed| ==> s.slots[i % cfg.Capacity()] == s.pushed[i]
  {
    RunRefines(cfg, actions);
  }

  /** When both sides are about to touch a slot, the slots differ. */
  lemma NoSharedSlot(cfg: Config, actions: seq<Action>, s: State)
    requires Legal(cfg) && Reached(cfg, actions, s)
    requires Next(cfg, s, PushStore).Some? && Next(cfg, s, PopLoad).Some?
    ensures Slot(cfg, s.producer.tail) != Slot(cfg, s.consumer.head)
  {
    RunRefines(cfg, actions);
    var u := Run(Unbounded(cfg), Init(Unbounded(cfg)), actions).value;
    WrappedTests(cfg, u.producer.head, u.producer.tail);
    WrappedTests(cfg, u.consumer.head, u.consumer.tail);
    WrappedSlot(cfg, u.producer.tail);
    WrappedSlot(cfg, u.consumer.head);
    DistinctSlots(u.consumer.head, u.producer.tail, cfg.Capacity());
  }

  /** Once both counters are loaded, Push gives up exactly when the ring was full at the moment
      `head` was loaded; if it does not give up, there is room for the item now. */
  lemma PushDecision(cfg: Config, actions: seq<Action>, s: State)
    requires Legal(cfg) && Reached(cfg, actions, s) && s.producer.PTail?
    ensures Next(cfg, s, PushFull).Some? <==> s.producer.seenCount == cfg.Capacity()
    ensures Next(cfg, s, PushStore).Some? <==> s.producer.seenCount < cfg.Capacity()
    ensures Next(cfg, s, PushStore).Some? ==> |s.pushed| - |s.popped| < cfg.Capacity()
  {
    RunRefines(cfg, actions);
    var u := Run(Unbounded(cfg), Init(Unbounded(cfg)), actions).value;
    WrappedTests(cfg, u.producer.head, u.producer.tail);
    WrappedSlot(cfg, u.producer.tail);
  }

  /** Once both counters are loaded, Pop gives up exactly when the ring was empty at the moment
      `tail` was loaded; otherwise the value it loads is the oldest item not yet popped. */
  lemma PopDecision(cfg: Config, actions: seq<Action>, s: State)
    requires Legal(cfg) && Reached(cfg, actions, s) && s.consumer.CTail?
    ensures Next(cfg, s, PopEmpty).Some? <==> s.consumer.seenCount == 0
    ensures Next(cfg, s, PopLoad).Some? <==> s.consumer.seenCount > 0
    ensures var n := Next(cfg, s, PopLoad);
            n.Some? ==> |s.popped| < |s.pushed| && n.value.consumer.item == s.pushed[|s.popped|]
  {
    RunRefines(cfg, actions);
    var u := Run(Unbounded(cfg), Init(Unbounded(cfg)), actions).value;
    WrappedTests(cfg, u.consumer.head, u.consumer.tail);
    WrappedSlot(cfg, u.consumer.head);
  }

  // ----- the structure itself -----

  /** The C structure.  Each operation is the machine's steps of one thread, run without the other
      thread stepping in between. */
  class SpscQueue {
    const cfg: Config
    var head: nat
    var tail: nat
    var buffer: array<Item>
    ghost var pushed: seq<Item>
    ghost var popped: seq<Item>

    ghost function View(): State
      reads this, buffer
    {
      State(head, tail, buffer[..], PIdle, CIdle, pushed, popped)
    }

    /** The state of the unbounded machine that this structure represents. */
    ghost function Unwrapped(): State
      reads this, buffer
    {
      State(|popped|, |pushed|, buffer[..], PIdle, CIdle, pushed, popped)
    }

    ghost predicate Valid()
      reads this, buffer
    {
      Legal(cfg) && Inv(Unbounded(cfg), Unwrapped()) && View() == Wrap(cfg, Unwrapped())
    }

    /** The queued items, oldest first. */
    ghost function Contents(): seq<Item>
      requires Valid()
      reads this, buffer
    {
      pushed[|popped|..]
    }

    constructor (k: nat, w: nat)
      requires k < w
      ensures Valid() && Contents() == [] && cfg == Config(k, true, w)
      ensures fresh(buffer) && View() == Init(cfg)
    {
      cfg := Config(k, true, w);
      head, tail := 0, 0;
      pushed, popped := [], [];
      buffer := new Item[Pow2(k)](_ => 0);
      new;
      assert buffer[..] == seq(Pow2(k), _ => 0);
      assert 0 % Pow2(w) == 0;
    }

    method PushBack(item: Item) returns (ok: bool)
      requires Valid()
      modifies this, buffer
      ensures Valid() && buffer == old(buffer)
      ensures ok <==> |old(Contents())| < cfg.Capacity()
      ensures Contents() == if ok then old(Contents()) + [item] else old(Contents())
      ensures popped == old(popped)
      ensures Some(View()) == PushAlone(cfg, old(View()), item, ok)
    {
      ghost var u := Unwrapped();
      var currentHead := head;
      var currentTail := tail;
      WrappedTests(cfg, u.head, u.tail);
      if (currentTail - currentHead) % Pow2(cfg.w) == Pow2(cfg.k) {
        return false;
      }
      PushAloneResult(cfg, u, item);
      buffer[BitAnd(currentTail, Pow2(cfg.k) - 1)] := item;
      tail := (currentTail + 1) % Pow2(cfg.w);
      pushed := pushed + [item];
      return true;
    }

    method PopFront() returns (ok: bool, out: Item)
      requires Valid()
      modifies this
      ensures Valid() && buffer == old(buffer)
      ensures ok <==> |old(Contents())| > 0
      ensures ok ==> old(Contents()) == [out] + Contents()
      ensures !ok ==> Contents() == old(Contents())
      ensures pushed == old(pushed)
      ensures Some(View()) == PopAlone(cfg, old(View()), ok)
    {
      ghost var u := Unwrapped();
      out := 0;
      var currentHead := head;
      var currentTail := tail;
      WrappedTests(cfg, u.head, u.tail);
      if currentHead == currentTail {
        return false, out;
      }
      PopAloneResult(cfg, u);
      out := buffer[BitAnd(currentHead, Pow2(cfg.k) - 1)];
      head := (currentHead + 1) % Pow2(cfg.w);
      popped := popped + [out];
      return true, out;
    }

    method IsEmpty() returns (empty: bool)
      requires Valid()
      ensures empty <==> Contents() == []
    {
      WrappedTests(cfg, |popped|, |pushed|);
      empty := head == tail;
    }

    /** `SPSCQueue_Size` is right exactly while the tail counter has not wrapped past the head. */
    method Size() returns (n: nat)
      requires Valid()
      ensures n == |Contents()| <==> head <= tail
    {
      ghost var h, t, m := |popped|, |pushed|, Pow2(cfg.w);
      WrappedTests(cfg, h, t);
      Pow2Splits(cfg.k, cfg.w);
      WrappedDifference(h, t, m);
      if head >= tail {
        n := 0;
      } else {
        n := tail - head;
        DivModUnique(n, 0, n, m);
      }
    }
  }

  /** A whole Push by the producer alone, ending in success or in failure. */
  function PushAlone(cfg: Config, s: State, item: Item, ok: bool): Option<State> {
    var loaded := Then(cfg, Then(cfg, Some(s), PushLoadHead(item)), PushLoadTail);
    if ok then Then(cfg, Then(cfg, loaded, PushStore), PushPublish) else Then(cfg, loaded, PushFull)
  }

  function PopAlone(cfg: Config, s: State, ok: bool): Option<State> {
    var loaded := Then(cfg, Then(cfg, Some(s), PopLoadHead), PopLoadTail);
    if ok then Then(cfg, Then(cfg, loaded, PopLoad), PopPublish) else Then(cfg, loaded, PopEmpty)
  }

  lemma PushAloneResult(cfg: Config, u: State, item: Item)
    requires Legal(cfg) && Inv(Unbounded(cfg), u) && u.producer.PIdle?
    requires u.tail - u.head < cfg.Capacity()
    ensures var slot := Slot(cfg, cfg.Norm(u.tail));
            slot < |u.slots|
            && var u' := u.(tail := u.tail + 1, slots := u.slots[slot := item], pushed := u.pushed + [item]);
               Inv(Unbounded(cfg), u')
               && Wrap(cfg, u').tail == (cfg.Norm(u.tail) + 1) % Pow2(cfg.w)
               && PushAlone(cfg, Wrap(cfg, u), item, true) == Some(Wrap(cfg, u'))
  {
    var ucfg := Unbounded(cfg);
    var u1 := u.(producer := PHead(item, u.head, Count(u)));
    var u2 := u1.(producer := PTail(item, u.head, u.tail, Count(u)));
    WrappedTests(cfg, u.head, u.tail);
    WrappedSlot(cfg, u.tail);
    WrappedSuccessor(u.tail, Pow2(cfg.w));
    StepInv(ucfg, u, PushLoadHead(item));
    StepInv(ucfg, u1, PushLoadTail);
    StepInv(ucfg, u2, PushStore);
    StepInv(ucfg, Next(ucfg, u2, PushStore).value, PushPublish);
  }

  lemma PopAloneInv(cfg: Config, u: State)
    requires Legal(cfg) && Inv(Unbounded(cfg), u) && u.consumer.CIdle? && u.head < u.tail
    ensures var slot := Slot(cfg, cfg.Norm(u.head));
            slot < |u.slots| && u.slots[slot] == u.pushed[u.head]
            && Inv(Unbounded(cfg), u.(head := u.head + 1, popped := u.popped + [u.slots[slot]]))
  {
    var ucfg := Unbounded(cfg);
    var u1 := u.(consumer := CHead(u.head));
    var u2 := u1.(consumer := CTail(u.head, u.tail, Count(u)));
    WrappedTests(cfg, u.head, u.tail);
    WrappedSlot(cfg, u.head);
    StepInv(ucfg, u, PopLoadHead);
    StepInv(ucfg, u1, PopLoadTail);
    StepInv(ucfg, u2, PopLoad);
    StepInv(ucfg, Next(ucfg, u2, PopLoad).value, PopPublish);
  }

  lemma PopAloneResult(cfg: Config, u: State)
    requires Legal(cfg) && Inv(Unbounded(cfg), u) && u.consumer.CIdle?
    requires u.head < u.tail
    ensures var slot := Slot(cfg, cfg.Norm(u.head));
            slot < |u.slots| && u.slots[slot] == u.pushed[u.head]
            && var u' := u.(head := u.head + 1, popped := u.popped + [u.slots[slot]]);
               Inv(Unbounded(cfg), u')
               && Wrap(cfg, u').head == (cfg.Norm(u.head) + 1) % Pow2(cfg.w)
               && PopAlone(cfg, Wrap(cfg, u), true) == Some(Wrap(cfg, u'))
  {
    PopAloneInv(cfg, u);
    WrappedTests(cfg, u.head, u.tail);
    WrappedSuccessor(u.head, Pow2(cfg.w));
  }

  // ----- the counters wrap -----

  lemma RunNext(cfg: Config, s: State, actions: seq<Action>, a: Action)
    ensures Run(cfg, s, actions + [a]) == Then(cfg, Run(cfg, s, actions), a)
  {
    assert (actions + [a])[..|actions|] == actions;
  }

  lemma RunFour(cfg: Config, s: State, actions: seq<Action>, a: Action, b: Action, c: Action, d: Action)
    ensures Run(cfg, s, actions + [a, b, c, d])
         == Then(cfg, Then(cfg, Then(cfg, Then(cfg, Run(cfg, s, actions), a), b), c), d)
  {
    RunNext(cfg, s, actions, a);
    RunNext(cfg, s, actions + [a], b);
    RunNext(cfg, s, actions + [a] + [b], c);
    RunNext(cfg, s, actions + [a] + [b] + [c], d);
    assert actions + [a] + [b] + [c] + [d] == actions + [a, b, c, d];
  }

  /** An item is pushed and popped `n` times. */
  lemma {:induction false} Cycles(cfg: Config, n: nat, item: Item) returns (actions: seq<Action>, u: State)
    requires Legal(cfg)
    ensures Reached(cfg, actions, Wrap(cfg, u)) && Inv(Unbounded(cfg), u)
    ensures u.producer.PIdle? && u.consumer.CIdle? && u.head == n && u.tail == n
  {
    if n == 0 {
      actions, u := [], Init(Unbounded(cfg));
      assert 0 % Pow2(cfg.w) == 0;
    } else {
      var before;
      before, u := Cycles(cfg, n - 1, item);
      PushAloneResult(cfg, u, item);
      RunFour(cfg, Init(cfg), before, PushLoadHead(item), PushLoadTail, PushStore, PushPublish);
      var pushed := before + [PushLoadHead(item), PushLoadTail, PushStore, PushPublish];
      u := u.(tail := u.tail + 1, slots := u.slots[Slot(cfg, cfg.Norm(u.tail)) := item], pushed := u.pushed + [item]);
      PopAloneResult(cfg, u);
      RunFour(cfg, Init(cfg), pushed, PopLoadHead, PopLoadTail, PopLoad, PopPublish);
      actions := pushed + [PopLoadHead, PopLoadTail, PopLoad, PopPublish];
      u := u.(head := u.head + 1, popped := u.popped + [u.slots[Slot(cfg, cfg.Norm(u.head))]]);
    }
  }

  /** On every ring a run reaches a state with an item queued whose tail counter is below its head. */
  lemma TailWraps(cfg: Config, item: Item) returns (actions: seq<Action>, s: State)
    requires Legal(cfg)
    ensures Reached(cfg, actions, s) && s.head > s.tail && |s.pushed| - |s.popped| == 1
  {
    var m := Pow2(cfg.w);
    assert m == 2 * Pow2(cfg.w - 1);
    var before, u := Cycles(cfg, m - 1, item);
    PushAloneResult(cfg, u, item);
    RunFour(cfg, Init(cfg), before, PushLoadHead(item), PushLoadTail, PushStore, PushPublish);
    actions := before + [PushLoadHead(item), PushLoadTail, PushStore, PushPublish];
    u := u.(tail := u.tail + 1, slots := u.slots[Slot(cfg, cfg.Norm(u.tail)) := item], pushed := u.pushed + [item]);
    s := Wrap(cfg, u);
    DivModUnique(m - 1, 0, m - 1, m);
    DivModUnique(m, 1, 0, m);
  }
}
