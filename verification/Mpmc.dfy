/** The bounded multi-producer/multi-consumer queue of Source/Core/Container/MPMC.h.

    Threads are interleaved at the grain of one atomic operation (load, store, fetch_add or
    compare_exchange) or one access to a slot's storage.  A run is any sequence of actions of any
    number of threads, under sequential consistency. */
module Mpmc {
  import opened Common

  /** The raw storage of a slot: no object, a constructed object, or an object whose value was moved out. */
  datatype Cell<T> = Raw | Live(value: T) | MovedFrom

  datatype Slot<T> = Slot(turn: nat, cell: Cell<T>)

  /** Where a thread is inside one of the four operations.  `t` is a ticket the thread holds;
      `h` is a counter value it has merely read. */
  datatype Pc<T> =
    | PushTake(v: T)                // emplace: about to fetch_add the head
    | PushWait(t: nat, v: T)        // spins until the slot's turn is 2 * lap
    | PushConstruct(t: nat, v: T)
    | PushRelease(t: nat, v: T)     // about to store turn 2 * lap + 1
    | TryPushLoad(v: T)             // try_emplace: about to load the head
    | TryPushCheck(h: nat, v: T)    // about to load the slot's turn
    | TryPushCas(h: nat, v: T)
    | TryPushReload(h: nat, v: T)   // the turn did not match; about to load the head again
    | PopTake                       // pop: about to fetch_add the tail
    | PopWait(t: nat)               // spins until the slot's turn is 2 * lap + 1
    | PopMove(t: nat)
    | PopDestroy(t: nat, out: Option<T>)
    | PopRelease(t: nat, out: Option<T>)  // about to store turn 2 * lap + 2
    | TryPopLoad
    | TryPopCheck(h: nat)
    | TryPopCas(h: nat)
    | TryPopReload(h: nat)

  type Tid = nat

  datatype Operation<T> = Push(v: T) | TryPush(v: T) | Pop | TryPop

  /** A push ticket: the value its holder brought and the thread that drew it. */
  datatype Issued<T> = Issued(value: T, owner: Tid)

  /** How an operation ended: push ticket `t` filled, try_emplace false, pop ticket `t` emptied with the value
      `out` handed over, try_pop false. */
  datatype Result<T> = Stored(t: nat) | Full | Got(t: nat, out: Option<T>) | Empty

  datatype Done<T> = Done(thread: Tid, result: Result<T>)

  /** `head`, `tail` and `slots` are the queue's memory; `threads` maps each thread that is inside an
      operation to its position.  The last four fields are history: `pushed[t]` and `takers[t]` tell
      who drew push and pop ticket t, `popped[t]` is what the pop holding ticket t returned, and `done` lists
      the operations that have ended. */
  datatype State<T> = State(
    capacity: nat,
    head: nat,
    tail: nat,
    slots: seq<Slot<T>>,
    threads: map<Tid, Pc<T>>,
    pushed: seq<Issued<T>>,
    takers: seq<Tid>,
    popped: map<nat, Option<T>>,
    done: seq<Done<T>>)

  datatype Action<T> = Start(p: Tid, op: Operation<T>) | Advance(p: Tid)

  // ---------- the code ----------

  function Idx(t: nat, capacity: nat): (i: nat)
    requires capacity > 0
    ensures i < capacity
  {
    t % capacity
  }

  function Lap(t: nat, capacity: nat): nat
    requires capacity > 0
  {
    t / capacity
  }

  /** The memory is laid out: one slot per index, and at least one slot (the constructor throws otherwise). */
  predicate Shaped<T>(s: State<T>) {
    s.capacity > 0 && |s.slots| == s.capacity
  }

  function Init<T>(capacity: nat): (s: State<T>)
    requires capacity > 0
  {
    State(capacity, 0, 0, seq(capacity, _ => Slot(0, Raw)), map[], [], [], map[], [])
  }

  function SlotOf<T>(s: State<T>, t: nat): Slot<T>
    requires Shaped(s)
  {
    s.slots[Idx(t, s.capacity)]
  }

  function LapOf<T>(s: State<T>, t: nat): nat
    requires Shaped(s)
  {
    Lap(t, s.capacity)
  }

  function PutCell<T>(s: State<T>, t: nat, c: Cell<T>): State<T>
    requires Shaped(s)
  {
    s.(slots := s.slots[Idx(t, s.capacity) := SlotOf(s, t).(cell := c)])
  }

  function PutTurn<T>(s: State<T>, t: nat, turn: nat): State<T>
    requires Shaped(s)
  {
    s.(slots := s.slots[Idx(t, s.capacity) := SlotOf(s, t).(turn := turn)])
  }

  function Goto<T>(s: State<T>, p: Tid, pc: Pc<T>): State<T> {
    s.(threads := s.threads[p := pc])
  }

  function Return<T>(s: State<T>, p: Tid, result: Result<T>): State<T> {
    s.(threads := s.threads - {p}, done := s.done + [Done(p, result)])
  }

  /** Thread p draws the next push ticket (fetch_add, or a compare_exchange that succeeded). */
  function DrawPush<T>(s: State<T>, p: Tid, v: T): State<T> {
    s.(head := s.head + 1, pushed := s.pushed + [Issued(v, p)])
  }

  function DrawPop<T>(s: State<T>, p: Tid): State<T> {
    s.(tail := s.tail + 1, takers := s.takers + [p])
  }

  function Entry<T>(op: Operation<T>): Pc<T> {
    match op
    case Push(v) => PushTake(v)
    case TryPush(v) => TryPushLoad(v)
    case Pop => PopTake
    case TryPop => TryPopLoad
  }

  predicate Pushing<T>(pc: Pc<T>) {
    pc.PushTake? || pc.PushWait? || pc.PushConstruct? || pc.PushRelease?
    || pc.TryPushLoad? || pc.TryPushCheck? || pc.TryPushCas? || pc.TryPushReload?
  }

  function PushStep<T>(s: State<T>, p: Tid): State<T>
    requires Shaped(s) && p in s.threads && Pushing(s.threads[p])
  {
    match s.threads[p]
    case PushTake(v) => Goto(DrawPush(s, p, v), p, PushWait(s.head, v))
    case PushWait(t, v) =>
      if SlotOf(s, t).turn == 2 * LapOf(s, t) then Goto(s, p, PushConstruct(t, v)) else s
    case PushConstruct(t, v) => Goto(PutCell(s, t, Live(v)), p, PushRelease(t, v))
    case PushRelease(t, v) => Return(PutTurn(s, t, 2 * LapOf(s, t) + 1), p, Stored(t))
    case TryPushLoad(v) => Goto(s, p, TryPushCheck(s.head, v))
    case TryPushCheck(h, v) =>
      Goto(s, p, if SlotOf(s, h).turn == 2 * LapOf(s, h) then TryPushCas(h, v) else TryPushReload(h, v))
    case TryPushCas(h, v) =>
      if s.head == h then Goto(DrawPush(s, p, v), p, PushConstruct(h, v))
      else Goto(s, p, TryPushCheck(s.head, v))
    case TryPushReload(h, v) =>
      if s.head == h then Return(s, p, Full) else Goto(s, p, TryPushCheck(s.head, v))
  }

  function PopStep<T>(s: State<T>, p: Tid): State<T>
    requires Shaped(s) && p in s.threads && !Pushing(s.threads[p])
  {
    match s.threads[p]
    case PopTake => Goto(DrawPop(s, p), p, PopWait(s.tail))
    case PopWait(t) =>
      if SlotOf(s, t).turn == 2 * LapOf(s, t) + 1 then Goto(s, p, PopMove(t)) else s
    case PopMove(t) =>
      var got := if SlotOf(s, t).cell.Live? then Some(SlotOf(s, t).cell.value) else None;
      Goto(PutCell(s, t, MovedFrom), p, PopDestroy(t, got))
    case PopDestroy(t, out) => Goto(PutCell(s, t, Raw), p, PopRelease(t, out))
    case PopRelease(t, out) =>
      Return(PutTurn(s, t, 2 * LapOf(s, t) + 2), p, Got(t, out)).(popped := s.popped[t := out])
    case TryPopLoad => Goto(s, p, TryPopCheck(s.tail))
    case TryPopCheck(h) =>
      Goto(s, p, if SlotOf(s, h).turn == 2 * LapOf(s, h) + 1 then TryPopCas(h) else TryPopReload(h))
    case TryPopCas(h) =>
      if s.tail == h then Goto(DrawPop(s, p), p, PopMove(h))
      else Goto(s, p, TryPopCheck(s.tail))
    case TryPopReload(h) =>
      if s.tail == h then Return(s, p, Empty) else Goto(s, p, TryPopCheck(s.tail))
  }

  /** One step of thread p, which is inside an operation. */
  function Step<T>(s: State<T>, p: Tid): State<T>
    requires Shaped(s) && p in s.threads
  {
    if Pushing(s.threads[p]) then PushStep(s, p) else PopStep(s, p)
  }

  /** An action that is not possible (starting inside an operation, advancing outside one) does nothing. */
  function Apply<T>(s: State<T>, a: Action<T>): (s': State<T>)
    requires Shaped(s)
    ensures Shaped(s') && s'.capacity == s.capacity
  {
    match a
    case Start(p, op) => if p in s.threads then s else Goto(s, p, Entry(op))
    case Advance(p) => if p in s.threads then Step(s, p) else s
  }

  /** The state after a whole run. */
  function Exec<T>(capacity: nat, acts: seq<Action<T>>): (s: State<T>)
    requires capacity > 0
    ensures Shaped(s) && s.capacity == capacity
  {
    if acts == [] then Init(capacity)
    else Apply(Exec(capacity, acts[..|acts| - 1]), acts[|acts| - 1])
  }

  // ---------- the invariant ----------

  predicate HoldsPush<T>(pc: Pc<T>, t: nat) {
    (pc.PushWait? || pc.PushConstruct? || pc.PushRelease?) && pc.t == t
  }

  predicate HoldsPop<T>(pc: Pc<T>, t: nat) {
    (pc.PopWait? || pc.PopMove? || pc.PopDestroy? || pc.PopRelease?) && pc.t == t
  }

  /** Between the turn check and the turn store the thread has the slot to itself. */
  predicate Owns<T>(pc: Pc<T>) {
    pc.PushConstruct? || pc.PushRelease? || pc.PopMove? || pc.PopDestroy? || pc.PopRelease?
  }

  ghost predicate PushTicket<T>(s: State<T>, p: Tid, t: nat, v: T) {
    t < s.head == |s.pushed| && s.pushed[t] == Issued(v, p)
  }

  ghost predicate PopTicket<T>(s: State<T>, p: Tid, t: nat) {
    t < s.tail == |s.takers| && s.takers[t] == p
  }

  /** What holds of a thread at each position. */
  ghost predicate ThreadOk<T>(s: State<T>, p: Tid)
    requires Shaped(s) && p in s.threads
  {
    match s.threads[p]
    case PushWait(t, v) => PushTicket(s, p, t, v)
    case PushConstruct(t, v) => PushTicket(s, p, t, v) && SlotOf(s, t) == Slot(2 * LapOf(s, t), Raw)
    case PushRelease(t, v) => PushTicket(s, p, t, v) && SlotOf(s, t) == Slot(2 * LapOf(s, t), Live(v))
    case TryPushCheck(h, v) => h <= s.head
    case TryPushCas(h, v) => h <= s.head && (h == s.head ==> SlotOf(s, h).turn == 2 * LapOf(s, h))
    case TryPushReload(h, v) => h <= s.head
    case PopWait(t) => PopTicket(s, p, t)
    case PopMove(t) =>
      PopTicket(s, p, t) && t < |s.pushed| && SlotOf(s, t) == Slot(2 * LapOf(s, t) + 1, Live(s.pushed[t].value))
    case PopDestroy(t, out) =>
      PopTicket(s, p, t) && t < |s.pushed| && SlotOf(s, t) == Slot(2 * LapOf(s, t) + 1, MovedFrom)
      && out == Some(s.pushed[t].value)
    case PopRelease(t, out) =>
      PopTicket(s, p, t) && t < |s.pushed| && SlotOf(s, t) == Slot(2 * LapOf(s, t) + 1, Raw)
      && out == Some(s.pushed[t].value)
    case TryPopCheck(h) => h <= s.tail
    case TryPopCas(h) => h <= s.tail && (h == s.tail ==> SlotOf(s, h).turn == 2 * LapOf(s, h) + 1)
    case TryPopReload(h) => h <= s.tail
    case _ => true
  }

  ghost predicate PushHeld<T>(s: State<T>, t: nat) {
    t < |s.pushed| && s.pushed[t].owner in s.threads && HoldsPush(s.threads[s.pushed[t].owner], t)
  }

  ghost predicate PopHeld<T>(s: State<T>, t: nat) {
    t < |s.takers| && s.takers[t] in s.threads && HoldsPop(s.threads[s.takers[t]], t)
  }

  /** What the slot of ticket t says about push t and pop t, for every ticket, issued or not. */
  ghost predicate TicketOk<T>(s: State<T>, t: nat)
    requires Shaped(s)
  {
    var w := SlotOf(s, t).turn;
    var c := SlotOf(s, t).cell;
    var lap := LapOf(s, t);
    // a finished operation had its ticket issued, and an issued, unfinished one is held by its thread
    && (w > 2 * lap ==> t < |s.pushed|)
    && (w > 2 * lap + 1 ==> t < |s.takers|)
    && (t < |s.pushed| && w <= 2 * lap <==> PushHeld(s, t))
    && (t < |s.takers| && w <= 2 * lap + 1 <==> PopHeld(s, t))
    // the storage follows the turn, except while the owner of the slot works on it
    && (w == 2 * lap && c != Raw ==> PushHeld(s, t) && s.threads[s.pushed[t].owner].PushRelease?)
    && (w == 2 * lap + 1 ==>
          c == Live(s.pushed[t].value)
          || (PopHeld(s, t) && (s.threads[s.takers[t]].PopDestroy? || s.threads[s.takers[t]].PopRelease?)))
    // exactly the finished pops have returned, each with the value of its ticket
    && (t in s.popped <==> w > 2 * lap + 1)
    && (t in s.popped ==> s.popped[t] == Some(s.pushed[t].value))
  }

  ghost predicate Inv<T>(s: State<T>) {
    && Shaped(s)
    && |s.pushed| == s.head && |s.takers| == s.tail
    && (forall p :: p in s.threads ==> ThreadOk(s, p))
    && (forall t: nat :: TicketOk(s, t))
  }

  // ---------- arithmetic of tickets ----------

  lemma SmallMultiple(x: int, m: int)
    requires m >= 0
    ensures x >= 1 ==> x * m >= m
    ensures x <= -1 ==> x * m <= -m
  {
  }

  lemma Division(t: nat, capacity: nat)
    requires capacity > 0
    ensures t == Lap(t, capacity) * capacity + Idx(t, capacity)
  {
  }

  /** Tickets of one slot are ordered like their laps. */
  lemma TicketsOfSlot(capacity: nat, t: nat, u: nat)
    requires capacity > 0 && Idx(t, capacity) == Idx(u, capacity)
    ensures Lap(t, capacity) == Lap(u, capacity) <==> t == u
    ensures Lap(t, capacity) < Lap(u, capacity) <==> t < u
  {
    Division(t, capacity);
    Division(u, capacity);
    assert t - u == (Lap(t, capacity) - Lap(u, capacity)) * capacity;
    SmallMultiple(Lap(t, capacity) - Lap(u, capacity), capacity);
  }

  lemma InitInv<T>(capacity: nat)
    requires capacity > 0
    ensures Inv(Init<T>(capacity))
  {
  }

  /** The ticket a thread holds, or the counter value it has read. */
  function Ticket<T>(pc: Pc<T>): nat {
    match pc
    case PushTake(v) => 0
    case PushWait(t, v) => t
    case PushConstruct(t, v) => t
    case PushRelease(t, v) => t
    case TryPushLoad(v) => 0
    case TryPushCheck(h, v) => h
    case TryPushCas(h, v) => h
    case TryPushReload(h, v) => h
    case PopTake => 0
    case PopWait(t) => t
    case PopMove(t) => t
    case PopDestroy(t, out) => t
    case PopRelease(t, out) => t
    case TryPopLoad => 0
    case TryPopCheck(h) => h
    case TryPopCas(h) => h
    case TryPopReload(h) => h
  }

  // ---------- every step keeps the invariant ----------

  /** The thread works on the slot of its ticket, or has seen the slot ready for the next ticket. */
  ghost predicate Claims<T>(s: State<T>, pc: Pc<T>) {
    Owns(pc) || (pc.TryPushCas? && pc.h == s.head) || (pc.TryPopCas? && pc.h == s.tail)
  }

  ghost predicate Counted<T>(s: State<T>) {
    Shaped(s) && |s.pushed| == s.head && |s.takers| == s.tail
  }

  /** Nobody else has a claim on the slot of a thread that owns one. */
  lemma OwnerAlone<T>(s: State<T>, p: Tid, q: Tid)
    requires Counted(s) && p in s.threads && q in s.threads && p != q && ThreadOk(s, p) && ThreadOk(s, q)
    requires Owns(s.threads[p]) && Claims(s, s.threads[q])
    ensures Idx(Ticket(s.threads[p]), s.capacity) != Idx(Ticket(s.threads[q]), s.capacity)
  {
    var t, u := Ticket(s.threads[p]), Ticket(s.threads[q]);
    if Idx(t, s.capacity) == Idx(u, s.capacity) {
      TicketsOfSlot(s.capacity, t, u);
    }
  }

  /** A step only adds to the counters and the history ... */
  ghost predicate Extends<T>(s: State<T>, s': State<T>) {
    && s.head <= s'.head && s.tail <= s'.tail && s.pushed <= s'.pushed && s.takers <= s'.takers
    && (Counted(s) ==> Counted(s'))
  }

  lemma PushExtends<T>(s: State<T>, p: Tid)
    requires Shaped(s) && p in s.threads && Pushing(s.threads[p])
    ensures Extends(s, PushStep(s, p))
  {
  }

  lemma PopExtends<T>(s: State<T>, p: Tid)
    requires Shaped(s) && p in s.threads && !Pushing(s.threads[p])
    ensures Extends(s, PopStep(s, p))
  {
  }

  lemma StepExtends<T>(s: State<T>, p: Tid)
    requires Shaped(s) && p in s.threads
    ensures Extends(s, Step(s, p))
  {
    if Pushing(s.threads[p]) { PushExtends(s, p); } else { PopExtends(s, p); }
  }

  /** ... and moves no other thread. */
  lemma OthersStay<T>(s: State<T>, p: Tid, q: Tid)
    requires Shaped(s) && p in s.threads && q in s.threads && q != p
    ensures q in Step(s, p).threads && Step(s, p).threads[q] == s.threads[q]
  {
    if Pushing(s.threads[p]) { OthersStayOnPush(s, p, q); }
  }

  lemma OthersStayOnPush<T>(s: State<T>, p: Tid, q: Tid)
    requires Shaped(s) && p in s.threads && q in s.threads && q != p && Pushing(s.threads[p])
    ensures q in PushStep(s, p).threads && PushStep(s, p).threads[q] == s.threads[q]
  {
  }

  /** Only an owner writes, and only to its own slot. */
  lemma StepWrites<T>(s: State<T>, p: Tid, t: nat)
    requires Shaped(s) && p in s.threads
    ensures SlotOf(Step(s, p), t) == SlotOf(s, t)
            || (Owns(s.threads[p]) && Idx(t, s.capacity) == Idx(Ticket(s.threads[p]), s.capacity))
  {
  }

  /** What holds of a thread depends on no more than the slot it claims. */
  lemma FrameKeepsThread<T>(s: State<T>, s': State<T>, q: Tid)
    requires Counted(s) && Counted(s') && s'.capacity == s.capacity
    requires q in s.threads && q in s'.threads && s'.threads[q] == s.threads[q] && ThreadOk(s, q)
    requires s.pushed <= s'.pushed && s.takers <= s'.takers
    requires Claims(s, s.threads[q]) ==> SlotOf(s', Ticket(s.threads[q])) == SlotOf(s, Ticket(s.threads[q]))
    ensures ThreadOk(s', q)
  {
  }

  lemma StepKeepsOther<T>(s: State<T>, p: Tid, q: Tid)
    requires Counted(s) && p in s.threads && q in s.threads && p != q && ThreadOk(s, p) && ThreadOk(s, q)
    ensures ThreadOk(Step(s, p), q)
  {
    StepExtends(s, p);
    OthersStay(s, p, q);
    StepWrites(s, p, Ticket(s.threads[q]));
    if Owns(s.threads[p]) && Claims(s, s.threads[q]) {
      OwnerAlone(s, p, q);
    }
    FrameKeepsThread(s, Step(s, p), q);
  }

  lemma PusherKeepsSelf<T>(s: State<T>, p: Tid)
    requires Counted(s) && p in s.threads && p in Step(s, p).threads
    requires Pushing(s.threads[p]) && ThreadOk(s, p) && TicketOk(s, Ticket(s.threads[p]))
    ensures ThreadOk(Step(s, p), p)
  {
  }

  lemma PopProberKeepsSelf<T>(s: State<T>, p: Tid)
    requires Counted(s) && p in s.threads && p in Step(s, p).threads && !Owns(s.threads[p])
    requires !Pushing(s.threads[p]) && ThreadOk(s, p) && TicketOk(s, Ticket(s.threads[p]))
    ensures ThreadOk(Step(s, p), p)
  {
  }

  lemma PopOwnerKeepsSelf<T>(s: State<T>, p: Tid)
    requires Counted(s) && p in s.threads && p in Step(s, p).threads && Owns(s.threads[p])
    requires !Pushing(s.threads[p]) && ThreadOk(s, p)
    ensures ThreadOk(Step(s, p), p)
  {
  }

  /** Steps outside the owned phase leave what every slot says in place ... */
  lemma PushProbeKeepsTicket<T>(s: State<T>, p: Tid, t: nat)
    requires Counted(s) && p in s.threads && ThreadOk(s, p) && TicketOk(s, t)
    requires !Owns(s.threads[p]) && Pushing(s.threads[p])
    ensures TicketOk(Step(s, p), t)
  {
  }

  lemma PopDrawKeepsTicket<T>(s: State<T>, p: Tid, t: nat)
    requires Counted(s) && p in s.threads && ThreadOk(s, p) && TicketOk(s, t)
    requires s.threads[p].PopTake? || s.threads[p].TryPopCas?
    ensures TicketOk(Step(s, p), t)
  {
  }

  lemma PopLookKeepsTicket<T>(s: State<T>, p: Tid, t: nat)
    requires Counted(s) && p in s.threads && ThreadOk(s, p) && TicketOk(s, t)
    requires !Owns(s.threads[p]) && !Pushing(s.threads[p]) && !s.threads[p].PopTake? && !s.threads[p].TryPopCas?
    ensures TicketOk(Step(s, p), t)
  {
  }

  lemma PopProbeKeepsTicket<T>(s: State<T>, p: Tid, t: nat)
    requires Counted(s) && p in s.threads && ThreadOk(s, p) && TicketOk(s, t)
    requires !Owns(s.threads[p]) && !Pushing(s.threads[p])
    ensures TicketOk(Step(s, p), t)
  {
    if s.threads[p].PopTake? || s.threads[p].TryPopCas? {
      PopDrawKeepsTicket(s, p, t);
    } else {
      PopLookKeepsTicket(s, p, t);
    }
  }

  /** ... and an owner changes it for its own ticket only, not for earlier or later ones of the slot. */
  lemma PushOwnerKeepsTicket<T>(s: State<T>, p: Tid, t: nat)
    requires Counted(s) && p in s.threads && ThreadOk(s, p) && TicketOk(s, t)
    requires Owns(s.threads[p]) && Pushing(s.threads[p])
    ensures TicketOk(Step(s, p), t)
  {
    var u := Ticket(s.threads[p]);
    if Idx(t, s.capacity) == Idx(u, s.capacity) {
      TicketsOfSlot(s.capacity, t, u);
    }
  }

  lemma PopOwnerKeepsTicket<T>(s: State<T>, p: Tid, t: nat)
    requires Counted(s) && p in s.threads && ThreadOk(s, p) && TicketOk(s, t)
    requires Owns(s.threads[p]) && !Pushing(s.threads[p])
    ensures TicketOk(Step(s, p), t)
  {
    var u := Ticket(s.threads[p]);
    if Idx(t, s.capacity) == Idx(u, s.capacity) {
      TicketsOfSlot(s.capacity, t, u);
    }
  }

  lemma StepInv<T>(s: State<T>, p: Tid)
    requires Inv(s) && p in s.threads
    ensures Inv(Step(s, p))
  {
    StepExtends(s, p);
    forall t: nat ensures TicketOk(Step(s, p), t) {
      if Owns(s.threads[p]) {
        if Pushing(s.threads[p]) { PushOwnerKeepsTicket(s, p, t); } else { PopOwnerKeepsTicket(s, p, t); }
      } else {
        if Pushing(s.threads[p]) { PushProbeKeepsTicket(s, p, t); } else { PopProbeKeepsTicket(s, p, t); }
      }
    }
    forall q | q in Step(s, p).threads ensures ThreadOk(Step(s, p), q) {
      if q != p {
        StepKeepsOther(s, p, q);
      } else {
        if Pushing(s.threads[p]) { PusherKeepsSelf(s, p); }
        else if Owns(s.threads[p]) { PopOwnerKeepsSelf(s, p); }
        else { PopProberKeepsSelf(s, p); }
      }
    }
  }

  lemma ApplyInv<T>(s: State<T>, a: Action<T>)
    requires Inv(s)
    ensures Inv(Apply(s, a))
  {
    var s' := Apply(s, a);
    match a
    case Advance(p) => if p in s.threads { StepInv(s, p); }
    case Start(p, op) =>
      if p !in s.threads {
        forall t: nat ensures TicketOk(s', t) {
          assert TicketOk(s, t);
        }
        forall q | q in s'.threads ensures ThreadOk(s', q) {
          if q != p { FrameKeepsThread(s, s', q); }
        }
      }
  }

  // ---------- theorems about every run ----------

  lemma {:induction false} Reachable<T>(capacity: nat, acts: seq<Action<T>>)
    requires capacity > 0
    ensures Inv(Exec(capacity, acts))
  {
    if acts == [] {
      InitInv<T>(capacity);
    } else {
      Reachable(capacity, acts[..|acts| - 1]);
      ApplyInv(Exec(capacity, acts[..|acts| - 1]), acts[|acts| - 1]);
    }
  }

  /** The pop holding ticket t returns exactly the value brought by the push holding ticket t. */
  lemma PopReturnsPushed<T>(capacity: nat, acts: seq<Action<T>>, t: nat)
    requires capacity > 0 && t in Exec(capacity, acts).popped
    ensures var s := Exec(capacity, acts);
      t < |s.pushed| && t < |s.takers| && s.popped[t] == Some(s.pushed[t].value)
  {
    Reachable(capacity, acts);
    assert TicketOk(Exec(capacity, acts), t);
  }

  ghost predicate HistoryPrefix<T>(s: State<T>, s': State<T>) {
    && s.pushed <= s'.pushed && s.takers <= s'.takers && s.done <= s'.done
    && forall t :: t in s.popped ==> t in s'.popped && s'.popped[t] == s.popped[t]
  }

  /** A pop that is about to return has not returned before. */
  lemma ReturnsOnce<T>(s: State<T>, p: Tid)
    requires Inv(s) && p in s.threads && s.threads[p].PopRelease?
    ensures s.threads[p].t !in s.popped
  {
    assert ThreadOk(s, p) && TicketOk(s, s.threads[p].t);
  }

  lemma ApplyExtendsHistory<T>(s: State<T>, a: Action<T>)
    requires Inv(s)
    ensures HistoryPrefix(s, Apply(s, a))
  {
    if a.Advance? && a.p in s.threads {
      StepExtends(s, a.p);
      if s.threads[a.p].PopRelease? { ReturnsOnce(s, a.p); }
      hide Inv;
    }
  }

  /** Tickets are drawn once and a pop returns once: nothing in the history is ever rewritten, and a return
      adds a ticket that was not there. */
  lemma {:induction false} HistoryGrows<T>(capacity: nat, acts: seq<Action<T>>, k: nat)
    requires capacity > 0 && k <= |acts|
    ensures HistoryPrefix(Exec(capacity, acts[..k]), Exec(capacity, acts))
    ensures var s := Exec(capacity, acts);
      forall p :: p in s.threads && s.threads[p].PopRelease? ==> s.threads[p].t !in s.popped
  {
    Reachable(capacity, acts);
    var s := Exec(capacity, acts);
    forall p | p in s.threads && s.threads[p].PopRelease? ensures s.threads[p].t !in s.popped { ReturnsOnce(s, p); }
    if k == |acts| {
      assert acts[..k] == acts;
    } else {
      var before := acts[..|acts| - 1];
      HistoryGrows(capacity, before, k);
      assert before[..k] == acts[..k];
      Reachable(capacity, before);
      ApplyExtendsHistory(Exec(capacity, before), acts[|acts| - 1]);
    }
  }

  /** Between the turn check and the turn store a slot belongs to one thread. */
  lemma ExclusiveSlot<T>(capacity: nat, acts: seq<Action<T>>, p: Tid, q: Tid)
    requires capacity > 0
    requires var s := Exec(capacity, acts);
      p in s.threads && q in s.threads && p != q && Owns(s.threads[p]) && Owns(s.threads[q])
    ensures var s := Exec(capacity, acts);
      Idx(Ticket(s.threads[p]), capacity) != Idx(Ticket(s.threads[q]), capacity)
  {
    Reachable(capacity, acts);
    OwnerAlone(Exec(capacity, acts), p, q);
  }

  /** Objects are constructed in raw storage only, moved out of live objects only, and destroyed exactly
      after they were moved from. */
  lemma StorageSafe<T>(capacity: nat, acts: seq<Action<T>>, p: Tid)
    requires capacity > 0 && p in Exec(capacity, acts).threads
    ensures var s := Exec(capacity, acts); var pc := s.threads[p];
      && (pc.PushConstruct? ==> SlotOf(s, pc.t).cell.Raw?)
      && (pc.PopMove? ==> pc.t < |s.pushed| && SlotOf(s, pc.t).cell == Live(s.pushed[pc.t].value))
      && (pc.PopDestroy? ==> SlotOf(s, pc.t).cell.MovedFrom?)
  {
    Reachable(capacity, acts);
    assert ThreadOk(Exec(capacity, acts), p);
  }

  /** The ticket whose value slot i holds when its turn is odd. */
  function ResidentTicket<T>(s: State<T>, i: nat): nat
    requires Shaped(s) && i < s.capacity
  {
    s.slots[i].turn / 2 * s.capacity + i
  }

  lemma LapOfResident(capacity: nat, lap: nat, i: nat)
    requires i < capacity
    ensures Idx(lap * capacity + i, capacity) == i && Lap(lap * capacity + i, capacity) == lap
  {
    var t := lap * capacity + i;
    Division(t, capacity);
    assert (Lap(t, capacity) - lap) * capacity == i - Idx(t, capacity);
    SmallMultiple(Lap(t, capacity) - lap, capacity);
  }

  lemma TicketIsResident<T>(s: State<T>, t: nat)
    requires Shaped(s) && SlotOf(s, t).turn == 2 * LapOf(s, t) + 1
    ensures ResidentTicket(s, Idx(t, s.capacity)) == t
  {
    assert SlotOf(s, t).turn / 2 == LapOf(s, t);
    Division(t, s.capacity);
  }

  /** With no operation in flight a slot's turn is odd exactly when it holds a live value: that of a push
      which was not popped.  A slot with an even turn holds nothing. */
  lemma QuiescentSlots<T>(capacity: nat, acts: seq<Action<T>>, i: nat)
    requires capacity > 0 && Exec(capacity, acts).threads == map[] && i < capacity
    ensures var s := Exec(capacity, acts);
      if s.slots[i].turn % 2 == 1
      then s.tail <= ResidentTicket(s, i) < s.head == |s.pushed|
        && s.slots[i].cell == Live(s.pushed[ResidentTicket(s, i)].value)
      else s.slots[i].cell == Raw
  {
    var s := Exec(capacity, acts);
    Reachable(capacity, acts);
    LapOfResident(capacity, s.slots[i].turn / 2, i);
    assert TicketOk(s, ResidentTicket(s, i));
  }

  /** Conversely every unpopped push is in one of the slots with an odd turn, so the destructor, which
      destroys those, destroys each unpopped element once and nothing else. */
  lemma QuiescentTickets<T>(capacity: nat, acts: seq<Action<T>>, t: nat)
    requires capacity > 0 && Exec(capacity, acts).threads == map[]
    ensures var s := Exec(capacity, acts);
      && (t in s.popped <==> t < s.tail)
      && (t in s.popped ==> t < s.head)
      && (s.tail <= t < s.head ==> SlotOf(s, t).turn % 2 == 1 && ResidentTicket(s, Idx(t, capacity)) == t)
  {
    var s := Exec(capacity, acts);
    Reachable(capacity, acts);
    assert TicketOk(s, t) && !PopHeld(s, t) && !PushHeld(s, t);
    hide Exec;
    if s.tail <= t < s.head {
      TicketIsResident(s, t);
    }
  }

  /** While push t and pop t are both issued and not both finished, some holder of a ticket of that slot,
      no later than t, can move: matched tickets never deadlock. */
  lemma MatchedTicketsProgress<T>(capacity: nat, acts: seq<Action<T>>, t: nat) returns (p: Tid)
    requires capacity > 0
    requires var s := Exec(capacity, acts); t < s.head && t < s.tail && t !in s.popped
    ensures var s := Exec(capacity, acts);
      && p in s.threads
      && (var u := Ticket(s.threads[p]);
          u <= t && Idx(u, capacity) == Idx(t, capacity) && (HoldsPush(s.threads[p], u) || HoldsPop(s.threads[p], u)))
      && Step(s, p) != s
  {
    var s := Exec(capacity, acts);
    Reachable(capacity, acts);
    assert TicketOk(s, t);
    var i := Idx(t, capacity);
    var u := ResidentTicket(s, i);
    LapOfResident(capacity, s.slots[i].turn / 2, i);
    TicketsOfSlot(capacity, t, u);
    assert TicketOk(s, u);
    p := if s.slots[i].turn % 2 == 0 then s.pushed[u].owner else s.takers[u];
    HolderMoves(s, p, u);
  }

  /** A holder whose slot is at its ticket's lap, with the parity it waits for, is not stuck. */
  lemma HolderMoves<T>(s: State<T>, p: Tid, u: nat)
    requires Inv(s) && p in s.threads
    requires (HoldsPush(s.threads[p], u) && SlotOf(s, u).turn == 2 * LapOf(s, u))
          || (HoldsPop(s.threads[p], u) && SlotOf(s, u).turn == 2 * LapOf(s, u) + 1)
    ensures Step(s, p) != s
  {
    assert Step(s, p).threads != s.threads;
  }

  // ---------- every call is accounted for ----------

  datatype Call<T> = Call(thread: Tid, op: Operation<T>)

  /** The calls of a run in the order they begin; a call inside another one of its thread does not count. */
  function Begun<T>(capacity: nat, acts: seq<Action<T>>): seq<Call<T>>
    requires capacity > 0
  {
    if acts == [] then [] else
    var before, a := acts[..|acts| - 1], acts[|acts| - 1];
    Begun(capacity, before) + if a.Start? && a.p !in Exec(capacity, before).threads then [Call(a.p, a.op)] else []
  }

  function CallsOf<T>(p: Tid, calls: seq<Call<T>>): seq<Operation<T>> {
    if calls == [] then [] else
    var last := calls[|calls| - 1];
    CallsOf(p, calls[..|calls| - 1]) + if last.thread == p then [last.op] else []
  }

  function ResultsOf<T>(p: Tid, done: seq<Done<T>>): seq<Result<T>> {
    if done == [] then [] else
    var last := done[|done| - 1];
    ResultsOf(p, done[..|done| - 1]) + if last.thread == p then [last.result] else []
  }

  /** The push tickets thread p has drawn, and its pop tickets. */
  function PushTickets<T>(p: Tid, pushed: seq<Issued<T>>): seq<nat> {
    if pushed == [] then [] else
    var n := |pushed| - 1;
    PushTickets(p, pushed[..n]) + if pushed[n].owner == p then [n] else []
  }

  function PopTickets(p: Tid, takers: seq<Tid>): seq<nat> {
    if takers == [] then [] else
    var n := |takers| - 1;
    PopTickets(p, takers[..n]) + if takers[n] == p then [n] else []
  }

  /** The tickets that ended operations have filled and emptied. */
  function StoredTickets<T>(results: seq<Result<T>>): seq<nat> {
    if results == [] then [] else
    var last := results[|results| - 1];
    StoredTickets(results[..|results| - 1]) + if last.Stored? then [last.t] else []
  }

  function GotTickets<T>(results: seq<Result<T>>): seq<nat> {
    if results == [] then [] else
    var last := results[|results| - 1];
    GotTickets(results[..|results| - 1]) + if last.Got? then [last.t] else []
  }

  /** The ticket thread p holds at the moment, if any. */
  function HeldPush<T>(s: State<T>, p: Tid): seq<nat> {
    if p in s.threads && HoldsPush(s.threads[p], Ticket(s.threads[p])) then [Ticket(s.threads[p])] else []
  }

  function HeldPop<T>(s: State<T>, p: Tid): seq<nat> {
    if p in s.threads && HoldsPop(s.threads[p], Ticket(s.threads[p])) then [Ticket(s.threads[p])] else []
  }

  /** The operation a thread at this position is inside of. */
  ghost predicate Runs<T>(op: Operation<T>, pc: Pc<T>) {
    match pc
    case PushTake(v) => op == Push(v)
    case PushWait(t, v) => op == Push(v)
    case PushConstruct(t, v) => op == Push(v) || op == TryPush(v)
    case PushRelease(t, v) => op == Push(v) || op == TryPush(v)
    case TryPushLoad(v) => op == TryPush(v)
    case TryPushCheck(h, v) => op == TryPush(v)
    case TryPushCas(h, v) => op == TryPush(v)
    case TryPushReload(h, v) => op == TryPush(v)
    case PopTake => op == Pop
    case PopWait(t) => op == Pop
    case PopMove(t) => op == Pop || op == TryPop
    case PopDestroy(t, out) => op == Pop || op == TryPop
    case PopRelease(t, out) => op == Pop || op == TryPop
    case TryPopLoad => op == TryPop
    case TryPopCheck(h) => op == TryPop
    case TryPopCas(h) => op == TryPop
    case TryPopReload(h) => op == TryPop
  }

  /** The result is one the operation of thread p may have: emplace stores its argument and pop gets a value;
      only the try operations may end without a ticket. */
  ghost predicate Fits<T>(s: State<T>, p: Tid, op: Operation<T>, result: Result<T>) {
    match result
    case Stored(t) => (op.Push? || op.TryPush?) && t < |s.pushed| && s.pushed[t] == Issued(op.v, p)
    case Full => op.TryPush?
    case Got(t, out) =>
      && (op.Pop? || op.TryPop?) && t < |s.takers| && s.takers[t] == p
      && t in s.popped && s.popped[t] == out && out.Some?
    case Empty => op.TryPop?
  }

  /** Thread p's ended operations are its calls in order, but for the one it is inside of, each with a fitting
      result ... */
  ghost predicate Settled<T>(s: State<T>, p: Tid, calls: seq<Operation<T>>) {
    var results := ResultsOf(p, s.done);
    && |calls| == |results| + (if p in s.threads then 1 else 0)
    && (forall k :: 0 <= k < |results| ==> Fits(s, p, calls[k], results[k]))
    && (p in s.threads ==> Runs(calls[|results|], s.threads[p]))
  }

  /** ... and the tickets it has drawn are those its ended operations report, and the one it holds. */
  ghost predicate Balanced<T>(s: State<T>, p: Tid) {
    var results := ResultsOf(p, s.done);
    && PushTickets(p, s.pushed) == StoredTickets(results) + HeldPush(s, p)
    && PopTickets(p, s.takers) == GotTickets(results) + HeldPop(s, p)
  }

  /** How the next step of thread p ends its operation, if it does. */
  function Outcome<T>(s: State<T>, p: Tid): Option<Result<T>>
    requires p in s.threads
  {
    match s.threads[p]
    case PushRelease(t, v) => Some(Stored(t))
    case TryPushReload(h, v) => if s.head == h then Some(Full) else None
    case PopRelease(t, out) => Some(Got(t, out))
    case TryPopReload(h) => if s.tail == h then Some(Empty) else None
    case _ => None
  }

  predicate DrawsPush<T>(s: State<T>, pc: Pc<T>) {
    pc.PushTake? || (pc.TryPushCas? && s.head == pc.h)
  }

  predicate DrawsPop<T>(s: State<T>, pc: Pc<T>) {
    pc.PopTake? || (pc.TryPopCas? && s.tail == pc.h)
  }

  /** What a step of thread p records. */
  ghost predicate Records<T>(s: State<T>, s': State<T>, p: Tid)
    requires p in s.threads
  {
    var pc := s.threads[p];
    && s'.done == (if Outcome(s, p).Some? then s.done + [Done(p, Outcome(s, p).value)] else s.done)
    && (p in s'.threads <==> Outcome(s, p).None?)
    && s'.pushed == (if DrawsPush(s, pc) then s.pushed + [Issued(pc.v, p)] else s.pushed)
    && s'.takers == (if DrawsPop(s, pc) then s.takers + [p] else s.takers)
  }

  lemma PushRecords<T>(s: State<T>, p: Tid)
    requires Shaped(s) && p in s.threads && Pushing(s.threads[p])
    ensures Records(s, PushStep(s, p), p)
  {
  }

  lemma PopRecords<T>(s: State<T>, p: Tid)
    requires Shaped(s) && p in s.threads && !Pushing(s.threads[p])
    ensures Records(s, PopStep(s, p), p)
  {
  }

  /** What thread p holds follows the tickets it draws and gives back. */
  ghost predicate Holding<T>(s: State<T>, s': State<T>, p: Tid)
    requires p in s.threads
  {
    var pc := s.threads[p];
    && (if DrawsPush(s, pc) then HeldPush(s, p) == [] && HeldPush(s', p) == [s.head]
        else if pc.PushRelease? then HeldPush(s, p) == [pc.t] && HeldPush(s', p) == []
        else HeldPush(s', p) == HeldPush(s, p))
    && (if DrawsPop(s, pc) then HeldPop(s, p) == [] && HeldPop(s', p) == [s.tail]
        else if pc.PopRelease? then HeldPop(s, p) == [pc.t] && HeldPop(s', p) == []
        else HeldPop(s', p) == HeldPop(s, p))
  }

  lemma PushHolding<T>(s: State<T>, p: Tid)
    requires Shaped(s) && p in s.threads && Pushing(s.threads[p])
    ensures Holding(s, PushStep(s, p), p)
  {
  }

  lemma PopHolding<T>(s: State<T>, p: Tid)
    requires Shaped(s) && p in s.threads && !Pushing(s.threads[p])
    ensures Holding(s, PopStep(s, p), p)
  {
  }

  /** A step that does not return stays inside the same operation. */
  lemma StepRuns<T>(s: State<T>, p: Tid, op: Operation<T>)
    requires Shaped(s) && p in s.threads && Runs(op, s.threads[p]) && p in Step(s, p).threads
    ensures Runs(op, Step(s, p).threads[p])
  {
  }

  lemma StepRecords<T>(s: State<T>, p: Tid)
    requires Shaped(s) && p in s.threads
    ensures Records(s, Step(s, p), p)
  {
    hide Records;
    if Pushing(s.threads[p]) { PushRecords(s, p); } else { PopRecords(s, p); }
  }

  lemma StepHolding<T>(s: State<T>, p: Tid)
    requires Shaped(s) && p in s.threads
    ensures Holding(s, Step(s, p), p)
  {
    hide Holding;
    if Pushing(s.threads[p]) { PushHolding(s, p); } else { PopHolding(s, p); }
  }

  lemma MoreResults<T>(p: Tid, done: seq<Done<T>>, x: Done<T>)
    ensures ResultsOf(p, done + [x]) == ResultsOf(p, done) + if x.thread == p then [x.result] else []
  {
    assert (done + [x])[..|done|] == done;
  }

  lemma MoreCalls<T>(p: Tid, calls: seq<Call<T>>, x: Call<T>)
    ensures CallsOf(p, calls + [x]) == CallsOf(p, calls) + if x.thread == p then [x.op] else []
  {
    assert (calls + [x])[..|calls|] == calls;
  }

  lemma MorePushTickets<T>(p: Tid, pushed: seq<Issued<T>>, x: Issued<T>)
    ensures PushTickets(p, pushed + [x]) == PushTickets(p, pushed) + if x.owner == p then [|pushed|] else []
  {
    assert (pushed + [x])[..|pushed|] == pushed;
  }

  lemma MorePopTickets(p: Tid, takers: seq<Tid>, x: Tid)
    ensures PopTickets(p, takers + [x]) == PopTickets(p, takers) + if x == p then [|takers|] else []
  {
    assert (takers + [x])[..|takers|] == takers;
  }

  lemma MoreTickets<T>(results: seq<Result<T>>, x: Result<T>)
    ensures StoredTickets(results + [x]) == StoredTickets(results) + if x.Stored? then [x.t] else []
    ensures GotTickets(results + [x]) == GotTickets(results) + if x.Got? then [x.t] else []
  {
    assert (results + [x])[..|results|] == results;
  }

  /** Thread p's own step adds its outcome, if it has one, to p's results ... */
  lemma OwnStepResults<T>(s: State<T>, p: Tid)
    requires Shaped(s) && p in s.threads
    ensures var results := ResultsOf(p, s.done);
      ResultsOf(p, Step(s, p).done) == if Outcome(s, p).Some? then results + [Outcome(s, p).value] else results
  {
    StepRecords(s, p);
    hide Step, Outcome, ResultsOf;
    if Outcome(s, p).Some? { MoreResults(p, s.done, Done(p, Outcome(s, p).value)); }
  }

  /** ... and with it the tickets they report; */
  lemma OwnStepReports<T>(s: State<T>, p: Tid)
    requires Shaped(s) && p in s.threads
    ensures var results, results' := ResultsOf(p, s.done), ResultsOf(p, Step(s, p).done); var pc := s.threads[p];
      && StoredTickets(results') ==
           (if pc.PushRelease? then StoredTickets(results) + [pc.t] else StoredTickets(results))
      && GotTickets(results') == (if pc.PopRelease? then GotTickets(results) + [pc.t] else GotTickets(results))
  {
    OwnStepResults(s, p);
    hide Step, ResultsOf;
    if Outcome(s, p).Some? { MoreTickets(ResultsOf(p, s.done), Outcome(s, p).value); }
    hide StoredTickets, GotTickets;
  }

  /** a draw adds the next ticket to those it has drawn; */
  lemma OwnStepDraws<T>(s: State<T>, p: Tid)
    requires Counted(s) && p in s.threads
    ensures var s', pc := Step(s, p), s.threads[p];
      var mine, taken := PushTickets(p, s.pushed), PopTickets(p, s.takers);
      && PushTickets(p, s'.pushed) == (if DrawsPush(s, pc) then mine + [s.head] else mine)
      && PopTickets(p, s'.takers) == (if DrawsPop(s, pc) then taken + [s.tail] else taken)
  {
    StepRecords(s, p);
    hide Step, PushTickets, PopTickets, Outcome;
    if DrawsPush(s, s.threads[p]) { MorePushTickets(p, s.pushed, Issued(s.threads[p].v, p)); }
    if DrawsPop(s, s.threads[p]) { MorePopTickets(p, s.takers, p); }
  }

  /** A ticket is held from its draw to its report. */
  lemma TicketBalance(drawn: seq<nat>, told: seq<nat>, held: seq<nat>,
                      drawn': seq<nat>, told': seq<nat>, held': seq<nat>, draws: bool, tells: bool, t: nat)
    requires drawn == told + held
    requires drawn' == (if draws then drawn + [t] else drawn) && told' == (if tells then told + [t] else told)
    requires if draws then held == [] && held' == [t] && !tells
             else if tells then held == [t] && held' == [] else held' == held
    ensures drawn' == told' + held'
  {
  }

  /** ... so what it draws, reports and holds stay in balance. */
  lemma OwnStepTickets<T>(s: State<T>, p: Tid)
    requires Counted(s) && p in s.threads && Balanced(s, p)
    ensures Balanced(Step(s, p), p)
  {
    var s', pc := Step(s, p), s.threads[p];
    OwnStepReports(s, p);
    OwnStepDraws(s, p);
    StepHolding(s, p);
    hide Step, ResultsOf, PushTickets, PopTickets, StoredTickets, GotTickets, HeldPush, HeldPop;
    TicketBalance(PushTickets(p, s.pushed), StoredTickets(ResultsOf(p, s.done)), HeldPush(s, p),
                  PushTickets(p, s'.pushed), StoredTickets(ResultsOf(p, s'.done)), HeldPush(s', p),
                  DrawsPush(s, pc), pc.PushRelease?, if pc.PushRelease? then pc.t else s.head);
    TicketBalance(PopTickets(p, s.takers), GotTickets(ResultsOf(p, s.done)), HeldPop(s, p),
                  PopTickets(p, s'.takers), GotTickets(ResultsOf(p, s'.done)), HeldPop(s', p),
                  DrawsPop(s, pc), pc.PopRelease?, if pc.PopRelease? then pc.t else s.tail);
  }

  /** A fitting result goes on fitting. */
  lemma FitsStays<T>(s: State<T>, s': State<T>, p: Tid, op: Operation<T>, result: Result<T>)
    requires Fits(s, p, op, result) && HistoryPrefix(s, s')
    ensures Fits(s', p, op, result)
  {
  }

  /** The result with which thread p returns fits the operation it is inside of. */
  lemma OutcomeFits<T>(s: State<T>, p: Tid, op: Operation<T>)
    requires Inv(s) && p in s.threads && Outcome(s, p).Some? && Runs(op, s.threads[p])
    ensures Fits(Step(s, p), p, op, Outcome(s, p).value)
  {
    assert ThreadOk(s, p);
  }

  lemma OwnStepSettled<T>(s: State<T>, p: Tid, calls: seq<Operation<T>>)
    requires Inv(s) && p in s.threads && Settled(s, p, calls)
    ensures Settled(Step(s, p), p, calls)
  {
    var s', n := Step(s, p), |ResultsOf(p, s.done)|;
    OwnStepResults(s, p);
    StepRecords(s, p);
    if p in Step(s, p).threads { StepRuns(s, p, calls[n]); }
    if Outcome(s, p).Some? { OutcomeFits(s, p, calls[n]); }
    ApplyExtendsHistory(s, Advance(p));
    hide Step, Inv, Fits, HistoryPrefix, Runs, ResultsOf, Outcome, DrawsPush, DrawsPop;
    forall k | 0 <= k < n ensures Fits(s', p, calls[k], ResultsOf(p, s.done)[k]) {
      FitsStays(s, s', p, calls[k], ResultsOf(p, s.done)[k]);
    }
  }

  /** A step of another thread adds nothing to thread p's results and tickets ... */
  lemma OtherStepRecords<T>(s: State<T>, q: Tid, p: Tid)
    requires Shaped(s) && q in s.threads && p != q
    ensures var s' := Step(s, q);
      && ResultsOf(p, s'.done) == ResultsOf(p, s.done)
      && PushTickets(p, s'.pushed) == PushTickets(p, s.pushed)
      && PopTickets(p, s'.takers) == PopTickets(p, s.takers)
  {
    var pc := s.threads[q];
    StepRecords(s, q);
    hide Step, ResultsOf, PushTickets, PopTickets, DrawsPush, DrawsPop, Outcome;
    if Outcome(s, q).Some? { MoreResults(p, s.done, Done(q, Outcome(s, q).value)); }
    if DrawsPush(s, pc) { PushDrawn(s, p, q); }
    if DrawsPop(s, pc) { MorePopTickets(p, s.takers, q); }
  }

  lemma PushDrawn<T>(s: State<T>, p: Tid, q: Tid)
    requires q in s.threads && DrawsPush(s, s.threads[q]) && p != q
    ensures PushTickets(p, s.pushed + [Issued(s.threads[q].v, q)]) == PushTickets(p, s.pushed)
  {
    MorePushTickets(p, s.pushed, Issued(s.threads[q].v, q));
  }

  lemma OtherStepHolding<T>(s: State<T>, q: Tid, p: Tid)
    requires Shaped(s) && q in s.threads && p != q
    ensures var s' := Step(s, q);
      && HeldPush(s', p) == HeldPush(s, p) && HeldPop(s', p) == HeldPop(s, p)
      && (p in s'.threads <==> p in s.threads) && (p in s.threads ==> s'.threads[p] == s.threads[p])
  {
    if p in s.threads { OthersStay(s, q, p); } else { OutsidersStay(s, q, p); }
    hide Step;
  }

  /** ... and leaves its account alone. */
  lemma OtherStepSettled<T>(s: State<T>, q: Tid, p: Tid, calls: seq<Operation<T>>)
    requires Inv(s) && q in s.threads && p != q && Settled(s, p, calls)
    ensures Settled(Step(s, q), p, calls)
  {
    var results := ResultsOf(p, s.done);
    OtherStepRecords(s, q, p);
    OtherStepHolding(s, q, p);
    ApplyExtendsHistory(s, Advance(q));
    hide Step, Inv, Fits, HistoryPrefix, Runs, ResultsOf;
    forall k | 0 <= k < |results| ensures Fits(Step(s, q), p, calls[k], results[k]) {
      FitsStays(s, Step(s, q), p, calls[k], results[k]);
    }
  }

  lemma OtherStepTickets<T>(s: State<T>, q: Tid, p: Tid)
    requires Shaped(s) && q in s.threads && p != q && Balanced(s, p)
    ensures Balanced(Step(s, q), p)
  {
    OtherStepRecords(s, q, p);
    OtherStepHolding(s, q, p);
    hide Step, ResultsOf, PushTickets, PopTickets, StoredTickets, GotTickets, HeldPush, HeldPop;
  }

  lemma OutsidersStay<T>(s: State<T>, p: Tid, q: Tid)
    requires Shaped(s) && p in s.threads && q !in s.threads
    ensures q !in Step(s, p).threads
  {
  }

  lemma StartSettled<T>(s: State<T>, q: Tid, op: Operation<T>, p: Tid, calls: seq<Operation<T>>)
    requires q !in s.threads && Settled(s, p, calls)
    ensures Settled(Goto(s, q, Entry(op)), p, if q == p then calls + [op] else calls)
  {
    var s', results := Goto(s, q, Entry(op)), ResultsOf(p, s.done);
    hide ResultsOf, Fits;
    forall k | 0 <= k < |results| ensures Fits(s', p, calls[k], results[k]) {
      HistoryAlike(s, s', p, calls[k], results[k]);
    }
  }

  lemma StartBalanced<T>(s: State<T>, q: Tid, op: Operation<T>, p: Tid)
    requires q !in s.threads && Balanced(s, p)
    ensures Balanced(Goto(s, q, Entry(op)), p)
  {
    hide ResultsOf, PushTickets, PopTickets, StoredTickets, GotTickets;
  }

  lemma HistoryAlike<T>(s: State<T>, s': State<T>, p: Tid, op: Operation<T>, result: Result<T>)
    requires Fits(s, p, op, result) && s'.pushed == s.pushed && s'.takers == s.takers && s'.popped == s.popped
    ensures Fits(s', p, op, result)
  {
  }

  /** The calls after one more action. */
  function CallsAfter<T>(s: State<T>, a: Action<T>, calls: seq<Call<T>>): seq<Call<T>> {
    if a.Start? && a.p !in s.threads then calls + [Call(a.p, a.op)] else calls
  }

  lemma ApplyAccount<T>(s: State<T>, a: Action<T>, p: Tid, calls: seq<Call<T>>)
    requires Inv(s) && Settled(s, p, CallsOf(p, calls)) && Balanced(s, p)
    ensures Settled(Apply(s, a), p, CallsOf(p, CallsAfter(s, a, calls))) && Balanced(Apply(s, a), p)
  {
    hide Settled, Balanced, CallsOf, Step;
    match a
    case Advance(q) =>
      if q in s.threads {
        if p == q {
          OwnStepSettled(s, p, CallsOf(p, calls));
          OwnStepTickets(s, p);
        } else {
          OtherStepSettled(s, q, p, CallsOf(p, calls));
          OtherStepTickets(s, q, p);
        }
      }
    case Start(q, op) =>
      if q !in s.threads {
        StartSettled(s, q, op, p, CallsOf(p, calls));
        StartBalanced(s, q, op, p);
        MoreCalls(p, calls, Call(q, op));
        assert CallsOf(p, calls) + [] == CallsOf(p, calls);
      }
  }

  /** In every run, for every thread: its calls end in order, each with a fitting result; every emplace that
      returned owns one push ticket with its argument and every pop one pop ticket with the value handed over;
      a try owns one exactly if it returned true; and the thread owns no other ticket but the one it holds. */
  lemma {:induction false} EveryCallAccounted<T>(capacity: nat, acts: seq<Action<T>>, p: Tid)
    requires capacity > 0
    ensures var s := Exec(capacity, acts);
      Settled(s, p, CallsOf(p, Begun(capacity, acts))) && Balanced(s, p)
  {
    if acts == [] {
      assert Init<T>(capacity).done == [];
    } else {
      var before, a := acts[..|acts| - 1], acts[|acts| - 1];
      EveryCallAccounted(capacity, before, p);
      Reachable(capacity, before);
      ApplyAccount(Exec(capacity, before), a, p, Begun(capacity, before));
      hide Settled, Balanced, Inv, CallsOf, Apply;
      assert Begun(capacity, acts) == CallsAfter(Exec(capacity, before), a, Begun(capacity, before));
    }
  }

  // ---------- what a failed try means ----------

  lemma ExecStep<T>(capacity: nat, acts: seq<Action<T>>, k: nat)
    requires capacity > 0 && k < |acts|
    ensures Exec(capacity, acts[..k + 1]) == Apply(Exec(capacity, acts[..k]), acts[k])
  {
    assert acts[..k + 1][..k] == acts[..k];
  }

  lemma ApplyKeepsPc<T>(s: State<T>, a: Action<T>, p: Tid)
    requires Shaped(s) && p in s.threads && a != Advance(p)
    ensures var s' := Apply(s, a);
      p in s'.threads && s'.threads[p] == s.threads[p] && s.head <= s'.head && s.tail <= s'.tail
  {
    if a.Advance? && a.p in s.threads {
      StepExtends(s, a.p);
      OthersStay(s, a.p, p);
    }
  }

  /** While thread p takes no step its position stays, and the counters only grow. */
  lemma {:induction false} PcStays<T>(capacity: nat, acts: seq<Action<T>>, p: Tid, i: nat, j: nat)
    requires capacity > 0 && i <= j <= |acts|
    requires p in Exec(capacity, acts[..i]).threads
    requires forall k :: i <= k < j ==> acts[k] != Advance(p)
    ensures var s, s' := Exec(capacity, acts[..i]), Exec(capacity, acts[..j]);
      p in s'.threads && s'.threads[p] == s.threads[p] && s.head <= s'.head && s.tail <= s'.tail
  {
    if i < j {
      PcStays(capacity, acts, p, i, j - 1);
      ExecStep(capacity, acts, j - 1);
      ApplyKeepsPc(Exec(capacity, acts[..j - 1]), acts[j - 1], p);
    }
  }

  lemma CheckFails<T>(s: State<T>, p: Tid)
    requires Inv(s) && p in s.threads && (s.threads[p].TryPushCheck? || s.threads[p].TryPopCheck?)
    ensures var s' := Step(s, p); var pc := s.threads[p];
      && p in s'.threads && s'.head == s.head && s'.tail == s.tail
      && (pc.TryPushCheck? && s'.threads[p] == TryPushReload(pc.h, pc.v) ==>
            pc.h <= s.head && SlotOf(s, pc.h).turn != 2 * LapOf(s, pc.h))
      && (pc.TryPushCheck? ==> s'.threads[p] in {TryPushReload(pc.h, pc.v), TryPushCas(pc.h, pc.v)})
      && (pc.TryPopCheck? && s'.threads[p] == TryPopReload(pc.h) ==>
            pc.h <= s.tail && SlotOf(s, pc.h).turn != 2 * LapOf(s, pc.h) + 1)
      && (pc.TryPopCheck? ==> s'.threads[p] in {TryPopReload(pc.h), TryPopCas(pc.h)})
  {
    assert ThreadOk(s, p);
  }

  /** The slot of the next push ticket is ready exactly if the value one lap earlier has been popped. */
  lemma PushReady<T>(s: State<T>)
    requires Inv(s)
    ensures SlotOf(s, s.head).turn == 2 * LapOf(s, s.head) <==> s.head < s.capacity || s.head - s.capacity in s.popped
  {
    var h := s.head;
    assert TicketOk(s, h);
    var lap, x := LapOf(s, h), Idx(h, s.capacity);
    Division(h, s.capacity);
    if h >= s.capacity {
      assert h - s.capacity == (lap - 1) * s.capacity + x;
      LapOfResident(s.capacity, lap - 1, x);
      assert TicketOk(s, h - s.capacity);
    } else {
      SmallMultiple(lap, s.capacity);
    }
  }

  /** The slot of the next pop ticket is ready exactly if the push of that ticket has finished. */
  lemma PopReady<T>(s: State<T>)
    requires Inv(s)
    ensures SlotOf(s, s.tail).turn == 2 * LapOf(s, s.tail) + 1 <==> s.tail < s.head && !PushHeld(s, s.tail)
  {
    assert TicketOk(s, s.tail);
  }

  /** Thread p is about to load its counter again. */
  predicate Reloading<T>(s: State<T>, p: Tid) {
    p in s.threads && (s.threads[p].TryPushReload? || s.threads[p].TryPopReload?)
  }

  /** Thread p is about to make the check that can lead it to `pc`. */
  ghost predicate Checking<T>(s: State<T>, p: Tid, pc: Pc<T>) {
    p in s.threads &&
    match pc
    case TryPushReload(h, v) => s.threads[p] == TryPushCheck(h, v)
    case TryPopReload(h) => s.threads[p] == TryPopCheck(h)
    case _ => false
  }

  /** It has last checked the slot of the same ticket. */
  lemma {:induction false} LastCheck<T>(capacity: nat, acts: seq<Action<T>>, p: Tid) returns (i: nat)
    requires capacity > 0 && Reloading(Exec(capacity, acts), p)
    ensures i < |acts| && acts[i] == Advance(p) && forall k :: i < k < |acts| ==> acts[k] != Advance(p)
    ensures Checking(Exec(capacity, acts[..i]), p, Exec(capacity, acts).threads[p])
  {
    hide Apply;
    i := |acts| - 1;
    var before, a := acts[..i], acts[i];
    hide Reloading, Checking;
    if a != Advance(p) {
      ReloadStays(Exec(capacity, before), a, p);
      i := LastCheck(capacity, before, p);
      assert before[..i] == acts[..i];
    } else {
      CheckBefore(Exec(capacity, before), p);
    }
  }

  lemma ReloadStays<T>(s: State<T>, a: Action<T>, p: Tid)
    requires Shaped(s) && a != Advance(p) && Reloading(Apply(s, a), p)
    ensures Reloading(s, p) && s.threads[p] == Apply(s, a).threads[p]
  {
    if a.Advance? && a.p in s.threads {
      if p in s.threads { OthersStay(s, a.p, p); } else { OutsidersStay(s, a.p, p); }
    }
  }

  lemma CheckBefore<T>(s: State<T>, p: Tid)
    requires Shaped(s) && Reloading(Apply(s, Advance(p)), p)
    ensures Checking(s, p, Apply(s, Advance(p)).threads[p])
  {
  }

  /** An action that adds Full or Empty is the second load of its thread, which found the counter unchanged. */
  lemma FailsAtReload<T>(s: State<T>, a: Action<T>, p: Tid, result: Result<T>)
    requires Shaped(s) && (result.Full? || result.Empty?) && Apply(s, a).done == s.done + [Done(p, result)]
    ensures a == Advance(p) && p in s.threads
    ensures if result.Full? then s.threads[p].TryPushReload? && s.head == s.threads[p].h
            else s.threads[p].TryPopReload? && s.tail == s.threads[p].h
  {
    if a.Advance? && a.p in s.threads {
      StepRecords(s, a.p);
      assert Apply(s, a).done[|s.done|] == Done(p, result);
    }
  }

  /** A ticket counter is h at both ends of a failed try, so it was h all along. */
  lemma TryWindow<T>(capacity: nat, acts: seq<Action<T>>, p: Tid) returns (i: nat)
    requires capacity > 0
    requires var s := Exec(capacity, acts);
      Reloading(s, p) && s.threads[p].h == if s.threads[p].TryPushReload? then s.head else s.tail
    ensures i < |acts| && acts[i] == Advance(p) && forall k :: i < k < |acts| ==> acts[k] != Advance(p)
    ensures var s, pc := Exec(capacity, acts[..i]), Exec(capacity, acts).threads[p];
      && Inv(s) && p in s.threads
      && (pc.TryPushReload? ==>
            && s.threads[p].TryPushCheck? && s.threads[p].h == s.head == pc.h
            && SlotOf(s, pc.h).turn != 2 * LapOf(s, pc.h))
      && (pc.TryPopReload? ==>
            && s.threads[p].TryPopCheck? && s.threads[p].h == s.tail == pc.h
            && SlotOf(s, pc.h).turn != 2 * LapOf(s, pc.h) + 1)
  {
    i := LastCheck(capacity, acts, p);
    Reachable(capacity, acts[..i]);
    CheckFails(Exec(capacity, acts[..i]), p);
    ExecStep(capacity, acts, i);
    PcStays(capacity, acts, p, i + 1, |acts|);
    assert acts[..|acts|] == acts;
  }

  /** try_emplace returns false only if, at its last check of a slot's turn, its ticket was the next one to be
      drawn and the value one lap earlier had not been popped: the queue was full. */
  lemma TryPushFailsWhenFull<T>(capacity: nat, acts: seq<Action<T>>, a: Action<T>, p: Tid) returns (i: nat)
    requires capacity > 0
    requires Apply(Exec(capacity, acts), a).done == Exec(capacity, acts).done + [Done(p, Full)]
    ensures a == Advance(p)
    ensures i < |acts| && acts[i] == Advance(p) && forall k :: i < k < |acts| ==> acts[k] != Advance(p)
    ensures var s := Exec(capacity, acts[..i]);
      && p in s.threads && s.threads[p].TryPushCheck? && s.threads[p].h == s.head
      && s.head >= capacity && s.head - capacity !in s.popped
  {
    FailsAtReload(Exec(capacity, acts), a, p, Full);
    i := TryWindow(capacity, acts, p);
    PushReady(Exec(capacity, acts[..i]));
  }

  /** try_pop returns false only if, at its last check of a slot's turn, its ticket was the next one to be drawn
      and the push of that ticket had not been issued or was still held by its thread: the queue was empty. */
  lemma TryPopFailsWhenEmpty<T>(capacity: nat, acts: seq<Action<T>>, a: Action<T>, p: Tid) returns (i: nat)
    requires capacity > 0
    requires Apply(Exec(capacity, acts), a).done == Exec(capacity, acts).done + [Done(p, Empty)]
    ensures a == Advance(p)
    ensures i < |acts| && acts[i] == Advance(p) && forall k :: i < k < |acts| ==> acts[k] != Advance(p)
    ensures var s := Exec(capacity, acts[..i]);
      && p in s.threads && s.threads[p].TryPopCheck? && s.threads[p].h == s.tail
      && (s.tail >= s.head || PushHeld(s, s.tail))
  {
    FailsAtReload(Exec(capacity, acts), a, p, Empty);
    i := TryWindow(capacity, acts, p);
    PopReady(Exec(capacity, acts[..i]));
  }

  // ---------- an operation that nobody disturbs ----------

  /** A call of thread p and its next six steps, which are enough for any operation; those left over do nothing. */
  function Solo<T>(p: Tid, op: Operation<T>): seq<Action<T>> {
    [Start(p, op), Advance(p), Advance(p), Advance(p), Advance(p), Advance(p), Advance(p)]
  }

  function Advances<T>(s: State<T>, p: Tid, n: nat): (s': State<T>)
    requires Shaped(s)
    ensures Shaped(s')
    decreases n
  {
    if n == 0 then s else Advances(Apply(s, Advance(p)), p, n - 1)
  }

  lemma OneAdvance<T>(s: State<T>, p: Tid, n: nat)
    requires Shaped(s)
    ensures n > 0 && p in s.threads ==> Advances(s, p, n) == Advances(Step(s, p), p, n - 1)
  {
    if n > 0 && p in s.threads { assert Apply(s, Advance(p)) == Step(s, p); }
    hide Step;
  }

  lemma {:induction false} NoAdvance<T>(s: State<T>, p: Tid, n: nat)
    requires Shaped(s) && p !in s.threads
    ensures Advances(s, p, n) == s
    decreases n
  {
    if n > 0 { NoAdvance(s, p, n - 1); }
  }

  lemma {:induction false} ExecAdvances<T>(capacity: nat, acts: seq<Action<T>>, p: Tid, n: nat)
    requires capacity > 0
    ensures Exec(capacity, acts + seq(n, _ => Advance(p))) == Advances(Exec(capacity, acts), p, n)
    decreases n
  {
    var more: seq<Action<T>> := seq(n, _ => Advance(p));
    if n == 0 {
      assert acts + more == acts;
    } else {
      ExecAdvances(capacity, acts + [Advance(p)], p, n - 1);
      assert (acts + [Advance(p)])[..|acts|] == acts;
      assert acts + more == acts + [Advance(p)] + seq(n - 1, _ => Advance(p));
    }
  }

  lemma SoloSteps<T>(capacity: nat, acts: seq<Action<T>>, p: Tid, op: Operation<T>)
    requires capacity > 0 && p !in Exec(capacity, acts).threads
    ensures Exec(capacity, acts + Solo(p, op)) == Advances(Goto(Exec(capacity, acts), p, Entry(op)), p, 6)
  {
    ExecAdvances(capacity, acts + [Start(p, op)], p, 6);
    assert (acts + [Start(p, op)])[..|acts|] == acts;
    assert acts + Solo(p, op) == acts + [Start(p, op)] + seq(6, _ => Advance(p));
  }

  /** The ticket is drawn and the slot is ready: two steps fill it. */
  lemma FillSlot<T>(s: State<T>, p: Tid, n: nat)
    requires Shaped(s) && p in s.threads && s.threads[p].PushConstruct? && n >= 2
    ensures var s' := Advances(s, p, n);
      && s'.threads == s.threads - {p} && s'.pushed == s.pushed
      && s'.done == s.done + [Done(p, Stored(s.threads[p].t))]
  {
    hide Advances;
    OneAdvance(s, p, n);
    OneAdvance(Step(s, p), p, n - 1);
    NoAdvance(Step(Step(s, p), p), p, n - 2);
  }

  lemma PushSolo<T>(s: State<T>, p: Tid, v: T)
    requires Shaped(s) && p !in s.threads
    ensures var s' := Advances(Goto(s, p, PushTake(v)), p, 6);
      && s'.pushed == s.pushed + [Issued(v, p)]
      && (if SlotOf(s, s.head).turn == 2 * LapOf(s, s.head)
          then s'.threads == s.threads && s'.done == s.done + [Done(p, Stored(s.head))]
          else s'.threads == s.threads[p := PushWait(s.head, v)] && s'.done == s.done)
  {
    var s0 := Goto(s, p, PushTake(v));
    var s1 := Goto(DrawPush(s, p, v), p, PushWait(s.head, v));
    assert Step(s0, p) == s1;
    hide Advances;
    OneAdvance(s0, p, 6);
    OneAdvance(s1, p, 5);
    if SlotOf(s, s.head).turn == 2 * LapOf(s, s.head) {
      FillSlot(Step(s1, p), p, 4);
    } else {
      Waits(s1, p, 5);
    }
  }

  lemma {:induction false} Waits<T>(s: State<T>, p: Tid, n: nat)
    requires Shaped(s) && p in s.threads && Step(s, p) == s
    ensures Advances(s, p, n) == s
  {
    if n > 0 { Waits(s, p, n - 1); }
  }

  lemma TryPushSteps<T>(s: State<T>, p: Tid, v: T)
    requires Shaped(s) && p !in s.threads
    ensures Step(Goto(s, p, TryPushLoad(v)), p) == Goto(s, p, TryPushCheck(s.head, v))
    ensures Step(Goto(s, p, TryPushCas(s.head, v)), p) == Goto(DrawPush(s, p, v), p, PushConstruct(s.head, v))
    ensures Step(Goto(s, p, TryPushReload(s.head, v)), p) == s.(done := s.done + [Done(p, Full)])
  {
  }

  lemma TryPushLooks<T>(s: State<T>, p: Tid, v: T)
    requires Shaped(s) && p !in s.threads
    ensures Step(Goto(s, p, TryPushCheck(s.head, v)), p) ==
      Goto(s, p, if SlotOf(s, s.head).turn == 2 * LapOf(s, s.head) then TryPushCas(s.head, v)
                 else TryPushReload(s.head, v))
  {
  }

  lemma TryPushSolo<T>(s: State<T>, p: Tid, v: T)
    requires Shaped(s) && p !in s.threads
    ensures var s' := Advances(Goto(s, p, TryPushLoad(v)), p, 6);
      if SlotOf(s, s.head).turn == 2 * LapOf(s, s.head)
      then s'.threads == s.threads && s'.pushed == s.pushed + [Issued(v, p)]
        && s'.done == s.done + [Done(p, Stored(s.head))]
      else s' == s.(done := s.done + [Done(p, Full)])
  {
    var ready := SlotOf(s, s.head).turn == 2 * LapOf(s, s.head);
    var s0, s1 := Goto(s, p, TryPushLoad(v)), Goto(s, p, TryPushCheck(s.head, v));
    var s2 := Goto(s, p, if ready then TryPushCas(s.head, v) else TryPushReload(s.head, v));
    var s3 :=
      if ready then Goto(DrawPush(s, p, v), p, PushConstruct(s.head, v)) else s.(done := s.done + [Done(p, Full)]);
    TryPushSteps(s, p, v);
    TryPushLooks(s, p, v);
    hide Advances, Step;
    OneAdvance(s0, p, 6);
    OneAdvance(s1, p, 5);
    OneAdvance(s2, p, 4);
    if ready { FillSlot(s3, p, 3); } else { NoAdvance(s3, p, 3); }
  }

  /** What a push of thread p that nobody disturbs does: if the slot is free it stores the value, otherwise
      try_emplace fails with nothing changed and emplace waits. */
  ghost predicate PushedAlone<T>(s: State<T>, s': State<T>, p: Tid, op: Operation<T>, free: bool)
    requires op.Push? || op.TryPush?
  {
    if free
    then s'.threads == s.threads && s'.pushed == s.pushed + [Issued(op.v, p)]
      && s'.done == s.done + [Done(p, Stored(s.head))]
    else if op.TryPush? then s' == s.(done := s.done + [Done(p, Full)])
    else s'.threads == s.threads[p := PushWait(s.head, op.v)] && s'.done == s.done
  }

  lemma EitherPushSolo<T>(s: State<T>, p: Tid, op: Operation<T>)
    requires Shaped(s) && p !in s.threads && (op.Push? || op.TryPush?)
    ensures PushedAlone(s, Advances(Goto(s, p, Entry(op)), p, 6), p, op, SlotOf(s, s.head).turn == 2 * LapOf(s, s.head))
  {
    hide Advances;
    if op.Push? { PushSolo(s, p, op.v); } else { TryPushSolo(s, p, op.v); }
  }

  /** The slot is free exactly if the value one lap earlier has been popped, or there is none. */
  lemma PushAlone<T>(capacity: nat, acts: seq<Action<T>>, p: Tid, op: Operation<T>)
    requires capacity > 0 && p !in Exec(capacity, acts).threads && (op.Push? || op.TryPush?)
    ensures var s := Exec(capacity, acts);
      PushedAlone(s, Exec(capacity, acts + Solo(p, op)), p, op, s.head < capacity || s.head - capacity in s.popped)
  {
    var s := Exec(capacity, acts);
    Reachable(capacity, acts);
    PushReady(s);
    SoloSteps(capacity, acts, p, op);
    EitherPushSolo(s, p, op);
    hide *;
  }

  /** The ticket is drawn and the slot is ready: three steps empty it. */
  lemma EmptySlot<T>(s: State<T>, p: Tid, n: nat)
    requires Shaped(s) && p in s.threads && s.threads[p].PopMove? && n >= 3
    requires SlotOf(s, s.threads[p].t).cell.Live?
    ensures var s' := Advances(s, p, n); var t := s.threads[p].t;
      && s'.threads == s.threads - {p} && s'.done == s.done + [Done(p, Got(t, Some(SlotOf(s, t).cell.value)))]
  {
    hide Advances;
    OneAdvance(s, p, n);
    OneAdvance(Step(s, p), p, n - 1);
    OneAdvance(Step(Step(s, p), p), p, n - 2);
    NoAdvance(Step(Step(Step(s, p), p), p), p, n - 3);
  }

  lemma PopSolo<T>(s: State<T>, p: Tid)
    requires Shaped(s) && p !in s.threads
    requires SlotOf(s, s.tail).turn == 2 * LapOf(s, s.tail) + 1 ==> SlotOf(s, s.tail).cell.Live?
    ensures var s' := Advances(Goto(s, p, PopTake), p, 6);
      if SlotOf(s, s.tail).turn == 2 * LapOf(s, s.tail) + 1
      then s'.threads == s.threads && s'.done == s.done + [Done(p, Got(s.tail, Some(SlotOf(s, s.tail).cell.value)))]
      else s'.threads == s.threads[p := PopWait(s.tail)] && s'.done == s.done
  {
    var s0 := Goto(s, p, PopTake);
    var s1 := Goto(DrawPop(s, p), p, PopWait(s.tail));
    assert Step(s0, p) == s1;
    hide Advances;
    OneAdvance(s0, p, 6);
    OneAdvance(s1, p, 5);
    if SlotOf(s, s.tail).turn == 2 * LapOf(s, s.tail) + 1 {
      EmptySlot(Step(s1, p), p, 4);
    } else {
      Waits(s1, p, 5);
    }
  }

  lemma TryPopSteps<T>(s: State<T>, p: Tid)
    requires Shaped(s) && p !in s.threads
    ensures Step(Goto(s, p, TryPopLoad), p) == Goto(s, p, TryPopCheck(s.tail))
    ensures Step(Goto(s, p, TryPopCas(s.tail)), p) == Goto(DrawPop(s, p), p, PopMove(s.tail))
    ensures Step(Goto(s, p, TryPopReload(s.tail)), p) == s.(done := s.done + [Done(p, Empty)])
  {
  }

  lemma TryPopLooks<T>(s: State<T>, p: Tid)
    requires Shaped(s) && p !in s.threads
    ensures Step(Goto(s, p, TryPopCheck(s.tail)), p) ==
      Goto(s, p, if SlotOf(s, s.tail).turn == 2 * LapOf(s, s.tail) + 1 then TryPopCas(s.tail) else TryPopReload(s.tail))
  {
  }

  lemma TryPopTakes<T>(s: State<T>, p: Tid)
    requires Shaped(s) && p !in s.threads
    requires SlotOf(s, s.tail).turn == 2 * LapOf(s, s.tail) + 1 && SlotOf(s, s.tail).cell.Live?
    ensures var s' := Advances(Goto(s, p, TryPopLoad), p, 6);
      s'.threads == s.threads && s'.done == s.done + [Done(p, Got(s.tail, Some(SlotOf(s, s.tail).cell.value)))]
  {
    var s3 := Goto(DrawPop(s, p), p, PopMove(s.tail));
    TryPopSteps(s, p);
    TryPopLooks(s, p);
    assert SlotOf(s3, s.tail) == SlotOf(s, s.tail);
    hide Advances, Step, LapOf, SlotOf;
    OneAdvance(Goto(s, p, TryPopLoad), p, 6);
    OneAdvance(Goto(s, p, TryPopCheck(s.tail)), p, 5);
    OneAdvance(Goto(s, p, TryPopCas(s.tail)), p, 4);
    EmptySlot(s3, p, 3);
  }

  lemma TryPopFails<T>(s: State<T>, p: Tid)
    requires Shaped(s) && p !in s.threads && SlotOf(s, s.tail).turn != 2 * LapOf(s, s.tail) + 1
    ensures Advances(Goto(s, p, TryPopLoad), p, 6) == s.(done := s.done + [Done(p, Empty)])
  {
    TryPopSteps(s, p);
    TryPopLooks(s, p);
    hide Advances, Step, LapOf, SlotOf;
    OneAdvance(Goto(s, p, TryPopLoad), p, 6);
    OneAdvance(Goto(s, p, TryPopCheck(s.tail)), p, 5);
    OneAdvance(Goto(s, p, TryPopReload(s.tail)), p, 4);
    NoAdvance(s.(done := s.done + [Done(p, Empty)]), p, 3);
  }

  /** What a pop of thread p that nobody disturbs does: if the next value is there it takes it, otherwise try_pop
      fails with nothing changed and pop waits. */
  ghost predicate PoppedAlone<T>(s: State<T>, s': State<T>, p: Tid, op: Operation<T>, value: Option<T>) {
    if value.Some? then s'.threads == s.threads && s'.done == s.done + [Done(p, Got(s.tail, value))]
    else if op.TryPop? then s' == s.(done := s.done + [Done(p, Empty)])
    else s'.threads == s.threads[p := PopWait(s.tail)] && s'.done == s.done
  }

  /** The next value is there exactly if the push of the next pop ticket has finished. */
  lemma PopAlone<T>(capacity: nat, acts: seq<Action<T>>, p: Tid, op: Operation<T>)
    requires capacity > 0 && p !in Exec(capacity, acts).threads && (op.Pop? || op.TryPop?)
    ensures var s := Exec(capacity, acts);
      PoppedAlone(s, Exec(capacity, acts + Solo(p, op)), p, op,
        if s.tail < |s.pushed| && !PushHeld(s, s.tail) then Some(s.pushed[s.tail].value) else None)
  {
    var s := Exec(capacity, acts);
    Reachable(capacity, acts);
    PopReady(s);
    assert TicketOk(s, s.tail);
    SoloSteps(capacity, acts, p, op);
    hide Exec, Advances, Inv;
    if op.Pop? {
      PopSolo(s, p);
    } else if SlotOf(s, s.tail).turn == 2 * LapOf(s, s.tail) + 1 {
      TryPopTakes(s, p);
    } else {
      TryPopFails(s, p);
    }
  }
}
