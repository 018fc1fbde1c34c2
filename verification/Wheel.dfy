/** What the timer of Source/Core/System/TimerContext.cpp does, on values: a ring of slots for near targets, a
    heap for far ones, and callbacks that reserve again while a flush runs. */
module Wheel {
  import opened Common

  const SLOTS: nat := 300000
  const MAX_FLUSH: nat := 1000

  /** A reserved callback, known by a number, and the tick it was reserved for. */
  datatype Item = Item(target: int, func: nat)

  datatype Timer = Timer(index: nat, base: int, wheel: seq<seq<Item>>, heap: multiset<Item>)

  predicate Ok(t: Timer) {
    t.index < SLOTS && |t.wheel| == SLOTS
  }

  /** How far ahead of the base an item goes. */
  function Distance(base: int, target: int): nat {
    if target > base then target - base else 0
  }

  /** The slot at a distance from where the ring starts. */
  function Slot(t: Timer, d: nat): seq<Item>
    requires Ok(t)
  {
    t.wheel[(d + t.index) % SLOTS]
  }

  function Put(t: Timer, d: nat, s: seq<Item>): (r: Timer)
    requires Ok(t)
    ensures Ok(r)
  {
    t.(wheel := t.wheel[(d + t.index) % SLOTS := s])
  }

  lemma SlotOfPut(t: Timer, d: nat, s: seq<Item>, c: nat)
    requires Ok(t) && d < SLOTS && c < SLOTS
    ensures Slot(Put(t, d, s), c) == if c == d then s else Slot(t, c)
  {
    if c != d { SameSlot(t.index, c, d); }
  }

  lemma SameSlot(index: nat, c: nat, d: nat)
    requires index < SLOTS && c < SLOTS && d < SLOTS && c != d
    ensures (c + index) % SLOTS != (d + index) % SLOTS
  {
  }

  function Reserve(t: Timer, item: Item): (r: Timer)
    requires Ok(t)
    ensures Ok(r)
  {
    var d := Distance(t.base, item.target);
    if d >= SLOTS then t.(heap := t.heap + multiset{item})
    else Put(t, d, Slot(t, d) + [item])
  }

  /** A reservation 300000 ticks ahead or more goes to the heap; any other goes to the end of the slot at its
      distance, one for the past to that of the present. */
  predicate Placed(t: Timer, item: Item, r: Timer)
    requires Ok(t)
  {
    var far, i := item.target - t.base >= 300000, (Max(0, item.target - t.base) + t.index) % 300000;
    && r.index == t.index && r.base == t.base
    && r.heap == (if far then t.heap + multiset{item} else t.heap)
    && r.wheel == (if far then t.wheel else t.wheel[i := t.wheel[i] + [item]])
  }

  lemma ReservePlaced(t: Timer, item: Item)
    requires Ok(t)
    ensures Placed(t, item, Reserve(t, item))
  {
  }

  // ---------- one flush ----------

  /** A callback that ran, and the distance of the slot it ran from. */
  datatype Fired = Fired(item: Item, from: nat)

  /** A reservation made by a callback, and the distance of the slot the callback ran from. */
  datatype Issued = Issued(item: Item, during: nat)

  /** A flush under way: the slot it is at, what the running callback has still to reserve, what the callbacks
      after it will reserve, and what has happened. */
  datatype Flush = Flush(
    t: Timer,
    at: nat,
    todo: seq<Item>,
    script: seq<seq<Item>>,
    fired: seq<Fired>,
    issued: seq<Issued>)

  /** The next thing to happen: a reservation, a callback, or the move to the next slot. */
  function Step(f: Flush): (r: Flush)
    requires Ok(f.t)
    ensures Ok(r.t)
  {
    if f.todo != [] then
      f.(t := Reserve(f.t, f.todo[0]), todo := f.todo[1..], issued := f.issued + [Issued(f.todo[0], f.at)])
    else if Slot(f.t, f.at) != [] then
      var s := Slot(f.t, f.at);
      f.(t := Put(f.t, f.at, s[1..]), fired := f.fired + [Fired(s[0], f.at)],
         todo := if f.script == [] then [] else f.script[0],
         script := if f.script == [] then [] else f.script[1..])
    else f.(at := f.at + 1)
  }

  /** The flush up to the end of slot n - 1. */
  function Drain(f: Flush, n: nat): (r: Flush)
    requires Ok(f.t) && f.at <= n < SLOTS
    ensures Ok(r.t)
    decreases n - f.at, |f.script|, |f.todo|, |Slot(f.t, f.at)|
  {
    if f.at == n then f
    else
      assert f.todo == [] && Slot(f.t, f.at) != [] ==> Slot(Step(f).t, f.at) == Slot(f.t, f.at)[1..];
      Drain(Step(f), n)
  }

  function Begin(t: Timer, script: seq<seq<Item>>): Flush {
    Flush(t, 0, [], script, [], [])
  }

  // ---------- what a flush does to one slot ----------

  function FiredFrom(fired: seq<Fired>, c: nat): seq<Item> {
    if fired == [] then []
    else
      var last := fired[|fired| - 1];
      FiredFrom(fired[..|fired| - 1], c) + if last.from == c then [last.item] else []
  }

  /** The reservations that went to distance c, those made before the flush left that slot or those made after. */
  function Into(base: int, issued: seq<Issued>, c: nat, late: bool): seq<Item> {
    if issued == [] then []
    else
      var last := issued[|issued| - 1];
      Into(base, issued[..|issued| - 1], c, late)
      + if Distance(base, last.item.target) == c && late == (last.during > c) then [last.item] else []
  }

  /** The law of slot c while a flush of t runs: callbacks run in the order reserved, those reserved during the
      flush after those there before; what comes after the flush has left the slot stays there. */
  predicate SlotLaw(t: Timer, f: Flush, c: nat)
    requires Ok(t) && Ok(f.t)
  {
    && f.t.base == t.base && f.t.index == t.index
    && (if c < f.at then
          && FiredFrom(f.fired, c) == Slot(t, c) + Into(t.base, f.issued, c, false)
          && Slot(f.t, c) == Into(t.base, f.issued, c, true)
        else
          && FiredFrom(f.fired, c) + Slot(f.t, c) == Slot(t, c) + Into(t.base, f.issued, c, false)
          && Into(t.base, f.issued, c, true) == []
          && (c > f.at ==> FiredFrom(f.fired, c) == []))
  }

  lemma FiredMore(fired: seq<Fired>, x: Fired, c: nat)
    ensures FiredFrom(fired + [x], c) == FiredFrom(fired, c) + if x.from == c then [x.item] else []
  {
    assert (fired + [x])[..|fired|] == fired;
  }

  lemma IntoMore(base: int, issued: seq<Issued>, x: Issued, c: nat, late: bool)
    ensures Into(base, issued + [x], c, late)
         == Into(base, issued, c, late)
            + if Distance(base, x.item.target) == c && late == (x.during > c) then [x.item] else []
  {
    assert (issued + [x])[..|issued|] == issued;
  }

  /** What a reservation makes of slot c. */
  lemma ReserveSlot(t: Timer, item: Item, c: nat)
    requires Ok(t) && c < SLOTS
    ensures var r := Reserve(t, item);
      && r.base == t.base && r.index == t.index
      && Slot(r, c) == Slot(t, c) + if Distance(t.base, item.target) == c then [item] else []
  {
    var d := Distance(t.base, item.target);
    if d < SLOTS { SlotOfPut(t, d, Slot(t, d) + [item], c); }
  }

  lemma SlotLawReserve(t: Timer, f: Flush, c: nat)
    requires Ok(t) && Ok(f.t) && f.at < SLOTS && c < SLOTS && SlotLaw(t, f, c) && f.todo != []
    ensures SlotLaw(t, Step(f), c)
  {
    var item := f.todo[0];
    var more := if Distance(t.base, item.target) == c then [item] else [];
    IntoMore(t.base, f.issued, Issued(item, f.at), c, false);
    IntoMore(t.base, f.issued, Issued(item, f.at), c, true);
    ReserveSlot(f.t, item, c);
    hide Slot, FiredFrom, Into, Reserve, Distance;
    if c >= f.at {
      Appended(FiredFrom(f.fired, c), Slot(f.t, c), more);
      Appended(Slot(t, c), Into(t.base, f.issued, c, false), more);
    }
  }

  lemma SlotLawFire(t: Timer, f: Flush, c: nat)
    requires Ok(t) && Ok(f.t) && f.at < SLOTS && c < SLOTS && SlotLaw(t, f, c)
    requires f.todo == [] && Slot(f.t, f.at) != []
    ensures SlotLaw(t, Step(f), c)
  {
    var s := Slot(f.t, f.at);
    FiredMore(f.fired, Fired(s[0], f.at), c);
    SlotOfPut(f.t, f.at, s[1..], c);
    hide Slot, FiredFrom, Into;
    if c == f.at {
      assert s == [s[0]] + s[1..];
      Appended(FiredFrom(f.fired, c), [s[0]], s[1..]);
    }
  }

  lemma SlotLawStep(t: Timer, f: Flush, c: nat)
    requires Ok(t) && Ok(f.t) && f.at < SLOTS && c < SLOTS && SlotLaw(t, f, c)
    ensures SlotLaw(t, Step(f), c)
  {
    if f.todo != [] {
      SlotLawReserve(t, f, c);
    } else if Slot(f.t, f.at) != [] {
      SlotLawFire(t, f, c);
    } else {
      hide Slot, FiredFrom, Into;
    }
  }

  lemma {:induction false} DrainLaw(t: Timer, f: Flush, n: nat, c: nat)
    requires Ok(t) && Ok(f.t) && f.at <= n < SLOTS && c < SLOTS && SlotLaw(t, f, c)
    ensures SlotLaw(t, Drain(f, n), c) && Drain(f, n).at == n
    decreases n - f.at, |f.script|, |f.todo|, |Slot(f.t, f.at)|
  {
    if f.at < n {
      SlotLawStep(t, f, c);
      DrainLaw(t, Step(f), n, c);
    }
  }

  // ---------- the order of callbacks ----------

  /** Callbacks run slot by slot, none of them from a slot not reached yet. */
  predicate InOrder(f: Flush) {
    && (forall i, j :: 0 <= i <= j < |f.fired| ==> f.fired[i].from <= f.fired[j].from)
    && (forall i :: 0 <= i < |f.fired| ==> f.fired[i].from <= f.at)
    && (forall i :: 0 <= i < |f.issued| ==> f.issued[i].during <= f.at)
  }

  predicate Before(f: Flush, n: nat) {
    && (forall i :: 0 <= i < |f.fired| ==> f.fired[i].from < n)
    && (forall i :: 0 <= i < |f.issued| ==> f.issued[i].during < n)
  }

  lemma {:induction false} DrainInOrder(f: Flush, n: nat)
    requires Ok(f.t) && f.at <= n < SLOTS && InOrder(f) && Before(f, n)
    ensures InOrder(Drain(f, n)) && Before(Drain(f, n), n)
    decreases n - f.at, |f.script|, |f.todo|, |Slot(f.t, f.at)|
  {
    if f.at < n { DrainInOrder(Step(f), n); }
  }

  function ItemsOf(fired: seq<Fired>): (r: seq<Item>)
    ensures |r| == |fired| && forall i :: 0 <= i < |r| ==> r[i] == fired[i].item
  {
    seq(|fired|, i requires 0 <= i < |fired| => fired[i].item)
  }

  /** The callbacks of slots 0 to n - 1, slot after slot. */
  function SlotBySlot(fired: seq<Fired>, n: nat): seq<Item> {
    if n == 0 then [] else SlotBySlot(fired, n - 1) + FiredFrom(fired, n - 1)
  }

  lemma {:induction false} NoneFrom(fired: seq<Fired>, c: nat)
    requires forall i :: 0 <= i < |fired| ==> fired[i].from != c
    ensures FiredFrom(fired, c) == []
  {
    if fired != [] { NoneFrom(fired[..|fired| - 1], c); }
  }

  lemma {:induction false} SameSlots(fired: seq<Fired>, x: Fired, n: nat)
    requires n <= x.from
    ensures SlotBySlot(fired + [x], n) == SlotBySlot(fired, n)
  {
    if n > 0 {
      SameSlots(fired, x, n - 1);
      FiredMore(fired, x, n - 1);
    }
  }

  lemma EmptySlot(fired: seq<Fired>, n: nat)
    requires n > 0 && FiredFrom(fired, n - 1) == []
    ensures SlotBySlot(fired, n) == SlotBySlot(fired, n - 1)
  {
    hide FiredFrom;
  }

  lemma {:induction false} EmptySlots(fired: seq<Fired>, m: nat, n: nat)
    requires m <= n && Ordered(fired, m)
    ensures SlotBySlot(fired, n) == SlotBySlot(fired, m)
  {
    if m < n {
      EmptySlots(fired, m, n - 1);
      NoneFrom(fired, n - 1);
      EmptySlot(fired, n);
      hide FiredFrom, Ordered, SlotBySlot;
    }
  }

  predicate Ordered(fired: seq<Fired>, n: nat) {
    && (forall i, j :: 0 <= i <= j < |fired| ==> fired[i].from <= fired[j].from)
    && (forall i :: 0 <= i < |fired| ==> fired[i].from < n)
  }

  lemma AllButLast(fired: seq<Fired>, n: nat) returns (before: seq<Fired>, x: Fired)
    requires Ordered(fired, n) && fired != []
    ensures |before| < |fired| && fired == before + [x] && ItemsOf(fired) == ItemsOf(before) + [x.item]
    ensures Ordered(before, x.from + 1) && Ordered(fired, x.from + 1) && x.from < n
  {
    before, x := fired[..|fired| - 1], fired[|fired| - 1];
  }

  /** In slot order, the callbacks of all slots together are all the callbacks. */
  lemma {:induction false} OrderedBySlot(fired: seq<Fired>, n: nat)
    requires Ordered(fired, n)
    ensures ItemsOf(fired) == SlotBySlot(fired, n)
    decreases |fired|
  {
    hide Ordered, SlotBySlot, FiredFrom;
    if fired == [] {
      NoCallbacks(n);
    } else {
      var before, x := AllButLast(fired, n);
      OrderedBySlot(before, x.from + 1);
      EmptySlots(fired, x.from + 1, n);
      LastInSlot(fired, before, x);
    }
  }

  lemma NoCallbacks(n: nat)
    ensures ItemsOf([]) == SlotBySlot([], n)
  {
    EmptySlots([], 0, n);
  }

  lemma LastInSlot(fired: seq<Fired>, before: seq<Fired>, x: Fired)
    requires fired == before + [x]
    ensures SlotBySlot(fired, x.from + 1) == SlotBySlot(before, x.from + 1) + [x.item]
  {
    var m := x.from;
    SameSlots(before, x, m);
    FiredMore(before, x, m);
    assert SlotBySlot(before, m + 1) == SlotBySlot(before, m) + FiredFrom(before, m);
    hide FiredFrom;
    Appended(SlotBySlot(before, m), FiredFrom(before, m), [x.item]);
  }

  // ---------- conservation ----------

  function Items(wheel: seq<seq<Item>>): multiset<Item> {
    if wheel == [] then multiset{} else Items(wheel[..|wheel| - 1]) + multiset(wheel[|wheel| - 1])
  }

  lemma AddBoth<T>(a: multiset<T>, b: multiset<T>, c: multiset<T>, d: multiset<T>, e: multiset<T>)
    requires a + b == c + d
    ensures (a + e) + b == (c + e) + d
  {
    assert (a + e) + b == (a + b) + e && (c + e) + d == (c + d) + e;
  }

  /** Everything reserved and not run. */
  function Held(t: Timer): multiset<Item> {
    Items(t.wheel) + t.heap
  }

  lemma {:induction false} ItemsUpdate(wheel: seq<seq<Item>>, i: nat, s: seq<Item>)
    requires i < |wheel|
    ensures Items(wheel[i := s]) + multiset(wheel[i]) == Items(wheel) + multiset(s)
  {
    var n := |wheel| - 1;
    var updated := wheel[i := s];
    if i == n {
      assert updated[..n] == wheel[..n];
    } else {
      ItemsUpdate(wheel[..n], i, s);
      assert updated[..n] == wheel[..n][i := s];
      AddBoth(Items(updated[..n]), multiset(wheel[i]), Items(wheel[..n]), multiset(s), multiset(wheel[n]));
    }
  }

  lemma Cancel<T>(a: multiset<T>, b: multiset<T>, c: multiset<T>)
    requires a + c == b + c
    ensures a == b
  {
    assert a == (a + c) - c && b == (b + c) - c;
  }

  lemma HeldPut(t: Timer, d: nat, s: seq<Item>)
    requires Ok(t)
    ensures Held(Put(t, d, s)) + multiset(Slot(t, d)) == Held(t) + multiset(s)
  {
    var i := (d + t.index) % SLOTS;
    ItemsUpdate(t.wheel, i, s);
    AddBoth(Items(t.wheel[i := s]), multiset(t.wheel[i]), Items(t.wheel), multiset(s), t.heap);
  }

  lemma HeldReserve(t: Timer, item: Item)
    requires Ok(t)
    ensures Held(Reserve(t, item)) == Held(t) + multiset{item}
  {
    var d := Distance(t.base, item.target);
    if d < SLOTS {
      var s := Slot(t, d);
      HeldPut(t, d, s + [item]);
      assert multiset(s + [item]) == multiset{item} + multiset(s);
      hide Held;
      Cancel(Held(Reserve(t, item)), Held(t) + multiset{item}, multiset(s));
    } else {
      assert Items(t.wheel) + (t.heap + multiset{item}) == (Items(t.wheel) + t.heap) + multiset{item};
    }
  }

  function IssuedItems(issued: seq<Issued>): (r: seq<Item>)
    ensures |r| == |issued| && forall i :: 0 <= i < |r| ==> r[i] == issued[i].item
  {
    seq(|issued|, i requires 0 <= i < |issued| => issued[i].item)
  }

  /** What was reserved is still held or has run, and nothing else is held or has run. */
  predicate Conserved(held: multiset<Item>, f: Flush) {
    Held(f.t) + multiset(ItemsOf(f.fired)) == held + multiset(IssuedItems(f.issued))
  }

  lemma ConservedStep(held: multiset<Item>, f: Flush)
    requires Ok(f.t) && Conserved(held, f)
    ensures Conserved(held, Step(f))
  {
    var s := Slot(f.t, f.at);
    if f.todo != [] {
      var item := f.todo[0];
      HeldReserve(f.t, item);
      assert IssuedItems(f.issued + [Issued(item, f.at)]) == IssuedItems(f.issued) + [item];
      hide Held, Slot;
      AddBoth(Held(f.t), multiset(ItemsOf(f.fired)), held, multiset(IssuedItems(f.issued)), multiset{item});
      assert (held + multiset{item}) + multiset(IssuedItems(f.issued))
          == held + multiset(IssuedItems(f.issued) + [item]);
    } else if s != [] {
      HeldPut(f.t, f.at, s[1..]);
      assert s == [s[0]] + s[1..];
      assert multiset(s) == multiset{s[0]} + multiset(s[1..]);
      assert ItemsOf(f.fired + [Fired(s[0], f.at)]) == ItemsOf(f.fired) + [s[0]];
      hide Held, Slot;
      Cancel(Held(Step(f).t) + multiset{s[0]}, Held(f.t), multiset(s[1..]));
      assert Held(Step(f).t) + multiset(ItemsOf(f.fired) + [s[0]])
          == (Held(Step(f).t) + multiset{s[0]}) + multiset(ItemsOf(f.fired));
    }
  }

  lemma {:induction false} DrainConserves(held: multiset<Item>, f: Flush, n: nat)
    requires Ok(f.t) && f.at <= n < SLOTS && Conserved(held, f)
    ensures Conserved(held, Drain(f, n))
    decreases n - f.at, |f.script|, |f.todo|, |Slot(f.t, f.at)|
  {
    if f.at < n {
      ConservedStep(held, f);
      DrainConserves(held, Step(f), n);
    }
  }

  // ---------- a whole flush ----------

  function Turned(t: Timer, n: nat): (r: Timer)
    requires Ok(t)
    ensures Ok(r)
  {
    t.(index := (t.index + n) % SLOTS, base := t.base + n)
  }

  lemma SlotOfTurned(t: Timer, n: nat, d: nat)
    requires Ok(t) && n < SLOTS && d < SLOTS
    ensures Slot(Turned(t, n), d) == Slot(t, if d + n < SLOTS then d + n else d + n - SLOTS)
  {
    assert (d + (t.index + n) % SLOTS) % SLOTS == (d + n + t.index) % SLOTS;
  }

  /** The items of the heap that are due move to the first slot, the earliest first. */
  predicate Hotloaded(t: Timer, moved: seq<Item>, r: Timer)
    requires Ok(t)
  {
    && r == Put(t, 0, Slot(t, 0) + moved).(heap := r.heap)
    && multiset(moved) + r.heap == t.heap
    && (forall i :: 0 <= i < |moved| ==> moved[i].target <= t.base)
    && (forall i, j :: 0 <= i <= j < |moved| ==> moved[i].target <= moved[j].target)
    && (forall x :: x in r.heap ==> x.target > t.base)
  }

  function FlushCount(t: Timer, current: int): nat
    requires t.base <= current
  {
    if current - t.base < MAX_FLUSH then current - t.base else MAX_FLUSH
  }

  /** What a flush at tick `current` may do, when its callbacks reserve as the script says. */
  predicate Flushed(t: Timer, current: int, script: seq<seq<Item>>, f: Flush, moved: seq<Item>, r: Timer)
    requires Ok(t) && t.base <= current
  {
    var n := FlushCount(t, current);
    && f == Drain(Begin(t, script), n)
    && if n == 0 then moved == [] && r == t else Hotloaded(Turned(f.t, n), moved, r)
  }

  /** The slots after a flush of n > 0 ticks, by the slots before it. */
  lemma FlushedSlot(t: Timer, current: int, script: seq<seq<Item>>, f: Flush, moved: seq<Item>, r: Timer, c: nat)
    requires Ok(t) && t.base < current && c < SLOTS && Flushed(t, current, script, f, moved, r)
    ensures var n := FlushCount(t, current);
      && Ok(r) && r.base == t.base + n && InOrder(f) && Before(f, n)
      && (c < n ==>
            && FiredFrom(f.fired, c) == Slot(t, c) + Into(t.base, f.issued, c, false)
            && Slot(r, SLOTS - n + c) == Into(t.base, f.issued, c, true))
      && (c >= n ==>
            Slot(r, c - n) == Slot(t, c) + Into(t.base, f.issued, c, false) + if c == n then moved else [])
  {
    var n := FlushCount(t, current);
    FlushParts(t, current, script, f, moved, r, c);
    HotloadedSlot(f.t, n, moved, r, c);
    hide Drain, Slot, Hotloaded, FiredFrom, Into, Flushed, Turned;
    assert c >= n ==> [] + Slot(f.t, c) == Slot(f.t, c);
  }

  lemma FlushParts(t: Timer, current: int, script: seq<seq<Item>>, f: Flush, moved: seq<Item>, r: Timer, c: nat)
    requires Ok(t) && t.base < current && c < SLOTS && Flushed(t, current, script, f, moved, r)
    ensures var n := FlushCount(t, current);
      && Ok(f.t) && f.at == n && SlotLaw(t, f, c) && InOrder(f) && Before(f, n)
      && Hotloaded(Turned(f.t, n), moved, r) && (c >= n ==> FiredFrom(f.fired, c) == [])
  {
    var n, b := FlushCount(t, current), Begin(t, script);
    assert SlotLaw(t, b, c);
    hide SlotLaw, Hotloaded, Turned;
    DrainLaw(t, b, n, c);
    DrainInOrder(b, n);
    if c >= n { NoneFrom(f.fired, c); }
  }

  lemma HotloadedSlot(t: Timer, n: nat, moved: seq<Item>, r: Timer, c: nat)
    requires Ok(t) && n < SLOTS && c < SLOTS && Hotloaded(Turned(t, n), moved, r)
    ensures Ok(r) && r.base == t.base + n
    ensures if c < n then Slot(r, SLOTS - n + c) == Slot(t, c)
            else Slot(r, c - n) == Slot(t, c) + if c == n then moved else []
  {
    var d := if c < n then SLOTS - n + c else c - n;
    var u := Turned(t, n);
    SlotOfTurned(t, n, d);
    SlotOfPut(u, 0, Slot(u, 0) + moved, d);
    assert Slot(r, d) == Slot(Put(u, 0, Slot(u, 0) + moved), d);
  }

  // ---------- never early ----------

  /** No entry can come up before its target, and the heap holds nothing that is due. */
  predicate NeverEarly(t: Timer)
    requires Ok(t)
  {
    && (forall d, x :: 0 <= d < SLOTS && x in Slot(t, d) ==> x.target <= t.base + d)
    && (forall x :: x in t.heap ==> x.target > t.base)
  }

  lemma {:induction false} FiredFromHas(fired: seq<Fired>, i: nat)
    requires i < |fired|
    ensures fired[i].item in FiredFrom(fired, fired[i].from)
  {
    if i < |fired| - 1 { FiredFromHas(fired[..|fired| - 1], i); }
  }

  lemma {:induction false} IntoDistance(base: int, issued: seq<Issued>, c: nat, late: bool, x: Item)
    requires x in Into(base, issued, c, late)
    ensures Distance(base, x.target) == c
    ensures exists i :: 0 <= i < |issued| && issued[i].item == x && late == (issued[i].during > c)
  {
    var n := |issued| - 1;
    if x in Into(base, issued[..n], c, late) {
      IntoDistance(base, issued[..n], c, late, x);
      var i :| 0 <= i < n && issued[..n][i].item == x && late == (issued[..n][i].during > c);
      assert issued[i].item == x;
    }
  }

  lemma {:induction false} IntoHas(base: int, issued: seq<Issued>, i: nat)
    requires i < |issued|
    ensures var c := Distance(base, issued[i].item.target);
      issued[i].item in Into(base, issued, c, issued[i].during > c)
  {
    if i < |issued| - 1 { IntoHas(base, issued[..|issued| - 1], i); }
  }

  /** With no assumption about the callbacks: none runs before its target, and the timer stays such that none
      will. */
  lemma FlushNeverEarly(t: Timer, current: int, script: seq<seq<Item>>, f: Flush, moved: seq<Item>, r: Timer)
    requires Ok(t) && t.base <= current && NeverEarly(t) && Flushed(t, current, script, f, moved, r)
    ensures forall k :: 0 <= k < |f.fired| ==> f.fired[k].item.target <= t.base + f.fired[k].from < current
    ensures Ok(r) && NeverEarly(r) && r.base <= current
  {
    var n := FlushCount(t, current);
    if n > 0 {
      FlushedSlot(t, current, script, f, moved, r, 0);
      forall k | 0 <= k < |f.fired| ensures f.fired[k].item.target <= t.base + f.fired[k].from < current {
        var c, x := f.fired[k].from, f.fired[k].item;
        FlushedSlot(t, current, script, f, moved, r, c);
        FiredFromHas(f.fired, k);
        if x !in Slot(t, c) { IntoDistance(t.base, f.issued, c, false, x); }
      }
      forall d, x | 0 <= d < SLOTS && x in Slot(r, d) ensures x.target <= r.base + d {
        EntryNotEarly(t, current, script, f, moved, r, d, x);
      }
    }
  }

  lemma EntryNotEarly(t: Timer, current: int, script: seq<seq<Item>>, f: Flush, moved: seq<Item>, r: Timer,
                      d: nat, x: Item)
    requires Ok(t) && t.base < current && NeverEarly(t) && Flushed(t, current, script, f, moved, r)
    requires Ok(r) && d < SLOTS && x in Slot(r, d)
    ensures x.target <= r.base + d
  {
    var n := FlushCount(t, current);
    var c := if d + n < SLOTS then d + n else d + n - SLOTS;
    FlushedSlot(t, current, script, f, moved, r, c);
    if c < n {
      IntoDistance(t.base, f.issued, c, true, x);
    } else if x !in Slot(t, c) && x in Into(t.base, f.issued, c, false) {
      IntoDistance(t.base, f.issued, c, false, x);
    }
  }

  lemma ReserveNeverEarly(t: Timer, item: Item)
    requires Ok(t) && NeverEarly(t)
    ensures NeverEarly(Reserve(t, item))
  {
    var d := Distance(t.base, item.target);
    if d < SLOTS {
      forall c, x | 0 <= c < SLOTS && x in Slot(Reserve(t, item), c) ensures x.target <= t.base + c {
        SlotOfPut(t, d, Slot(t, d) + [item], c);
      }
    } else {
      assert forall c :: 0 <= c < SLOTS ==> Slot(Reserve(t, item), c) == Slot(t, c);
    }
  }

  // ---------- on time ----------

  /** Every entry comes up exactly at its target; the first slot holds what is due. */
  predicate Punctual(t: Timer)
    requires Ok(t)
  {
    && (forall d, x :: 0 <= d < SLOTS && x in Slot(t, d) ==> d == Distance(t.base, x.target))
    && (forall x :: x in t.heap ==> x.target > t.base)
  }

  lemma ReservePunctual(t: Timer, item: Item)
    requires Ok(t) && Punctual(t)
    ensures Punctual(Reserve(t, item))
  {
    var d := Distance(t.base, item.target);
    if d < SLOTS {
      forall c, x | 0 <= c < SLOTS && x in Slot(Reserve(t, item), c) ensures c == Distance(t.base, x.target) {
        SlotOfPut(t, d, Slot(t, d) + [item], c);
      }
    } else {
      assert forall c :: 0 <= c < SLOTS ==> Slot(Reserve(t, item), c) == Slot(t, c);
    }
  }

  /** The reservation does not fall behind the slot its callback ran from. */
  predicate InTime(base: int, x: Issued) {
    x.during <= Distance(base, x.item.target)
  }

  lemma {:induction false} NoneLate(base: int, issued: seq<Issued>, c: nat)
    requires forall i :: 0 <= i < |issued| ==> InTime(base, issued[i])
    ensures Into(base, issued, c, true) == []
  {
    if issued != [] { NoneLate(base, issued[..|issued| - 1], c); }
  }

  /** Without late reservations the slots a flush has left are empty. */
  lemma DrainedEmpty(t: Timer, current: int, script: seq<seq<Item>>, f: Flush, moved: seq<Item>, r: Timer, c: nat)
    requires Ok(t) && t.base < current && Flushed(t, current, script, f, moved, r)
    requires forall i :: 0 <= i < |f.issued| ==> InTime(t.base, f.issued[i])
    requires c < FlushCount(t, current)
    ensures Ok(r) && Slot(r, SLOTS - FlushCount(t, current) + c) == []
  {
    FlushedSlot(t, current, script, f, moved, r, c);
    NoneLate(t.base, f.issued, c);
  }

  /** The other slots hold what waited there, what joined it, and in the first slot what left the heap. */
  lemma EntryFrom(t: Timer, current: int, script: seq<seq<Item>>, f: Flush, moved: seq<Item>, r: Timer, d: nat, x: Item)
    requires Ok(t) && t.base < current && Flushed(t, current, script, f, moved, r)
    requires d + FlushCount(t, current) < SLOTS && Ok(r) && x in Slot(r, d)
    ensures var c := d + FlushCount(t, current);
      && r.base == t.base + FlushCount(t, current)
      && (x in Slot(t, c) || x in Into(t.base, f.issued, c, false) || (d == 0 && x in moved))
  {
    FlushedSlot(t, current, script, f, moved, r, d + FlushCount(t, current));
    hide *;
  }

  lemma EntryPunctual(t: Timer, current: int, script: seq<seq<Item>>, f: Flush, moved: seq<Item>, r: Timer,
                      d: nat, x: Item)
    requires Ok(t) && t.base < current && Punctual(t) && Flushed(t, current, script, f, moved, r)
    requires forall i :: 0 <= i < |f.issued| ==> InTime(t.base, f.issued[i])
    requires Ok(r) && d < SLOTS && x in Slot(r, d)
    ensures d == Distance(r.base, x.target)
  {
    var n := FlushCount(t, current);
    var c := d + n;
    if c >= SLOTS {
      DrainedEmpty(t, current, script, f, moved, r, c - SLOTS);
      assert false;
    }
    EntryFrom(t, current, script, f, moved, r, d, x);
    hide Drain, Hotloaded, FiredFrom, Flushed, Slot, Into, InTime;
    if x in Slot(t, c) {
      assert c == Distance(t.base, x.target);
    } else if x in Into(t.base, f.issued, c, false) {
      IntoDistance(t.base, f.issued, c, false, x);
    } else {
      LoadedInTime(t, current, script, f, moved, r, x);
    }
    hide *;
    DistanceLater(t.base, n, c, x.target);
  }

  lemma LoadedInTime(t: Timer, current: int, script: seq<seq<Item>>, f: Flush, moved: seq<Item>, r: Timer, x: Item)
    requires Ok(t) && t.base < current && Flushed(t, current, script, f, moved, r) && x in moved
    ensures x.target <= t.base + FlushCount(t, current)
  {
    FlushParts(t, current, script, f, moved, r, 0);
  }

  lemma DistanceLater(base: int, n: nat, c: nat, target: int)
    requires c >= n > 0 && (c == Distance(base, target) || (c == n && target <= base + n))
    ensures c - n == Distance(base + n, target)
  {
  }

  /** A reservation that is not in time ends in a slot the flush has left, and waits for the ring to come round. */
  lemma LateStays(t: Timer, current: int, script: seq<seq<Item>>, f: Flush, moved: seq<Item>, r: Timer, i: nat)
    requires Ok(t) && t.base < current && Flushed(t, current, script, f, moved, r)
    requires i < |f.issued| && !InTime(t.base, f.issued[i])
    ensures Ok(r) && !Punctual(r)
    ensures var n, x := FlushCount(t, current), f.issued[i].item;
      var c := Distance(t.base, x.target);
      c < f.issued[i].during < n && x in Slot(r, SLOTS - n + c)
  {
    var n, x := FlushCount(t, current), f.issued[i].item;
    var c := Distance(t.base, x.target);
    FlushedSlot(t, current, script, f, moved, r, 0);
    FlushedSlot(t, current, script, f, moved, r, c);
    IntoHas(t.base, f.issued, i);
    assert x in Slot(r, SLOTS - n + c);
  }

  /** A flush keeps the timer on time exactly when no callback reserves for an earlier tick than that of the slot
      it runs from. (A callback of the first slot may reserve for any tick.) */
  lemma FlushPunctualExactly(t: Timer, current: int, script: seq<seq<Item>>, f: Flush, moved: seq<Item>, r: Timer)
    requires Ok(t) && t.base < current && Punctual(t) && Flushed(t, current, script, f, moved, r)
    ensures Ok(r)
    ensures Punctual(r) <==> forall i :: 0 <= i < |f.issued| ==> InTime(t.base, f.issued[i])
  {
    FlushedSlot(t, current, script, f, moved, r, 0);
    if i :| 0 <= i < |f.issued| && !InTime(t.base, f.issued[i]) {
      LateStays(t, current, script, f, moved, r, i);
    } else {
      forall d, x | 0 <= d < SLOTS && x in Slot(r, d) ensures d == Distance(r.base, x.target) {
        EntryPunctual(t, current, script, f, moved, r, d, x);
      }
    }
  }

  /** A timer with one entry, due at tick 1, whose callback reserves for tick 0. */
  function Belated(): (t: Timer)
    ensures Ok(t)
  {
    Timer(0, 0, seq(SLOTS, i => if i == 1 then [Item(1, 0)] else []), multiset{})
  }

  /** The flush of it at tick 2, step by step. */
  lemma BelatedFlush() returns (f: Flush)
    ensures f == Drain(Begin(Belated(), [[Item(0, 1)]]), 2)
    ensures f.issued == [Issued(Item(0, 1), 1)] && f.t.heap == multiset{} && f.t.base == 0
  {
    var t := Belated();
    var begin := Begin(t, [[Item(0, 1)]]);
    var atOne := begin.(at := 1);
    assert Slot(t, 0) == [] && Slot(t, 1) == [Item(1, 0)];
    assert Step(begin) == atOne;
    var running := Step(atOne);
    assert running.todo == [Item(0, 1)] && Slot(running.t, 1) == [];
    var reserved := Step(running);
    assert reserved.todo == [] && reserved.at == 1 && reserved.issued == [Issued(Item(0, 1), 1)];
    SlotOfPut(running.t, 0, Slot(running.t, 0) + [Item(0, 1)], 1);
    assert Slot(reserved.t, 1) == [];
    f := Step(reserved);
    assert f == reserved.(at := 2);
    assert Drain(f, 2) == f && Drain(reserved, 2) == f && Drain(running, 2) == f;
    assert Drain(atOne, 2) == f && Drain(begin, 2) == f;
  }

  lemma BelatedPunctual()
    ensures Punctual(Belated())
  {
    var t := Belated();
    assert forall d :: 0 <= d < SLOTS ==> Slot(t, d) == if d == 1 then [Item(1, 0)] else [];
  }

  lemma NothingLoaded(t: Timer)
    requires Ok(t) && t.heap == multiset{}
    ensures Hotloaded(t, [], Put(t, 0, Slot(t, 0) + []))
  {
  }

  /** A flush that does not keep the timer on time. */
  lemma LateExample() returns (f: Flush, r: Timer)
    ensures Punctual(Belated()) && Flushed(Belated(), 2, [[Item(0, 1)]], f, [], r) && Ok(r) && !Punctual(r)
  {
    BelatedPunctual();
    f := BelatedFlush();
    var u := Turned(f.t, 2);
    r := Put(u, 0, Slot(u, 0) + []);
    NothingLoaded(u);
    assert FlushCount(Belated(), 2) == 2 && !InTime(0, f.issued[0]);
    hide Drain, Slot, Punctual, Hotloaded, Put, Turned, InTime;
    LateStays(Belated(), 2, [[Item(0, 1)]], f, [], r, 0);
  }

  lemma {:induction false} ItemsCount(wheel: seq<seq<Item>>, i: nat, x: Item)
    requires i < |wheel| && forall j :: 0 <= j < |wheel| && j != i ==> x !in wheel[j]
    ensures Items(wheel)[x] == multiset(wheel[i])[x]
  {
    var n := |wheel| - 1;
    if i < n {
      ItemsCount(wheel[..n], i, x);
    } else {
      ItemsWithout(wheel[..n], x);
    }
  }

  lemma {:induction false} ItemsWithout(wheel: seq<seq<Item>>, x: Item)
    requires forall j :: 0 <= j < |wheel| ==> x !in wheel[j]
    ensures x !in Items(wheel)
  {
    if wheel != [] { ItemsWithout(wheel[..|wheel| - 1], x); }
  }

  lemma {:induction false} FiredFromCount(fired: seq<Fired>, c: nat, x: Item)
    ensures multiset(FiredFrom(fired, c))[x] <= multiset(ItemsOf(fired))[x]
  {
    if fired != [] {
      var before, last := fired[..|fired| - 1], fired[|fired| - 1];
      FiredFromCount(before, c, x);
      assert ItemsOf(fired) == ItemsOf(before) + [last.item];
    }
  }

  lemma HeldPunctual(t: Timer, x: Item)
    requires Ok(t) && Punctual(t) && x !in t.heap && Distance(t.base, x.target) < SLOTS
    ensures Held(t)[x] == multiset(Slot(t, Distance(t.base, x.target)))[x]
  {
    var i := (Distance(t.base, x.target) + t.index) % SLOTS;
    forall j | 0 <= j < SLOTS && j != i ensures x !in t.wheel[j] {
      var d := if j < t.index then j + SLOTS - t.index else j - t.index;
      assert Slot(t, d) == t.wheel[j];
    }
    ItemsCount(t.wheel, i, x);
  }

  /** A flush of at least one tick runs every entry that was due when it began, however often that entry was
      reserved, and every entry of the ring due before the tick the flush reaches. */
  lemma FlushMeetsDeadlines(t: Timer, current: int, script: seq<seq<Item>>, f: Flush, moved: seq<Item>, r: Timer,
                            x: Item)
    requires Ok(t) && t.base < current && Punctual(t) && Flushed(t, current, script, f, moved, r)
    requires x.target <= t.base
          || (x !in t.heap && x.target < if current - t.base <= 1000 then current else t.base + 1000)
    ensures Held(t)[x] <= multiset(ItemsOf(f.fired))[x]
  {
    var c := Distance(t.base, x.target);
    HeldPunctual(t, x);
    FlushedSlot(t, current, script, f, moved, r, c);
    FiredFromCount(f.fired, c, x);
    assert multiset(Slot(t, c) + Into(t.base, f.issued, c, false))
        == multiset(Slot(t, c)) + multiset(Into(t.base, f.issued, c, false));
  }

  /** Everything expected for the tick or earlier has run, as often as it was expected. */
  ghost predicate AllRan(tick: int, expected: multiset<Item>, ran: seq<Item>) {
    forall x: Item :: x.target <= tick ==> expected[x] <= multiset(ran)[x]
  }

  /** Everything expected before the bound has run, but for what the heap holds. */
  ghost predicate RingRan(bound: int, heap: multiset<Item>, expected: multiset<Item>, ran: seq<Item>) {
    forall x: Item :: x.target < bound && x !in heap ==> expected[x] <= multiset(ran)[x]
  }

  /** The callbacks run slot by slot, and from each slot those that waited there, in the order reserved, and then
      those that joined them in time. */
  lemma FlushOrder(t: Timer, current: int, script: seq<seq<Item>>, f: Flush, moved: seq<Item>, r: Timer)
    requires Ok(t) && t.base <= current && Flushed(t, current, script, f, moved, r)
    ensures ItemsOf(f.fired) == SlotBySlot(f.fired, FlushCount(t, current))
    ensures forall c :: 0 <= c < FlushCount(t, current) ==>
              FiredFrom(f.fired, c) == Slot(t, c) + Into(t.base, f.issued, c, false)
  {
    if t.base < current {
      FlushedSlot(t, current, script, f, moved, r, 0);
      OrderedBySlot(f.fired, FlushCount(t, current));
      forall c | 0 <= c < FlushCount(t, current)
        ensures FiredFrom(f.fired, c) == Slot(t, c) + Into(t.base, f.issued, c, false)
      {
        FlushedSlot(t, current, script, f, moved, r, c);
      }
    }
  }

  /** The entries of the first n slots, slot after slot. */
  function Waiting(t: Timer, n: nat): seq<Item>
    requires Ok(t)
  {
    if n == 0 then [] else Waiting(t, n - 1) + Slot(t, n - 1)
  }

  lemma {:induction false} NoneInto(base: int, issued: seq<Issued>, c: nat, late: bool)
    requires forall i :: 0 <= i < |issued| ==> issued[i].item.target > base + c
    ensures Into(base, issued, c, late) == []
  {
    if issued != [] { NoneInto(base, issued[..|issued| - 1], c, late); }
  }

  lemma {:induction false} OnlyWaiting(t: Timer, fired: seq<Fired>, n: nat)
    requires Ok(t) && forall c :: 0 <= c < n ==> FiredFrom(fired, c) == Slot(t, c)
    ensures SlotBySlot(fired, n) == Waiting(t, n)
  {
    if n > 0 { OnlyWaiting(t, fired, n - 1); }
  }

  /** When callbacks reserve for the present or the future only, a flush runs exactly what waited, and the timer
      stays on time. */
  lemma FlushRunsWhatWaited(t: Timer, current: int, script: seq<seq<Item>>, f: Flush, moved: seq<Item>, r: Timer)
    requires Ok(t) && t.base < current && Flushed(t, current, script, f, moved, r)
    requires forall i :: 0 <= i < |f.issued| ==> f.issued[i].item.target >= current
    ensures ItemsOf(f.fired) == Waiting(t, FlushCount(t, current))
    ensures Ok(r) && (Punctual(t) ==> Punctual(r))
  {
    var n := FlushCount(t, current);
    FlushOrder(t, current, script, f, moved, r);
    forall c | 0 <= c < n ensures FiredFrom(f.fired, c) == Slot(t, c) {
      NoneInto(t.base, f.issued, c, false);
    }
    OnlyWaiting(t, f.fired, n);
    FlushedSlot(t, current, script, f, moved, r, 0);
    hide Drain, Hotloaded, FiredFrom, Flushed, Slot, Into, Punctual, SlotBySlot, Waiting;
    if Punctual(t) { FlushPunctualExactly(t, current, script, f, moved, r); }
  }

  /** Nothing is lost in a flush and nothing runs twice. */
  lemma FlushConserves(t: Timer, current: int, script: seq<seq<Item>>, f: Flush, moved: seq<Item>, r: Timer)
    requires Ok(t) && t.base <= current && Flushed(t, current, script, f, moved, r)
    ensures Held(r) + multiset(ItemsOf(f.fired)) == Held(t) + multiset(IssuedItems(f.issued))
  {
    var n, b := FlushCount(t, current), Begin(t, script);
    DrainConserves(Held(t), b, n);
    if n > 0 {
      var u := Turned(f.t, n);
      var s := Slot(u, 0);
      HeldPut(u, 0, s + moved);
      assert multiset(s + moved) == multiset(moved) + multiset(s);
      var p := Put(u, 0, s + moved);
      assert Held(u) == Held(f.t);
      Cancel(Held(p), Held(u) + multiset(moved), multiset(s));
      assert Held(r) + multiset(moved) == Held(p);
      Cancel(Held(r), Held(u), multiset(moved));
    }
  }

  /** When callbacks reserve for the present or the future only, no entry that was due when the flush began is
      left. */
  lemma FlushLeavesNothingDue(t: Timer, current: int, script: seq<seq<Item>>, f: Flush, moved: seq<Item>, r: Timer,
                              x: Item)
    requires Ok(t) && t.base < current && Punctual(t) && Flushed(t, current, script, f, moved, r)
    requires forall i :: 0 <= i < |f.issued| ==> f.issued[i].item.target >= current
    requires x.target <= t.base
    ensures Held(r)[x] == 0
  {
    FlushMeetsDeadlines(t, current, script, f, moved, r, x);
    FlushConserves(t, current, script, f, moved, r);
    assert x !in IssuedItems(f.issued);
    assert (Held(r) + multiset(ItemsOf(f.fired)))[x] == (Held(t) + multiset(IssuedItems(f.issued)))[x];
  }

  predicate Scripted(script: seq<seq<Item>>, f: Flush) {
    && f.script == (if |f.fired| < |script| then script[|f.fired|..] else [])
    && (IssuedItems(f.issued) + f.todo) + Concat(f.script) == Concat(script)
  }

  /** Every callback that ran has made all its reservations, in its order. */
  lemma {:induction false} DrainFollowsScript(script: seq<seq<Item>>, f: Flush, n: nat)
    requires Ok(f.t) && f.at <= n < SLOTS && Scripted(script, f) && (f.at == n ==> f.todo == [])
    ensures Scripted(script, Drain(f, n)) && Drain(f, n).todo == []
    decreases n - f.at, |f.script|, |f.todo|, |Slot(f.t, f.at)|
  {
    if f.at < n {
      if f.todo != [] {
        var x := Issued(f.todo[0], f.at);
        assert IssuedItems(f.issued + [x]) == IssuedItems(f.issued) + [x.item];
        assert f.todo == [f.todo[0]] + f.todo[1..];
        Appended(IssuedItems(f.issued), [f.todo[0]], f.todo[1..]);
      } else if Slot(f.t, f.at) != [] && f.script != [] {
        Appended(IssuedItems(f.issued), f.script[0], Concat(f.script[1..]));
        assert f.script[1..] == if |f.fired| + 1 < |script| then script[|f.fired| + 1..] else [];
        assert IssuedItems(f.issued) + [] == IssuedItems(f.issued);
      }
      DrainFollowsScript(script, Step(f), n);
    }
  }

  lemma FlushFollowsScript(t: Timer, current: int, script: seq<seq<Item>>, f: Flush, moved: seq<Item>, r: Timer)
    requires Ok(t) && t.base <= current && Flushed(t, current, script, f, moved, r)
    ensures Scripted(script, f) && f.todo == []
    ensures forall i :: 0 <= i < |f.issued| ==> f.issued[i].item in Concat(script)
  {
    var n, b := FlushCount(t, current), Begin(t, script);
    assert ([] + []) + Concat(script) == Concat(script) && IssuedItems([]) == [] && script[0..] == script;
    assert n == 0 ==> f == b;
    DrainFollowsScript(script, b, n);
    forall i | 0 <= i < |f.issued| ensures f.issued[i].item in Concat(script) {
      assert IssuedItems(f.issued)[i] in (IssuedItems(f.issued) + f.todo) + Concat(f.script);
    }
  }

  lemma ConcatSplit(script: seq<seq<Item>>, k: nat)
    requires k <= |script|
    ensures Concat(script) == Concat(script[..k]) + Concat(script[k..])
  {
    ConcatAppend(script[..k], script[k..]);
    assert script == script[..k] + script[k..];
  }

  /** The reservations made in a flush are those of the callbacks that ran. */
  function AskedInFlush(script: seq<seq<Item>>, ran: nat): seq<Item> {
    Concat(script[..if ran < |script| then ran else |script|])
  }

  lemma FlushAsks(t: Timer, current: int, script: seq<seq<Item>>, f: Flush, moved: seq<Item>, r: Timer)
    requires Ok(t) && t.base <= current && Flushed(t, current, script, f, moved, r)
    ensures IssuedItems(f.issued) == AskedInFlush(script, |f.fired|)
  {
    FlushFollowsScript(t, current, script, f, moved, r);
    var k := if |f.fired| < |script| then |f.fired| else |script|;
    ConcatSplit(script, k);
    assert f.script == script[k..];
    var a, b, c := IssuedItems(f.issued) + f.todo, Concat(script[..k]), Concat(f.script);
    assert a + c == b + c;
    assert a == (a + c)[..|a|] && b == (b + c)[..|b|];
  }

  // ---------- the heap ----------

  /** What the heap holds was there before or was reserved since, 300000 ticks ahead or more. */
  predicate HeapGrown(t: Timer, heap: multiset<Item>, issued: seq<Issued>) {
    forall x :: x in heap ==> x in t.heap || (x in IssuedItems(issued) && x.target - t.base >= 300000)
  }

  lemma {:induction false} DrainHeap(t: Timer, f: Flush, n: nat)
    requires Ok(f.t) && f.at <= n < SLOTS && f.t.base == t.base && HeapGrown(t, f.t.heap, f.issued)
    ensures HeapGrown(t, Drain(f, n).t.heap, Drain(f, n).issued)
    decreases n - f.at, |f.script|, |f.todo|, |Slot(f.t, f.at)|
  {
    if f.at < n {
      if f.todo != [] {
        var x := Issued(f.todo[0], f.at);
        assert IssuedItems(f.issued + [x]) == IssuedItems(f.issued) + [x.item];
      }
      DrainHeap(t, Step(f), n);
    }
  }

  lemma FlushHeap(t: Timer, current: int, script: seq<seq<Item>>, f: Flush, moved: seq<Item>, r: Timer)
    requires Ok(t) && t.base <= current && Flushed(t, current, script, f, moved, r)
    ensures HeapGrown(t, r.heap, f.issued)
  {
    var n, b := FlushCount(t, current), Begin(t, script);
    DrainHeap(t, b, n);
    hide Drain, HeapGrown;
    if n > 0 {
      assert HeapGrown(t, f.t.heap, f.issued);
      assert forall x :: x in r.heap ==> x in multiset(moved) + r.heap;
      HeapLess(t, f.t.heap, r.heap, f.issued);
    }
  }

  lemma HeapLess(t: Timer, heap: multiset<Item>, less: multiset<Item>, issued: seq<Issued>)
    requires HeapGrown(t, heap, issued) && forall x :: x in less ==> x in heap
    ensures HeapGrown(t, less, issued)
  {
  }

  // ---------- runs ----------

  datatype Event =
    | At(target: int, func: nat)
    | In(now: int, milliseconds: int, func: nat)
    | Tick(current: int, script: seq<seq<Item>>)

  /** What is reserved in an event in which `ran` callbacks run. */
  function AskedBy(e: Event, ran: nat): seq<Item> {
    match e
    case At(target, func) => [Item(target, func)]
    case In(now, milliseconds, func) => [Item(now + milliseconds, func)]
    case Tick(_, script) => AskedInFlush(script, ran)
  }

  function Asked(events: seq<Event>, ran: seq<seq<Item>>): seq<Item>
    requires |ran| == |events|
  {
    var n := |events| - 1;
    if events == [] then [] else Asked(events[..n], ran[..n]) + AskedBy(events[n], |ran[n]|)
  }

  /** What runs in an event runs in a flush, and not before its target. */
  predicate NoneEarly(e: Event, ran: seq<Item>) {
    forall x :: x in ran ==> e.Tick? && x.target < e.current
  }

  /** The clock does not go back. */
  predicate ClockOk(base: int, events: seq<Event>) {
    && (forall i :: 0 <= i < |events| && events[i].Tick? ==> base <= events[i].current)
    && (forall i, j :: 0 <= i <= j < |events| && events[i].Tick? && events[j].Tick? ==>
          events[i].current <= events[j].current)
  }

  /** A flush takes the timer to the present, or 1000 ticks on if that is farther; nothing else moves it. */
  predicate BaseMoved(base: int, e: Event, after: int) {
    after == if !e.Tick? then base else if e.current - base <= 1000 then e.current else base + 1000
  }

  /** What the heap holds after an event was there before or was reserved in it, 300000 ticks ahead or more. */
  predicate HeapFrom(base: int, heap: multiset<Item>, e: Event, ran: nat, after: multiset<Item>) {
    forall x :: x in after ==> x in heap || (x in AskedBy(e, ran) && x.target - base >= 300000)
  }

  /** If event i is a flush of at least one tick, then everything that was held at the start of the run or was
      reserved before event i has run by its end, if it was due when event i began, or is due before the tick the
      flush reaches and was not in the heap. */
  ghost predicate DeadlineMet(bases: seq<int>, heaps: seq<multiset<Item>>, held: multiset<Item>, events: seq<Event>,
                              ran: seq<seq<Item>>, i: nat)
    requires i < |ran| <= |events| && i + 1 < |bases| && i < |heaps|
  {
    events[i].Tick? && bases[i] < events[i].current ==>
      var expected := held + multiset(Asked(events[..i], ran[..i]));
      && AllRan(bases[i], expected, Concat(ran[..i + 1]))
      && RingRan(bases[i + 1], heaps[i], expected, Concat(ran[..i + 1]))
  }

  /** The callbacks reserve for the present or the future only. */
  predicate Forward(e: Event) {
    e.Tick? ==> forall x :: x in Concat(e.script) ==> x.target >= e.current
  }

  lemma PunctualIsNeverEarly(t: Timer)
    requires Ok(t) && Punctual(t)
    ensures NeverEarly(t)
  {
    forall d, x | 0 <= d < SLOTS && x in Slot(t, d) ensures x.target <= t.base + d {
      assert d == Distance(t.base, x.target);
    }
  }

  lemma EmptyTimer(t: Timer)
    requires Ok(t) && t.heap == multiset{} && forall i :: 0 <= i < SLOTS ==> t.wheel[i] == []
    ensures Punctual(t) && NeverEarly(t)
  {
    PunctualIsNeverEarly(t);
  }
}
