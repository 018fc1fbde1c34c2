/** The timer of Source/Core/System/TimerContext.cpp: a ring of linked lists and a heap. */
module Timers {
  import opened Common
  import opened Wheel

  class ReserveItemNode {
    const item: Item
    ghost const owner: ReserveItemList
    var next: ReserveItemNode?

    constructor (item: Item, ghost owner: ReserveItemList)
      ensures this.item == item && this.owner == owner && next == null
    {
      this.item, this.owner, next := item, owner, null;
    }
  }

  class ReserveItemList {
    var head: ReserveItemNode?
    var tail: ReserveItemNode?
    ghost var nodes: seq<ReserveItemNode>

    ghost predicate Valid()
      reads this`head, this`tail, this`nodes, nodes`next
    {
      && (forall i :: 0 <= i < |nodes| ==> nodes[i].owner == this)
      && (forall i, j :: 0 <= i < j < |nodes| ==> nodes[i] != nodes[j])
      && (forall i :: 0 <= i < |nodes| - 1 ==> nodes[i].next == nodes[i + 1])
      && if nodes == [] then head == null && tail == null
         else head == nodes[0] && tail == nodes[|nodes| - 1] && nodes[|nodes| - 1].next == null
    }

    ghost function Contents(): (s: seq<Item>)
      reads this`nodes
      ensures |s| == |nodes| && forall i :: 0 <= i < |nodes| ==> s[i] == nodes[i].item
    {
      var ns := nodes;
      seq(|ns|, i requires 0 <= i < |ns| => ns[i].item)
    }

    constructor ()
      ensures Valid() && Contents() == []
    {
      head, tail, nodes := null, null, [];
    }

    method Enqueue(item: Item) returns (ghost added: ReserveItemNode)
      requires Valid()
      modifies this, nodes
      ensures Valid() && Contents() == old(Contents()) + [item]
      ensures nodes == old(nodes) + [added] && fresh(added)
    {
      var node := new ReserveItemNode(item, this);
      added := node;
      if head == null {
        head, tail := node, node;
      } else {
        var prev := tail;
        tail := node;
        prev.next := tail;
      }
      nodes := nodes + [node];
    }

    method Dequeue() returns (item: Option<Item>)
      requires Valid()
      modifies this
      ensures Valid() && forall n :: n in nodes ==> n in old(nodes)
      ensures item == if old(Contents()) == [] then None else Some(old(Contents())[0])
      ensures Contents() == if old(Contents()) == [] then [] else old(Contents())[1..]
    {
      if head == null {
        return None;
      }
      var node := head;
      head := head.next;
      if head == null {
        tail := null;
      }
      nodes := nodes[1..];
      return Some(node.item);
    }
  }

  /** The slot at a distance from the start of the ring. */
  function RingIndex(distance: nat, start: nat): (i: nat)
    ensures i < SLOTS
    ensures distance == 0 && start < SLOTS ==> i == start
  {
    (distance + start) % SLOTS
  }

  class TimerContext {
    var tickIndex: nat
    var tickBase: int
    const shortterm: seq<ReserveItemList>
    var longterm: multiset<Item>
    ghost var ring: seq<seq<Item>>
    ghost var nodes: set<ReserveItemNode>

    ghost predicate Known(l: ReserveItemList)
      reads this`nodes, l`nodes
    {
      forall n :: n in l.nodes ==> n in nodes
    }

    ghost predicate Valid()
      reads this`tickIndex, this`ring, this`nodes, shortterm, nodes
    {
      && |shortterm| == |ring| == SLOTS && tickIndex < SLOTS
      && (forall i, j :: 0 <= i < j < SLOTS ==> shortterm[i] != shortterm[j])
      && (forall i :: 0 <= i < SLOTS ==>
            Known(shortterm[i]) && shortterm[i].Valid() && shortterm[i].Contents() == ring[i])
    }

    ghost function Abstract(): Timer
      reads this`tickIndex, this`tickBase, this`ring, this`longterm
    {
      Timer(tickIndex, tickBase, ring, longterm)
    }

    constructor (now: int)
      ensures Valid() && tickBase == now && longterm == multiset{} && nodes == {}
      ensures |ring| == |shortterm| == 300000 && forall i :: 0 <= i < 300000 ==> ring[i] == []
      ensures Punctual(Abstract()) && NeverEarly(Abstract())
      ensures forall l :: l in shortterm ==> fresh(l)
    {
      tickIndex, tickBase, longterm := 0, now, multiset{};
      var lists: seq<ReserveItemList> := [];
      while |lists| < SLOTS
        invariant |lists| <= SLOTS
        invariant forall i :: 0 <= i < |lists| ==> fresh(lists[i]) && lists[i].Valid() && lists[i].nodes == []
        invariant forall i, j :: 0 <= i < j < |lists| ==> lists[i] != lists[j]
      {
        var list := new ReserveItemList();
        lists := lists + [list];
      }
      shortterm := lists;
      nodes, ring := {}, seq(SLOTS, _ => []);
      new;
      EmptyTimer(Abstract());
    }

    /** List i has changed, which has its own nodes; the others are as they were. */
    twostate lemma OthersStay(i: nat)
      requires old(Valid()) && i < SLOTS
      requires forall j :: 0 <= j < SLOTS && j != i ==> unchanged(shortterm[j])
      requires forall n :: n in old(nodes) && n.owner != shortterm[i] ==> n.next == old(n.next)
      ensures forall j :: 0 <= j < SLOTS && j != i ==> shortterm[j].Valid() && shortterm[j].Contents() == old(ring[j])
    {
      forall j | 0 <= j < SLOTS && j != i
        ensures shortterm[j].Valid() && shortterm[j].Contents() == old(ring[j])
      {
        var l := shortterm[j];
        assert old(Known(l));
        assert forall n :: n in l.nodes ==> n in old(nodes) && n.owner == l;
      }
    }

    method EnqueueAt(i: nat, item: Item)
      requires Valid() && i < SLOTS
      modifies this`ring, this`nodes, shortterm[i], shortterm[i].nodes
      ensures Valid() && ring == old(ring)[i := old(ring[i]) + [item]]
      ensures forall n :: n in nodes ==> n in old(nodes) || fresh(n)
    {
      assert forall n :: n in shortterm[i].nodes ==> n.owner == shortterm[i];
      hide ReserveItemList.Valid, ReserveItemList.Contents;
      ghost var added := shortterm[i].Enqueue(item);
      OthersStay(i);
      ring := ring[i := ring[i] + [item]];
      nodes := nodes + {added};
      forall j | 0 <= j < SLOTS
        ensures Known(shortterm[j]) && shortterm[j].Valid() && shortterm[j].Contents() == ring[j]
      {
        if j != i { assert old(Known(shortterm[j])); }
      }
    }

    method DequeueAt(i: nat) returns (item: Option<Item>)
      requires Valid() && i < SLOTS
      modifies this`ring, shortterm[i]
      ensures Valid()
      ensures item == if old(ring[i]) == [] then None else Some(old(ring[i])[0])
      ensures ring == old(ring)[i := if old(ring[i]) == [] then [] else old(ring[i])[1..]]
    {
      hide ReserveItemList.Valid, ReserveItemList.Contents;
      item := shortterm[i].Dequeue();
      OthersStay(i);
      ring := ring[i := if ring[i] == [] then [] else ring[i][1..]];
    }

    method ReserveAt(target: int, func: nat)
      requires Valid()
      modifies this`longterm, this`ring, this`nodes, shortterm, nodes
      ensures Valid() && Abstract() == Wheel.Reserve(old(Abstract()), Item(target, func))
      ensures Placed(old(Abstract()), Item(target, func), Abstract())
      ensures forall n :: n in nodes ==> n in old(nodes) || fresh(n)
    {
      hide Wheel.Reserve, RingIndex, Placed;
      ghost var t := Abstract();
      var item := Item(target, func);
      var index := Max(0, target - tickBase);
      if index >= SLOTS {
        longterm := longterm + multiset{item};
        ReservedAs(t, item, Abstract());
        return;
      }
      EnqueueAt(RingIndex(index, tickIndex), item);
      ReservedAs(t, item, Abstract());
    }

    /** The same for a target `milliseconds` from now. */
    method Reserve(now: int, milliseconds: int, func: nat)
      requires Valid()
      modifies this`longterm, this`ring, this`nodes, shortterm, nodes
      ensures Valid() && Abstract() == Wheel.Reserve(old(Abstract()), Item(now + milliseconds, func))
      ensures Placed(old(Abstract()), Item(now + milliseconds, func), Abstract())
      ensures forall n :: n in nodes ==> n in old(nodes) || fresh(n)
    {
      hide *;
      ReserveAt(now + milliseconds, func);
    }

    /** Moves what is due from the heap to the first slot. */
    method HotloadFromLongTermQueue() returns (ghost moved: seq<Item>)
      requires Valid()
      modifies this`longterm, this`ring, this`nodes, shortterm, nodes
      ensures Valid() && Hotloaded(old(Abstract()), moved, Abstract())
      ensures forall n :: n in nodes ==> n in old(nodes) || fresh(n)
    {
      moved := [];
      ghost var was, before := ring, Abstract();
      hide Loaded, AppendAt;
      AppendNothing(was, tickIndex);
      LoadedNothing(tickBase, longterm);
      while longterm != multiset{}
        invariant Valid() && forall n :: n in nodes ==> n in old(nodes) || fresh(n)
        invariant multiset(moved) + longterm == before.heap
        invariant ring == AppendAt(was, tickIndex, moved)
        invariant Loaded(tickBase, moved, longterm)
        decreases |longterm|
      {
        Earliest(longterm);
        var item :| item in longterm && forall x :: x in longterm ==> item.target <= x.target;
        if item.target > tickBase {
          break;
        }
        LoadStep(tickBase, moved, longterm, item);
        AppendMore(was, tickIndex, moved, item);
        LoadTop(item);
        moved := moved + [item];
      }
      HotloadedIf(before, moved, Abstract());
    }

    method LoadTop(item: Item)
      requires Valid() && item in longterm && item.target <= tickBase
      modifies this`longterm, this`ring, this`nodes, shortterm, nodes
      ensures Valid() && longterm == old(longterm) - multiset{item}
      ensures ring == AppendAt(old(ring), tickIndex, [item])
      ensures forall n :: n in nodes ==> n in old(nodes) || fresh(n)
    {
      var index := if item.target < tickBase then 0 else item.target - tickBase;
      assert index == 0;
      EnqueueAt(RingIndex(index, tickIndex), item);
      longterm := longterm - multiset{item};
    }

    /** A callback runs: it reserves what it is to reserve. */
    method RunCallback(requests: seq<Item>, ghost f0: Wheel.Flush, ghost n: nat) returns (ghost f: Wheel.Flush)
      requires Valid() && f0.t == Abstract() && f0.todo == requests && f0.at < n < SLOTS
      modifies this`longterm, this`ring, this`nodes, shortterm, nodes
      ensures Valid() && f.t == Abstract() && f.todo == []
      ensures f.at == f0.at && f.script == f0.script && f.fired == f0.fired
      ensures Drain(f, n) == Drain(f0, n) && (requests == [] ==> f == f0)
      ensures forall x :: x in nodes ==> x in old(nodes) || fresh(x)
    {
      hide Wheel.Reserve, Drain;
      hide Step;
      f := f0;
      var k := 0;
      while k < |requests|
        invariant k <= |requests| && Valid() && f.t == Abstract() && f.todo == requests[k..]
        invariant f.at == f0.at && f.script == f0.script && f.fired == f0.fired
        invariant Drain(f, n) == Drain(f0, n) && (requests == [] ==> f == f0)
        invariant forall x :: x in nodes ==> x in old(nodes) || fresh(x)
      {
        DrainStep(f, n);
        StepReserves(f);
        f := Step(f);
        ReserveAt(requests[k].target, requests[k].func);
        k := k + 1;
      }
    }

    /** Runs the callbacks of one slot, also those that join it meanwhile. */
    method RunSlot(tick: nat, script: seq<seq<Item>>, ghost f0: Wheel.Flush, ghost n: nat)
      returns (ran: seq<Item>, rest: seq<seq<Item>>, ghost f: Wheel.Flush)
      requires Valid() && f0.t == Abstract() && f0.todo == [] && f0.script == script && f0.at < n < SLOTS
      requires tick == (f0.at + tickIndex) % SLOTS
      modifies this`longterm, this`ring, this`nodes, shortterm, nodes
      ensures Valid() && f.t == Abstract() && f.todo == [] && f.script == rest && f.at == f0.at
      ensures Drain(f, n) == Drain(f0, n) && Slot(f.t, f.at) == []
      ensures ItemsOf(f.fired) == ItemsOf(f0.fired) + ran
      ensures forall x :: x in nodes ==> x in old(nodes) || fresh(x)
    {
      hide Wheel.Reserve, Drain, Step, ItemsOf, Valid;
      ran, rest, f := [], script, f0;
      assert ItemsOf(f.fired) + [] == ItemsOf(f.fired);
      var item: Item;
      HeadTells(tick);
      while shortterm[tick].head != null
        invariant Valid() && f.t == Abstract() && f.todo == [] && f.script == rest && f.at == f0.at
        invariant |shortterm| == |ring| == SLOTS && (shortterm[tick].head == null <==> ring[tick] == [])
        invariant tickIndex < SLOTS
        invariant Drain(f, n) == Drain(f0, n)
        invariant ItemsOf(f.fired) == ItemsOf(f0.fired) + ran
        invariant forall x :: x in nodes ==> x in old(nodes) || fresh(x)
        decreases |rest|, |ring[tick]|
      {
        ghost var next := ring[tick][0];
        Appended(ItemsOf(f0.fired), ran, [next]);
        item, rest, f := RunNext(tick, rest, f, n);
        ran := ran + [item];
        HeadTells(tick);
      }
    }

    lemma HeadTells(i: nat)
      requires Valid() && i < SLOTS
      ensures |shortterm| == |ring| == SLOTS && (shortterm[i].head == null <==> ring[i] == []) && tickIndex < SLOTS
    {
    }

    /** Takes the next callback of a slot and runs it. */
    method RunNext(tick: nat, script: seq<seq<Item>>, ghost f0: Wheel.Flush, ghost n: nat)
      returns (item: Item, rest: seq<seq<Item>>, ghost f: Wheel.Flush)
      requires Valid() && f0.t == Abstract() && f0.todo == [] && f0.script == script && f0.at < n < SLOTS
      requires tick == (f0.at + tickIndex) % SLOTS && ring[tick] != []
      modifies this`longterm, this`ring, this`nodes, shortterm, nodes
      ensures Valid() && f.t == Abstract() && f.todo == [] && f.script == rest && f.at == f0.at
      ensures Drain(f, n) == Drain(f0, n) && item == old(ring[tick])[0]
      ensures ItemsOf(f.fired) == ItemsOf(f0.fired) + [item]
      ensures |rest| < |script| || (rest == script && |ring[tick]| < |old(ring[tick])|)
      ensures forall x :: x in nodes ==> x in old(nodes) || fresh(x)
    {
      hide Wheel.Reserve, Drain, Step, ItemsOf, Valid;
      AbstractOk();
      HeadTells(tick);
      DrainStep(f0, n);
      StepFires(f0, tick);
      f := Step(f0);
      var next := DequeueAt(tick);
      item := next.value;
      var requests := if script == [] then [] else script[0];
      rest := if script == [] then [] else script[1..];
      f := RunCallback(requests, f, n);
    }

    /** Runs what has come up by tick `current`, at most 1000 ticks of it. The callbacks run in turn, and the
        k-th of them makes the k-th reservations of the script, none if there is no such. */
    method Flush(current: int, script: seq<seq<Item>>)
      returns (fired: seq<Item>, ghost f: Wheel.Flush, ghost moved: seq<Item>)
      requires Valid() && tickBase <= current
      modifies this, shortterm, nodes
      ensures Valid() && Flushed(old(Abstract()), current, script, f, moved, Abstract())
      ensures fired == ItemsOf(f.fired)
      ensures tickBase == if current - old(tickBase) <= 1000 then current else old(tickBase) + 1000
      ensures old(Punctual(Abstract())) && old(tickBase) < current ==>
        AllRan(old(tickBase), old(Held(Abstract())), fired)
        && RingRan(tickBase, old(longterm), old(Held(Abstract())), fired)
      ensures forall x :: x in nodes ==> x in old(nodes) || fresh(x)
    {
      hide Wheel.Reserve, Drain, Slot, Hotloaded, Flushed, Valid, Punctual, Held, AllRan, RingRan;
      AbstractOk();
      var count := Min(MAX_FLUSH, current - tickBase);
      ghost var t := Abstract();
      fired, f, moved := [], Begin(t, script), [];
      if count == 0 {
        FlushedNothing(t, script);
        return;
      }
      var tick: nat;
      tick, fired, f := RunSlots(count, script);
      MoveOn(tick, count);
      moved := HotloadFromLongTermQueue();
      FlushedIf(t, current, script, f, moved, Abstract());
      if Punctual(t) { TickedDeadline(t, current, script, f, moved, Abstract()); }
    }

    method MoveOn(tick: nat, count: nat)
      requires Valid() && tick < SLOTS
      modifies this`tickIndex, this`tickBase
      ensures Valid() && tickIndex == tick && tickBase == old(tickBase) + count
    {
      tickIndex := tick;
      tickBase := tickBase + count;
    }

    lemma AbstractOk()
      requires Valid()
      ensures Ok(Abstract())
    {
    }

    /** The outer loop of Flush; the fields stay as they are until it ends. */
    method RunSlots(count: nat, script: seq<seq<Item>>) returns (tick: nat, fired: seq<Item>, ghost f: Wheel.Flush)
      requires Valid() && 0 < count < SLOTS
      modifies this`longterm, this`ring, this`nodes, shortterm, nodes
      ensures Valid() && f == Drain(Begin(old(Abstract()), script), count) && f.t == Abstract() && f.at == count
      ensures tick == (count + tickIndex) % SLOTS && fired == ItemsOf(f.fired)
      ensures forall x :: x in nodes ==> x in old(nodes) || fresh(x)
    {
      hide Wheel.Reserve, Drain, Slot;
      fired, f := [], Begin(Abstract(), script);
      ghost var begin := f;
      var rest, ran := script, [];
      var cnt := 0;
      tick := tickIndex;
      while cnt < count
        invariant cnt <= count && Valid() && tick == (cnt + tickIndex) % SLOTS
        invariant f.t == Abstract() && f.todo == [] && f.script == rest && f.at == cnt
        invariant Drain(f, count) == Drain(begin, count) && fired == ItemsOf(f.fired)
        invariant forall x :: x in nodes ==> x in old(nodes) || fresh(x)
      {
        ran, rest, f := RunSlot(tick, rest, f, count);
        fired := fired + ran;
        DrainStep(f, count);
        StepMoves(f);
        f := Step(f);
        tick := (tick + 1) % SLOTS;
        cnt := cnt + 1;
      }
      DrainNothing(f);
    }

    method Handle(e: Event) returns (ran: seq<Item>)
      requires Valid() && NeverEarly(Abstract()) && (e.Tick? ==> tickBase <= e.current)
      modifies this, shortterm, nodes
      ensures Valid() && NeverEarly(Abstract()) && (forall x :: x in nodes ==> x in old(nodes) || fresh(x))
      ensures BaseMoved(old(tickBase), e, tickBase)
      ensures HeapFrom(old(tickBase), old(longterm), e, |ran|, longterm)
      ensures NoneEarly(e, ran)
      ensures Held(Abstract()) + multiset(ran) == old(Held(Abstract())) + multiset(AskedBy(e, |ran|))
      ensures old(Punctual(Abstract())) && Forward(e) ==> Punctual(Abstract())
      ensures old(Punctual(Abstract())) && e.Tick? && old(tickBase) < e.current ==>
        AllRan(old(tickBase), old(Held(Abstract())), ran)
        && RingRan(tickBase, old(longterm), old(Held(Abstract())), ran)
    {
      hide AllRan, RingRan, NeverEarly, Punctual, Held, Flushed, Wheel.Reserve;
      ghost var t := Abstract();
      match e {
        case At(target, func) =>
          ReserveAt(target, func);
          Reserved(t, Item(target, func));
          ran := [];
        case In(now, milliseconds, func) =>
          Reserve(now, milliseconds, func);
          Reserved(t, Item(now + milliseconds, func));
          ran := [];
        case Tick(current, script) =>
          ghost var f, moved;
          ran, f, moved := Flush(current, script);
          Ticked(t, current, script, f, moved, Abstract());
      }
    }

    /** Over any run, whatever the callbacks reserve: none runs before its target, each reservation is either
        held or has run, once, and each flush takes the timer to the present or 1000 ticks on.  If the callbacks
        reserve for the present or the future only, every flush of at least one tick leaves nothing unrun that was
        due when it began or, outside the heap, comes due before the tick it reaches; and what is still held will
        come up at its target.  `bases` and `heaps` tell how far the timer had come and what the heap held before
        each event and at the end. */
    method Run(events: seq<Event>)
      returns (ran: seq<seq<Item>>, ghost bases: seq<int>, ghost heaps: seq<multiset<Item>>)
      requires Valid() && NeverEarly(Abstract()) && ClockOk(tickBase, events)
      modifies this, shortterm, nodes
      ensures Valid() && NeverEarly(Abstract()) && |ran| == |events|
      ensures |bases| == |events| + 1 && bases[0] == old(tickBase) && bases[|events|] == tickBase
      ensures |heaps| == |events| + 1 && heaps[0] == old(longterm) && heaps[|events|] == longterm
      ensures forall i :: 0 <= i < |events| ==> Recorded(bases, heaps, events, ran, i)
      ensures Held(Abstract()) + multiset(Concat(ran)) == old(Held(Abstract())) + multiset(Asked(events, ran))
      ensures old(Punctual(Abstract())) && (forall e :: e in events ==> Forward(e)) ==>
        && Punctual(Abstract())
        && forall i :: 0 <= i < |events| ==> DeadlineMet(bases, heaps, old(Held(Abstract())), events, ran, i)
    {
      hide NeverEarly, Punctual, Held, Forward, NoneEarly, Asked, AskedBy, Concat, AllRan, RingRan;
      hide DeadlineMet, BaseMoved, HeapFrom;
      Nothing();
      ran, bases, heaps := [], [tickBase], [longterm];
      var i := 0;
      ghost var start := Held(Abstract());
      ghost var forward := Punctual(Abstract()) && forall e :: e in events ==> Forward(e);
      while i < |events|
        invariant i <= |events| && |ran| == i && Valid() && NeverEarly(Abstract())
        invariant |bases| == i + 1 && bases[0] == old(tickBase) && bases[i] == tickBase
        invariant |heaps| == i + 1 && heaps[0] == old(longterm) && heaps[i] == longterm
        invariant forall x :: x in nodes ==> x in old(nodes) || fresh(x)
        invariant Behind(tickBase, events, i)
        invariant forall j :: 0 <= j < i ==> Recorded(bases, heaps, events, ran, j)
        invariant Held(Abstract()) + multiset(Concat(ran)) == start + multiset(Asked(events[..i], ran))
        invariant forward ==> Punctual(Abstract())
        invariant forward ==> forall j :: 0 <= j < i ==> DeadlineMet(bases, heaps, start, events, ran, j)
      {
        ghost var held, base, heap := Held(Abstract()), tickBase, longterm;
        var more := Handle(events[i]);
        Onward(base, events, i, tickBase);
        AskedMore(events, ran, more, i);
        Balance(start, held, Held(Abstract()), Concat(ran), Asked(events[..i], ran), more, AskedBy(events[i], |more|));
        forall j | 0 <= j <= i ensures Recorded(bases + [tickBase], heaps + [longterm], events, ran + [more], j) {
          if j < i { RecordStays(bases, heaps, events, ran, tickBase, longterm, more, j); }
        }
        if forward {
          DeadlineNow(bases + [tickBase], heaps + [longterm], start, held, events, ran, more, i);
          forall j | 0 <= j < i
            ensures DeadlineMet(bases + [tickBase], heaps + [longterm], start, events, ran + [more], j)
          {
            DeadlineStays(bases, heaps, start, events, ran, tickBase, longterm, more, j);
          }
        }
        ran, bases, heaps := ran + [more], bases + [tickBase], heaps + [longterm];
        i := i + 1;
      }
      assert events[..i] == events;
    }
  }

  /** The timer has come no further than the clock of the events ahead. */
  predicate Behind(base: int, events: seq<Event>, i: nat) {
    forall j :: i <= j < |events| && events[j].Tick? ==> base <= events[j].current
  }

  lemma Onward(base: int, events: seq<Event>, i: nat, after: int)
    requires i < |events| && Behind(base, events, i) && BaseMoved(base, events[i], after)
    requires forall j, k :: 0 <= j <= k < |events| && events[j].Tick? && events[k].Tick? ==>
      events[j].current <= events[k].current
    ensures Behind(after, events, i + 1)
  {
  }

  /** In event j the timer moved on as it has to, the heap took in far reservations only, and nothing ran early. */
  predicate Recorded(bases: seq<int>, heaps: seq<multiset<Item>>, events: seq<Event>, ran: seq<seq<Item>>, j: nat)
    requires j < |ran| <= |events| && j + 1 < |bases| && j + 1 < |heaps|
  {
    && BaseMoved(bases[j], events[j], bases[j + 1])
    && HeapFrom(bases[j], heaps[j], events[j], |ran[j]|, heaps[j + 1])
    && NoneEarly(events[j], ran[j])
  }

  lemma RecordStays(bases: seq<int>, heaps: seq<multiset<Item>>, events: seq<Event>, ran: seq<seq<Item>>,
                    base: int, heap: multiset<Item>, more: seq<Item>, j: nat)
    requires j < |ran| < |events| && |bases| == |heaps| == |ran| + 1 && Recorded(bases, heaps, events, ran, j)
    ensures Recorded(bases + [base], heaps + [heap], events, ran + [more], j)
  {
    hide BaseMoved, HeapFrom, NoneEarly;
  }

  lemma DeadlineNow(bases: seq<int>, heaps: seq<multiset<Item>>, start: multiset<Item>, held: multiset<Item>,
                    events: seq<Event>, ran: seq<seq<Item>>, more: seq<Item>, i: nat)
    requires |ran| == i < |events| && |bases| == |heaps| == i + 2
    requires held + multiset(Concat(ran)) == start + multiset(Asked(events[..i], ran))
    requires events[i].Tick? && bases[i] < events[i].current ==>
      AllRan(bases[i], held, more) && RingRan(bases[i + 1], heaps[i], held, more)
    ensures DeadlineMet(bases, heaps, start, events, ran + [more], i)
  {
    var after, expected := ran + [more], start + multiset(Asked(events[..i], ran));
    assert after[..i] == ran && after[..i + 1] == after;
    AskedMore(events, ran, more, i);
    hide Concat, Asked;
    if events[i].Tick? && bases[i] < events[i].current {
      forall x: Item | held[x] <= multiset(more)[x] ensures expected[x] <= multiset(Concat(ran) + more)[x] {
        CountsAdd(held, Concat(ran), more, expected, x);
      }
    }
  }

  lemma CountsAdd(held: multiset<Item>, ran: seq<Item>, more: seq<Item>, expected: multiset<Item>, x: Item)
    requires held + multiset(ran) == expected && held[x] <= multiset(more)[x]
    ensures expected[x] <= multiset(ran + more)[x]
  {
    assert multiset(ran + more) == multiset(ran) + multiset(more);
    assert (held + multiset(ran))[x] == held[x] + multiset(ran)[x];
  }

  lemma DeadlineStays(bases: seq<int>, heaps: seq<multiset<Item>>, start: multiset<Item>, events: seq<Event>,
                      ran: seq<seq<Item>>, base: int, heap: multiset<Item>, more: seq<Item>, j: nat)
    requires j < |ran| < |events| && |bases| == |heaps| == |ran| + 1
    requires DeadlineMet(bases, heaps, start, events, ran, j)
    ensures DeadlineMet(bases + [base], heaps + [heap], start, events, ran + [more], j)
  {
    hide AllRan, RingRan, Concat, Asked;
    assert (ran + [more])[..j] == ran[..j] && (ran + [more])[..j + 1] == ran[..j + 1];
  }

  lemma Nothing()
    ensures Concat<Item>([]) == [] && Asked([], []) == []
  {
  }

  lemma Balance<T>(start: multiset<T>, held: multiset<T>, now: multiset<T>,
                   ran: seq<T>, asked: seq<T>, moreRan: seq<T>, moreAsked: seq<T>)
    requires held + multiset(ran) == start + multiset(asked)
    requires now + multiset(moreRan) == held + multiset(moreAsked)
    ensures now + multiset(ran + moreRan) == start + multiset(asked + moreAsked)
  {
    assert multiset(ran + moreRan) == multiset(ran) + multiset(moreRan);
    assert multiset(asked + moreAsked) == multiset(asked) + multiset(moreAsked);
    assert now + (multiset(ran) + multiset(moreRan)) == (now + multiset(moreRan)) + multiset(ran);
    assert (held + multiset(moreAsked)) + multiset(ran) == (held + multiset(ran)) + multiset(moreAsked);
  }

  lemma AskedMore(events: seq<Event>, ran: seq<seq<Item>>, more: seq<Item>, i: nat)
    requires i < |events| && |ran| == i
    ensures Asked(events[..i + 1], ran + [more]) == Asked(events[..i], ran) + AskedBy(events[i], |more|)
    ensures Concat(ran + [more]) == Concat(ran) + more
  {
    assert events[..i + 1][..i] == events[..i] && (ran + [more])[..i] == ran;
    ConcatSplit(ran + [more], i);
    assert Concat([more]) == more + Concat<Item>([]) && (ran + [more])[i..] == [more];
  }

  lemma Reserved(t: Timer, item: Item)
    requires Ok(t) && NeverEarly(t)
    ensures NeverEarly(Wheel.Reserve(t, item)) && (Punctual(t) ==> Punctual(Wheel.Reserve(t, item)))
    ensures Held(Wheel.Reserve(t, item)) == Held(t) + multiset([item])
    ensures Wheel.Reserve(t, item).base == t.base
  {
    ReserveNeverEarly(t, item);
    if Punctual(t) { ReservePunctual(t, item); }
    HeldReserve(t, item);
  }

  lemma TickedDeadline(t: Timer, current: int, script: seq<seq<Item>>, f: Wheel.Flush, moved: seq<Item>, r: Timer)
    requires Ok(t) && t.base < current && Punctual(t) && Flushed(t, current, script, f, moved, r)
    ensures AllRan(t.base, Held(t), ItemsOf(f.fired)) && RingRan(r.base, t.heap, Held(t), ItemsOf(f.fired))
  {
    FlushedBase(t, current, script, f, moved, r);
    hide Punctual, Flushed, Held, ItemsOf;
    forall x: Item | x.target <= t.base || (x.target < r.base && x !in t.heap)
      ensures Held(t)[x] <= multiset(ItemsOf(f.fired))[x]
    {
      FlushMeetsDeadlines(t, current, script, f, moved, r, x);
    }
  }

  lemma FlushedBase(t: Timer, current: int, script: seq<seq<Item>>, f: Wheel.Flush, moved: seq<Item>, r: Timer)
    requires Ok(t) && t.base <= current && Flushed(t, current, script, f, moved, r)
    ensures Ok(r) && r.base == if current - t.base <= 1000 then current else t.base + 1000
  {
    if t.base < current { FlushedSlot(t, current, script, f, moved, r, 0); }
  }

  lemma Ticked(t: Timer, current: int, script: seq<seq<Item>>, f: Wheel.Flush, moved: seq<Item>, r: Timer)
    requires Ok(t) && t.base <= current && NeverEarly(t) && Flushed(t, current, script, f, moved, r)
    ensures Ok(r) && NeverEarly(r) && forall x :: x in ItemsOf(f.fired) ==> x.target < current
    ensures HeapFrom(t.base, t.heap, Tick(current, script), |f.fired|, r.heap)
    ensures Held(r) + multiset(ItemsOf(f.fired)) == Held(t) + multiset(AskedInFlush(script, |f.fired|))
    ensures Punctual(t) && Forward(Tick(current, script)) ==> Punctual(r)
  {
    FlushNeverEarly(t, current, script, f, moved, r);
    FlushedBase(t, current, script, f, moved, r);
    FlushConserves(t, current, script, f, moved, r);
    FlushHeap(t, current, script, f, moved, r);
    FlushAsks(t, current, script, f, moved, r);
    hide Held, Flushed, NeverEarly;
    if Forward(Tick(current, script)) { TickedForward(t, current, script, f, moved, r); }
  }

  lemma TickedForward(t: Timer, current: int, script: seq<seq<Item>>, f: Wheel.Flush, moved: seq<Item>, r: Timer)
    requires Ok(t) && t.base <= current && Flushed(t, current, script, f, moved, r)
    requires Forward(Tick(current, script))
    ensures Ok(r) && (Punctual(t) ==> Punctual(r))
  {
    FlushFollowsScript(t, current, script, f, moved, r);
    if t.base < current {
      FlushRunsWhatWaited(t, current, script, f, moved, r);
    }
  }

  lemma DrainStep(f: Wheel.Flush, n: nat)
    requires Ok(f.t) && f.at < n < SLOTS
    ensures Drain(f, n) == Drain(Step(f), n)
  {
  }

  lemma DrainNothing(f: Wheel.Flush)
    requires Ok(f.t) && f.at < SLOTS
    ensures Drain(f, f.at) == f
  {
  }

  lemma StepMoves(f: Wheel.Flush)
    requires Ok(f.t) && f.todo == [] && Slot(f.t, f.at) == []
    ensures Step(f) == f.(at := f.at + 1)
  {
  }

  lemma FlushedNothing(t: Timer, script: seq<seq<Item>>)
    requires Ok(t)
    ensures Flushed(t, t.base, script, Begin(t, script), [], t)
  {
  }

  lemma FlushedIf(t: Timer, current: int, script: seq<seq<Item>>, f: Wheel.Flush, moved: seq<Item>, r: Timer)
    requires Ok(t) && t.base < current && f == Drain(Begin(t, script), FlushCount(t, current))
    requires Hotloaded(Turned(f.t, FlushCount(t, current)), moved, r)
    ensures Flushed(t, current, script, f, moved, r)
  {
  }

  lemma StepReserves(f: Wheel.Flush)
    requires Ok(f.t) && f.todo != []
    ensures var r := Step(f);
      && r.t == Wheel.Reserve(f.t, f.todo[0]) && r.todo == f.todo[1..]
      && r.at == f.at && r.script == f.script && r.fired == f.fired
  {
  }

  lemma ReservedAs(t: Timer, item: Item, r: Timer)
    requires Ok(t)
    requires var d := Max(0, item.target - t.base); var i := RingIndex(d, t.index);
      r == if d >= SLOTS then t.(heap := t.heap + multiset{item}) else t.(wheel := t.wheel[i := t.wheel[i] + [item]])
    ensures r == Wheel.Reserve(t, item) && Placed(t, item, r)
  {
    ReservePlaced(t, item);
  }

  /** The next callback of slot i, at which the flush is. */
  lemma StepFires(f: Wheel.Flush, i: nat)
    requires Ok(f.t) && f.todo == [] && i == (f.at + f.t.index) % SLOTS && f.t.wheel[i] != []
    ensures var s := f.t.wheel[i];
      && Step(f).t == f.t.(wheel := f.t.wheel[i := s[1..]]) && Step(f).at == f.at
      && ItemsOf(Step(f).fired) == ItemsOf(f.fired) + [s[0]]
      && Step(f).todo == (if f.script == [] then [] else f.script[0])
      && Step(f).script == (if f.script == [] then [] else f.script[1..])
  {
  }

  function AppendAt(ring: seq<seq<Item>>, i: nat, more: seq<Item>): seq<seq<Item>>
    requires i < |ring|
  {
    ring[i := ring[i] + more]
  }

  lemma AppendNothing(ring: seq<seq<Item>>, i: nat)
    requires i < |ring|
    ensures AppendAt(ring, i, []) == ring
  {
    assert ring[i] + [] == ring[i];
  }

  lemma AppendMore(ring: seq<seq<Item>>, i: nat, moved: seq<Item>, item: Item)
    requires i < |ring|
    ensures |AppendAt(ring, i, moved)| == |ring|
    ensures AppendAt(AppendAt(ring, i, moved), i, [item]) == AppendAt(ring, i, moved + [item])
  {
    Appended(ring[i], moved, [item]);
  }

  lemma HotloadedIf(t: Timer, moved: seq<Item>, r: Timer)
    requires Ok(t) && r == t.(wheel := AppendAt(t.wheel, t.index, moved), heap := r.heap)
    requires multiset(moved) + r.heap == t.heap && Loaded(t.base, moved, r.heap)
    requires forall x :: x in r.heap ==> x.target > t.base
    ensures Hotloaded(t, moved, r)
  {
  }

  /** What has left the heap was due, came out in order, and was not later than what is in it. */
  predicate Loaded(base: int, moved: seq<Item>, heap: multiset<Item>) {
    && (forall i :: 0 <= i < |moved| ==> moved[i].target <= base)
    && (forall i, j :: 0 <= i <= j < |moved| ==> moved[i].target <= moved[j].target)
    && (forall i, x :: 0 <= i < |moved| && x in heap ==> moved[i].target <= x.target)
  }

  lemma LoadedNothing(base: int, heap: multiset<Item>)
    ensures Loaded(base, [], heap) && multiset([]) + heap == heap
  {
  }

  lemma LoadStep(base: int, moved: seq<Item>, heap: multiset<Item>, item: Item)
    requires Loaded(base, moved, heap) && item in heap && item.target <= base
    requires forall x :: x in heap ==> item.target <= x.target
    ensures Loaded(base, moved + [item], heap - multiset{item})
    ensures multiset(moved + [item]) + (heap - multiset{item}) == multiset(moved) + heap
  {
    assert forall x :: x in heap - multiset{item} ==> x in heap;
  }

  /** A heap that is not empty has a top. */
  lemma {:induction false} Earliest(heap: multiset<Item>)
    requires heap != multiset{}
    ensures exists item :: item in heap && forall x :: x in heap ==> item.target <= x.target
  {
    var y :| y in heap;
    var rest := heap - multiset{y};
    if rest == multiset{} {
      assert forall x :: x in heap && x != y ==> x in rest;
    } else {
      Earliest(rest);
      var z :| z in rest && forall x :: x in rest ==> z.target <= x.target;
      var item := if y.target < z.target then y else z;
      forall x | x in heap ensures item.target <= x.target {
        if x != y { assert x in rest; }
      }
    }
  }
}
