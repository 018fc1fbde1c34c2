/** The unbounded single-producer/single-consumer list of Source/Core/Container/SPSC.h, whose producer
    recycles the nodes the consumer has passed.

    One producer and one consumer are interleaved at the grain of one access to shared memory.  Nodes are
    allocated at any unused address and are never freed while the queue lives. */
module Spsc {
  import opened Common

  type Addr = nat

  /** The storage of a node: no object, a constructed object, or an object whose value was moved out. */
  datatype Cell<T> = Raw | Live(value: T) | MovedFrom

  datatype Node<T> = Node(next: Option<Addr>, cell: Cell<T>)

  datatype EnqueuePc<T> =
    | Ready
    | CheckCache(v: T)               // first_ != tail_copy_ ?
    | ReloadTail(v: T)               // tail_copy_ = tail_.load(), then the same question again
    | TakeCached(v: T)               // first_ = first_->next_
    | ClearNext(v: T, node: Addr)    // node->next_ = nullptr
    | NewNode(v: T)
    | Construct(v: T, node: Addr)
    | LinkHead(v: T, node: Addr)     // head_->next_ = node
    | MoveHead(node: Addr)           // head_ = node

  datatype DequeuePc<T> =
    | Idle
    | LoadTail
    | LoadNext(tail: Addr)
    | MoveOut(next: Addr)
    | Destruct(next: Addr, out: Option<T>)
    | StoreTail(next: Addr, out: Option<T>)

  /** `enqueued` and `dequeued` are history: the arguments of the Enqueue calls so far, and the values
      returned by Dequeue, in order. */
  datatype State<T> = State(
    mem: map<Addr, Node<T>>,
    tail: Addr,
    head: Addr,
    first: Addr,
    tailCopy: Addr,
    producer: EnqueuePc<T>,
    consumer: DequeuePc<T>,
    enqueued: seq<T>,
    dequeued: seq<Option<T>>)

  datatype Action<T> =
    | Enqueue(v: T)       // the producer calls Enqueue
    | Produce(at: Addr)   // one step of the producer; `at` is what `new` returns, if it is called
    | Dequeue             // the consumer calls Dequeue
    | Consume             // one step of the consumer

  // ---------- the code ----------

  function Init<T>(stub: Addr): State<T> {
    State(map[stub := Node(None, Raw)], stub, stub, stub, stub, Ready, Idle, [], [])
  }

  predicate Possible<T>(s: State<T>, a: Action<T>) {
    match a
    case Enqueue(v) => s.producer.Ready?
    case Produce(at) => !s.producer.Ready? && (s.producer.NewNode? ==> at !in s.mem)
    case Dequeue => s.consumer.Idle?
    case Consume => !s.consumer.Idle?
  }

  /** The step dereferences allocated nodes, constructs in raw storage only, moves out of live objects only
      and destroys only what it has moved from. */
  predicate Safe<T>(s: State<T>, a: Action<T>) {
    match a
    case Produce(at) =>
      (match s.producer
       case TakeCached(v) => s.first in s.mem && s.mem[s.first].next.Some?
       case ClearNext(v, node) => node in s.mem
       case Construct(v, node) => node in s.mem && s.mem[node].cell.Raw?
       case LinkHead(v, node) => s.head in s.mem
       case _ => true)
    case Consume =>
      (match s.consumer
       case LoadNext(tail) => tail in s.mem
       case MoveOut(next) => next in s.mem && s.mem[next].cell.Live?
       case Destruct(next, out) => next in s.mem && s.mem[next].cell.MovedFrom?
       case _ => true)
    case _ => true
  }

  function SetNext<T>(s: State<T>, a: Addr, next: Option<Addr>): State<T>
    requires a in s.mem
  {
    s.(mem := s.mem[a := s.mem[a].(next := next)])
  }

  function SetCell<T>(s: State<T>, a: Addr, cell: Cell<T>): State<T>
    requires a in s.mem
  {
    s.(mem := s.mem[a := s.mem[a].(cell := cell)])
  }

  function ProducerStep<T>(s: State<T>, at: Addr): State<T>
    requires Possible(s, Produce(at)) && Safe(s, Produce(at))
  {
    match s.producer
    case CheckCache(v) => s.(producer := if s.first != s.tailCopy then TakeCached(v) else ReloadTail(v))
    case ReloadTail(v) => s.(tailCopy := s.tail, producer := if s.first != s.tail then TakeCached(v) else NewNode(v))
    case TakeCached(v) => s.(first := s.mem[s.first].next.value, producer := ClearNext(v, s.first))
    case ClearNext(v, node) => SetNext(s, node, None).(producer := Construct(v, node))
    case NewNode(v) => s.(mem := s.mem[at := Node(None, Raw)], producer := Construct(v, at))
    case Construct(v, node) => SetCell(s, node, Live(v)).(producer := LinkHead(v, node))
    case LinkHead(v, node) => SetNext(s, s.head, Some(node)).(producer := MoveHead(node))
    case MoveHead(node) => s.(head := node, producer := Ready)
  }

  function ConsumerStep<T>(s: State<T>): State<T>
    requires Possible(s, Consume) && Safe(s, Consume)
  {
    match s.consumer
    case LoadTail => s.(consumer := LoadNext(s.tail))
    case LoadNext(tail) =>
      s.(consumer := if s.mem[tail].next.None? then Idle else MoveOut(s.mem[tail].next.value))
    case MoveOut(next) => SetCell(s, next, MovedFrom).(consumer := Destruct(next, Some(s.mem[next].cell.value)))
    case Destruct(next, out) => SetCell(s, next, Raw).(consumer := StoreTail(next, out))
    case StoreTail(next, out) => s.(tail := next, consumer := Idle, dequeued := s.dequeued + [out])
  }

  /** An action that is not possible does nothing; an unsafe one has no meaning, and EveryStepSafe shows that
      it does not occur. */
  function Apply<T>(s: State<T>, a: Action<T>): State<T> {
    if !Possible(s, a) || !Safe(s, a) then s else
    match a
    case Enqueue(v) => s.(producer := CheckCache(v), enqueued := s.enqueued + [v])
    case Produce(at) => ProducerStep(s, at)
    case Dequeue => s.(consumer := LoadTail)
    case Consume => ConsumerStep(s)
  }

  function Exec<T>(stub: Addr, acts: seq<Action<T>>): State<T> {
    if acts == [] then Init(stub) else Apply(Exec(stub, acts[..|acts| - 1]), acts[|acts| - 1])
  }

  // ---------- the invariant ----------

  /** All linked nodes from `first_` on, and the positions of `tail_copy_` and `tail_` among them. */
  datatype View = View(chain: seq<Addr>, copy: nat, tail: nat)

  ghost predicate Shaped<T>(s: State<T>, w: View) {
    && w.copy <= w.tail < |w.chain| && Distinct(w.chain)
    && w.chain[0] == s.first && w.chain[w.copy] == s.tailCopy && w.chain[w.tail] == s.tail
    && |w.chain| - 1 - w.tail == Linked(s) - |s.dequeued|
  }

  /** How many Enqueue calls have linked their node. */
  ghost function Linked<T>(s: State<T>): int {
    |s.enqueued| - (if s.producer.Ready? || s.producer.MoveHead? then 0 else 1)
  }

  /** Position k is linked to the next, and holds a value exactly if it is behind the tail. */
  ghost predicate NodeOk<T>(s: State<T>, w: View, k: nat)
    requires Shaped(s, w) && k < |w.chain|
  {
    && w.chain[k] in s.mem
    && s.mem[w.chain[k]].next == (if k + 1 < |w.chain| then Some(w.chain[k + 1]) else None)
    && s.mem[w.chain[k]].cell ==
         if k <= w.tail then Raw
         else if k == w.tail + 1 && s.consumer.Destruct? then MovedFrom
         else if k == w.tail + 1 && s.consumer.StoreTail? then Raw
         else Live(s.enqueued[|s.dequeued| + k - w.tail - 1])
  }

  /** The node the producer holds outside the chain, if any. */
  ghost function Held<T>(s: State<T>): Option<Addr> {
    match s.producer
    case ClearNext(v, node) => Some(node)
    case Construct(v, node) => Some(node)
    case LinkHead(v, node) => Some(node)
    case _ => None
  }

  ghost predicate ProducerOk<T>(s: State<T>, w: View)
    requires Shaped(s, w)
  {
    var last := w.chain[|w.chain| - 1];
    && (if s.producer.MoveHead?
        then |w.chain| > 1 && s.head == w.chain[|w.chain| - 2] && s.producer.node == last
        else s.head == last)
    && (s.producer.TakeCached? ==> w.copy > 0)
    && (Held(s).Some? ==>
          var node := Held(s).value;
          && node in s.mem && node !in w.chain
          && (!s.producer.ClearNext? ==> s.mem[node].next == None)
          && s.mem[node].cell == if s.producer.LinkHead? then Live(s.producer.v) else Raw)
    && (Linked(s) < |s.enqueued| ==> s.enqueued[|s.enqueued| - 1] == s.producer.v)
  }

  ghost predicate ConsumerOk<T>(s: State<T>, w: View)
    requires Shaped(s, w)
  {
    match s.consumer
    case LoadNext(tail) => tail == s.tail
    case MoveOut(next) => w.tail + 1 < |w.chain| && next == w.chain[w.tail + 1]
    case Destruct(next, out) =>
      w.tail + 1 < |w.chain| && next == w.chain[w.tail + 1] && out == Some(s.enqueued[|s.dequeued|])
    case StoreTail(next, out) =>
      w.tail + 1 < |w.chain| && next == w.chain[w.tail + 1] && out == Some(s.enqueued[|s.dequeued|])
    case _ => true
  }

  ghost predicate Inv<T>(s: State<T>, w: View) {
    && Shaped(s, w) && ProducerOk(s, w) && ConsumerOk(s, w)
    && (forall k :: 0 <= k < |w.chain| ==> NodeOk(s, w, k))
    && (forall a :: a in s.mem ==> a in w.chain || Held(s) == Some(a))
    && |s.dequeued| <= |s.enqueued|
    && (forall i :: 0 <= i < |s.dequeued| ==> s.dequeued[i] == Some(s.enqueued[i]))
  }

  // ---------- every step keeps the invariant ----------

  lemma InitInv<T>(stub: Addr) returns (w: View)
    ensures Inv(Init<T>(stub), w)
  {
    w := View([stub], 0, 0);
  }

  lemma InvSafe<T>(s: State<T>, w: View, a: Action<T>)
    requires Inv(s, w)
    ensures Safe(s, a)
  {
    assert NodeOk(s, w, 0) && NodeOk(s, w, w.tail) && NodeOk(s, w, |w.chain| - 1);
    if s.producer.MoveHead? { assert NodeOk(s, w, |w.chain| - 2); }
    if w.tail + 1 < |w.chain| { assert NodeOk(s, w, w.tail + 1); }
  }

  lemma EnqueueInv<T>(s: State<T>, w: View, v: T)
    requires Inv(s, w) && Possible(s, Enqueue(v))
    ensures Inv(Apply(s, Enqueue(v)), w)
  {
    var s' := Apply(s, Enqueue(v));
    forall k | 0 <= k < |w.chain| ensures NodeOk(s', w, k) { assert NodeOk(s, w, k); }
  }

  /** The view after a step of the producer: the cache shrinks at the front, the chain grows at the end. */
  ghost function AfterProduce<T>(s: State<T>, w: View): View
    requires Shaped(s, w)
  {
    match s.producer
    case ReloadTail(v) => w.(copy := w.tail)
    case TakeCached(v) => if w.copy > 0 then View(w.chain[1..], w.copy - 1, w.tail - 1) else w
    case LinkHead(v, node) => w.(chain := w.chain + [node])
    case _ => w
  }

  lemma LocalInv<T>(s: State<T>, w: View, at: Addr)
    requires Inv(s, w) && Possible(s, Produce(at))
    requires s.producer.CheckCache? || s.producer.ReloadTail? || s.producer.MoveHead?
    ensures Inv(ProducerStep(s, at), AfterProduce(s, w))
  {
    var s', w' := ProducerStep(s, at), AfterProduce(s, w);
    forall k | 0 <= k < |w.chain| ensures NodeOk(s', w', k) { assert NodeOk(s, w, k); }
  }

  /** The recycled node is the first of at least one passed node, so it leaves the chain in front of the tail. */
  lemma TakeCachedInv<T>(s: State<T>, w: View, at: Addr)
    requires Inv(s, w) && Possible(s, Produce(at)) && Safe(s, Produce(at)) && s.producer.TakeCached?
    ensures Inv(ProducerStep(s, at), AfterProduce(s, w))
  {
    var s', w' := ProducerStep(s, at), AfterProduce(s, w);
    assert NodeOk(s, w, 0) && s.first !in w'.chain;
    forall k | 0 <= k < |w'.chain| ensures NodeOk(s', w', k) { assert NodeOk(s, w, k + 1); }
  }

  /** Work on the held node is invisible to the chain. */
  lemma HeldNodeInv<T>(s: State<T>, w: View, at: Addr)
    requires Inv(s, w) && Possible(s, Produce(at)) && Safe(s, Produce(at))
    requires s.producer.ClearNext? || s.producer.Construct?
    ensures Inv(ProducerStep(s, at), w)
  {
    var s' := ProducerStep(s, at);
    forall k | 0 <= k < |w.chain| ensures NodeOk(s', w, k) { assert NodeOk(s, w, k); }
  }

  lemma NewNodeInv<T>(s: State<T>, w: View, at: Addr)
    requires Inv(s, w) && Possible(s, Produce(at)) && s.producer.NewNode?
    ensures Inv(ProducerStep(s, at), w)
  {
    var s' := ProducerStep(s, at);
    forall k | 0 <= k < |w.chain| ensures w.chain[k] != at { assert NodeOk(s, w, k); }
    forall k | 0 <= k < |w.chain| ensures NodeOk(s', w, k) { assert NodeOk(s, w, k); }
  }

  lemma LinkHeadInv<T>(s: State<T>, w: View, at: Addr)
    requires Inv(s, w) && Possible(s, Produce(at)) && Safe(s, Produce(at)) && s.producer.LinkHead?
    ensures Inv(ProducerStep(s, at), AfterProduce(s, w))
  {
    var s', w' := ProducerStep(s, at), AfterProduce(s, w);
    forall k | 0 <= k < |w'.chain| ensures NodeOk(s', w', k) {
      if k < |w.chain| { assert NodeOk(s, w, k); }
    }
  }

  lemma ProduceInv<T>(s: State<T>, w: View, at: Addr)
    requires Inv(s, w) && Possible(s, Produce(at)) && Safe(s, Produce(at))
    ensures Inv(ProducerStep(s, at), AfterProduce(s, w))
  {
    match s.producer
    case TakeCached(v) => TakeCachedInv(s, w, at);
    case LinkHead(v, node) => LinkHeadInv(s, w, at);
    case CheckCache(v) => LocalInv(s, w, at);
    case ReloadTail(v) => LocalInv(s, w, at);
    case MoveHead(node) => LocalInv(s, w, at);
    case NewNode(v) => NewNodeInv(s, w, at);
    case _ => HeldNodeInv(s, w, at);
  }

  lemma StoreTailInv<T>(s: State<T>, w: View)
    requires Inv(s, w) && s.consumer.StoreTail?
    ensures Inv(ConsumerStep(s), w.(tail := w.tail + 1))
  {
    var s', w' := ConsumerStep(s), w.(tail := w.tail + 1);
    forall k | 0 <= k < |w.chain| ensures NodeOk(s', w', k) { assert NodeOk(s, w, k); }
  }

  lemma LookInv<T>(s: State<T>, w: View)
    requires Inv(s, w) && Safe(s, Consume) && (s.consumer.LoadTail? || s.consumer.LoadNext?)
    ensures Inv(ConsumerStep(s), w)
  {
    var s' := ConsumerStep(s);
    assert NodeOk(s, w, w.tail);
    forall k | 0 <= k < |w.chain| ensures NodeOk(s', w, k) { assert NodeOk(s, w, k); }
  }

  lemma EmptyNodeInv<T>(s: State<T>, w: View)
    requires Inv(s, w) && Safe(s, Consume) && (s.consumer.MoveOut? || s.consumer.Destruct?)
    ensures Inv(ConsumerStep(s), w)
  {
    var s' := ConsumerStep(s);
    assert NodeOk(s, w, w.tail + 1);
    forall k | 0 <= k < |w.chain| ensures NodeOk(s', w, k) { assert NodeOk(s, w, k); }
  }

  lemma ApplyInv<T>(s: State<T>, w: View, a: Action<T>) returns (w': View)
    requires Inv(s, w)
    ensures Inv(Apply(s, a), w')
  {
    w' := w;
    if Possible(s, a) {
      InvSafe(s, w, a);
      match a {
        case Enqueue(v) => EnqueueInv(s, w, v);
        case Produce(at) =>
          ProduceInv(s, w, at);
          w' := AfterProduce(s, w);
        case Dequeue =>
          forall k | 0 <= k < |w.chain| ensures NodeOk(Apply(s, a), w, k) { assert NodeOk(s, w, k); }
        case Consume =>
          if s.consumer.StoreTail? {
            StoreTailInv(s, w);
            w' := w.(tail := w.tail + 1);
          } else if s.consumer.LoadTail? || s.consumer.LoadNext? {
            LookInv(s, w);
          } else {
            EmptyNodeInv(s, w);
          }
      }
    }
  }

  // ---------- theorems about every run ----------

  lemma {:induction false} Reachable<T>(stub: Addr, acts: seq<Action<T>>) returns (w: View)
    ensures Inv(Exec(stub, acts), w)
  {
    if acts == [] {
      w := InitInv<T>(stub);
    } else {
      w := Reachable(stub, acts[..|acts| - 1]);
      w := ApplyInv(Exec(stub, acts[..|acts| - 1]), w, acts[|acts| - 1]);
    }
  }

  /** Every step touches allocated nodes only; values are constructed in raw storage, moved out once while
      alive, and destroyed once after that. */
  lemma EveryStepSafe<T>(stub: Addr, acts: seq<Action<T>>, a: Action<T>)
    ensures Safe(Exec(stub, acts), a)
  {
    var w := Reachable(stub, acts);
    InvSafe(Exec(stub, acts), w, a);
  }

  /** The values dequeued are a prefix of the values enqueued. */
  lemma DequeuedIsPrefix<T>(stub: Addr, acts: seq<Action<T>>, i: nat)
    requires i < |Exec(stub, acts).dequeued|
    ensures var s := Exec(stub, acts); i < |s.enqueued| && s.dequeued[i] == Some(s.enqueued[i])
  {
    var w := Reachable(stub, acts);
  }

  /** first_, tail_copy_, tail_ and head_ lie in this order on one chain without repetition.  Behind the tail
      are the values not yet dequeued; while MoveHead is pending the chain already ends one node past head_. */
  lemma OneChain<T>(stub: Addr, acts: seq<Action<T>>) returns (w: View)
    ensures var s := Exec(stub, acts);
      && Shaped(s, w)
      && w.chain[if s.producer.MoveHead? && |w.chain| > 1 then |w.chain| - 2 else |w.chain| - 1] == s.head
      && (forall k :: 0 <= k < |w.chain| ==> NodeOk(s, w, k))
      && (forall a :: a in s.mem ==> a in w.chain || Held(s) == Some(a))
  {
    w := Reachable(stub, acts);
  }

  /** A node about to be recycled, or held for recycling, is none of the nodes the consumer may touch: not
      its tail, not the node it is emptying, not the head, and it holds no value. */
  lemma RecycledNodeIsFree<T>(stub: Addr, acts: seq<Action<T>>)
    requires var s := Exec(stub, acts); s.producer.TakeCached? || s.producer.ClearNext?
    ensures var s := Exec(stub, acts);
      var node := if s.producer.TakeCached? then s.first else s.producer.node;
      && node in s.mem && s.mem[node].cell == Raw
      && node != s.tail && node != s.head
      && (s.consumer.LoadNext? ==> node != s.consumer.tail)
      && (s.consumer.MoveOut? || s.consumer.Destruct? || s.consumer.StoreTail? ==> node != s.consumer.next)
  {
    var s := Exec(stub, acts);
    var w := Reachable(stub, acts);
    assert NodeOk(s, w, 0);
  }

  /** Dequeue returns without a value only from its load of the next pointer, and only if at that load every
      value whose Enqueue had linked its node was dequeued. */
  lemma DequeueFailsOnlyWhenEmpty<T>(stub: Addr, acts: seq<Action<T>>)
    requires var s, s' := Exec(stub, acts), Exec(stub, acts + [Consume]);
      !s.consumer.Idle? && s'.consumer.Idle? && s'.dequeued == s.dequeued
    ensures var s := Exec(stub, acts);
      && s.consumer.LoadNext?
      && |s.dequeued| == |s.enqueued| - (if s.producer.Ready? || s.producer.MoveHead? then 0 else 1)
  {
    var s := Exec(stub, acts);
    var w := Reachable(stub, acts);
    ExecStep(stub, acts, Consume);
    InvSafe(s, w, Consume);
    assert NodeOk(s, w, w.tail);
  }

  lemma ExecStep<T>(stub: Addr, acts: seq<Action<T>>, a: Action<T>)
    ensures Exec(stub, acts + [a]) == Apply(Exec(stub, acts), a)
  {
    assert (acts + [a])[..|acts|] == acts;
  }

  function Consumes<T>(acts: seq<Action<T>>): nat {
    if acts == [] then 0 else Consumes(acts[..|acts| - 1]) + if acts[|acts| - 1].Consume? then 1 else 0
  }

  /** The consumer has loaded a next node and has not returned its value yet. */
  ghost predicate Taking<T>(s: State<T>, n: nat, dequeued: seq<Option<T>>) {
    && s.dequeued == dequeued
    && match s.consumer
       case MoveOut(next) => n == 1
       case Destruct(next, out) => n == 2
       case StoreTail(next, out) => n == 3
       case _ => false
  }

  lemma StepTakes<T>(s: State<T>, w: View, a: Action<T>, n: nat, dequeued: seq<Option<T>>)
    requires Inv(s, w) && Taking(s, n, dequeued)
    ensures !a.Consume? ==> Taking(Apply(s, a), n, dequeued)
    ensures a.Consume? && n < 3 ==> Taking(Apply(s, a), n + 1, dequeued)
  {
    InvSafe(s, w, a);
  }

  lemma {:induction false} TakesNext<T>(stub: Addr, acts: seq<Action<T>>, more: seq<Action<T>>)
    requires var s := Exec(stub, acts); s.consumer.LoadNext? && |s.dequeued| < Linked(s)
    requires |more| > 0 && more[0].Consume? && Consumes(more) <= 3
    ensures Taking(Exec(stub, acts + more), Consumes(more), Exec(stub, acts).dequeued)
  {
    var n := |more| - 1;
    assert acts + more == acts + more[..n] + [more[n]];
    ExecStep(stub, acts + more[..n], more[n]);
    if n == 0 {
      var s := Exec(stub, acts);
      var w := Reachable(stub, acts);
      InvSafe(s, w, Consume);
      assert NodeOk(s, w, w.tail) && acts + more[..0] == acts;
    } else {
      TakesNext(stub, acts, more[..n]);
      var w := Reachable(stub, acts + more[..n]);
      StepTakes(Exec(stub, acts + more[..n]), w, more[n], Consumes(more[..n]), Exec(stub, acts).dequeued);
    }
  }

  /** If a value is linked when Dequeue loads the next pointer, the call returns the first value not yet
      dequeued, whatever the producer does meanwhile: the load is the first of its last four steps. */
  lemma DequeueTakesTheNext<T>(stub: Addr, acts: seq<Action<T>>, more: seq<Action<T>>)
    requires var s := Exec(stub, acts);
      && s.consumer.LoadNext?
      && |s.dequeued| < |s.enqueued| - (if s.producer.Ready? || s.producer.MoveHead? then 0 else 1)
    requires |more| > 0 && more[0].Consume? && Consumes(more) == 3
    ensures var s, s' := Exec(stub, acts), Exec(stub, acts + more + [Consume]);
      s'.consumer.Idle? && s'.dequeued == s.dequeued + [Some(s.enqueued[|s.dequeued|])]
  {
    var s, s1 := Exec(stub, acts), Exec(stub, acts + more);
    TakesNext(stub, acts, more);
    var w := Reachable(stub, acts + more);
    InvSafe(s1, w, Consume);
    ExecStep(stub, acts + more, Consume);
    EnqueuedGrows(stub, acts, more);
  }

  lemma {:induction false} EnqueuedGrows<T>(stub: Addr, acts: seq<Action<T>>, more: seq<Action<T>>)
    ensures Exec(stub, acts).enqueued <= Exec(stub, acts + more).enqueued
  {
    if more == [] {
      assert acts + more == acts;
    } else {
      var n := |more| - 1;
      EnqueuedGrows(stub, acts, more[..n]);
      assert acts + more == acts + more[..n] + [more[n]];
      ExecStep(stub, acts + more[..n], more[n]);
    }
  }

  /** The arguments of the Enqueue calls of a run, in order; a call inside another one does not count. */
  function Arguments<T>(stub: Addr, acts: seq<Action<T>>): seq<T> {
    if acts == [] then [] else
    var before, a := acts[..|acts| - 1], acts[|acts| - 1];
    Arguments(stub, before) + if a.Enqueue? && Exec(stub, before).producer.Ready? then [a.v] else []
  }

  /** Nothing is enqueued but what the calls brought, and nothing they brought is left out. */
  lemma {:induction false} EnqueuedAreArguments<T>(stub: Addr, acts: seq<Action<T>>)
    ensures Exec(stub, acts).enqueued == Arguments(stub, acts)
  {
    if acts != [] {
      EnqueuedAreArguments(stub, acts[..|acts| - 1]);
    }
  }

  lemma AsksAfterReload<T>(s: State<T>, at: Addr)
    requires var s' := Apply(s, Produce(at)); !s.producer.NewNode? && s'.producer.NewNode?
    ensures s.producer.ReloadTail? && s.first == s.tail
  {
  }

  /** The node is the tail, or holds a value, or is the one the consumer is emptying. */
  predicate Serves<T>(s: State<T>, a: Addr)
    requires a in s.mem
  {
    || a == s.tail || s.mem[a].cell.Live?
    || ((s.consumer.Destruct? || s.consumer.StoreTail?) && s.consumer.next == a)
  }

  lemma AllServe<T>(s: State<T>, w: View, a: Addr)
    requires Inv(s, w) && s.producer.ReloadTail? && s.first == s.tail && a in s.mem
    ensures Serves(s, a)
  {
    assert w.tail == 0;
    var k :| 0 <= k < |w.chain| && w.chain[k] == a;
    assert NodeOk(s, w, k);
  }

  /** Enqueue asks for a new node only if every node there is serves. */
  lemma NewNodeOnlyIfNoneIsFree<T>(stub: Addr, acts: seq<Action<T>>, at: Addr, a: Addr)
    requires var s, s' := Exec(stub, acts), Exec(stub, acts + [Produce(at)]);
      !s.producer.NewNode? && s'.producer.NewNode? && a in s.mem
    ensures Serves(Exec(stub, acts), a)
  {
    var w := Reachable(stub, acts);
    ExecStep(stub, acts, Produce(at));
    hide Apply, Inv, Serves;
    AsksAfterReload(Exec(stub, acts), at);
    AllServe(Exec(stub, acts), w, a);
  }

  /** How many steps Enqueue and Dequeue have left at most. */
  function EnqueueLeft<T>(pc: EnqueuePc<T>): nat {
    match pc
    case Ready => 0
    case MoveHead(node) => 1
    case LinkHead(v, node) => 2
    case Construct(v, node) => 3
    case NewNode(v) => 4
    case ClearNext(v, node) => 4
    case TakeCached(v) => 5
    case ReloadTail(v) => 6
    case CheckCache(v) => 7
  }

  function DequeueLeft<T>(pc: DequeuePc<T>): nat {
    match pc
    case Idle => 0
    case StoreTail(next, out) => 1
    case Destruct(next, out) => 2
    case MoveOut(next) => 3
    case LoadNext(tail) => 4
    case LoadTail => 5
  }

  /** Neither call ever waits for the other thread: every step of a call brings its own return nearer. */
  lemma CallsEnd<T>(stub: Addr, acts: seq<Action<T>>, a: Action<T>)
    requires var s := Exec(stub, acts);
      && (a.Enqueue? ==> s.producer.Ready?) && (a.Produce? ==> !s.producer.Ready? && a.at !in s.mem)
      && (a.Dequeue? ==> s.consumer.Idle?) && (a.Consume? ==> !s.consumer.Idle?)
    ensures var s, s' := Exec(stub, acts), Exec(stub, acts + [a]);
      && (a.Produce? ==> EnqueueLeft(s'.producer) < EnqueueLeft(s.producer))
      && (a.Consume? ==> DequeueLeft(s'.consumer) < DequeueLeft(s.consumer))
      && (a.Produce? || a.Enqueue? ==> s'.consumer == s.consumer)
      && (a.Consume? || a.Dequeue? ==> s'.producer == s.producer)
      && (a.Enqueue? ==> EnqueueLeft(s'.producer) == 7)
      && (a.Dequeue? ==> DequeueLeft(s'.consumer) == 5)
  {
    EveryStepSafe(stub, acts, a);
    ExecStep(stub, acts, a);
  }
}
