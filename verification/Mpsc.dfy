/** The unbounded multi-producer/single-consumer list of Source/Core/Container/MPSC.h.

    Any number of producers and one consumer are interleaved at the grain of one atomic operation or one
    access to a node.  Nodes live in a memory that grows by `new` and shrinks by `delete`; an allocation may
    return any address that is not in use, including one freed before. */
module Mpsc {
  import opened Common

  type Addr = nat
  type Tid = nat

  /** `data` is None in the initial node and once the value has been moved out. */
  datatype Node<T> = Node(data: Option<T>, next: Option<Addr>)

  datatype PushPc<T> =
    | Alloc(v: T)
    | Exchange(v: T, node: Addr)      // about to exchange the head
    | Link(prev: Addr, node: Addr)    // has exchanged; about to store prev->next

  datatype PopPc<T> =
    | Idle
    | LoadTail
    | LoadNext(tail: Addr)
    | Move(tail: Addr, next: Addr)
    | StoreTail(tail: Addr, next: Addr, out: Option<T>)
    | CountDown(tail: Addr, out: Option<T>)
    | Delete(tail: Addr, out: Option<T>)

  /** A value and the thread that pushes it. */
  datatype Sent<T> = Sent(sender: Tid, value: T)

  /** `exchanged` and `popped` are history: the pushes in the order of their exchanges on the head, and the
      values TryPop has returned. `count` is the node counter, which wraps like a size_t. */
  datatype State<T> = State(
    mem: map<Addr, Node<T>>,
    head: Addr,
    tail: Addr,
    count: nat,
    producers: map<Tid, PushPc<T>>,
    consumer: PopPc<T>,
    exchanged: seq<Sent<T>>,
    popped: seq<Option<T>>)

  const WORD := 0x1_0000_0000_0000_0000

  datatype Action<T> =
    | BeginPush(p: Tid, v: T)
    | Produce(p: Tid, at: Addr)   // one step of producer p; `at` is what `new` returns, if it is called
    | BeginPop
    | Consume                        // one step of the consumer
    | Increase(n: nat)               // IncreaseNodeCount
    | Decrease(n: nat)               // DecreaseNodeCount

  // ---------- the code ----------

  function Init<T>(stub: Addr): State<T> {
    State(map[stub := Node(None, None)], stub, stub, 0, map[], Idle, [], [])
  }

  /** The address a step of a thread dereferences. */
  function Touches<T>(s: State<T>, a: Action<T>): Option<Addr> {
    match a
    case Produce(p, at) =>
      if p in s.producers && s.producers[p].Link? then Some(s.producers[p].prev) else None
    case Consume =>
      (match s.consumer
       case LoadNext(tail) => Some(tail)
       case Move(tail, next) => Some(next)
       case Delete(tail, out) => Some(tail)
       case _ => None)
    case _ => None
  }

  /** An action is possible unless it starts inside an operation, steps outside one, or allocates memory in use. */
  predicate Possible<T>(s: State<T>, a: Action<T>) {
    match a
    case BeginPush(p, v) => p !in s.producers
    case Produce(p, at) => p in s.producers && (s.producers[p].Alloc? ==> at !in s.mem)
    case BeginPop => s.consumer.Idle?
    case Consume => !s.consumer.Idle?
    case _ => true
  }

  /** The action touches allocated nodes only. */
  predicate Safe<T>(s: State<T>, a: Action<T>) {
    Touches(s, a).Some? ==> Touches(s, a).value in s.mem
  }

  function ProducerStep<T>(s: State<T>, p: Tid, at: Addr): State<T>
    requires Possible(s, Produce(p, at)) && Safe(s, Produce(p, at))
  {
    match s.producers[p]
    case Alloc(v) =>
      s.(mem := s.mem[at := Node(Some(v), None)], producers := s.producers[p := Exchange(v, at)])
    case Exchange(v, node) =>
      s.(head := node, producers := s.producers[p := Link(s.head, node)], exchanged := s.exchanged + [Sent(p, v)])
    case Link(prev, node) =>
      s.(mem := s.mem[prev := s.mem[prev].(next := Some(node))], producers := s.producers - {p})
  }

  function ConsumerStep<T>(s: State<T>): State<T>
    requires Possible(s, Consume) && Safe(s, Consume)
  {
    match s.consumer
    case LoadTail => s.(consumer := LoadNext(s.tail))
    case LoadNext(tail) =>
      s.(consumer := if s.mem[tail].next.None? then Idle else Move(tail, s.mem[tail].next.value))
    case Move(tail, next) =>
      s.(mem := s.mem[next := s.mem[next].(data := None)], consumer := StoreTail(tail, next, s.mem[next].data))
    case StoreTail(tail, next, out) => s.(tail := next, consumer := CountDown(tail, out))
    case CountDown(tail, out) => s.(count := (s.count - 1) % WORD, consumer := Delete(tail, out))
    case Delete(tail, out) => s.(mem := s.mem - {tail}, consumer := Idle, popped := s.popped + [out])
  }

  /** An action that is not possible does nothing; one that would touch freed memory has no meaning, and
      NoUseAfterFree shows that it does not occur. */
  function Apply<T>(s: State<T>, a: Action<T>): State<T> {
    if !Possible(s, a) || !Safe(s, a) then s else
    match a
    case BeginPush(p, v) => s.(producers := s.producers[p := Alloc(v)])
    case Produce(p, at) => ProducerStep(s, p, at)
    case BeginPop => s.(consumer := LoadTail)
    case Consume => ConsumerStep(s)
    case Increase(n) => s.(count := (s.count + n) % WORD)
    case Decrease(n) => s.(count := (s.count - n) % WORD)
  }

  function Exec<T>(stub: Addr, acts: seq<Action<T>>): State<T> {
    if acts == [] then Init(stub) else Apply(Exec(stub, acts[..|acts| - 1]), acts[|acts| - 1])
  }

  // ---------- the invariant ----------

  /** The nodes from the tail to the head in exchange order, and who has exchanged each of them in. */
  datatype View = View(chain: seq<Addr>, linker: map<Addr, Tid>)

  /** How many values have left the queue: the tail has passed their nodes. */
  ghost function Taken<T>(s: State<T>, w: View): int {
    |s.exchanged| + 1 - |w.chain|
  }

  /** Producer p has exchanged the head from `prev` to `node` and not yet linked them. */
  ghost predicate Linking<T>(s: State<T>, p: Tid, prev: Addr, node: Addr) {
    p in s.producers && s.producers[p] == Link(prev, node)
  }

  /** The node behind position k: linked, or still to be linked by the producer that exchanged it in. */
  ghost predicate LinkOk<T>(s: State<T>, w: View, k: nat)
    requires k < |w.chain|
  {
    && w.chain[k] in s.mem
    && (k + 1 < |w.chain| ==>
          || s.mem[w.chain[k]].next == Some(w.chain[k + 1])
          || (s.mem[w.chain[k]].next == None && w.chain[k + 1] in w.linker
              && Linking(s, w.linker[w.chain[k + 1]], w.chain[k], w.chain[k + 1])))
    && (k + 1 == |w.chain| ==> s.mem[w.chain[k]].next == None)
  }

  /** The value at position k, which is in the queue for k > 0. */
  ghost predicate DataOk<T>(s: State<T>, w: View, k: nat)
    requires 0 < k < |w.chain| <= |s.exchanged| + 1
  {
    && w.chain[k] in s.mem
    && s.mem[w.chain[k]].data ==
         if k == 1 && s.consumer.StoreTail? then None else Some(s.exchanged[Taken(s, w) + k - 1].value)
  }

  ghost predicate Adjacent(chain: seq<Addr>, k: int, prev: Addr, node: Addr) {
    0 < k < |chain| && chain[k - 1] == prev && chain[k] == node
  }

  /** Producer p has allocated node a, which nobody else can reach yet. */
  ghost predicate Private<T>(s: State<T>, p: Tid, a: Addr) {
    p in s.producers && s.producers[p].Exchange? && s.producers[p].node == a
  }

  ghost predicate ProducerOk<T>(s: State<T>, w: View, p: Tid)
    requires p in s.producers
  {
    match s.producers[p]
    case Alloc(v) => true
    case Exchange(v, node) =>
      && node in s.mem && s.mem[node] == Node(Some(v), None) && node !in w.chain && node != Dying(s)
      && forall q :: Private(s, q, node) ==> q == p
    case Link(prev, node) =>
      && node in w.linker && w.linker[node] == p && prev in s.mem && s.mem[prev].next == None
      && exists k :: Adjacent(w.chain, k, prev, node)
  }

  /** The node the consumer has passed and is about to delete, if any. */
  ghost function Dying<T>(s: State<T>): int {
    if s.consumer.CountDown? || s.consumer.Delete? then s.consumer.tail else -1
  }

  ghost predicate ConsumerOk<T>(s: State<T>, w: View)
    requires 0 < |w.chain| <= |s.exchanged| + 1
  {
    var n := |s.popped|;
    && Taken(s, w) == (if s.consumer.CountDown? || s.consumer.Delete? then n + 1 else n)
    && s.tail in s.mem
    && match s.consumer
       case LoadNext(tail) => tail == s.tail
       case Move(tail, next) => tail == s.tail && s.mem[tail].next == Some(next)
       case StoreTail(tail, next, out) =>
         tail == s.tail && s.mem[tail].next == Some(next) && n < |s.exchanged| && out == Some(s.exchanged[n].value)
       case CountDown(tail, out) => tail in s.mem && tail !in w.chain && out == Some(s.exchanged[n].value)
       case Delete(tail, out) => tail in s.mem && tail !in w.chain && out == Some(s.exchanged[n].value)
       case _ => true
  }

  /** Every allocated node is in the chain, private to a producer, or about to be deleted. */
  ghost predicate Accounted<T>(s: State<T>, w: View, a: Addr) {
    a in w.chain || a == Dying(s) || exists p :: Private(s, p, a)
  }

  ghost predicate ChainOk<T>(s: State<T>, w: View)
    requires |w.chain| <= |s.exchanged| + 1
  {
    && (forall k :: 0 <= k < |w.chain| ==> LinkOk(s, w, k))
    && (forall k :: 0 < k < |w.chain| ==> DataOk(s, w, k))
  }

  ghost predicate ProducersOk<T>(s: State<T>, w: View) {
    && (forall p :: p in s.producers ==> ProducerOk(s, w, p))
    && (forall a :: a in s.mem ==> Accounted(s, w, a))
  }

  ghost predicate HistoryOk<T>(s: State<T>) {
    |s.popped| <= |s.exchanged| && (forall i :: 0 <= i < |s.popped| ==> s.popped[i] == Some(s.exchanged[i].value))
  }

  ghost predicate Inv<T>(s: State<T>, w: View) {
    && 0 < |w.chain| <= |s.exchanged| + 1
    && w.chain[0] == s.tail && w.chain[|w.chain| - 1] == s.head && Distinct(w.chain)
    && ChainOk(s, w) && ProducersOk(s, w) && ConsumerOk(s, w) && HistoryOk(s)
  }

  // ---------- every step keeps the invariant ----------

  lemma InitInv<T>(stub: Addr) returns (w: View)
    ensures Inv(Init<T>(stub), w)
  {
    w := View([stub], map[]);
  }

  lemma InvSafe<T>(s: State<T>, w: View, a: Action<T>)
    requires Inv(s, w)
    ensures Safe(s, a)
  {
    if a.Produce? && a.p in s.producers {
      assert ProducerOk(s, w, a.p);
    }
    assert LinkOk(s, w, 0);
    if |w.chain| > 1 { assert LinkOk(s, w, 1); }
  }

  lemma AllocInv<T>(s: State<T>, w: View, p: Tid, at: Addr)
    requires Inv(s, w) && Possible(s, Produce(p, at)) && s.producers[p].Alloc?
    ensures Inv(ProducerStep(s, p, at), w)
  {
    var s' := ProducerStep(s, p, at);
    forall k | 0 <= k < |w.chain| ensures LinkOk(s', w, k) { assert LinkOk(s, w, k); }
    forall k | 0 < k < |w.chain| ensures DataOk(s', w, k) { assert DataOk(s, w, k) && w.chain[k] != at; }
    forall k | 0 <= k < |w.chain| ensures w.chain[k] != at { assert LinkOk(s, w, k); }
    forall r | r in s.producers ensures !Private(s, r, at) { assert ProducerOk(s, w, r); }
    forall r | Private(s', r, at) ensures r == p { assert r == p || !Private(s, r, at); }
    forall q | q in s.producers && q != p ensures ProducerOk(s', w, q) {
      assert ProducerOk(s, w, q);
      if s.producers[q].Exchange? {
        var node := s.producers[q].node;
        forall r | Private(s', r, node) ensures r == q { assert Private(s, r, node); }
      }
    }
    forall a | a in s'.mem ensures Accounted(s', w, a) {
      if a == at {
        assert Private(s', p, a);
      } else if a !in w.chain && a != Dying(s) {
        assert Accounted(s, w, a);
        var q :| Private(s, q, a);
        assert Private(s', q, a);
      }
    }
  }

  lemma ExchangeChain<T>(s: State<T>, w: View, p: Tid, at: Addr)
    requires Inv(s, w) && Possible(s, Produce(p, at)) && s.producers[p].Exchange?
    ensures var node := s.producers[p].node;
      ChainOk(ProducerStep(s, p, at), View(w.chain + [node], w.linker[node := p]))
  {
    var s', node := ProducerStep(s, p, at), s.producers[p].node;
    var w' := View(w.chain + [node], w.linker[node := p]);
    assert ProducerOk(s, w, p);
    assert LinkOk(s, w, |w.chain| - 1);
    hide ProducersOk, HistoryOk;
    forall k | 0 <= k < |w'.chain| ensures LinkOk(s', w', k) { if k < |w.chain| { assert LinkOk(s, w, k); } }
    forall k | 0 < k < |w'.chain| ensures DataOk(s', w', k) { if k < |w.chain| { assert DataOk(s, w, k); } }
  }

  lemma ExchangeInv<T>(s: State<T>, w: View, p: Tid, at: Addr) returns (w': View)
    requires Inv(s, w) && Possible(s, Produce(p, at)) && s.producers[p].Exchange?
    ensures Inv(ProducerStep(s, p, at), w')
  {
    var s' := ProducerStep(s, p, at);
    var node := s.producers[p].node;
    w' := View(w.chain + [node], w.linker[node := p]);
    ExchangeChain(s, w, p, at);
    assert ProducerOk(s, w, p);
    assert LinkOk(s, w, |w.chain| - 1);
    hide ChainOk;
    forall q | q in s'.producers ensures ProducerOk(s', w', q) {
      assert ProducerOk(s, w, q);
      if q == p {
        assert Adjacent(w'.chain, |w.chain|, s.head, node);
      } else if s.producers[q].Link? {
        var k :| Adjacent(w.chain, k, s.producers[q].prev, s.producers[q].node);
        assert Adjacent(w'.chain, k, s.producers[q].prev, s.producers[q].node);
      } else if s.producers[q].Exchange? {
        assert !Private(s, p, s.producers[q].node);
        forall r | Private(s', r, s.producers[q].node) ensures r == q {
          assert Private(s, r, s.producers[q].node);
        }
      }
    }
    forall a | a in s'.mem ensures Accounted(s', w', a) {
      assert Accounted(s, w, a);
      if a !in w'.chain && a != Dying(s) {
        var q :| Private(s, q, a);
        assert Private(s', q, a);
      }
    }
  }

  lemma LinkInv<T>(s: State<T>, w: View, p: Tid, at: Addr)
    requires Inv(s, w) && Possible(s, Produce(p, at)) && s.producers[p].Link? && Safe(s, Produce(p, at))
    ensures Inv(ProducerStep(s, p, at), w)
  {
    var s' := ProducerStep(s, p, at);
    var prev, node := s.producers[p].prev, s.producers[p].node;
    assert ProducerOk(s, w, p);
    var j :| Adjacent(w.chain, j, prev, node);
    forall k | 0 <= k < |w.chain| ensures LinkOk(s', w, k) { assert LinkOk(s, w, k); }
    forall k | 0 < k < |w.chain| ensures DataOk(s', w, k) { assert DataOk(s, w, k); }
    forall q | q in s'.producers ensures ProducerOk(s', w, q) {
      assert ProducerOk(s, w, q);
      if s.producers[q].Exchange? {
        forall r | Private(s', r, s.producers[q].node) ensures r == q {
          assert Private(s, r, s.producers[q].node);
        }
      }
    }
    forall a | a in s'.mem ensures Accounted(s', w, a) {
      assert Accounted(s, w, a);
      if a !in w.chain && a != Dying(s) {
        var q :| Private(s, q, a);
        assert Private(s', q, a);
      }
    }
  }

  /** A step that leaves the chain, and what the producers see of it, alone. */
  ghost predicate Undisturbed<T>(s: State<T>, s': State<T>, w: View) {
    && (forall q :: q in s'.producers ==>
          s'.producers[q].Alloc? || (q in s.producers && s'.producers[q] == s.producers[q]))
    && (forall q :: q in s.producers ==> q in s'.producers && s'.producers[q] == s.producers[q])
    && (forall a :: a in s'.mem ==> a in s.mem)
    && (forall a :: a in s.mem && a != Dying(s) ==>
          a in s'.mem && s'.mem[a].next == s.mem[a].next && (a !in w.chain ==> s'.mem[a] == s.mem[a]))
    && (Dying(s') == Dying(s) || (Dying(s') == -1 && Dying(s) !in s'.mem))
  }

  lemma ProducerStays<T>(s: State<T>, s': State<T>, w: View, q: Tid)
    requires Inv(s, w) && Undisturbed(s, s', w) && q in s'.producers
    ensures ProducerOk(s', w, q)
  {
    if !s'.producers[q].Alloc? {
      assert ProducerOk(s, w, q);
      if s.producers[q].Exchange? {
        var node := s.producers[q].node;
        forall r | Private(s', r, node) ensures r == q { assert Private(s, r, node); }
      }
    }
  }

  lemma NodeStays<T>(s: State<T>, s': State<T>, w: View, a: Addr)
    requires Inv(s, w) && Undisturbed(s, s', w) && a in s'.mem
    ensures Accounted(s', w, a)
  {
    assert Accounted(s, w, a);
    if a !in w.chain && a != Dying(s) {
      var q :| Private(s, q, a);
      assert Private(s', q, a);
    }
  }

  lemma ProducersStay<T>(s: State<T>, s': State<T>, w: View)
    requires Inv(s, w) && Undisturbed(s, s', w)
    ensures ProducersOk(s', w)
  {
    hide ChainOk, ConsumerOk, HistoryOk, Undisturbed, ProducersOk;
    assert ProducersOk(s', w) by {
      forall q | q in s'.producers ensures ProducerOk(s', w, q) { ProducerStays(s, s', w, q); }
      forall a | a in s'.mem ensures Accounted(s', w, a) { NodeStays(s, s', w, a); }
      AllProducers(s', w);
    }
  }

  lemma AllProducers<T>(s: State<T>, w: View)
    requires forall p :: p in s.producers ==> ProducerOk(s, w, p)
    requires forall a :: a in s.mem ==> Accounted(s, w, a)
    ensures ProducersOk(s, w)
  {
  }

  /** The chain stays as it is, but that a Move step empties the node behind the tail. */
  lemma ChainStays<T>(s: State<T>, s': State<T>, w: View)
    requires Inv(s, w) && Undisturbed(s, s', w) && s'.exchanged == s.exchanged && !s.consumer.StoreTail?
    requires s'.consumer.StoreTail? ==>
      |w.chain| > 1 && w.chain[1] in s.mem && s'.mem == s.mem[w.chain[1] := s.mem[w.chain[1]].(data := None)]
    requires !s'.consumer.StoreTail? ==>
      forall a :: a in s.mem && a != Dying(s) ==> a in s'.mem && s'.mem[a] == s.mem[a]
    ensures ChainOk(s', w)
  {
    hide ProducersOk, HistoryOk;
    forall k | 0 <= k < |w.chain| ensures LinkOk(s', w, k) { assert LinkOk(s, w, k); }
    forall k | 0 < k < |w.chain| ensures DataOk(s', w, k) { assert DataOk(s, w, k) && LinkOk(s, w, k); }
  }

  /** The two nodes the consumer deals with. */
  lemma Front<T>(s: State<T>, w: View)
    requires Inv(s, w)
    ensures LinkOk(s, w, 0) && (|w.chain| > 1 ==> LinkOk(s, w, 1) && DataOk(s, w, 1))
  {
  }

  lemma MoveFrame<T>(s: State<T>, w: View)
    requires Inv(s, w) && Possible(s, Consume) && Safe(s, Consume) && s.consumer.Move?
    ensures var s' := ConsumerStep(s);
      && Undisturbed(s, s', w) && |w.chain| > 1 && w.chain[1] in s.mem
      && s'.mem == s.mem[w.chain[1] := s.mem[w.chain[1]].(data := None)]
  {
    Front(s, w);
    hide ProducersOk, ChainOk, HistoryOk;
  }

  lemma QuietFrame<T>(s: State<T>, w: View)
    requires Inv(s, w) && Possible(s, Consume) && Safe(s, Consume) && !s.consumer.StoreTail? && !s.consumer.Move?
    ensures var s' := ConsumerStep(s);
      && Undisturbed(s, s', w)
      && forall a :: a in s.mem && a != Dying(s) ==> a in s'.mem && s'.mem[a] == s.mem[a]
  {
    hide ProducersOk, ChainOk, HistoryOk;
  }

  lemma ConsumeKeepsConsumer<T>(s: State<T>, w: View)
    requires Inv(s, w) && Possible(s, Consume) && Safe(s, Consume) && !s.consumer.StoreTail?
    ensures ConsumerOk(ConsumerStep(s), w) && HistoryOk(ConsumerStep(s))
  {
    Front(s, w);
    hide ProducersOk, ChainOk;
  }

  /** The steps of the consumer other than the one that moves the tail. */
  lemma ConsumeInv<T>(s: State<T>, w: View)
    requires Inv(s, w) && Possible(s, Consume) && Safe(s, Consume) && !s.consumer.StoreTail?
    ensures Inv(ConsumerStep(s), w)
  {
    var s' := ConsumerStep(s);
    if s.consumer.Move? { MoveFrame(s, w); } else { QuietFrame(s, w); }
    ConsumeKeepsConsumer(s, w);
    hide ProducersOk, ChainOk, ConsumerOk, HistoryOk, Undisturbed;
    ProducersStay(s, s', w);
    ChainStays(s, s', w);
  }

  lemma StoreTailChain<T>(s: State<T>, w: View)
    requires Inv(s, w) && Possible(s, Consume) && Safe(s, Consume) && s.consumer.StoreTail? && |w.chain| > 1
    ensures ChainOk(ConsumerStep(s), View(w.chain[1..], w.linker))
  {
    var s', w' := ConsumerStep(s), View(w.chain[1..], w.linker);
    hide ProducersOk, HistoryOk;
    forall k | 0 <= k < |w'.chain| ensures LinkOk(s', w', k) { assert LinkOk(s, w, k + 1); }
    forall k | 0 < k < |w'.chain| ensures DataOk(s', w', k) { assert DataOk(s, w, k + 1); }
  }

  lemma StoreTailProducers<T>(s: State<T>, w: View)
    requires Inv(s, w) && Possible(s, Consume) && Safe(s, Consume) && s.consumer.StoreTail? && |w.chain| > 1
    ensures ProducersOk(ConsumerStep(s), View(w.chain[1..], w.linker))
  {
    var s', w' := ConsumerStep(s), View(w.chain[1..], w.linker);
    hide ChainOk, HistoryOk;
    forall q | q in s'.producers ensures ProducerOk(s', w', q) {
      assert ProducerOk(s, w, q);
      if s.producers[q].Exchange? {
        var node := s.producers[q].node;
        forall r | Private(s', r, node) ensures r == q { assert Private(s, r, node); }
      } else if s.producers[q].Link? {
        var k :| Adjacent(w.chain, k, s.producers[q].prev, s.producers[q].node);
        assert Adjacent(w'.chain, k - 1, s.producers[q].prev, s.producers[q].node);
      }
    }
    forall a | a in s'.mem ensures Accounted(s', w', a) {
      assert Accounted(s, w, a);
      if a !in w.chain {
        var q :| Private(s, q, a);
        assert Private(s', q, a);
      }
    }
  }

  lemma StoreTailInv<T>(s: State<T>, w: View) returns (w': View)
    requires Inv(s, w) && Possible(s, Consume) && Safe(s, Consume) && s.consumer.StoreTail?
    ensures Inv(ConsumerStep(s), w')
  {
    w' := View(w.chain[1..], w.linker);
    Front(s, w);
    hide ProducersOk, ChainOk, HistoryOk;
    StoreTailChain(s, w);
    StoreTailProducers(s, w);
  }

  /** Starting an operation or moving the counter changes nothing the invariant speaks of. */
  lemma BeginInv<T>(s: State<T>, w: View, a: Action<T>)
    requires Inv(s, w) && Possible(s, a) && !a.Produce? && !a.Consume?
    ensures Inv(Apply(s, a), w)
  {
    var s' := Apply(s, a);
    hide ProducersOk, ChainOk;
    ProducersStay(s, s', w);
    if !s.consumer.StoreTail? {
      ChainStays(s, s', w);
    } else {
      ChainSame(s, s', w);
    }
  }

  lemma ChainSame<T>(s: State<T>, s': State<T>, w: View)
    requires Inv(s, w) && s'.exchanged == s.exchanged && s'.mem == s.mem && s'.consumer == s.consumer
    requires forall q :: q in s.producers ==> q in s'.producers && s'.producers[q] == s.producers[q]
    ensures ChainOk(s', w)
  {
    forall k | 0 <= k < |w.chain| ensures LinkOk(s', w, k) { assert LinkOk(s, w, k); }
    forall k | 0 < k < |w.chain| ensures DataOk(s', w, k) { assert DataOk(s, w, k); }
  }

  lemma ApplyInv<T>(s: State<T>, w: View, a: Action<T>) returns (w': View)
    requires Inv(s, w)
    ensures Inv(Apply(s, a), w')
  {
    w' := w;
    if Possible(s, a) {
      InvSafe(s, w, a);
      match a {
        case Produce(p, at) =>
          match s.producers[p] {
            case Alloc(v) => AllocInv(s, w, p, at);
            case Exchange(v, node) => w' := ExchangeInv(s, w, p, at);
            case Link(prev, node) => LinkInv(s, w, p, at);
          }
        case Consume =>
          match s.consumer {
            case StoreTail(tail, next, out) => w' := StoreTailInv(s, w);
            case _ => ConsumeInv(s, w);
          }
        case _ => BeginInv(s, w, a);
      }
    }
  }

  // ---------- theorems about every run ----------

  lemma {:induction false} Reachable<T>(stub: Addr, acts: seq<Action<T>>) returns (w: View)
    ensures Inv(Exec(stub, acts), w)
  {
    if acts == [] {
      w := InitInv<T>(stub);
    } else {
      w := Reachable(stub, acts[..|acts| - 1]);
      w := ApplyInv(Exec(stub, acts[..|acts| - 1]), w, acts[|acts| - 1]);
    }
  }

  /** No step of any thread touches a freed node; in particular a producer's previous head is never freed
      before the producer has linked it. */
  lemma NoUseAfterFree<T>(stub: Addr, acts: seq<Action<T>>, a: Action<T>)
    ensures Safe(Exec(stub, acts), a)
  {
    var w := Reachable(stub, acts);
    InvSafe(Exec(stub, acts), w, a);
  }

  /** The values returned are the exchanged ones, in exchange order, without loss or duplication. */
  lemma PopsFollowExchanges<T>(stub: Addr, acts: seq<Action<T>>, i: nat)
    requires i < |Exec(stub, acts).popped|
    ensures var s := Exec(stub, acts); i < |s.exchanged| && s.popped[i] == Some(s.exchanged[i].value)
  {
    var w := Reachable(stub, acts);
  }

  /** Some producer has exchanged the head from `prev` to `node` and not yet linked them. */
  ghost predicate LinkPending<T>(s: State<T>, prev: Addr, node: Addr) {
    exists p :: Linking(s, p, prev, node)
  }

  /** Behind position k the chain is broken if that link is pending, and whole otherwise. */
  ghost predicate BrokenOnlyIfPending<T>(s: State<T>, chain: seq<Addr>, k: nat)
    requires k + 1 < |chain|
  {
    && chain[k] in s.mem && chain[k + 1] in s.mem
    && s.mem[chain[k]].next == if LinkPending(s, chain[k], chain[k + 1]) then None else Some(chain[k + 1])
  }

  /** The nodes from the tail to the head form one chain without repetition, one node more than there are
      values not yet taken; it is broken exactly where a producer has exchanged and not yet linked. */
  lemma ChainBrokenAtPendingLinks<T>(stub: Addr, acts: seq<Action<T>>) returns (chain: seq<Addr>)
    ensures var s := Exec(stub, acts);
      && 0 < |chain| && chain[0] == s.tail && chain[|chain| - 1] == s.head && Distinct(chain)
      && s.head in s.mem && s.mem[s.head].next == None
      && (forall k :: 0 <= k < |chain| - 1 ==> BrokenOnlyIfPending(s, chain, k))
      && (forall p :: p in s.producers && s.producers[p].Link? ==>
            exists k :: Adjacent(chain, k, s.producers[p].prev, s.producers[p].node))
  {
    var s := Exec(stub, acts);
    var w := Reachable(stub, acts);
    chain := w.chain;
    assert LinkOk(s, w, |chain| - 1);
    forall k | 0 <= k < |chain| - 1 ensures BrokenOnlyIfPending(s, chain, k) {
      assert LinkOk(s, w, k) && LinkOk(s, w, k + 1);
      if LinkPending(s, chain[k], chain[k + 1]) {
        var p :| Linking(s, p, chain[k], chain[k + 1]);
        assert ProducerOk(s, w, p);
      }
    }
    forall p | p in s.producers && s.producers[p].Link?
      ensures exists k :: Adjacent(chain, k, s.producers[p].prev, s.producers[p].node)
    {
      assert ProducerOk(s, w, p);
    }
  }

  /** Some producer has exchanged the tail's successor in and not yet linked it. */
  ghost predicate TailPending<T>(s: State<T>) {
    exists p :: p in s.producers && s.producers[p].Link? && s.producers[p].prev == s.tail
  }

  /** TryPop returns without a value only from its load of the next pointer, and only if at that load every
      exchanged value has been popped or the producer of the next one has yet to link its node. */
  lemma TryPopFailsOnlyWhenEmptyOrUnlinked<T>(stub: Addr, acts: seq<Action<T>>)
    requires var s, s' := Exec(stub, acts), Exec(stub, acts + [Consume]);
      !s.consumer.Idle? && s'.consumer.Idle? && s'.popped == s.popped
    ensures var s := Exec(stub, acts);
      s.consumer.LoadNext? && (|s.popped| == |s.exchanged| || TailPending(s))
  {
    var s := Exec(stub, acts);
    var w := Reachable(stub, acts);
    ExecStep(stub, acts, Consume);
    InvSafe(s, w, Consume);
    NextLinked(s, w);
  }

  lemma ExecStep<T>(stub: Addr, acts: seq<Action<T>>, a: Action<T>)
    ensures Exec(stub, acts + [a]) == Apply(Exec(stub, acts), a)
  {
    assert (acts + [a])[..|acts|] == acts;
  }

  /** While the consumer still has the tail, the tail has a successor unless nothing is left or its link is pending. */
  lemma NextLinked<T>(s: State<T>, w: View)
    requires Inv(s, w) && s.consumer.LoadNext?
    ensures s.tail in s.mem
    ensures s.mem[s.tail].next.None? ==> |s.popped| == |s.exchanged| || TailPending(s)
    ensures s.mem[s.tail].next.Some? ==> |s.popped| < |s.exchanged| && !TailPending(s)
  {
    assert LinkOk(s, w, 0);
    if TailPending(s) {
      var p :| p in s.producers && s.producers[p].Link? && s.producers[p].prev == s.tail;
      assert ProducerOk(s, w, p);
    }
    if |w.chain| > 1 && s.mem[s.tail].next.None? {
      assert Linking(s, w.linker[w.chain[1]], s.tail, w.chain[1]);
    }
  }

  function Consumes<T>(acts: seq<Action<T>>): nat {
    if acts == [] then 0 else Consumes(acts[..|acts| - 1]) + if acts[|acts| - 1].Consume? then 1 else 0
  }

  /** The consumer has loaded a next node and has not returned its value yet. */
  ghost predicate Taking<T>(s: State<T>, n: nat, popped: seq<Option<T>>) {
    && s.popped == popped
    && match s.consumer
       case Move(tail, next) => n == 1
       case StoreTail(tail, next, out) => n == 2
       case CountDown(tail, out) => n == 3
       case Delete(tail, out) => n == 4
       case _ => false
  }

  lemma StepTakes<T>(s: State<T>, w: View, a: Action<T>, n: nat, popped: seq<Option<T>>)
    requires Inv(s, w) && Taking(s, n, popped)
    ensures !a.Consume? ==> Taking(Apply(s, a), n, popped)
    ensures a.Consume? && n < 4 ==> Taking(Apply(s, a), n + 1, popped)
  {
    InvSafe(s, w, a);
    hide Inv;
  }

  lemma {:induction false} TakesNext<T>(stub: Addr, acts: seq<Action<T>>, more: seq<Action<T>>)
    requires var s := Exec(stub, acts); s.consumer.LoadNext? && |s.popped| < |s.exchanged| && !TailPending(s)
    requires |more| > 0 && more[0].Consume? && Consumes(more) <= 4
    ensures Taking(Exec(stub, acts + more), Consumes(more), Exec(stub, acts).popped)
  {
    var n := |more| - 1;
    assert acts + more == acts + more[..n] + [more[n]];
    ExecStep(stub, acts + more[..n], more[n]);
    if n == 0 {
      var s := Exec(stub, acts);
      var w := Reachable(stub, acts);
      InvSafe(s, w, Consume);
      NextLinked(s, w);
      assert s.consumer.tail == s.tail && acts + more[..0] == acts;
      hide Inv, TailPending;
    } else {
      TakesNext(stub, acts, more[..n]);
      var w := Reachable(stub, acts + more[..n]);
      StepTakes(Exec(stub, acts + more[..n]), w, more[n], Consumes(more[..n]), Exec(stub, acts).popped);
    }
  }

  lemma {:induction false} ExchangedGrows<T>(stub: Addr, acts: seq<Action<T>>, more: seq<Action<T>>)
    ensures Exec(stub, acts).exchanged <= Exec(stub, acts + more).exchanged
  {
    if more == [] {
      assert acts + more == acts;
    } else {
      var n := |more| - 1;
      ExchangedGrows(stub, acts, more[..n]);
      assert acts + more == acts + more[..n] + [more[n]];
      ExecStep(stub, acts + more[..n], more[n]);
    }
  }

  /** Conversely, if at the load a value is left and the tail's link is not pending, the call returns the next
      value in exchange order, whatever the producers do meanwhile: the load is the first of its last five steps. */
  lemma TryPopTakesTheNext<T>(stub: Addr, acts: seq<Action<T>>, more: seq<Action<T>>)
    requires var s := Exec(stub, acts); s.consumer.LoadNext? && |s.popped| < |s.exchanged| && !TailPending(s)
    requires |more| > 0 && more[0].Consume? && Consumes(more) == 4
    ensures var s, s' := Exec(stub, acts), Exec(stub, acts + more + [Consume]);
      s'.consumer.Idle? && s'.popped == s.popped + [Some(s.exchanged[|s.popped|].value)]
  {
    var s1 := Exec(stub, acts + more);
    TakesNext(stub, acts, more);
    var w := Reachable(stub, acts + more);
    InvSafe(s1, w, Consume);
    ExecStep(stub, acts + more, Consume);
    ExchangedGrows(stub, acts, more);
    hide ProducersOk, ChainOk, HistoryOk, TailPending;
  }

  // ---------- every call is accounted for ----------

  /** The Push calls of a run in the order they begin; a call inside another one of its thread does not count. */
  function Begun<T>(stub: Addr, acts: seq<Action<T>>): seq<Sent<T>> {
    if acts == [] then [] else
    var before, a := acts[..|acts| - 1], acts[|acts| - 1];
    Begun(stub, before) + if a.BeginPush? && a.p !in Exec(stub, before).producers then [Sent(a.p, a.v)] else []
  }

  /** The values of thread p, in order. */
  function ValuesOf<T>(p: Tid, sent: seq<Sent<T>>): seq<T> {
    if sent == [] then [] else
    var last := sent[|sent| - 1];
    ValuesOf(p, sent[..|sent| - 1]) + if last.sender == p then [last.value] else []
  }

  /** The value of a call of thread p that has not exchanged it in yet. */
  function InFlight<T>(s: State<T>, p: Tid): seq<T> {
    if p in s.producers && !s.producers[p].Link? then [s.producers[p].v] else []
  }

  lemma ValuesOfMore<T>(p: Tid, sent: seq<Sent<T>>, x: Sent<T>)
    ensures ValuesOf(p, sent + [x]) == ValuesOf(p, sent) + if x.sender == p then [x.value] else []
  {
    assert (sent + [x])[..|sent|] == sent;
  }

  predicate Exchanges<T>(s: State<T>, a: Action<T>) {
    a.Produce? && a.p in s.producers && s.producers[a.p].Exchange?
  }

  predicate Begins<T>(s: State<T>, a: Action<T>, p: Tid) {
    a.BeginPush? && a.p == p && p !in s.producers
  }

  /** Only an exchange adds to the exchanged pushes; only that step and the begin of a call move what is in flight. */
  lemma StepMoves<T>(s: State<T>, a: Action<T>, p: Tid)
    requires Safe(s, a)
    ensures var s' := Apply(s, a);
      && s'.exchanged == (if Exchanges(s, a) then s.exchanged + [Sent(a.p, s.producers[a.p].v)] else s.exchanged)
      && InFlight(s', p) ==
           if Begins(s, a, p) then [a.v] else if Exchanges(s, a) && a.p == p then [] else InFlight(s, p)
  {
  }

  /** Only a call that begins adds to the account of a thread: its exchanges and what it is about to exchange. */
  lemma StepKeepsAccount<T>(s: State<T>, a: Action<T>, p: Tid)
    requires Safe(s, a)
    ensures var s' := Apply(s, a);
      ValuesOf(p, s'.exchanged) + InFlight(s', p)
      == if Begins(s, a, p) then ValuesOf(p, s.exchanged) + [a.v] else ValuesOf(p, s.exchanged) + InFlight(s, p)
  {
    StepMoves(s, a, p);
    if Exchanges(s, a) { ValuesOfMore(p, s.exchanged, Sent(a.p, s.producers[a.p].v)); }
    hide Apply, ValuesOf;
  }

  /** The values a thread has exchanged in, and the one it is about to, are those of its Push calls, in order:
      no call drops, repeats, changes or reorders a value. */
  lemma {:induction false} PushesAreExchanged<T>(stub: Addr, acts: seq<Action<T>>, p: Tid)
    ensures var s := Exec(stub, acts); ValuesOf(p, Begun(stub, acts)) == ValuesOf(p, s.exchanged) + InFlight(s, p)
  {
    if acts != [] {
      var before, a := acts[..|acts| - 1], acts[|acts| - 1];
      PushesAreExchanged(stub, before, p);
      NoUseAfterFree(stub, before, a);
      StepKeepsAccount(Exec(stub, before), a, p);
      hide Apply, ValuesOf;
      if a.BeginPush? && Begins(Exec(stub, before), a, a.p) {
        ValuesOfMore(p, Begun(stub, before), Sent(a.p, a.v));
      } else {
        assert Begun(stub, acts) == Begun(stub, before);
      }
    }
  }

  lemma {:induction false} CountOf<T>(sent: seq<Sent<T>>, x: Sent<T>)
    ensures multiset(sent)[x] == multiset(ValuesOf(x.sender, sent))[x.value]
  {
    if sent != [] {
      var n := |sent| - 1;
      CountOf(sent[..n], x);
      assert sent == sent[..n] + [sent[n]];
    }
  }

  /** The pair x was begun as often as it was exchanged, and once more while its call is before the exchange. */
  ghost predicate PairCounted<T>(s: State<T>, begun: seq<Sent<T>>, x: Sent<T>) {
    multiset(begun)[x] == multiset(s.exchanged)[x] + if InFlight(s, x.sender) == [x.value] then 1 else 0
  }

  /** Over all threads: as multisets of (thread, value) pairs, the calls begun are the exchanges and the calls
      still before their exchange. */
  lemma BegunAsMultiset<T>(stub: Addr, acts: seq<Action<T>>, x: Sent<T>)
    ensures var s := Exec(stub, acts);
      && PairCounted(s, Begun(stub, acts), x)
      && (s.producers == map[] ==> multiset(Begun(stub, acts)) == multiset(s.exchanged))
  {
    var s := Exec(stub, acts);
    forall y: Sent<T> ensures PairCounted(s, Begun(stub, acts), y) {
      PushesAreExchanged(stub, acts, y.sender);
      CountOf(Begun(stub, acts), y);
      CountOf(s.exchanged, y);
    }
    assert PairCounted(s, Begun(stub, acts), x);
    if s.producers == map[] {
      forall y: Sent<T> ensures multiset(Begun(stub, acts))[y] == multiset(s.exchanged)[y] {
        assert PairCounted(s, Begun(stub, acts), y);
      }
    }
  }

  lemma {:induction false} ValuesOfPrefix<T>(p: Tid, sent: seq<Sent<T>>, k: nat)
    requires k <= |sent|
    ensures ValuesOf(p, sent[..k]) <= ValuesOf(p, sent)
  {
    if k < |sent| {
      var n := |sent| - 1;
      ValuesOfPrefix(p, sent[..n], k);
      assert sent[..n][..k] == sent[..k];
    } else {
      assert sent[..k] == sent;
    }
  }

  /** First in, first out for every producer: what has been popped of its values is a prefix of its calls. */
  lemma PopsFollowCalls<T>(stub: Addr, acts: seq<Action<T>>, p: Tid)
    ensures var s := Exec(stub, acts);
      && |s.popped| <= |s.exchanged|
      && (forall i :: 0 <= i < |s.popped| ==> s.popped[i] == Some(s.exchanged[i].value))
      && ValuesOf(p, s.exchanged[..|s.popped|]) <= ValuesOf(p, Begun(stub, acts))
  {
    var s := Exec(stub, acts);
    var w := Reachable(stub, acts);
    PushesAreExchanged(stub, acts, p);
    ValuesOfPrefix(p, s.exchanged, |s.popped|);
  }

  function PushLeft<T>(s: State<T>, p: Tid): nat {
    if p !in s.producers then 0
    else match s.producers[p] case Alloc(v) => 3 case Exchange(v, node) => 2 case Link(prev, node) => 1
  }

  function TryPopLeft<T>(pc: PopPc<T>): nat {
    match pc
    case Idle => 0
    case Delete(tail, out) => 1
    case CountDown(tail, out) => 2
    case StoreTail(tail, next, out) => 3
    case Move(tail, next) => 4
    case LoadNext(tail) => 5
    case LoadTail => 6
  }

  /** Push never waits for another thread: a call returns after exactly three steps of its own. */
  lemma PushEnds<T>(stub: Addr, acts: seq<Action<T>>, a: Action<T>, p: Tid)
    requires var s := Exec(stub, acts);
      (a.BeginPush? ==> a.p !in s.producers) && (a.Produce? ==> a.p in s.producers && a.at !in s.mem)
    ensures var left := PushLeft(Exec(stub, acts), p);
      PushLeft(Exec(stub, acts + [a]), p) ==
        if a.BeginPush? && a.p == p then 3 else if a.Produce? && a.p == p then left - 1 else left
  {
    NoUseAfterFree(stub, acts, a);
    ExecStep(stub, acts, a);
  }

  /** Nor does TryPop: every step of a call brings its return nearer, which is at most six steps away. */
  lemma TryPopEnds<T>(stub: Addr, acts: seq<Action<T>>, a: Action<T>)
    requires var s := Exec(stub, acts); (a.BeginPop? ==> s.consumer.Idle?) && (a.Consume? ==> !s.consumer.Idle?)
    ensures var s, s' := Exec(stub, acts), Exec(stub, acts + [a]);
      if a.BeginPop? then TryPopLeft(s'.consumer) == 6
      else if a.Consume? then TryPopLeft(s'.consumer) < TryPopLeft(s.consumer)
      else s'.consumer == s.consumer
  {
    NoUseAfterFree(stub, acts, a);
    ExecStep(stub, acts, a);
  }

  // ---------- the node counter ----------

  /** What IncreaseNodeCount has added and DecreaseNodeCount taken off. */
  function Counted<T>(acts: seq<Action<T>>): int {
    if acts == [] then 0 else
    var before, a := Counted(acts[..|acts| - 1]), acts[|acts| - 1];
    if a.Increase? then before + a.n else if a.Decrease? then before - a.n else before
  }

  lemma WrapsOnce(x: int, d: int)
    ensures (x % WORD + d) % WORD == (x + d) % WORD
  {
  }

  /** The counter is what was added less what was taken off and less one for each pop that has counted down,
      modulo the machine word: Push itself never counts. */
  lemma {:induction false} CountIsBalance<T>(stub: Addr, acts: seq<Action<T>>)
    ensures var s := Exec(stub, acts);
      s.count == (Counted(acts) - |s.popped| - if s.consumer.Delete? then 1 else 0) % WORD
  {
    if acts != [] {
      var before, a := acts[..|acts| - 1], acts[|acts| - 1];
      CountIsBalance(stub, before);
      NoUseAfterFree(stub, before, a);
      var s := Exec(stub, before);
      var x := Counted(before) - |s.popped| - if s.consumer.Delete? then 1 else 0;
      match a
      case Increase(n) => WrapsOnce(x, n);
      case Decrease(n) => WrapsOnce(x, 0 - n);
      case Consume => WrapsOnce(x, -1);
      case _ =>
    }
  }

  /** The node at position k > 0 is linked and holds the k-th value still in the queue. */
  ghost predicate Holds<T>(s: State<T>, chain: seq<Addr>, k: nat)
    requires 0 < k < |chain| && |s.popped| + |chain| == |s.exchanged| + 1
  {
    && chain[k - 1] in s.mem && s.mem[chain[k - 1]].next == Some(chain[k])
    && chain[k] in s.mem && s.mem[chain[k]].data == Some(s.exchanged[|s.popped| + k - 1].value)
  }

  ghost predicate Quiescent<T>(s: State<T>) {
    s.producers == map[] && s.consumer.Idle?
  }

  /** With no operation in flight the allocated nodes are the chain: one more than the values left. */
  lemma QuiescentNodes<T>(stub: Addr, acts: seq<Action<T>>) returns (chain: seq<Addr>)
    requires Quiescent(Exec(stub, acts))
    ensures var s := Exec(stub, acts);
      && |s.popped| + |chain| == |s.exchanged| + 1 && |chain| > 0 && Distinct(chain)
      && chain[0] == s.tail && chain[|chain| - 1] == s.head
      && (forall a :: a in s.mem <==> a in chain)
      && (forall k :: 0 < k < |chain| ==> Holds(s, chain, k)) && s.mem[s.head].next == None
  {
    var s := Exec(stub, acts);
    var w := Reachable(stub, acts);
    chain := w.chain;
    forall a ensures a in s.mem <==> a in chain {
      if a in s.mem { assert Accounted(s, w, a); }
      if a in chain {
        var k :| 0 <= k < |chain| && chain[k] == a;
        assert LinkOk(s, w, k);
      }
    }
    forall k: nat | 0 < k < |chain| ensures Holds(s, chain, k) {
      assert LinkOk(s, w, k - 1) && DataOk(s, w, k);
    }
    assert LinkOk(s, w, |chain| - 1);
  }

  // ---------- Clear and the destructor ----------

  function ApplyAll<T>(s: State<T>, acts: seq<Action<T>>): State<T> {
    if acts == [] then s else Apply(ApplyAll(s, acts[..|acts| - 1]), acts[|acts| - 1])
  }

  lemma {:induction false} ExecMore<T>(stub: Addr, acts: seq<Action<T>>, more: seq<Action<T>>)
    ensures Exec(stub, acts + more) == ApplyAll(Exec(stub, acts), more)
  {
    if more == [] {
      assert acts + more == acts;
    } else {
      var n := |more| - 1;
      ExecMore(stub, acts, more[..n]);
      assert (acts + more)[..|acts + more| - 1] == acts + more[..n];
    }
  }

  /** One TryPop from its call to its return; the steps left over when it returns early do nothing. */
  function TryPop<T>(): seq<Action<T>> {
    [BeginPop, Consume, Consume, Consume, Consume, Consume, Consume]
  }

  function TryPops<T>(k: nat): seq<Action<T>> {
    if k == 0 then [] else TryPops(k - 1) + TryPop()
  }

  lemma ApplyMore<T>(s: State<T>, acts: seq<Action<T>>, a: Action<T>)
    ensures ApplyAll(s, acts + [a]) == Apply(ApplyAll(s, acts), a)
  {
    assert (acts + [a])[..|acts|] == acts;
  }

  lemma SevenSteps<T>(s: State<T>)
    ensures var s3 := Apply(Apply(Apply(s, BeginPop), Consume), Consume);
      ApplyAll(s, TryPop()) == Apply(Apply(Apply(Apply(s3, Consume), Consume), Consume), Consume)
  {
    var a: seq<Action<T>> := TryPop();
    hide ApplyAll, Apply;
    assert ApplyAll(s, []) == s by { NoSteps(s); }
    ApplyMore(s, [], BeginPop);
    ApplyMore(s, a[..1], Consume);
    ApplyMore(s, a[..2], Consume);
    ApplyMore(s, a[..3], Consume);
    ApplyMore(s, a[..4], Consume);
    ApplyMore(s, a[..5], Consume);
    ApplyMore(s, a[..6], Consume);
    assert [] + [BeginPop] == a[..1] && a[..1] + [Consume] == a[..2] && a[..2] + [Consume] == a[..3];
    assert a[..3] + [Consume] == a[..4] && a[..4] + [Consume] == a[..5];
    assert a[..5] + [Consume] == a[..6] && a[..6] + [Consume] == a;
  }

  lemma NoSteps<T>(s: State<T>)
    ensures ApplyAll(s, []) == s
  {
  }

  lemma TryPopSteps<T>(s: State<T>)
    requires Quiescent(s) && s.tail in s.mem
    requires s.mem[s.tail].next.Some? ==> s.mem[s.tail].next.value in s.mem && s.mem[s.tail].next.value != s.tail
    ensures var s' := ApplyAll(s, TryPop());
      && Quiescent(s') && s'.exchanged == s.exchanged
      && |s'.popped| == if s.mem[s.tail].next.Some? then |s.popped| + 1 else |s.popped|
  {
    SevenSteps(s);
    var s3 := Apply(Apply(Apply(s, BeginPop), Consume), Consume);
    assert s3 == if s.mem[s.tail].next.None? then s else s.(consumer := Move(s.tail, s.mem[s.tail].next.value));
    if s.mem[s.tail].next.Some? { FourSteps(s3); }
  }

  lemma FourSteps<T>(s: State<T>)
    requires s.consumer.Move? && s.consumer.tail in s.mem && s.consumer.next in s.mem
    requires s.consumer.next != s.consumer.tail
    ensures var s' := Apply(Apply(Apply(Apply(s, Consume), Consume), Consume), Consume);
      && s'.consumer.Idle? && s'.producers == s.producers && s'.exchanged == s.exchanged
      && |s'.popped| == |s.popped| + 1
  {
  }

  /** With no operation in flight TryPop takes the next value, if there is one. */
  lemma TryPopAlone<T>(stub: Addr, acts: seq<Action<T>>)
    requires Quiescent(Exec(stub, acts))
    ensures var s, s' := Exec(stub, acts), Exec(stub, acts + TryPop());
      && Quiescent(s') && s'.exchanged == s.exchanged && |s.popped| <= |s.exchanged|
      && |s'.popped| == if |s.popped| < |s.exchanged| then |s.popped| + 1 else |s.popped|
  {
    var s := Exec(stub, acts);
    var chain := QuiescentNodes(stub, acts);
    ExecMore(stub, acts, TryPop());
    if |chain| > 1 { assert Holds(s, chain, 1); }
    TryPopSteps(s);
  }

  lemma {:induction false} TryPopsAlone<T>(stub: Addr, acts: seq<Action<T>>, k: nat)
    requires Quiescent(Exec(stub, acts))
    ensures var s, s' := Exec(stub, acts), Exec(stub, acts + TryPops(k));
      && Quiescent(s') && s'.exchanged == s.exchanged && |s.popped| <= |s.exchanged|
      && |s'.popped| == if |s.popped| + k <= |s.exchanged| then |s.popped| + k else |s.exchanged|
  {
    hide Exec;
    if k == 0 {
      assert acts + TryPops(0) == acts;
      TryPopAlone(stub, acts);
    } else {
      TryPopsAlone(stub, acts, k - 1);
      TryPopAlone(stub, acts + TryPops(k - 1));
      assert acts + TryPops(k) == acts + TryPops(k - 1) + TryPop();
    }
  }

  /** How many values are left to pop. */
  function Left<T>(s: State<T>): nat {
    if |s.popped| < |s.exchanged| then |s.exchanged| - |s.popped| else 0
  }

  /** Of successive calls of TryPop after the run, call k returns a value. */
  ghost predicate PopsAt<T>(stub: Addr, acts: seq<Action<T>>, k: nat) {
    |Exec(stub, acts + TryPops(k + 1)).popped| == |Exec(stub, acts + TryPops(k)).popped| + 1
  }

  lemma PopsUntilEmpty<T>(stub: Addr, acts: seq<Action<T>>, k: nat)
    requires Quiescent(Exec(stub, acts))
    ensures PopsAt(stub, acts, k) <==> k < Left(Exec(stub, acts))
  {
    hide Exec;
    TryPopsAlone(stub, acts, k);
    TryPopsAlone(stub, acts, k + 1);
  }

  /** Clear calls TryPop until a call fails, which is the one after the values left. Everything exchanged is
      popped then, and exactly one node stays allocated, which the destructor, doing nothing else, leaks. */
  lemma ClearLeavesOneNode<T>(stub: Addr, acts: seq<Action<T>>)
    requires Quiescent(Exec(stub, acts))
    ensures var left := Left(Exec(stub, acts));
      && (forall k: nat :: PopsAt(stub, acts, k) <==> k < left)
      && var s := Exec(stub, acts + TryPops(left + 1));
      && Quiescent(s) && |s.popped| == |s.exchanged| && s.exchanged == Exec(stub, acts).exchanged
      && s.head == s.tail && forall a :: a in s.mem <==> a == s.tail
  {
    hide Exec;
    var left := Left(Exec(stub, acts));
    forall k: nat ensures PopsAt(stub, acts, k) <==> k < left { PopsUntilEmpty(stub, acts, k); }
    TryPopsAlone(stub, acts, left + 1);
    var chain := QuiescentNodes(stub, acts + TryPops(left + 1));
  }
}
