/** The cache of Source/Core/Container/LruCache.h: a hash index over a recency list. */
module LruCache {
  import opened Common

  /** A stored value, or what is left after Get or Pop has moved it out. */
  datatype Content<V> = Held(value: V) | MovedFrom

  datatype Entry<K, V> = Entry(key: K, content: Content<V>)

  // ---------- the cache as a list of entries, most recently used first ----------

  predicate Has<K(==), V>(es: seq<Entry<K, V>>, k: K) {
    exists i :: 0 <= i < |es| && es[i].key == k
  }

  /** The list without the entry of k. */
  function Without<K(==), V>(es: seq<Entry<K, V>>, k: K): seq<Entry<K, V>> {
    if es == [] then [] else if es[0].key == k then es[1..] else [es[0]] + Without(es[1..], k)
  }

  function ContentOf<K(==), V>(es: seq<Entry<K, V>>, k: K): Content<V> {
    if es == [] then MovedFrom else if es[0].key == k then es[0].content else ContentOf(es[1..], k)
  }

  function Trimmed<K, V>(es: seq<Entry<K, V>>, maxSize: nat): seq<Entry<K, V>> {
    if |es| > maxSize then es[..|es| - 1] else es
  }

  datatype Op<K, V> = Put(key: K, value: V) | Update(key: K, value: V) | Get(key: K) | Pop(key: K)

  /** What each operation makes of the list. */
  function After<K(==), V>(es: seq<Entry<K, V>>, maxSize: nat, op: Op<K, V>): seq<Entry<K, V>> {
    match op
    case Put(k, v) => if Has(es, k) then es else Trimmed([Entry(k, Held(v))] + es, maxSize)
    case Update(k, v) => Trimmed([Entry(k, Held(v))] + Without(es, k), maxSize)
    case Get(k) => if Has(es, k) then [Entry(k, MovedFrom)] + Without(es, k) else es
    case Pop(k) => Without(es, k)
  }

  // ---------- the code ----------

  /** A list node; a reference to it is an iterator. */
  class Node<K, V> {
    const key: K
    var content: Content<V>

    constructor (key: K, content: Content<V>)
      ensures this.key == key && this.content == content
    {
      this.key, this.content := key, content;
    }
  }

  ghost function EntriesOf<K, V>(nodes: seq<Node<K, V>>): (es: seq<Entry<K, V>>)
    reads nodes
    ensures |es| == |nodes|
    ensures forall i :: 0 <= i < |nodes| ==> es[i] == Entry(nodes[i].key, nodes[i].content)
  {
    seq(|nodes|, i requires 0 <= i < |nodes| reads nodes => Entry(nodes[i].key, nodes[i].content))
  }

  /** Index and list hold the same distinct keys, and each iterator is the node of its key. */
  ghost predicate IndexOk<K, V>(lookup: map<K, Node<K, V>>, list: seq<Node<K, V>>) {
    && (forall i, j :: 0 <= i < j < |list| ==> list[i].key != list[j].key)
    && (forall i :: 0 <= i < |list| ==> list[i].key in lookup && lookup[list[i].key] == list[i])
    && (forall k :: k in lookup ==> lookup[k].key == k && lookup[k] in list)
  }

  function Cut<T>(s: seq<T>, k: nat): (r: seq<T>)
    requires k < |s|
    ensures |r| == |s| - 1
    ensures forall i :: 0 <= i < |r| ==> r[i] == if i < k then s[i] else s[i + 1]
  {
    s[..k] + s[k + 1..]
  }

  lemma CutElsewhere<T>(a: seq<T>, b: seq<T>, k: nat)
    requires k < |a| == |b| && forall i :: 0 <= i < |a| && i != k ==> a[i] == b[i]
    ensures Cut(a, k) == Cut(b, k)
  {
  }

  lemma CutMembers<T>(s: seq<T>, k: nat)
    requires k < |s| && forall i, j :: 0 <= i < j < |s| ==> s[i] != s[j]
    ensures forall x :: x in Cut(s, k) <==> x in s && x != s[k]
  {
    var r := Cut(s, k);
    forall x | x in s && x != s[k] ensures x in r {
      var i :| 0 <= i < |s| && s[i] == x;
      assert r[if i < k then i else i - 1] == x;
    }
    forall x | x in r ensures x in s && x != s[k] {
      var i :| 0 <= i < |r| && r[i] == x;
      assert x == s[if i < k then i else i + 1];
    }
  }

  lemma CutKeepsIndex<K, V>(lookup: map<K, Node<K, V>>, list: seq<Node<K, V>>, k: nat)
    requires IndexOk(lookup, list) && k < |list|
    ensures IndexOk(lookup - {list[k].key}, Cut(list, k))
    ensures forall n :: n in Cut(list, k) <==> n in list && n != list[k]
  {
    CutMembers(list, k);
  }

  lemma FrontKeepsIndex<K, V>(lookup: map<K, Node<K, V>>, list: seq<Node<K, V>>, node: Node<K, V>)
    requires IndexOk(lookup, list) && node.key !in lookup
    ensures IndexOk(lookup[node.key := node], [node] + list)
    ensures forall n :: n in [node] + list <==> n == node || n in list
  {
    var m := lookup[node.key := node];
    forall k | k in m ensures m[k].key == k && m[k] in [node] + list {
      assert k == node.key || k in lookup;
    }
  }

  lemma SpliceKeepsIndex<K, V>(lookup: map<K, Node<K, V>>, list: seq<Node<K, V>>, k: nat)
    requires IndexOk(lookup, list) && k < |list|
    ensures IndexOk(lookup, [list[k]] + Cut(list, k))
    ensures forall n :: n in [list[k]] + Cut(list, k) <==> n in list
  {
    CutKeepsIndex(lookup, list, k);
    FrontKeepsIndex(lookup - {list[k].key}, Cut(list, k), list[k]);
    assert (lookup - {list[k].key})[list[k].key := list[k]] == lookup;
  }

  lemma EntriesCut<K, V>(nodes: seq<Node<K, V>>, k: nat)
    requires k < |nodes|
    ensures EntriesOf(Cut(nodes, k)) == Cut(EntriesOf(nodes), k)
  {
  }

  lemma EntriesCons<K, V>(node: Node<K, V>, nodes: seq<Node<K, V>>)
    ensures EntriesOf([node] + nodes) == [Entry(node.key, node.content)] + EntriesOf(nodes)
  {
  }

  class Cache<K(==), V> {
    const maxSize: nat
    var lookup: map<K, Node<K, V>>
    var list: seq<Node<K, V>>

    ghost predicate Indexed()
      reads this
    {
      IndexOk(lookup, list)
    }

    ghost predicate Valid()
      reads this
    {
      Indexed() && |list| <= maxSize
    }

    ghost function Entries(): seq<Entry<K, V>>
      reads this, list
    {
      EntriesOf(list)
    }

    constructor (maxSize: nat)
      ensures Valid() && Entries() == [] && this.maxSize == maxSize
    {
      this.maxSize := maxSize;
      lookup, list := map[], [];
    }

    /** The index answers as the list would, and gives the entry at the key's position. */
    lemma Find(key: K) returns (i: nat)
      requires Indexed()
      ensures Has(Entries(), key) <==> key in lookup
      ensures key in lookup ==>
        && i < |list| && list[i] == lookup[key] && lookup[key].key == key
        && (forall j :: 0 <= j < |list| && list[j] == lookup[key] ==> j == i)
        && ContentOf(Entries(), key) == list[i].content
        && Without(Entries(), key) == Cut(Entries(), i)
      ensures key !in lookup ==> Without(Entries(), key) == Entries()
    {
      i := 0;
      if key in lookup {
        i :| 0 <= i < |list| && list[i] == lookup[key];
        assert Entries()[i].key == key;
        WithoutAt(Entries(), key, i);
      } else {
        WithoutAbsent(Entries(), key);
      }
    }

    method Put(key: K, value: V) returns (ok: bool)
      requires Valid()
      modifies this
      ensures Valid() && forall n :: n in list ==> n in old(list) || fresh(n)
      ensures ok == !Has(old(Entries()), key)
      ensures Entries() == After(old(Entries()), maxSize, Op.Put(key, value))
    {
      hide IndexOk;
      ghost var i := Find(key);
      if key in lookup {
        return false;
      }
      PushFront(key, value);
      Trim();
      return true;
    }

    method Update(key: K, value: V)
      requires Valid()
      modifies this
      ensures Valid() && forall n :: n in list ==> n in old(list) || fresh(n)
      ensures Entries() == After(old(Entries()), maxSize, Op.Update(key, value))
    {
      hide IndexOk, Has, Without, ContentOf;
      ghost var i := Find(key);
      if key in lookup {
        Erase(key);
      }
      PushFront(key, value);
      Trim();
    }

    method Pop(key: K) returns (out: Option<Content<V>>)
      requires Valid()
      modifies this, list
      ensures Valid() && forall n :: n in list ==> n in old(list)
      ensures out == if Has(old(Entries()), key) then Some(ContentOf(old(Entries()), key)) else None
      ensures Entries() == After(old(Entries()), maxSize, Op.Pop(key)) && key !in lookup
    {
      hide IndexOk;
      ghost var i := Find(key);
      if key !in lookup {
        return None;
      }
      var node := lookup[key];
      out := Some(node.content);
      Erase(key);
      node.content := MovedFrom;
    }

    method Get(key: K) returns (out: Option<Content<V>>)
      requires Valid()
      modifies this, list
      ensures Valid() && forall n :: n in list ==> n in old(list)
      ensures out == if Has(old(Entries()), key) then Some(ContentOf(old(Entries()), key)) else None
      ensures Entries() == After(old(Entries()), maxSize, Op.Get(key))
    {
      hide IndexOk, Has, Without, ContentOf;
      ghost var i := Find(key);
      if key !in lookup {
        return None;
      }
      var node := lookup[key];
      var value := MoveOut(node);
      out := Some(value);
      SpliceToFront(node);
    }

    /** Moves the value out of a node of the list; the other nodes keep theirs. */
    method MoveOut(node: Node<K, V>) returns (value: Content<V>)
      requires Indexed() && node.key in lookup && lookup[node.key] == node
      modifies node
      ensures Indexed() && value == old(node.content) && node.content == MovedFrom
      ensures Without(Entries(), node.key) == Without(old(Entries()), node.key)
    {
      hide IndexOk, Has, Without, ContentOf;
      ghost var es := Entries();
      ghost var i := Find(node.key);
      value := node.content;
      node.content := MovedFrom;
      assert forall j :: 0 <= j < |list| && j != i ==> list[j] != node;
      CutElsewhere(es, Entries(), i);
      ghost var j := Find(node.key);
    }

    /** Inserts a node for a key the cache does not hold. */
    method PushFront(key: K, value: V)
      requires Indexed() && key !in lookup
      modifies this
      ensures Indexed() && Entries() == [Entry(key, Held(value))] + old(Entries())
      ensures |list| == |old(list)| + 1 && fresh(list[0]) && list[1..] == old(list)
    {
      hide IndexOk;
      var node := new Node(key, Held(value));
      FrontKeepsIndex(lookup, list, node);
      EntriesCons(node, list);
      list := [node] + list;
      lookup := lookup[key := node];
    }

    method Erase(key: K)
      requires Indexed() && key in lookup
      modifies this
      ensures Indexed() && key !in lookup && Entries() == Without(old(Entries()), key)
      ensures |list| < |old(list)| && (forall n :: n in list ==> n in old(list)) && old(lookup)[key] !in list
    {
      hide IndexOk, Has, Without, ContentOf;
      ghost var i := Find(key);
      var k :| 0 <= k < |list| && list[k] == lookup[key];
      assert k == i;
      CutKeepsIndex(lookup, list, k);
      EntriesCut(list, k);
      list := Cut(list, k);
      lookup := lookup - {key};
    }

    method SpliceToFront(node: Node<K, V>)
      requires Indexed() && node.key in lookup && lookup[node.key] == node
      modifies this`list
      ensures Indexed() && |list| == |old(list)| && forall n :: n in list ==> n in old(list)
      ensures Entries() == [Entry(node.key, node.content)] + Without(old(Entries()), node.key)
    {
      hide IndexOk, Has, Without, ContentOf;
      ghost var i := Find(node.key);
      var k :| 0 <= k < |list| && list[k] == node;
      assert k == i;
      SpliceKeepsIndex(lookup, list, k);
      EntriesCut(list, k);
      EntriesCons(node, Cut(list, k));
      list := [node] + Cut(list, k);
    }

    method Trim()
      requires Indexed() && |list| <= maxSize + 1
      modifies this
      ensures Valid() && Entries() == Trimmed(old(Entries()), maxSize) && list <= old(list)
    {
      if |list| > maxSize {
        var last := list[|list| - 1];
        lookup := lookup - {last.key};
        list := list[..|list| - 1];
      }
    }
  }

  lemma {:induction false} WithoutAt<K, V>(es: seq<Entry<K, V>>, k: K, i: nat)
    requires i < |es| && es[i].key == k && forall j :: 0 <= j < i ==> es[j].key != k
    ensures Without(es, k) == Cut(es, i) && ContentOf(es, k) == es[i].content
  {
    if i > 0 {
      WithoutAt(es[1..], k, i - 1);
      assert Cut(es, i) == [es[0]] + Cut(es[1..], i - 1);
    }
  }

  lemma {:induction false} WithoutAbsent<K, V>(es: seq<Entry<K, V>>, k: K)
    requires !Has(es, k)
    ensures Without(es, k) == es
  {
    if es != [] {
      assert es[0].key != k;
      forall i | 0 <= i < |es[1..]| ensures es[1..][i].key != k { assert es[1..][i] == es[i + 1]; }
      WithoutAbsent(es[1..], k);
    }
  }

  // ---------- what the list means after any history ----------

  /** The list after a history, from an empty cache. */
  function Run<K(==), V>(maxSize: nat, ops: seq<Op<K, V>>): seq<Entry<K, V>> {
    if ops == [] then [] else After(Run(maxSize, ops[..|ops| - 1]), maxSize, ops[|ops| - 1])
  }

  /** The operation uses k: it stores a value for k, or finds k with Get. */
  predicate Uses<K(==), V>(es: seq<Entry<K, V>>, op: Op<K, V>, k: K) {
    op.key == k && match op
                   case Put(_, _) => !Has(es, k)
                   case Update(_, _) => true
                   case Get(_) => Has(es, k)
                   case Pop(_) => false
  }

  /** When k was last used: the number of operations up to and including that one, 0 if never. */
  function LastUse<K(==), V>(maxSize: nat, ops: seq<Op<K, V>>, k: K): (n: nat)
    ensures n <= |ops|
  {
    if ops == [] then 0
    else if Uses(Run(maxSize, ops[..|ops| - 1]), ops[|ops| - 1], k) then |ops|
    else LastUse(maxSize, ops[..|ops| - 1], k)
  }

  /** What the last use of a key leaves in the cache. */
  function Left<K, V>(op: Op<K, V>): Content<V> {
    match op
    case Put(_, v) => Held(v)
    case Update(_, v) => Held(v)
    case _ => MovedFrom
  }

  /** Entry i carries what the last use of its key left, and was used later than the entries behind it. */
  ghost predicate EntryOk<K, V>(maxSize: nat, ops: seq<Op<K, V>>, es: seq<Entry<K, V>>, i: nat)
    requires i < |es|
  {
    var n := LastUse(maxSize, ops, es[i].key);
    && n > 0 && es[i].content == Left(ops[n - 1])
    && forall j :: i < j < |es| ==> LastUse(maxSize, ops, es[j].key) < n
  }

  ghost predicate Recency<K, V>(maxSize: nat, ops: seq<Op<K, V>>, es: seq<Entry<K, V>>) {
    forall i :: 0 <= i < |es| ==> EntryOk(maxSize, ops, es, i)
  }

  lemma CutKeepsRecency<K, V>(maxSize: nat, ops: seq<Op<K, V>>, es: seq<Entry<K, V>>, i: nat)
    requires Recency(maxSize, ops, es) && i < |es|
    ensures Recency(maxSize, ops, Cut(es, i))
    ensures forall j :: 0 <= j < |es| && j != i ==> es[j].key != es[i].key
  {
    var r := Cut(es, i);
    forall j | 0 <= j < |es| && j != i ensures es[j].key != es[i].key {
      assert EntryOk(maxSize, ops, es, i) && EntryOk(maxSize, ops, es, j);
    }
    forall j | 0 <= j < |r| ensures EntryOk(maxSize, ops, r, j) {
      assert EntryOk(maxSize, ops, es, if j < i then j else j + 1);
    }
  }

  /** Taking a key out keeps the order of the others. */
  lemma WithoutKeepsRecency<K, V>(maxSize: nat, ops: seq<Op<K, V>>, es: seq<Entry<K, V>>, k: K)
    requires Recency(maxSize, ops, es)
    ensures Recency(maxSize, ops, Without(es, k)) && !Has(Without(es, k), k)
    ensures |Without(es, k)| == if Has(es, k) then |es| - 1 else |es|
  {
    if Has(es, k) {
      var i :| 0 <= i < |es| && es[i].key == k;
      CutKeepsRecency(maxSize, ops, es, i);
      WithoutAt(es, k, i);
    } else {
      WithoutAbsent(es, k);
    }
  }

  /** An operation that does not use the keys of a list changes nothing about them. */
  lemma UnusedKeepRecency<K, V>(maxSize: nat, ops: seq<Op<K, V>>, op: Op<K, V>, es: seq<Entry<K, V>>)
    requires Recency(maxSize, ops, es)
    requires forall i :: 0 <= i < |es| ==> !Uses(Run(maxSize, ops), op, es[i].key)
    ensures Recency(maxSize, ops + [op], es)
    ensures forall i :: 0 <= i < |es| ==> LastUse(maxSize, ops + [op], es[i].key) < |ops| + 1
  {
    assert (ops + [op])[..|ops|] == ops;
    forall i | 0 <= i < |es| ensures EntryOk(maxSize, ops + [op], es, i) {
      assert EntryOk(maxSize, ops, es, i);
    }
  }

  lemma FrontKeepsRecency<K, V>(maxSize: nat, ops: seq<Op<K, V>>, es: seq<Entry<K, V>>, e: Entry<K, V>)
    requires Recency(maxSize, ops, es) && ops != [] && LastUse(maxSize, ops, e.key) == |ops|
    requires e.content == Left(ops[|ops| - 1])
    requires forall i :: 0 <= i < |es| ==> LastUse(maxSize, ops, es[i].key) < |ops|
    ensures Recency(maxSize, ops, [e] + es)
  {
    forall i | 0 <= i < |es| + 1 ensures EntryOk(maxSize, ops, [e] + es, i) {
      if i > 0 { assert EntryOk(maxSize, ops, es, i - 1); }
    }
  }

  /** The list an operation makes before an overlong one is trimmed. */
  function Untrimmed<K(==), V>(es: seq<Entry<K, V>>, op: Op<K, V>): seq<Entry<K, V>> {
    match op
    case Put(k, v) => if Has(es, k) then es else [Entry(k, Held(v))] + es
    case Update(k, v) => [Entry(k, Held(v))] + Without(es, k)
    case Get(k) => if Has(es, k) then [Entry(k, MovedFrom)] + Without(es, k) else es
    case Pop(k) => Without(es, k)
  }

  lemma UntrimmedRecency<K, V>(maxSize: nat, ops: seq<Op<K, V>>, op: Op<K, V>)
    requires Recency(maxSize, ops, Run(maxSize, ops)) && |Run(maxSize, ops)| <= maxSize
    ensures var l := Untrimmed(Run(maxSize, ops), op);
      && Recency(maxSize, ops + [op], l) && |l| <= maxSize + 1
      && After(Run(maxSize, ops), maxSize, op) == Trimmed(l, maxSize)
  {
    var es, k := Run(maxSize, ops), op.key;
    assert (ops + [op])[..|ops|] == ops;
    WithoutKeepsRecency(maxSize, ops, es, k);
    if Uses(es, op, k) {
      var r := if op.Put? then es else Without(es, k);
      assert !Has(r, k);
      UnusedKeepRecency(maxSize, ops, op, r);
      FrontKeepsRecency(maxSize, ops + [op], r, Entry(k, Left(op)));
    } else {
      UnusedKeepRecency(maxSize, ops, op, if op.Pop? then Without(es, k) else es);
    }
  }

  /** After any history the cache holds at most maxSize keys, without repetition, in the order of their last
      use, each with what that use left: the stored value, or nothing once Get has moved it out. */
  lemma {:induction false} RunKeepsRecency<K, V>(maxSize: nat, ops: seq<Op<K, V>>)
    ensures Recency(maxSize, ops, Run(maxSize, ops)) && |Run(maxSize, ops)| <= maxSize
  {
    if ops != [] {
      var before, op := ops[..|ops| - 1], ops[|ops| - 1];
      RunKeepsRecency(maxSize, before);
      UntrimmedRecency(maxSize, before, op);
      assert before + [op] == ops;
      var l := Untrimmed(Run(maxSize, before), op);
      forall i | 0 <= i < |Run(maxSize, ops)| ensures EntryOk(maxSize, ops, Run(maxSize, ops), i) {
        assert EntryOk(maxSize, ops, l, i);
      }
    }
  }

  /** A key that an operation drops, other than Pop of that key, was used less recently than every key that
      stays, and the cache is full. */
  lemma EvictsLeastRecentlyUsed<K, V>(maxSize: nat, ops: seq<Op<K, V>>, op: Op<K, V>, k: K)
    requires Has(Run(maxSize, ops), k) || (op.key == k && (op.Put? || op.Update?))
    requires !Has(Run(maxSize, ops + [op]), k) && op != Op.Pop(k)
    ensures |Run(maxSize, ops + [op])| == maxSize
    ensures forall e :: e in Run(maxSize, ops + [op]) ==>
              LastUse(maxSize, ops + [op], k) < LastUse(maxSize, ops + [op], e.key)
  {
    var es, l := Run(maxSize, ops), Untrimmed(Run(maxSize, ops), op);
    RunKeepsRecency(maxSize, ops);
    UntrimmedRecency(maxSize, ops, op);
    assert (ops + [op])[..|ops|] == ops;
    var now := Run(maxSize, ops + [op]);
    assert now == Trimmed(l, maxSize);
    HasAfter(es, op, k);
    hide Has, Run, Untrimmed, LastUse;
    DroppedIsLast(l, maxSize, k);
    forall e | e in now ensures LastUse(maxSize, ops + [op], k) < LastUse(maxSize, ops + [op], e.key) {
      var j :| 0 <= j < |now| && now[j] == e;
      assert EntryOk(maxSize, ops + [op], l, j);
    }
  }

  /** Pop takes out the key's entry and no other. */
  lemma PopTakesOut<K, V>(maxSize: nat, ops: seq<Op<K, V>>, k: K)
    ensures var es, now := Run(maxSize, ops), Run(maxSize, ops + [Op.Pop(k)]);
      && !Has(now, k)
      && (forall e :: e in now ==> e in es)
      && (forall e :: e in es && e.key != k ==> e in now)
      && |now| == (if Has(es, k) then |es| - 1 else |es|)
  {
    var es := Run(maxSize, ops);
    assert (ops + [Op.Pop(k)])[..|ops|] == ops;
    RunKeepsRecency(maxSize, ops);
    WithoutKeepsRecency(maxSize, ops, es, k);
    hide Run;
    if Has(es, k) {
      var i :| 0 <= i < |es| && es[i].key == k;
      CutKeepsRecency(maxSize, ops, es, i);
      WithoutAt(es, k, i);
      hide Recency, Has, Without;
      forall e | e in es && e.key != k ensures e in Cut(es, i) {
        var j :| 0 <= j < |es| && es[j] == e;
        assert Cut(es, i)[if j < i then j else j - 1] == e;
      }
    } else {
      WithoutAbsent(es, k);
    }
  }

  lemma DroppedIsLast<K, V>(l: seq<Entry<K, V>>, maxSize: nat, k: K)
    requires Has(l, k) && !Has(Trimmed(l, maxSize), k) && |l| <= maxSize + 1
    ensures |l| == maxSize + 1 && l[maxSize].key == k
  {
    var i :| 0 <= i < |l| && l[i].key == k;
    assert forall j :: 0 <= j < |Trimmed(l, maxSize)| ==> Trimmed(l, maxSize)[j] == l[j];
  }

  lemma HasAfter<K, V>(es: seq<Entry<K, V>>, op: Op<K, V>, k: K)
    requires Has(es, k) || (op.key == k && (op.Put? || op.Update?))
    requires op != Op.Pop(k)
    ensures Has(Untrimmed(es, op), k)
  {
    var l := Untrimmed(es, op);
    if op.key == k {
      if !(op.Put? && Has(es, k)) { assert l[0].key == k; }
    } else if l != es {
      var i :| 0 <= i < |es| && es[i].key == k;
      if op.Put? {
        assert l[i + 1].key == k;
      } else {
        WithoutOther(es, op.key, k);
        var j :| 0 <= j < |Without(es, op.key)| && Without(es, op.key)[j].key == k;
        assert l[if op.Pop? then j else j + 1].key == k;
      }
    }
  }

  lemma {:induction false} WithoutOther<K, V>(es: seq<Entry<K, V>>, k: K, other: K)
    requires k != other && Has(es, other)
    ensures Has(Without(es, k), other)
  {
    var i :| 0 <= i < |es| && es[i].key == other;
    var r := Without(es, k);
    if es[0].key == k {
      assert r[i - 1].key == other;
    } else if i == 0 {
      assert r[0].key == other;
    } else {
      assert es[1..][i - 1].key == other;
      WithoutOther(es[1..], k, other);
      var j :| 0 <= j < |Without(es[1..], k)| && Without(es[1..], k)[j].key == other;
      assert r[j + 1].key == other;
    }
  }
}
