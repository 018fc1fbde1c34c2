/** The list of Source/Core/Container/SPSC.h on the heap, for histories in which the operations of the
    producer and of the consumer do not overlap: how nodes are linked, recycled, counted and deleted. */
module SpscHeap {
  import opened Common

  datatype Cell<T> = Raw | Live(value: T)

  class Node<T> {
    var next: Node?<T>
    var cell: Cell<T>

    constructor ()
      ensures next == null && cell == Raw
    {
      next, cell := null, Raw;
    }
  }

  class SpscQueue<T> {
    var tail: Node<T>
    var head: Node<T>
    var first: Node<T>
    var tailCopy: Node<T>

    /** All linked nodes, the positions of tail_copy_ and tail_ among them, and the greatest number of
        elements the queue has held. */
    ghost var chain: seq<Node<T>>
    ghost var copyAt: nat
    ghost var tailAt: nat
    ghost var highWater: nat

    /** The nodes form one chain; those behind the tail hold the elements, the others hold nothing. */
    ghost predicate Chained()
      reads this`tail, this`head, this`first, this`tailCopy, this`chain, this`copyAt, this`tailAt, chain
    {
      && copyAt <= tailAt < |chain|
      && chain[0] == first && chain[copyAt] == tailCopy && chain[tailAt] == tail && chain[|chain| - 1] == head
      && (forall i, j :: 0 <= i < j < |chain| ==> chain[i] != chain[j])
      && (forall k :: 0 <= k < |chain| - 1 ==> chain[k].next == chain[k + 1])
      && chain[|chain| - 1].next == null
      && (forall k :: 0 <= k < |chain| ==> (chain[k].cell.Live? <==> k > tailAt))
    }

    /** Nodes are allocated only when every node is in use: there is one more than the high-water mark. */
    ghost predicate Valid()
      reads this, chain
    {
      Chained() && |chain| == 1 + highWater
    }

    ghost function Contents(): (s: seq<T>)
      requires Chained()
      reads this`tail, this`head, this`first, this`tailCopy, this`chain, this`copyAt, this`tailAt, chain
      ensures |s| == |chain| - 1 - tailAt
      ensures forall i :: 0 <= i < |s| ==> chain[tailAt + 1 + i].cell == Live(s[i])
    {
      var held := chain[tailAt + 1..];
      seq(|held|, i requires 0 <= i < |held| && held[i].cell.Live? reads held => held[i].cell.value)
    }

    constructor ()
      ensures Valid() && fresh(chain) && Contents() == [] && highWater == 0
    {
      var node := new Node<T>();
      tail, head, first, tailCopy := node, node, node, node;
      chain, copyAt, tailAt, highWater := [node], 0, 0, 0;
    }

    /** Takes the first passed node out of the chain, if there is one, and allocates a node otherwise. */
    method AllocNode() returns (node: Node<T>)
      requires Valid()
      modifies this, chain
      ensures Chained() && Contents() == old(Contents()) && highWater == old(highWater)
      ensures node !in chain && node.next == null && node.cell == Raw
      ensures if old(tailAt) > 0
              then node == old(chain)[0] && chain == old(chain)[1..] && tailAt == old(tailAt) - 1
              else fresh(node) && chain == old(chain) && tailAt == 0
    {
      if first != tailCopy {
        node := AllocateFromCache();
        return;
      }
      LoadTail();
      if first != tailCopy {
        node := AllocateFromCache();
        return;
      }
      node := new Node<T>();
    }

    method LoadTail()
      requires Valid()
      modifies this`tailCopy, this`copyAt
      ensures Valid() && Contents() == old(Contents()) && copyAt == tailAt
    {
      tailCopy, copyAt := tail, tailAt;
    }

    method AllocateFromCache() returns (node: Node<T>)
      requires Valid() && copyAt > 0
      modifies this, chain
      ensures Chained() && Contents() == old(Contents()) && highWater == old(highWater)
      ensures node == old(chain)[0] && chain == old(chain)[1..] && tailAt == old(tailAt) - 1
      ensures node !in chain && node.next == null && node.cell == Raw
    {
      node := first;
      assert chain[0].next == chain[1];
      first := first.next;
      node.next := null;
      chain, copyAt, tailAt := chain[1..], copyAt - 1, tailAt - 1;
    }

    /** The second half of Enqueue: construct the value in the node, link it behind the head, move the head. */
    method Append(node: Node<T>, v: T)
      requires Chained() && node !in chain && node.next == null
      modifies this`head, this`chain, this`highWater, node, head`next
      ensures Valid() && chain == old(chain) + [node]
      ensures Contents() == old(Contents()) + [v]
    {
      node.cell := Live(v);
      head.next := node;
      head := node;
      chain := chain + [node];
      highWater := |chain| - 1;
    }

    method Enqueue(v: T)
      requires Valid()
      modifies this, chain
      ensures Valid() && forall n :: n in chain ==> n in old(chain) || fresh(n)
      ensures Contents() == old(Contents()) + [v]
      ensures highWater == if |Contents()| > old(highWater) then |Contents()| else old(highWater)
      ensures |chain| == if old(tailAt) > 0 then |old(chain)| else |old(chain)| + 1
    {
      var node := AllocNode();
      Append(node, v);
    }

    method Dequeue() returns (r: Option<T>)
      requires Valid()
      modifies this, chain
      ensures Valid() && chain == old(chain) && highWater == old(highWater)
      ensures r == if old(Contents()) == [] then None else Some(old(Contents())[0])
      ensures Contents() == if old(Contents()) == [] then [] else old(Contents())[1..]
    {
      var next := tail.next;
      if next == null {
        return None;
      }
      assert next == chain[tailAt + 1];
      r := Some(next.cell.value);
      next.cell := Raw;
      tail, tailAt := next, tailAt + 1;
    }

    /** The destructor: every node is deleted once, in two phases, and every live element destroyed once. */
    method Destroy() returns (deleted: seq<Node<T>>, destroyed: seq<T>)
      requires Valid()
      ensures deleted == chain
      ensures destroyed == Contents()
    {
      var node: Node?<T> := first;
      deleted, destroyed := [], [];
      var continued := true;
      ghost var k := 0;
      while continued
        invariant 0 <= k <= tailAt + 1 && deleted == chain[..k]
        invariant continued <==> k <= tailAt
        invariant node == if k < |chain| then chain[k] else null
        decreases tailAt + 1 - k
      {
        var next := node.next;
        continued := node != tail;
        deleted := deleted + [node];
        node, k := next, k + 1;
      }
      while node != null
        invariant tailAt + 1 <= k <= |chain| && deleted == chain[..k]
        invariant node == if k < |chain| then chain[k] else null
        invariant destroyed == Contents()[..k - tailAt - 1]
        decreases |chain| - k
      {
        var next := node.next;
        destroyed := destroyed + [node.cell.value];
        deleted := deleted + [node];
        node, k := next, k + 1;
      }
    }
  }
}
