/** The send side of Source/Core/Network/Connection.cpp: messages are queued, serialized into the output stream,
    and handed to the socket one buffer at a time. */
module Sending {
  import opened Common
  import opened Wire
  import opened Output

  /** A message to send; a protobuf message by its serialized bytes. */
  datatype SendNode = RawNode(message: Message) | ProtobufNode(message: Message)

  function Messages(nodes: seq<SendNode>): (ms: seq<Message>)
    ensures |ms| == |nodes|
  {
    seq(|nodes|, i requires 0 <= i < |nodes| => nodes[i].message)
  }

  function Encoded(nodes: seq<SendNode>): seq<Byte> {
    EncodeAll(Messages(nodes))
  }

  lemma EncodedOne(nodes: seq<SendNode>, node: SendNode)
    ensures Encoded(nodes + [node]) == Encoded(nodes) + Encode(node.message)
  {
    EncodeAllAppend(Messages(nodes), [node.message]);
    assert Messages(nodes + [node]) == Messages(nodes) + [node.message];
    assert EncodeAll([node.message]) == Encode(node.message) + EncodeAll([]);
  }

  /** Both kinds of node write the same bytes, but a protobuf node without a body reports failure afterwards. */
  method SerializeTo(node: SendNode, output: OutputStream) returns (ok: bool)
    requires output.Valid()
    modifies output, output.Tail()`end, output.TailData()
    ensures ok == (node.RawNode? || node.message.body != [])
    ensures output.Valid() && output.Contents() == old(output.Contents()) + Encode(node.message)
    ensures old(output.buffers) <= output.buffers && forall b :: b in old(output.buffers) ==> Kept(b)
    ensures forall i :: |old(output.buffers)| <= i < |output.buffers| ==>
      fresh(output.buffers[i]) && fresh(output.buffers[i].data)
  {
    var writer := new StreamWriter(output);
    output.Untouched();
    ok := writer.WriteMessage(node.message.id, node.message.body);
    match node
    case RawNode(_) =>
    case ProtobufNode(m) => ok := ok && |m.body| > 0;
  }

  datatype Event =
    | Push(node: SendNode)
    | Flush(ready: nat)
    | Completed(error: bool, transferred: nat, ready: nat)

  /** The nodes sent, in order. */
  function Sent(events: seq<Event>): seq<SendNode> {
    if events == [] then []
    else Sent(events[..|events| - 1]) + if events[|events| - 1].Push? then [events[|events| - 1].node] else []
  }

  /** A sender in numbers: whether the connection is open, the bytes lent to the socket, the nodes queued, and the
      bytes written. */
  datatype Snapshot = Snapshot(isOpen: bool, lent: nat, queued: nat, written: nat)

  /** What an event makes of the numbers.  A flush serializes the linked nodes and starts a write if none runs and
      there was one.  A completion of a write in flight moves its bytes to those written; while bytes are left the
      next write runs, and the sender becomes idle only if no linked node waits. */
  predicate Follows(before: Snapshot, event: Event, after: Snapshot) {
    match event
    case Push(node) => after == before.(queued := before.queued + 1)
    case Flush(ready) =>
      var k := Min(ready, before.queued);
      && after.isOpen == before.isOpen && after.written == before.written && after.queued == before.queued - k
      && (if before.isOpen && before.lent == 0 then after.lent > 0 <==> k > 0 else after.lent == before.lent)
    case Completed(error, transferred, ready) =>
      if before.lent == 0 || transferred > before.lent then after == before
      else if error then after == before.(isOpen := false, lent := 0)
      else
        && after.isOpen && after.written == before.written + transferred
        && (transferred < before.lent ==> after.lent > 0)
        && (after.queued == before.queued || after.queued == before.queued - Min(ready, before.queued))
        && (after.lent == 0 ==> after.queued == before.queued && (ready == 0 || before.queued == 0))
  }

  class Sender {
    const output: OutputStream
    var queue: seq<SendNode>
    var isSending: bool
    /** The socket: what it is writing, what it has written, and whether it is open. */
    var writing: Option<BufferView>
    var written: seq<Byte>
    var isOpen: bool
    /** The nodes serialized since the connection began. */
    ghost var popped: seq<SendNode>

    /** The bytes lent to the socket. */
    ghost function Lent(): (s: seq<Byte>)
      reads this, output, output.buffers, Arrays(output.buffers)
      requires output.Valid() && LentOk()
      ensures |s| == if writing.None? then 0 else writing.value.length
    {
      if writing.None? then [] else writing.value.buffer.data[writing.value.offset..][..writing.value.length]
    }

    /** The socket writes from the front of the queue of bytes. */
    ghost predicate LentOk()
      reads this, output, output.buffers
    {
      writing.Some? ==>
        var v := writing.value;
        && output.buffers != [] && v.buffer == output.buffers[0] && v.offset == v.buffer.start
        && 0 < v.length && v.offset + v.length <= v.buffer.end <= v.buffer.data.Length
    }

    /** The socket is lent all bytes waiting in the first buffer. */
    ghost predicate LendsFront()
      reads this, output, output.buffers
    {
      output.buffers != [] &&
      var b := output.buffers[0]; b.start < b.end && writing == Some(BufferView(b, b.start, b.end - b.start))
    }

    ghost predicate Valid()
      reads this, output, output.buffers, Arrays(output.buffers)
    {
      && output.Valid() && LentOk()
      && (isOpen ==> (isSending <==> writing.Some?)) && (!isOpen ==> isSending && writing.None?)
      && (!isSending ==> output.Contents() == [])
      && Encoded(popped) == written + output.Contents()
    }

    constructor ()
      ensures Valid() && isOpen && !isSending && queue == [] && popped == [] && written == [] && fresh(output)
    {
      output := new OutputStream();
      queue, isSending, writing, written, isOpen := [], false, None, [], true;
      popped := [];
      new;
      assert output.Contents() == [] by { assert Pieces(output.buffers) == []; }
    }

    method BeginConnection()
      modifies this, output`buffers
      ensures Valid() && isOpen && !isSending && queue == [] && popped == [] && written == []
    {
      isSending := false;
      output.Clear();
      queue, writing, written, isOpen := [], None, [], true;
      popped := [];
    }

    method Send(node: SendNode)
      requires Valid()
      modifies this`queue
      ensures Valid() && queue == old(queue) + [node]
    {
      queue := queue + [node];
      output.Untouched();
    }

    /** Takes one message off the queue and serializes it behind what waits already. */
    method PopAndSerialize()
      requires output.Valid() && LentOk() && queue != []
      requires Encoded(popped) == written + output.Contents()
      modifies this`queue, this`popped, output, output.Tail()`end, output.TailData()
      ensures output.Valid() && LentOk() && Lent() == old(Lent())
      ensures old(output.buffers) <= output.buffers
      ensures forall i :: |old(output.buffers)| <= i < |output.buffers| ==>
        fresh(output.buffers[i]) && fresh(output.buffers[i].data)
      ensures queue == old(queue)[1..] && popped == old(popped) + [old(queue)[0]]
      ensures Encoded(popped) == written + output.Contents() && output.Contents() != []
    {
      hide Concat, Pieces, Separate, Encoded;
      var node := queue[0];
      ghost var was := output.Contents();
      EncodedOne(popped, node);
      Appended(written, was, Encode(node.message));
      queue := queue[1..];
      popped := popped + [node];
      output.Untouched();
      label before:
      var ok := SerializeTo(node, output);
      LentKept@before();
    }

    /** Writing behind the buffers' ends leaves the lent bytes alone. */
    twostate lemma LentKept()
      requires old(output.Valid() && LentOk()) && output.Valid() && writing == old(writing)
      requires old(output.buffers) <= output.buffers && forall b :: b in old(output.buffers) ==> Kept(b)
      ensures LentOk() && Lent() == old(Lent())
    {
      if writing.Some? {
        var v := writing.value;
        assert Kept(v.buffer);
        ShorterPrefix(v.buffer.data[..], old(v.buffer.data[..]), old(v.buffer.end), v.offset + v.length);
        assert Lent() == v.buffer.data[..v.offset + v.length][v.offset..];
        assert old(Lent()) == old(v.buffer.data[..v.offset + v.length])[v.offset..];
      }
    }

    /** The loop of FlushSend; `ready` nodes of the queue are linked. */
    method SerializePending(ready: nat) returns (count: nat)
      requires output.Valid() && LentOk() && Encoded(popped) == written + output.Contents()
      modifies this`queue, this`popped, output, output.Tail()`end, output.TailData()
      ensures output.Valid() && LentOk() && Lent() == old(Lent())
      ensures old(output.buffers) <= output.buffers
      ensures forall i :: |old(output.buffers)| <= i < |output.buffers| ==>
        fresh(output.buffers[i]) && fresh(output.buffers[i].data)
      ensures Encoded(popped) == written + output.Contents()
      ensures count == if ready < |old(queue)| then ready else |old(queue)|
      ensures popped == old(popped) + old(queue)[..count] && queue == old(queue)[count..]
      ensures if count == 0 then output.Contents() == old(output.Contents()) else output.Contents() != []
    {
      hide Concat, Pieces, Separate, Encoded, Packed, LentOk, OutputStream.Valid, OutputStream.Contents, Lent;
      count := 0;
      while count < ready && |queue| > 0
        invariant count <= ready && count <= |old(queue)|
        invariant output.Valid() && LentOk() && Lent() == old(Lent())
        invariant old(output.buffers) <= output.buffers
        invariant forall i :: |old(output.buffers)| <= i < |output.buffers| ==>
          fresh(output.buffers[i]) && fresh(output.buffers[i].data)
        invariant queue == old(queue)[count..] && popped == old(popped) + old(queue)[..count]
        invariant Encoded(popped) == written + output.Contents()
        invariant if count == 0 then output.Contents() == old(output.Contents()) else output.Contents() != []
      {
        Appended(old(popped), old(queue)[..count], [queue[0]]);
        PopAndSerialize();
        count := count + 1;
      }
    }

    /** Serializes what the queue can give, and starts a write if none runs. */
    method FlushSend(ready: nat)
      requires Valid()
      modifies this, output, output.Tail()`end, output.TailData()
      ensures Valid() && isOpen == old(isOpen) && written == old(written)
      ensures forall b :: b in output.buffers ==> b in old(output.buffers) || (fresh(b) && fresh(b.data))
      ensures var k := if ready < |old(queue)| then ready else |old(queue)|;
        popped == old(popped) + old(queue)[..k] && queue == old(queue)[k..]
      ensures popped + queue == old(popped + queue)
      ensures old(isSending) ==> isSending && writing == old(writing) && Lent() == old(Lent())
      ensures !old(isSending) ==> (isSending <==> output.Contents() != [])
      ensures !old(isSending) && isSending ==> LendsFront()
      ensures !old(isSending) ==> (isSending <==> ready > 0 && old(queue) != [])
    {
      hide Concat, Pieces, Separate, Encoded, Packed;
      var count := SerializePending(ready);
      Appended(old(popped), old(queue)[..count], old(queue)[count..]);
      assert old(queue)[..count] + old(queue)[count..] == old(queue);
      if isSending {
        return;
      }
      StartWrite();
      if !isSending && count > 0 {
        assert false;
      }
    }

    /** Hands the next buffer to the socket, if there is one. */
    method StartWrite()
      requires output.Valid() && writing == None && isOpen
      requires Encoded(popped) == written + output.Contents()
      modifies this`isSending, this`writing, output`buffers
      ensures Valid() && output.Contents() == old(output.Contents())
      ensures forall b :: b in output.buffers ==> b in old(output.buffers)
      ensures isSending <==> output.Contents() != []
      ensures isSending ==> LendsFront()
    {
      hide Concat, Pieces, Separate, Encoded;
      var view := output.NextBuffer();
      label before:
      if view.Some? {
        isSending, writing := true, view;
      } else {
        isSending := false;
      }
      output.Untouched@before();
    }

    /** The socket has taken `transferred` of the bytes lent to it, or has failed. */
    method OnSendCompleted(error: bool, transferred: nat, ready: nat)
      requires Valid() && writing.Some? && transferred <= writing.value.length
      modifies this, output, output.buffers, Arrays(output.buffers)
      ensures Valid() && isOpen == !error && popped + queue == old(popped + queue)
      ensures forall b :: b in output.buffers ==> b in old(output.buffers) || (fresh(b) && fresh(b.data))
      ensures written == if error then old(written) else old(written) + old(Lent())[..transferred]
      ensures error ==> queue == old(queue) && popped == old(popped)
      ensures !error && |old(output.Contents())| > transferred ==>
        isSending && queue == old(queue) && popped == old(popped)
      ensures !error && |old(output.Contents())| <= transferred ==>
        var k := if ready < |old(queue)| then ready else |old(queue)|;
        && popped == old(popped) + old(queue)[..k] && queue == old(queue)[k..]
        && (isSending <==> output.Contents() != []) && (isSending <==> k > 0)
      ensures !error && isSending ==> LendsFront()
    {
      hide Concat, Pieces, Separate, Encoded, Packed, LentOk, LendsFront;
      hide OutputStream.Valid, OutputStream.Contents, Lent;
      if error {
        Fail();
        return;
      }
      TakeWritten(transferred);
      StartWrite();
      if !isSending {
        assert output.buffers != [] ==> output.Back() in output.buffers;
        FlushSend(ready);
      }
    }

    /** The write has failed, and the connection with it. */
    method Fail()
      requires Valid() && writing.Some?
      modifies this`isOpen, this`writing
      ensures Valid() && !isOpen
    {
      hide Concat, Pieces, Separate, Encoded;
      isOpen, writing := false, None;
      output.Untouched();
    }

    /** Moves the bytes the socket has taken from the queue of bytes to those written. */
    method TakeWritten(transferred: nat)
      requires Valid() && writing.Some? && transferred <= writing.value.length
      modifies this`written, this`writing, output.buffers
      ensures output.Valid() && writing == None && isOpen && output.buffers == old(output.buffers)
      ensures written == old(written) + old(Lent())[..transferred]
      ensures Encoded(popped) == written + output.Contents()
      ensures |output.Contents()| == |old(output.Contents())| - transferred
    {
      hide Concat, Pieces, Separate, Encoded;
      var v := writing.value;
      ghost var lent := Lent();
      output.Consume(transferred);
      assert lent == v.buffer.data[v.offset..v.offset + v.length];
      assert lent[..transferred] == v.buffer.data[v.offset..v.buffer.start];
      Appended(old(written), lent[..transferred], output.Contents());
      label before:
      written := written + v.buffer.data[v.offset..v.offset + transferred];
      writing := None;
      output.Untouched@before();
    }

    /** At any time the bytes handed to the socket are the beginning of the serialized messages; when no write
        runs, nothing serialized is left behind. */
    lemma WireIsPrefix()
      requires Valid()
      ensures written + Lent() <= Encoded(popped) <= Encoded(popped + queue)
      ensures !isSending ==> written == Encoded(popped)
    {
      if writing.Some? { output.FrontPiece(); }
      assert Messages(popped + queue) == Messages(popped) + Messages(queue);
      EncodeAllAppend(Messages(popped), Messages(queue));
    }

    ghost function Now(): Snapshot
      reads this
    {
      Snapshot(isOpen, if writing.None? then 0 else writing.value.length, |queue|, |written|)
    }

    lemma LentFits()
      requires Valid() && writing.Some?
      ensures 0 < writing.value.length <= |output.Contents()|
    {
      output.FrontPiece();
    }

    method Handle(event: Event)
      requires Valid()
      modifies this, output, output.buffers, Arrays(output.buffers)
      ensures Valid() && Follows(old(Now()), event, Now())
      ensures popped + queue == old(popped + queue) + if event.Push? then [event.node] else []
      ensures forall b :: b in output.buffers ==> b in old(output.buffers) || (fresh(b) && fresh(b.data))
    {
      hide Concat, Pieces, Separate, Encoded, Packed;
      match event {
        case Push(node) =>
          Appended(popped, queue, [node]);
          Send(node);
        case Flush(ready) => FlushSend(ready);
        case Completed(error, transferred, ready) =>
          if writing.Some? && transferred <= writing.value.length {
            LentFits();
            OnSendCompleted(error, transferred, ready);
          }
      }
    }

    /** A run of the connection. Whatever happens, the socket gets the serialized messages in the order sent, each
        byte once, and nothing else. `trace` gives the numbers before each event and at the end. */
    method Run(events: seq<Event>) returns (ghost trace: seq<Snapshot>)
      requires Valid() && isOpen && !isSending && queue == [] && popped == [] && written == []
      modifies this, output, output.buffers, Arrays(output.buffers)
      ensures Valid() && popped + queue == Sent(events)
      ensures written + Lent() <= Encoded(Sent(events))
      ensures !isSending && queue == [] ==> written == Encoded(Sent(events))
      ensures |trace| == |events| + 1 && trace[0] == Snapshot(true, 0, 0, 0) && trace[|events|] == Now()
      ensures forall i :: 0 <= i < |events| ==> Follows(trace[i], events[i], trace[i + 1])
    {
      hide Concat, Pieces, Separate, Encoded, Packed, LentOk, Follows;
      var i := 0;
      trace := [Now()];
      while i < |events|
        invariant i <= |events| && Valid() && popped + queue == Sent(events[..i])
        invariant forall b :: b in output.buffers ==> b in old(output.buffers) || (fresh(b) && fresh(b.data))
        invariant |trace| == i + 1 && trace[0] == Snapshot(true, 0, 0, 0) && trace[i] == Now()
        invariant forall j :: 0 <= j < i ==> Follows(trace[j], events[j], trace[j + 1])
      {
        assert events[..i + 1][..i] == events[..i];
        Handle(events[i]);
        trace := trace + [Now()];
        i := i + 1;
      }
      assert events[..i] == events;
      assert queue == [] ==> popped + queue == popped;
      WireIsPrefix();
    }
  }
}
