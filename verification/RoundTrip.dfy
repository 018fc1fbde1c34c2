/** From one end of a connection to the other: what WriteMessage writes, ReceiveImpl delivers. */
module RoundTrip {
  import opened Common
  import Output
  import opened Wire
  import opened Framing
  import opened Chunking
  import opened Sending

  /** The number and the body's length fit the header's words, with room for the header itself. */
  predicate Fits(m: Message) {
    m.id < WORD_END && |m.body| + HEADER_SIZE < WORD_END
  }

  /** What a protocol reads off a packet: PacketSegment's header().id, body() and body_length(). */
  function Decode(packet: seq<Byte>): Message
    requires IsPacket(packet)
  {
    Message(HeaderOf(packet).id, packet[HEADER_SIZE..][..HeaderOf(packet).size])
  }

  function Packets(ms: seq<Message>): (ps: seq<seq<Byte>>)
    ensures |ps| == |ms| && forall i :: 0 <= i < |ms| ==> ps[i] == Encode(ms[i])
  {
    seq(|ms|, i requires 0 <= i < |ms| => Encode(ms[i]))
  }

  lemma DecodeEncode(m: Message)
    requires Fits(m)
    ensures IsPacket(Encode(m)) && Decode(Encode(m)) == m
  {
    HeaderRoundTrip(Header(m.id, |m.body|), m.body);
    assert Encode(m)[HEADER_SIZE..] == m.body;
  }

  lemma EncodeDecode(packet: seq<Byte>)
    requires IsPacket(packet)
    ensures Encode(Decode(packet)) == packet
  {
    var h, body := packet[..HEADER_SIZE], packet[HEADER_SIZE..];
    assert packet == h + body;
    HeaderOfPrefix(h, body);
    HeaderBytes(h);
    assert body[..HeaderOf(packet).size] == body;
  }

  /** What a protocol reads off a packet is where the peer's header puts it. */
  lemma DecodeLayout(packet: seq<Byte>)
    requires IsPacket(packet)
    ensures Laid(packet, Decode(packet).id, Decode(packet).body)
    ensures Decode(packet).id == WordAt(packet, 0) && |Decode(packet).body| == WordAt(packet, 8) == |packet| - 16
  {
    EncodeDecode(packet);
    EncodedLayout(Decode(packet));
    HeaderLayout(packet);
  }

  lemma {:induction false} EncodingsConcat(ms: seq<Message>)
    ensures EncodeAll(ms) == Concat(Packets(ms))
  {
    if ms != [] {
      EncodingsConcat(ms[1..]);
      ConcatCons(Encode(ms[0]), Packets(ms[1..]));
      hide Encode;
      assert Packets(ms) == [Encode(ms[0])] + Packets(ms[1..]);
    }
  }

  /** Reading undoes writing: the packets of the written stream are the messages, one by one, with nothing over. */
  lemma ParseEncoded(ms: seq<Message>)
    requires forall m :: m in ms ==> Fits(m)
    ensures Parse(EncodeAll(ms)) == Parsed(Packets(ms), [])
  {
    forall p | p in Packets(ms) ensures IsPacket(p) {
      var i :| 0 <= i < |ms| && p == Encode(ms[i]);
      DecodeEncode(ms[i]);
    }
    EncodingsConcat(ms);
    ParseIsUnique(Packets(ms), []);
    assert Concat(Packets(ms)) + [] == Concat(Packets(ms));
  }

  /** The receiver's 64-bit lengths never overflow on such a stream. */
  lemma {:induction false} EncodedFits(ms: seq<Message>)
    requires forall m :: m in ms ==> Fits(m)
    ensures SizesFit(EncodeAll(ms))
  {
    if ms != [] {
      EncodedFits(ms[1..]);
      DecodeEncode(ms[0]);
      ParseStep(Encode(ms[0]), EncodeAll(ms[1..]));
    }
  }

  /** The messages delivered. */
  function Received(packets: seq<seq<Byte>>): (ms: seq<Message>)
    requires forall p :: p in packets ==> IsPacket(p)
    ensures |ms| == |packets| && forall i :: 0 <= i < |packets| ==> ms[i] == Decode(packets[i])
  {
    seq(|packets|, i requires 0 <= i < |packets| => Decode(packets[i]))
  }

  /** Whatever beginning of the written stream has arrived, cut into reads in whatever way, the receiver has
      delivered the first messages, unchanged and in order, and keeps less than one message more. */
  lemma PrefixDelivered(a: Protocol, ms: seq<Message>, arrived: seq<Byte>, chunks: seq<seq<Byte>>)
    requires (forall m :: m in ms ==> Fits(m)) && AllAccepted(a, Packets(ms))
    requires arrived <= EncodeAll(ms) && Concat(chunks) == arrived
    ensures var r := Run(a, chunks);
      && r.ok && r.delivered <= Packets(ms)
      && (forall p :: p in r.delivered ==> IsPacket(p)) && Received(r.delivered) == ms[..|r.delivered|]
      && EncodeAll(ms[..|r.delivered|]) + r.pending == arrived && !Complete(r.pending)
  {
    var all, later := EncodeAll(ms), EncodeAll(ms)[|arrived|..];
    assert all == arrived + later;
    ParseEncoded(ms);
    ParseMore(arrived, later);
    ParseIsPartition(arrived);
    var ps := Parse(arrived).packets;
    assert ps == Packets(ms)[..|ps|];
    assert AllAccepted(a, ps);
    ChunkingDoesNotMatter(a, chunks);
    forall i | 0 <= i < |ps| ensures Decode(ps[i]) == ms[i] {
      DecodeEncode(ms[i]);
    }
    assert Packets(ms[..|ps|]) == ps;
    EncodingsConcat(ms[..|ps|]);
  }

  /** The whole stream delivers exactly the messages and leaves nothing. */
  lemma AllDelivered(a: Protocol, ms: seq<Message>, chunks: seq<seq<Byte>>)
    requires (forall m :: m in ms ==> Fits(m)) && AllAccepted(a, Packets(ms))
    requires Concat(chunks) == EncodeAll(ms)
    ensures Run(a, chunks) == Session(true, Packets(ms), [])
    ensures (forall p :: p in Packets(ms) ==> IsPacket(p)) && Received(Packets(ms)) == ms
  {
    ParseEncoded(ms);
    ChunkingDoesNotMatter(a, chunks);
    PrefixDelivered(a, ms, EncodeAll(ms), chunks);
    assert ms[..|ms|] == ms;
  }

  /** What the two ends need of each other. */
  lemma Transferred(a: Protocol, ms: seq<Message>, written: seq<Byte>, chunks: seq<seq<Byte>>)
    requires (forall m :: m in ms ==> Fits(m)) && AllAccepted(a, Packets(ms))
    requires written <= EncodeAll(ms) && Concat(chunks) == written
    ensures SizesFit(written) && Run(a, chunks).ok && Run(a, chunks).delivered <= Packets(ms)
    ensures written == EncodeAll(ms) ==> Run(a, chunks).delivered == Packets(ms)
  {
    EncodedFits(ms);
    var later := EncodeAll(ms)[|written|..];
    assert EncodeAll(ms) == written + later;
    FitsMore(written, later);
    PrefixDelivered(a, ms, written, chunks);
    if written == EncodeAll(ms) { AllDelivered(a, ms, chunks); }
  }

  /** Both ends together: after any run of the sender, the receiver, fed what the socket has written, has
      delivered the first of the messages sent, and all of them once the sender is idle. */
  method Transfer(sender: Sender, receiver: Receiver, events: seq<Event>, chunks: seq<seq<Byte>>)
    returns (ok: bool)
    requires sender.Valid() && sender.isOpen && !sender.isSending && sender.queue == [] && sender.written == []
    requires sender.popped == []
    requires receiver.Valid() && receiver.isOpen && receiver.Kept() == [] && receiver.delivered == []
    requires forall node :: node in Sent(events) ==> Fits(node.message)
    requires AllAccepted(receiver.protocol, Packets(Messages(Sent(events))))
    requires forall c :: c in chunks ==> 0 < |c| <= receiver.buffer.Length
    requires {receiver.buffer} !! Output.Arrays(sender.output.buffers)
    modifies sender, sender.output, sender.output.buffers, Output.Arrays(sender.output.buffers)
    modifies receiver, receiver.pending, receiver.buffer
    ensures ok == (sender.written == Concat(chunks))
    ensures ok ==> receiver.isOpen && receiver.delivered <= Packets(Messages(Sent(events)))
    ensures ok && !sender.isSending && sender.queue == [] ==> receiver.delivered == Packets(Messages(Sent(events)))
  {
    var ms := Messages(Sent(events));
    forall m | m in ms ensures Fits(m) {
      var i :| 0 <= i < |ms| && ms[i] == m;
      assert Sent(events)[i] in Sent(events);
    }
    hide Fits, AllAccepted, Packets, SizesFit, Run;
    ghost var trace := sender.Run(events);
    assert sender.written <= EncodeAll(ms);
    ok := sender.written == Concat(chunks);
    if ok {
      Transferred(receiver.protocol, ms, sender.written, chunks);
      hide EncodeAll, Concat;
      receiver.Serve(chunks);
    }
  }
}
