/** What the receive side makes of a stream, however the network cuts it into reads. */
module Chunking {
  import opened Common
  import opened Wire
  import opened Framing

  predicate AllAccepted(a: Protocol, packets: seq<seq<Byte>>) {
    forall p :: p in packets ==> a(p)
  }

  lemma {:induction false} AcceptedAll(a: Protocol, packets: seq<seq<Byte>>)
    requires AllAccepted(a, packets)
    ensures Accepted(a, packets) == packets
  {
    if packets != [] {
      AcceptedAll(a, packets[1..]);
      assert packets == [packets[0]] + packets[1..];
    }
  }

  /** What one read adds when every packet completed so far is accepted. */
  lemma ReceiveAccepted(a: Protocol, kept: seq<Byte>, d: seq<Byte>)
    requires !Complete(kept) && AllAccepted(a, Parse(kept + d).packets)
    ensures Receive(a, kept, d) == Session(true, Parse(kept + d).packets, Parse(kept + d).rest)
  {
    var s := kept + d;
    AcceptedAll(a, Parse(s).packets);
    if Complete(s) {
      var n := PacketLength(s);
      assert Parse(s).packets[0] == s[..n] && Parse(s).packets[1..] == Parse(s[n..]).packets;
      AcceptedAll(a, Parse(s[n..]).packets);
    }
  }

  /** Streams of accepted packets: the reads that follow give what parsing the whole stream gives. */
  lemma {:induction false} FeedAccepted(a: Protocol, start: Session, chunks: seq<seq<Byte>>)
    requires start.ok && !Complete(start.pending)
    requires AllAccepted(a, Parse(start.pending + Concat(chunks)).packets)
    ensures var whole := Parse(start.pending + Concat(chunks));
      Feed(a, start, chunks) == Session(true, start.delivered + whole.packets, whole.rest)
    decreases |chunks|
  {
    if chunks == [] {
      assert start.pending + Concat(chunks) == start.pending;
    } else {
      var s, more := start.pending + chunks[0], Concat(chunks[1..]);
      Appended(start.pending, chunks[0], more);
      ParseMore(s, more);
      ParseIsPartition(s);
      assert AllAccepted(a, Parse(s).packets);
      ReceiveAccepted(a, start.pending, chunks[0]);
      Appended(start.delivered, Parse(s).packets, Parse(Parse(s).rest + more).packets);
      FeedAccepted(a, Session(true, start.delivered + Parse(s).packets, Parse(s).rest), chunks[1..]);
    }
  }

  /** For a stream whose packets are all accepted, the packets delivered and the bytes kept after any reads are
      those of the concatenation of what was read: how it was cut does not matter. */
  lemma ChunkingDoesNotMatter(a: Protocol, chunks: seq<seq<Byte>>)
    requires AllAccepted(a, Parse(Concat(chunks)).packets)
    ensures Run(a, chunks) == Session(true, Parse(Concat(chunks)).packets, Parse(Concat(chunks)).rest)
  {
    assert [] + Concat(chunks) == Concat(chunks);
    FeedAccepted(a, Session(true, [], []), chunks);
  }

  // ---------- streams with rejected packets ----------

  /** The first packet that is rejected, or the number of packets. */
  function FirstRejected(a: Protocol, packets: seq<seq<Byte>>): (i: nat)
    ensures i <= |packets| && AllAccepted(a, packets[..i])
    ensures i < |packets| ==> !a(packets[i])
  {
    if packets == [] || !a(packets[0]) then 0
    else
      var i := FirstRejected(a, packets[1..]);
      assert packets[..i + 1] == [packets[0]] + packets[1..][..i];
      i + 1
  }

  /** A rejected packet longer than the first read completes ends the connection. */
  lemma ReceiveRejected(a: Protocol, kept: seq<Byte>, d: seq<Byte>, i: nat)
    requires !Complete(kept)
    requires var ps := Parse(kept + d).packets;
      i < |ps| && AllAccepted(a, ps[..i]) && !a(ps[i]) && |ps[i]| > |d|
    ensures i == 0 && Receive(a, kept, d) == Session(false, [], Parse(kept + d).packets[0])
  {
    var s := kept + d;
    var n := PacketLength(s);
    assert n > |kept| by { if n <= |kept| { HeaderOfPrefix(kept, d); } }
    if i > 0 {
      InStream(s[n..], i - 1);
    }
  }

  /** A packet of a stream is no longer than the stream. */
  lemma {:induction false} InStream(s: seq<Byte>, i: nat)
    requires i < |Parse(s).packets|
    ensures |Parse(s).packets[i]| <= |s|
    decreases |s|
  {
    if i > 0 { InStream(s[PacketLength(s)..], i - 1); }
  }

  lemma SplitAccepted(a: Protocol, first: seq<seq<Byte>>, later: seq<seq<Byte>>, i: nat)
    requires |first| <= i < |first + later| && AllAccepted(a, (first + later)[..i])
    ensures (first + later)[..i] == first + later[..i - |first|]
    ensures AllAccepted(a, first) && AllAccepted(a, later[..i - |first|])
  {
    var ps := (first + later)[..i];
    assert ps == first + later[..i - |first|];
    assert first == ps[..|first|] && later[..i - |first|] == ps[|first|..];
  }

  lemma {:induction false} FeedRejected(a: Protocol, start: Session, chunks: seq<seq<Byte>>, n: nat, i: nat)
    requires start.ok && !Complete(start.pending) && forall c :: c in chunks ==> |c| <= n
    requires var ps := Parse(start.pending + Concat(chunks)).packets;
      i < |ps| && AllAccepted(a, ps[..i]) && !a(ps[i]) && |ps[i]| > n
    ensures var ps := Parse(start.pending + Concat(chunks)).packets;
      Feed(a, start, chunks) == Session(false, start.delivered + ps[..i], ps[i])
    decreases |chunks|
  {
    assert start.pending + [] == start.pending;
    if chunks != [] {
      var s, more := start.pending + chunks[0], Concat(chunks[1..]);
      Appended(start.pending, chunks[0], more);
      ParseMore(s, more);
      ParseIsPartition(s);
      var ps, first, later := Parse(s + more).packets, Parse(s).packets, Parse(Parse(s).rest + more).packets;
      assert ps == first + later;
      hide Parse, Complete, Concat, AllAccepted;
      if i < |first| {
        assert first[..i] == ps[..i];
        ReceiveRejected(a, start.pending, chunks[0], i);
      } else {
        SplitAccepted(a, first, later, i);
        ReceiveAccepted(a, start.pending, chunks[0]);
        Appended(start.delivered, first, later[..i - |first|]);
        FeedRejected(a, Session(true, start.delivered + first, Parse(s).rest), chunks[1..], n, i - |first|);
      }
    }
  }

  /** Cuts into reads of at most n bytes. */
  predicate IsCut(chunks: seq<seq<Byte>>, s: seq<Byte>, n: nat) {
    Concat(chunks) == s && forall c :: c in chunks ==> 0 < |c| <= n
  }

  ghost predicate CutsAgree(a: Protocol, s: seq<Byte>, n: nat) {
    forall c1, c2 :: IsCut(c1, s, n) && IsCut(c2, s, n) ==> Run(a, c1) == Run(a, c2)
  }

  function Bytes(s: seq<Byte>): seq<seq<Byte>> {
    if s == [] then [] else [[s[0]]] + Bytes(s[1..])
  }

  lemma {:induction false} BytesCut(s: seq<Byte>)
    ensures IsCut(Bytes(s), s, 1)
  {
    if s != [] {
      BytesCut(s[1..]);
      ConcatCons([s[0]], Bytes(s[1..]));
    }
  }

  /** Packets of at most n bytes in one read, everything else byte by byte. */
  function Whole(s: seq<Byte>, n: nat): seq<seq<Byte>>
    decreases |s|
  {
    if !Complete(s) then Bytes(s)
    else
      var p := s[..PacketLength(s)];
      (if |p| <= n then [p] else Bytes(p)) + Whole(s[|p|..], n)
  }

  lemma {:induction false} WholeCut(s: seq<Byte>, n: nat)
    requires n > 0
    ensures IsCut(Whole(s, n), s, n)
    decreases |s|
  {
    BytesCut(s);
    if Complete(s) {
      var p := s[..PacketLength(s)];
      var front := if |p| <= n then [p] else Bytes(p);
      FirstPacket(s);
      BytesCut(p);
      assert Concat([p]) == p;
      WholeCut(s[|p|..], n);
      ConcatAppend(front, Whole(s[|p|..], n));
      assert IsCut(front, p, n);
    }
  }

  lemma {:induction false} FeedAppend(a: Protocol, start: Session, b: seq<seq<Byte>>, c: seq<seq<Byte>>)
    ensures Feed(a, start, b + c) == Feed(a, Feed(a, start, b), c)
    decreases |b|
  {
    if b == [] {
      assert b + c == c;
    } else if start.ok {
      var r := Receive(a, start.pending, b[0]);
      assert (b + c)[1..] == b[1..] + c;
      FeedAppend(a, Session(r.ok, start.delivered + r.delivered, r.pending), b[1..], c);
    }
  }

  /** Read that way, only a packet of more than n bytes can end the connection. */
  lemma {:induction false} WholeSkips(a: Protocol, start: Session, s: seq<Byte>, n: nat)
    requires start.ok && start.pending == []
    ensures var r := Feed(a, start, Whole(s, n)); r.ok || |r.pending| > n
    decreases |s|
  {
    if !Complete(s) {
      BytesCut(s);
      assert [] + s == s;
      FeedAccepted(a, start, Bytes(s));
    } else {
      var p := s[..PacketLength(s)];
      FirstPacket(s);
      var front := if |p| <= n then [p] else Bytes(p);
      FeedPacket(a, start, p, n);
      FeedAppend(a, start, front, Whole(s[|p|..], n));
      var r := Feed(a, start, front);
      if r.ok { WholeSkips(a, r, s[|p|..], n); }
    }
  }

  lemma FeedPacket(a: Protocol, start: Session, p: seq<Byte>, n: nat)
    requires start.ok && start.pending == [] && IsPacket(p)
    ensures var r := Feed(a, start, if |p| <= n then [p] else Bytes(p));
      if r.ok then r.pending == [] else |r.pending| > n
  {
    assert p + [] == p && [] + p == p;
    ParseStep(p, []);
    assert Parse(p) == Parsed([p], []);
    BytesCut(p);
    if |p| > n {
      if a(p) {
        FeedAccepted(a, start, Bytes(p));
      } else {
        FeedRejected(a, start, Bytes(p), 1, 0);
      }
    }
  }

  lemma NoneRejected(a: Protocol, s: seq<Byte>, chunks: seq<seq<Byte>>)
    requires FirstRejected(a, Parse(s).packets) == |Parse(s).packets| && Concat(chunks) == s
    ensures Run(a, chunks) == Session(true, Parse(s).packets, Parse(s).rest)
  {
    assert Parse(s).packets[..|Parse(s).packets|] == Parse(s).packets;
    ChunkingDoesNotMatter(a, chunks);
  }

  /** Reads too short to hold the first rejected packet: it ends the connection, after the packets before it. */
  lemma RejectedTooLong(a: Protocol, s: seq<Byte>, chunks: seq<seq<Byte>>, n: nat)
    requires IsCut(chunks, s, n)
    requires var ps := Parse(s).packets; var i := FirstRejected(a, ps); i < |ps| && |ps[i]| > n
    ensures var ps := Parse(s).packets; var i := FirstRejected(a, ps);
      Run(a, chunks) == Session(false, ps[..i], ps[i])
  {
    assert [] + s == s;
    FeedRejected(a, Session(true, [], []), chunks, n, FirstRejected(a, Parse(s).packets));
  }

  /** Reads that can hold the first rejected packet: byte by byte it ends the connection; read whole it does not. */
  lemma RejectedFits(a: Protocol, s: seq<Byte>, n: nat)
    requires var ps := Parse(s).packets; var i := FirstRejected(a, ps); i < |ps| && |ps[i]| <= n
    ensures IsCut(Bytes(s), s, n) && IsCut(Whole(s, n), s, n) && Run(a, Bytes(s)) != Run(a, Whole(s, n))
  {
    var ps := Parse(s).packets;
    var i := FirstRejected(a, ps);
    ParseIsPartition(s);
    assert IsPacket(ps[i]);
    BytesCut(s);
    WholeCut(s, n);
    RejectedTooLong(a, s, Bytes(s), 1);
    WholeSkips(a, Session(true, [], []), s, n);
  }

  /** Exactly when the outcome does not depend on the cut into reads of at most n bytes (n is the size of the
      receive buffer): when nothing is rejected, or the first rejected packet is too long for one read. A
      rejected packet that fits is skipped when one read holds it whole and ends the connection when not. */
  lemma CutsAgreeExactly(a: Protocol, s: seq<Byte>, n: nat)
    requires n > 0
    ensures var ps := Parse(s).packets;
      var i := FirstRejected(a, ps);
      CutsAgree(a, s, n) <==> i == |ps| || |ps[i]| > n
  {
    var ps := Parse(s).packets;
    var i := FirstRejected(a, ps);
    if i == |ps| {
      forall c | IsCut(c, s, n) ensures Run(a, c) == Session(true, ps, Parse(s).rest) {
        NoneRejected(a, s, c);
      }
    } else if |ps[i]| > n {
      forall c | IsCut(c, s, n) ensures Run(a, c) == Session(false, ps[..i], ps[i]) {
        RejectedTooLong(a, s, c, n);
      }
    } else {
      RejectedFits(a, s, n);
    }
  }

  /** One such stream: a header alone, and a protocol that accepts nothing. In one read the packet is skipped;
      byte by byte it ends the connection. */
  lemma RejectedExample()
    ensures var p := EncodeHeader(Header(0, 0));
      var nothing: Protocol := _ => false;
      && IsCut([p], p, RECV_BUFFER_SIZE) && Run(nothing, [p]) == Session(true, [], [])
      && IsCut(Bytes(p), p, RECV_BUFFER_SIZE) && Run(nothing, Bytes(p)) == Session(false, [], p)
  {
    var p := EncodeHeader(Header(0, 0));
    var nothing: Protocol := _ => false;
    HeaderRoundTrip(Header(0, 0), []);
    assert p + [] == p && [] + p == p;
    ParseStep(p, []);
    BytesCut(p);
    ConcatCons(p, []);
    AcceptedOne(nothing, p);
    RejectedTooLong(nothing, p, Bytes(p), 1);
  }
}
